/** The value-equality collection of base_classes/collections/item_collection.ts.
    Items are compared with `==`: for cards this is equality of suit and value, and the
    players and teams of the game are keyed by seat so that `==` is their equality too. */
module ItemCollections {
  import opened Wrappers

  /** The first position holding `x`, or -1: what indexOfItem computes. */
  function FirstIndex<T(==)>(s: seq<T>, x: T): (i: int)
    ensures -1 <= i < |s|
    ensures i == -1 <==> x !in s
    ensures 0 <= i ==> s[i] == x && x !in s[..i]
  {
    if s == [] then -1
    else if s[0] == x then 0
    else
      var j := FirstIndex(s[1..], x);
      if j == -1 then -1 else j + 1
  }

  /** The sequence with its first occurrence of `x` taken out, or unchanged when `x` is absent. */
  function Without<T(==)>(s: seq<T>, x: T): (r: seq<T>)
  {
    if s == [] then []
    else if s[0] == x then s[1..]
    else [s[0]] + Without(s[1..], x)
  }

  /** Splicing out the position FirstIndex finds is the same as Without. */
  lemma {:induction false} WithoutIsSplice<T>(s: seq<T>, x: T)
    requires x in s
    ensures Without(s, x) == s[..FirstIndex(s, x)] + s[FirstIndex(s, x) + 1..]
  {
    if s[0] == x {
      assert s[..0] + s[1..] == s[1..];
    } else {
      WithoutIsSplice(s[1..], x);
      SpliceTail(s, FirstIndex(s[1..], x));
    }
  }

  /** Splicing position k out of the tail of s is splicing position k + 1 out of s. */
  lemma SpliceTail<T>(s: seq<T>, k: nat)
    requires k + 1 < |s|
    ensures [s[0]] + (s[1..][..k] + s[1..][k + 1..]) == s[..k + 1] + s[k + 2..]
  {
    assert [s[0]] + s[1..][..k] == s[..k + 1];
  }

  /** Without takes out exactly one copy of `x` when there is one, and nothing otherwise. */
  lemma {:induction false} WithoutMultiset<T>(s: seq<T>, x: T)
    ensures x in s ==> multiset(Without(s, x)) == multiset(s) - multiset{x}
    ensures x !in s ==> Without(s, x) == s
    ensures |Without(s, x)| == if x in s then |s| - 1 else |s|
  {
    if s != [] {
      WithoutMultiset(s[1..], x);
      assert s == [s[0]] + s[1..];
    }
  }

  /** Taking out an element that was just appended to a sequence not holding it gives the
      sequence back. */
  lemma {:induction false} WithoutAppended<T>(s: seq<T>, x: T)
    requires x !in s
    ensures Without(s + [x], x) == s
  {
    if s != [] {
      assert (s + [x])[1..] == s[1..] + [x];
      WithoutAppended(s[1..], x);
      assert s == [s[0]] + s[1..];
    }
  }

  /** The first occurrence of an element is at or before any position holding it. */
  lemma {:induction false} FirstIndexAtMost<T>(s: seq<T>, i: nat)
    requires i < |s|
    ensures 0 <= FirstIndex(s, s[i]) <= i
  {
    if s[0] != s[i] {
      FirstIndexAtMost(s[1..], i - 1);
    }
  }

  /** Where Array.prototype.splice starts for a collection of length n: negative
      indices count back from the end and every index is clamped into 0..n. */
  function SpliceStart(n: nat, index: int): (k: nat)
    ensures k <= n
    ensures 0 <= index <= n ==> k == index
    ensures index > n ==> k == n
    ensures index < 0 ==> k == if n + index < 0 then 0 else n + index
  {
    if index < 0 then (if n + index < 0 then 0 else n + index)
    else if index > n then n
    else index
  }

  /** Every item of `s` has an equal somewhere in `t` (one direction only). */
  predicate Covers<T(==)>(s: seq<T>, t: seq<T>)
  {
    forall i :: 0 <= i < |s| ==> s[i] in t
  }

  /** The loop of indexOfItem: scan from the front for the first equal item. */
  method LinearSearch<T(==)>(items: seq<T>, x: T) returns (index: int)
    ensures -1 <= index < |items|
    ensures index == -1 <==> x !in items
    ensures 0 <= index ==> items[index] == x && forall j :: 0 <= j < index ==> items[j] != x
  {
    index := -1;
    var ix := 0;
    while ix < |items|
      invariant 0 <= ix <= |items|
      invariant forall j :: 0 <= j < ix ==> items[j] != x
    {
      if x == items[ix] {
        index := ix;
        return;
      }
      ix := ix + 1;
    }
  }

  /** Why itemAt fails. */
  datatype CollectionError = IndexOutOfBounds

  class ItemCollection<T(==)> {
    var items: seq<T>

    constructor(items: seq<T>)
      ensures this.items == items
    {
      this.items := items;
    }

    /** countItems */
    function CountItems(): nat
      reads this
    {
      |items|
    }

    /** indexOfItem: the least index whose item equals `x`, or -1. */
    method IndexOfItem(x: T) returns (index: int)
      ensures -1 <= index < |items|
      ensures index == -1 <==> x !in items
      ensures 0 <= index ==> items[index] == x && forall j :: 0 <= j < index ==> items[j] != x
      ensures index == FirstIndex(items, x)
    {
      index := LinearSearch(items, x);
    }

    /** insertItem: splice `x` in at `index` (clamped as splice clamps it). */
    method InsertItem(x: T, index: int)
      modifies this
      ensures var k := SpliceStart(|old(items)|, index);
        items == old(items)[..k] + [x] + old(items)[k..]
      ensures multiset(items) == multiset(old(items)) + multiset{x}
    {
      var k := SpliceStart(|items|, index);
      assert items == items[..k] + items[k..];
      items := items[..k] + [x] + items[k..];
    }

    /** addItem: append, so the count grows by one. */
    method AddItem(x: T)
      modifies this
      ensures items == old(items) + [x]
      ensures CountItems() == old(CountItems()) + 1
    {
      items := items + [x];
    }

    /** addItems: concatenate in order. */
    method AddItems(xs: seq<T>)
      modifies this
      ensures items == old(items) + xs
      ensures CountItems() == old(CountItems()) + |xs|
    {
      items := items + xs;
    }

    /** removeItem: take out the first equal item and report whether there was one. */
    method RemoveItem(x: T) returns (hasItem: bool)
      modifies this
      ensures hasItem <==> x in old(items)
      ensures items == Without(old(items), x)
      ensures hasItem ==> multiset(items) == multiset(old(items)) - multiset{x}
      ensures !hasItem ==> items == old(items)
    {
      var index := IndexOfItem(x);
      hasItem := index != -1;
      WithoutMultiset(items, x);
      if hasItem {
        WithoutIsSplice(items, x);
        items := items[..index] + items[index + 1..];
      }
    }

    /** removeAll */
    method RemoveAll()
      modifies this
      ensures items == []
      ensures CountItems() == 0
    {
      items := [];
    }

    /** itemAt: a negative index or one past the length throws; the index equal to the
        length is let through and yields `undefined` (None here). */
    function ItemAt(index: int): (r: Result<Option<T>, CollectionError>)
      reads this
      ensures r.Failure? <==> index < 0 || index > |items|
      ensures r.Success? && r.value.Some? <==> 0 <= index < |items|
      ensures 0 <= index < |items| ==> r == Success(Some(items[index]))
    {
      if index < 0 || index > |items| then Failure(IndexOutOfBounds)
      else if index == |items| then Success(None)
      else Success(Some(items[index]))
    }

    /** equalsOther: true iff every item here has an equal item in `other`; the check
        runs in one direction only. */
    method EqualsOther(other: ItemCollection<T>) returns (equals: bool)
      ensures equals <==> Covers(items, other.items)
    {
      equals := true;
      var ix := 0;
      while ix < |items|
        invariant 0 <= ix <= |items|
        invariant Covers(items[..ix], other.items)
      {
        var matched := false;
        var jx := 0;
        while jx < |other.items|
          invariant 0 <= jx <= |other.items|
          invariant !matched ==> items[ix] !in other.items[..jx]
          invariant matched ==> items[ix] in other.items
        {
          if items[ix] == other.items[jx] {
            matched := true;
            break;
          }
          jx := jx + 1;
        }
        if !matched {
          assert other.items[..jx] == other.items;
          equals := false;
          return;
        }
        assert items[..ix + 1] == items[..ix] + [items[ix]];
        ix := ix + 1;
      }
      assert items[..ix] == items;
    }
  }

  /** equalsOther is not symmetric: a collection covers any larger one that contains it. */
  lemma CoversIsOneWay()
    ensures Covers([1], [1, 2]) && !Covers([1, 2], [1])
  {
    var s: seq<int> := [1, 2];
    assert s[1] == 2 && 2 !in [1];
  }
}
