/** A hand of cards: base_classes/collections/hand.ts. The members a hand inherits from
    the item collection and that its callers use are repeated here, each specified by the
    same functions as in ItemCollections. */
module Hands {
  import opened Cards
  import opened ItemCollections
  import opened Sorting

  /** The sort key of sortCards. */
  function ByValue(c: Card): int
  {
    c.value
  }

  /** Parts joined with single spaces, as Array.prototype.join(' ') does. */
  function JoinWithSpaces(parts: seq<string>): string
  {
    if |parts| == 0 then ""
    else if |parts| == 1 then parts[0]
    else parts[0] + " " + JoinWithSpaces(parts[1..])
  }

  /** Joining two-character parts puts part i at offset 3i and a space after every part
      but the last. */
  lemma {:induction false} JoinLayout(parts: seq<string>)
    requires forall i :: 0 <= i < |parts| ==> |parts[i]| == 2
    ensures |JoinWithSpaces(parts)| == if parts == [] then 0 else 3 * |parts| - 1
    ensures forall i :: 0 <= i < |parts| ==> JoinWithSpaces(parts)[3 * i..3 * i + 2] == parts[i]
    ensures forall i :: 0 <= i < |parts| - 1 ==> JoinWithSpaces(parts)[3 * i + 2] == ' '
  {
    if |parts| > 1 {
      var rest := JoinWithSpaces(parts[1..]);
      JoinLayout(parts[1..]);
      var s := JoinWithSpaces(parts);
      assert s == parts[0] + " " + rest;
      forall i | 1 <= i < |parts| ensures s[3 * i..3 * i + 2] == parts[i] {
        assert s[3 * i..3 * i + 2] == rest[3 * (i - 1)..3 * (i - 1) + 2];
      }
      forall i | 1 <= i < |parts| - 1 ensures s[3 * i + 2] == ' ' {
        assert s[3 * i + 2] == rest[3 * (i - 1) + 2];
      }
    }
  }

  class Hand {
    var items: seq<Card>

    constructor(cards: seq<Card>)
      ensures items == cards
    {
      items := cards;
    }

    /** size */
    function Size(): nat
      reads this
    {
      |items|
    }

    /** playCard: remove the first equal card and report whether there was one; an
        absent card leaves the hand as it was. */
    method PlayCard(c: Card) returns (inHand: bool)
      modifies this
      ensures inHand <==> c in old(items)
      ensures items == Without(old(items), c)
      ensures inHand ==> multiset(items) == multiset(old(items)) - multiset{c}
      ensures !inHand ==> items == old(items)
    {
      var index := LinearSearch(items, c);
      inHand := index != -1;
      WithoutMultiset(items, c);
      if inHand {
        WithoutIsSplice(items, c);
        items := items[..index] + items[index + 1..];
      }
    }

    /** takeCard: append only a card not already held, and report whether it was added;
        so a hand never gains a second copy of a card. */
    method TakeCard(c: Card) returns (taken: bool)
      modifies this
      ensures taken <==> c !in old(items)
      ensures items == if taken then old(items) + [c] else old(items)
      ensures Size() == old(Size()) + (if taken then 1 else 0)
      ensures c in items
    {
      var index := LinearSearch(items, c);
      taken := index == -1;
      if taken {
        items := items + [c];
      }
    }

    /** sortCards: reorder the cards so that values never decrease. */
    method SortCards()
      modifies this
      ensures items == SortBy(old(items), ByValue)
      ensures SortedBy(items, ByValue)
      ensures multiset(items) == multiset(old(items))
    {
      SortByFacts(items, ByValue);
      items := SortBy(items, ByValue);
    }

    /** toShortString: the cards' short strings joined by single spaces. */
    method ToShortString() returns (s: string)
      ensures |s| == if items == [] then 0 else 3 * |items| - 1
      ensures forall i :: 0 <= i < |items| ==> s[3 * i..3 * i + 2] == ShortString(items[i])
      ensures forall i :: 0 <= i < |items| - 1 ==> s[3 * i + 2] == ' '
    {
      var strs: seq<string> := [];
      var ix := 0;
      while ix < |items|
        invariant 0 <= ix <= |items|
        invariant |strs| == ix
        invariant forall i :: 0 <= i < ix ==> strs[i] == ShortString(items[i])
      {
        strs := strs + [ShortString(items[ix])];
        ix := ix + 1;
      }
      JoinLayout(strs);
      s := JoinWithSpaces(strs);
    }

    /** addItem (inherited) */
    method AddItem(c: Card)
      modifies this
      ensures items == old(items) + [c]
      ensures Size() == old(Size()) + 1
    {
      items := items + [c];
    }

    /** addItems (inherited) */
    method AddItems(cs: seq<Card>)
      modifies this
      ensures items == old(items) + cs
      ensures Size() == old(Size()) + |cs|
    {
      items := items + cs;
    }

    /** removeItem (inherited): the same removal as playCard. */
    method RemoveItem(c: Card) returns (hasItem: bool)
      modifies this
      ensures hasItem <==> c in old(items)
      ensures items == Without(old(items), c)
      ensures hasItem ==> multiset(items) == multiset(old(items)) - multiset{c}
      ensures !hasItem ==> items == old(items)
    {
      hasItem := PlayCard(c);
    }

    /** removeAll (inherited) */
    method RemoveAll()
      modifies this
      ensures items == []
      ensures Size() == 0
    {
      items := [];
    }
  }
}
