/** Counting the cards of a hand by value: the counts the cribbage scorer works from, the
    ascending list of values present, and the descending list of the extra copies. */
module HandCounts {
  import opened Cards
  import opened CardGame

  /** How many cards of `s` have value v (any suit). */
  function CountValue(s: seq<Card>, v: Value): nat
  {
    multiset(s)[Card(Hearts, v)] + multiset(s)[Card(Spades, v)]
    + multiset(s)[Card(Diamonds, v)] + multiset(s)[Card(Clubs, v)]
  }

  lemma CountValueConcat(a: seq<Card>, b: seq<Card>, v: Value)
    ensures CountValue(a + b, v) == CountValue(a, v) + CountValue(b, v)
  {
    assert multiset(a + b) == multiset(a) + multiset(b);
  }

  lemma CountValueSingle(c: Card, v: Value)
    ensures CountValue([c], v) == if c.value == v then 1 else 0
  {
    assert multiset([c]) == multiset{c};
    match c.suit
    case Hearts => assert c == Card(Hearts, c.value);
    case Spades => assert c == Card(Spades, c.value);
    case Diamonds => assert c == Card(Diamonds, c.value);
    case Clubs => assert c == Card(Clubs, c.value);
  }

  lemma CountValueAppend(s: seq<Card>, c: Card, v: Value)
    ensures CountValue(s + [c], v) == CountValue(s, v) + (if c.value == v then 1 else 0)
  {
    CountValueConcat(s, [c], v);
    CountValueSingle(c, v);
  }

  /** The multiset of values counts exactly what CountValue counts. */
  lemma {:induction false} CountValueOfValues(s: seq<Card>, v: Value)
    ensures multiset(Values(s))[v] == CountValue(s, v)
  {
    if s != [] {
      var init, c := s[..|s| - 1], s[|s| - 1];
      CountValueOfValues(init, v);
      CountValueAppend(init, c, v);
      assert s == init + [c];
      assert Values(s) == Values(init) + [c.value as int];
    }
  }

  /** A card with value v makes the count positive. */
  lemma CountValuePositive(s: seq<Card>, i: nat)
    requires i < |s|
    ensures CountValue(s, s[i].value) > 0
  {
    CountValueConcat(s[..i], s[i..], s[i].value);
    CountValueConcat([s[i]], s[i + 1..], s[i].value);
    CountValueSingle(s[i], s[i].value);
    assert s == s[..i] + ([s[i]] + s[i + 1..]);
  }

  /** Each value occurs at most once when the values strictly increase. */
  lemma {:induction false} AscendingCountsAtMostOne(s: seq<Card>, v: Value)
    requires forall i, j :: 0 <= i < j < |s| ==> s[i].value < s[j].value
    ensures CountValue(s, v) <= 1
    ensures CountValue(s, v) == 1 <==> v in Values(s)
  {
    if s != [] {
      var init, c := s[..|s| - 1], s[|s| - 1];
      AscendingCountsAtMostOne(init, v);
      CountValueAppend(init, c, v);
      assert s == init + [c];
      assert Values(s) == Values(init) + [c.value as int];
      assert (c.value as int) !in Values(init) by {
        forall k | 0 <= k < |init| ensures Values(init)[k] != c.value {
          assert s[k].value < s[|s| - 1].value;
        }
      }
    }
  }

  /** Total of the counts of values lo..13. */
  function SumCounts(s: seq<Card>, lo: int): nat
    requires 1 <= lo <= 14
    decreases 14 - lo
  {
    if lo == 14 then 0 else CountValue(s, lo) + SumCounts(s, lo + 1)
  }

  lemma {:induction false} SumCountsAppend(s: seq<Card>, c: Card, lo: int)
    requires 1 <= lo <= 14
    ensures SumCounts(s + [c], lo) == SumCounts(s, lo) + (if lo <= c.value then 1 else 0)
    decreases 14 - lo
  {
    if lo < 14 {
      SumCountsAppend(s, c, lo + 1);
      CountValueAppend(s, c, lo);
    }
  }

  /** Every card has a value in 1..13, so the counts add up to the size of the hand. */
  lemma {:induction false} SumCountsIsSize(s: seq<Card>)
    ensures SumCounts(s, 1) == |s|
  {
    if s == [] {
      SumCountsEmpty(1);
    } else {
      var init, c := s[..|s| - 1], s[|s| - 1];
      assert s == init + [c];
      SumCountsIsSize(init);
      SumCountsAppend(init, c, 1);
    }
  }

  lemma {:induction false} SumCountsEmpty(lo: int)
    requires 1 <= lo <= 14
    ensures SumCounts([], lo) == 0
    decreases 14 - lo
  {
    if lo < 14 {
      SumCountsEmpty(lo + 1);
    }
  }

  /** The values lo..13 that occur in `s`, in ascending order. */
  function Present(s: seq<Card>, lo: int): (r: seq<int>)
    requires 1 <= lo <= 14
    ensures forall i, j :: 0 <= i < j < |r| ==> r[i] < r[j]
    ensures forall i :: 0 <= i < |r| ==> lo <= r[i] <= 13 && CountValue(s, r[i]) > 0
    ensures forall v: Value :: lo <= v && CountValue(s, v) > 0 ==> v in r
    decreases 14 - lo
  {
    if lo == 14 then []
    else (if CountValue(s, lo) > 0 then [lo] else []) + Present(s, lo + 1)
  }

  /** The copies of value v beyond the first. */
  function Extra(s: seq<Card>, v: Value): nat
  {
    if CountValue(s, v) > 0 then CountValue(s, v) - 1 else 0
  }

  /** k copies of x. */
  function Repeat(x: int, k: nat): (r: seq<int>)
    ensures |r| == k && forall i :: 0 <= i < k ==> r[i] == x
  {
    if k == 0 then [] else [x] + Repeat(x, k - 1)
  }

  lemma RepeatMultiset(x: int, k: nat)
    ensures multiset(Repeat(x, k)) == multiset{}[x := k]
  {
    if k > 0 {
      RepeatMultiset(x, k - 1);
      assert Repeat(x, k) == [x] + Repeat(x, k - 1);
    }
  }

  /** The extra copies of the values lo..13, highest value first. */
  function DupValues(s: seq<Card>, lo: int): (r: seq<int>)
    requires 1 <= lo <= 14
    ensures forall i, j :: 0 <= i < j < |r| ==> r[i] >= r[j]
    ensures forall i :: 0 <= i < |r| ==> lo <= r[i] <= 13
    decreases 14 - lo
  {
    if lo == 14 then [] else DupValues(s, lo + 1) + Repeat(lo, Extra(s, lo))
  }

  lemma {:induction false} DupValuesMultiset(s: seq<Card>, lo: int, x: int)
    requires 1 <= lo <= 14
    ensures multiset(DupValues(s, lo))[x] == if lo <= x <= 13 then Extra(s, x) else 0
    decreases 14 - lo
  {
    if lo < 14 {
      DupValuesMultiset(s, lo + 1, x);
      RepeatMultiset(lo, Extra(s, lo));
      assert multiset(DupValues(s, lo)) == multiset(DupValues(s, lo + 1)) + multiset(Repeat(lo, Extra(s, lo)));
    }
  }

  /** One card per value present plus the extra copies account for every card. */
  lemma {:induction false} PresentPlusDuplicates(s: seq<Card>, lo: int)
    requires 1 <= lo <= 14
    ensures |Present(s, lo)| + |DupValues(s, lo)| == SumCounts(s, lo)
    decreases 14 - lo
  {
    if lo < 14 {
      PresentPlusDuplicates(s, lo + 1);
    }
  }

  /** Two strictly ascending sequences with the same elements are equal. */
  lemma {:induction false} AscendingUnique(a: seq<int>, b: seq<int>)
    requires forall i, j :: 0 <= i < j < |a| ==> a[i] < a[j]
    requires forall i, j :: 0 <= i < j < |b| ==> b[i] < b[j]
    requires forall x :: x in a <==> x in b
    ensures a == b
  {
    assert a == [] <==> b == [] by {
      assert a != [] ==> a[0] in a && a[0] in b;
      assert b != [] ==> b[0] in b && b[0] in a;
    }
    if a != [] {
      assert a[0] in a && b[0] in b;
      assert a[0] in b && b[0] in a;
      assert a[0] == b[0];
      forall x ensures x in a[1..] <==> x in b[1..] {
        assert x in a[1..] <==> x in a && x != a[0];
        assert x in b[1..] <==> x in b && x != b[0];
      }
      AscendingUnique(a[1..], b[1..]);
      assert a == [a[0]] + a[1..] && b == [b[0]] + b[1..];
    }
  }

  /** Two non-increasing sequences with the same multiset of elements are equal. */
  lemma {:induction false} DescendingUnique(a: seq<int>, b: seq<int>)
    requires forall i, j :: 0 <= i < j < |a| ==> a[i] >= a[j]
    requires forall i, j :: 0 <= i < j < |b| ==> b[i] >= b[j]
    requires multiset(a) == multiset(b)
    ensures a == b
  {
    if a != [] {
      assert |b| == |multiset(b)| == |a|;
      assert a[0] in multiset(b) && b[0] in multiset(a);
      assert a[0] == b[0];
      assert a == [a[0]] + a[1..] && b == [b[0]] + b[1..];
      assert multiset(a) == multiset{a[0]} + multiset(a[1..]);
      assert multiset(b) == multiset{b[0]} + multiset(b[1..]);
      assert multiset(a[1..]) == multiset(a) - multiset{a[0]};
      assert multiset(b[1..]) == multiset(b) - multiset{b[0]};
      DescendingUnique(a[1..], b[1..]);
    }
  }

  /** A value occurs among the cards exactly when its count is positive. */
  lemma InValues(s: seq<Card>, x: int)
    ensures x in Values(s) <==> 1 <= x <= 13 && CountValue(s, x) > 0
  {
    if 1 <= x <= 13 {
      CountValueOfValues(s, x);
    }
  }

  /** Counts add up over a split of the multiset of cards. */
  lemma CountValueSplit(a: seq<Card>, b: seq<Card>, c: seq<Card>, v: Value)
    requires multiset(a) + multiset(b) == multiset(c)
    ensures CountValue(c, v) == CountValue(a, v) + CountValue(b, v)
  {
  }
}
