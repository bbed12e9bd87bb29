/** The value-level specification of the cribbage scorer's pair count: the points a group
    of equal values earns, the fold the scorer performs over its list of duplicates, and
    the fact that it comes to two points for every pair of cards of equal value. */
module PairCounts {
  import opened Cards
  import opened CardGame
  import opened HandCounts

  /** The points for a value matched `m` more times: a pair, three or four of a kind. */
  function MatchPoints(m: int): (p: nat)
    ensures m == 1 ==> p == 2
    ensures m == 2 ==> p == 6
    ensures m != 1 && m != 2 ==> p == 12
  {
    if m == 1 then 2 else if m == 2 then 6 else 12
  }

  /** The points for a value with `extra` copies beyond the first. */
  function GroupPoints(extra: nat): (p: nat)
    ensures extra == 0 <==> p == 0
    ensures extra > 0 ==> p == MatchPoints(extra)
  {
    if extra == 0 then 0 else MatchPoints(extra)
  }

  /** `s` without the entries equal to v, order kept. */
  function DropValue(s: seq<int>, v: int): (r: seq<int>)
    ensures |r| + multiset(s)[v] == |s|
    ensures v !in r
  {
    if s == [] then []
    else
      var init, last := s[..|s| - 1], s[|s| - 1];
      assert s == init + [last];
      DropValue(init, v) + (if last == v then [] else [last])
  }

  lemma {:induction false} DropValueKeeps(s: seq<int>, v: int, x: int)
    requires x != v
    ensures multiset(DropValue(s, v))[x] == multiset(s)[x]
  {
    if s != [] {
      var init, last := s[..|s| - 1], s[|s| - 1];
      assert s == init + [last];
      DropValueKeeps(init, v, x);
    }
  }

  lemma DropValueAbsent(s: seq<int>, v: int)
    requires v !in s
    ensures DropValue(s, v) == s
  {
    if s != [] {
      var init, last := s[..|s| - 1], s[|s| - 1];
      assert s == init + [last];
      assert v !in init;
      DropValueAbsent(init, v);
    }
  }

  lemma {:induction false} DropValueConcat(a: seq<int>, b: seq<int>, v: int)
    ensures DropValue(a + b, v) == DropValue(a, v) + DropValue(b, v)
    decreases |b|
  {
    if b == [] {
      assert a + b == a;
    } else {
      var init, last := b[..|b| - 1], b[|b| - 1];
      assert a + b == (a + init) + [last];
      assert b == init + [last];
      DropValueConcat(a, init, v);
    }
  }

  /** The scorer's fold over its duplicate values: take the first, count how many later
      entries share its value, splice them out, score the group and go on. */
  function PairsOf(d: seq<int>): nat
    decreases |d|
  {
    if d == [] then 0
    else MatchPoints(1 + multiset(d[1..])[d[0]]) + PairsOf(DropValue(d[1..], d[0]))
  }

  /** A block of k > 0 copies of one value scores that group. */
  lemma PairsOfRepeat(x: int, k: nat)
    ensures PairsOf(Repeat(x, k)) == GroupPoints(k)
  {
    if k > 0 {
      var r, t := Repeat(x, k), Repeat(x, k - 1);
      assert r[0] == x && r[1..] == t;
      RepeatMultiset(x, k - 1);
      assert multiset(t)[x] == k - 1;
      var rest := DropValue(t, x);
      assert rest == [] by {
        assert |rest| == 0;
      }
      assert PairsOf(r) == MatchPoints(1 + (k - 1)) + PairsOf(rest);
    }
  }

  /** Groups of values that do not meet are scored independently. */
  lemma {:induction false} PairsOfDisjoint(a: seq<int>, b: seq<int>)
    requires forall x :: x in a ==> x !in b
    ensures PairsOf(a + b) == PairsOf(a) + PairsOf(b)
    decreases |a|
  {
    if a != [] {
      var x := a[0];
      var rest := DropValue(a[1..], x);
      assert (a + b)[0] == x && (a + b)[1..] == a[1..] + b;
      assert multiset(a[1..] + b)[x] == multiset(a[1..])[x] by {
        assert x !in b;
        assert multiset(a[1..] + b) == multiset(a[1..]) + multiset(b);
      }
      assert DropValue(a[1..] + b, x) == rest + b by {
        DropValueConcat(a[1..], b, x);
        DropValueAbsent(b, x);
      }
      assert forall y :: y in rest ==> y !in b by {
        forall y | y in rest ensures y !in b {
          DropValueKeeps(a[1..], x, y);
          assert y in a[1..];
          assert y in a;
        }
      }
      PairsOfDisjoint(rest, b);
      assert PairsOf(a + b) == MatchPoints(1 + multiset(a[1..])[x]) + PairsOf(rest + b);
    } else {
      assert a + b == b;
    }
  }

  /** The pair points of the values lo..13 of `s`: each value scores its group. */
  function PairScoreFrom(s: seq<Card>, lo: int): nat
    requires 1 <= lo <= 14
    decreases 14 - lo
  {
    if lo == 14 then 0 else GroupPoints(Extra(s, lo)) + PairScoreFrom(s, lo + 1)
  }

  /** The points a hand scores for pairs, three and four of a kind. */
  function PairScore(s: seq<Card>): nat
  {
    PairScoreFrom(s, 1)
  }

  /** The fold over the duplicate values, highest first, is the group-by-group score. */
  lemma {:induction false} PairsOfDupValues(s: seq<Card>, lo: int)
    requires 1 <= lo <= 14
    ensures PairsOf(DupValues(s, lo)) == PairScoreFrom(s, lo)
    decreases 14 - lo
  {
    if lo < 14 {
      DupValuesStep(s, lo);
      PairsOfDupValues(s, lo + 1);
    } else {
      assert DupValues(s, lo) == [];
    }
  }

  lemma DupValuesStep(s: seq<Card>, lo: int)
    requires 1 <= lo < 14
    ensures PairsOf(DupValues(s, lo)) == PairsOf(DupValues(s, lo + 1)) + GroupPoints(Extra(s, lo))
  {
    var a, b := DupValues(s, lo + 1), Repeat(lo, Extra(s, lo));
    assert DupValues(s, lo) == a + b;
    forall x | x in a ensures x !in b {
      assert x >= lo + 1;
    }
    PairsOfDisjoint(a, b);
    PairsOfRepeat(lo, Extra(s, lo));
  }

  // ---------------------------------------------------------------------------------
  // Two points per pair

  /** k choose 2. */
  function Choose2(k: nat): nat
  {
    if k == 0 then 0 else Choose2(k - 1) + (k - 1)
  }

  /** The number of pairs of positions i < j of `s` whose cards have equal value. */
  function EqualValuePairs(s: seq<Card>): nat
  {
    if s == [] then 0
    else
      var init := s[..|s| - 1];
      EqualValuePairs(init) + CountValue(init, s[|s| - 1].value)
  }

  /** The pairs value by value, for the values lo..13. */
  function ChooseSum(s: seq<Card>, lo: int): nat
    requires 1 <= lo <= 14
    decreases 14 - lo
  {
    if lo == 14 then 0 else Choose2(CountValue(s, lo)) + ChooseSum(s, lo + 1)
  }

  lemma {:induction false} ChooseSumAppend(s: seq<Card>, c: Card, lo: int)
    requires 1 <= lo <= 14
    ensures ChooseSum(s + [c], lo)
         == ChooseSum(s, lo) + (if lo <= c.value then CountValue(s, c.value) else 0)
    decreases 14 - lo
  {
    if lo < 14 {
      ChooseSumAppend(s, c, lo + 1);
      CountValueAppend(s, c, lo);
    }
  }

  /** Counting pairs value by value counts every pair of equal-valued cards once. */
  lemma {:induction false} ChooseSumIsPairs(s: seq<Card>)
    ensures ChooseSum(s, 1) == EqualValuePairs(s)
  {
    if s == [] {
      ChooseSumEmpty(1);
    } else {
      var init, c := s[..|s| - 1], s[|s| - 1];
      assert s == init + [c];
      ChooseSumIsPairs(init);
      ChooseSumAppend(init, c, 1);
    }
  }

  lemma {:induction false} ChooseSumEmpty(lo: int)
    requires 1 <= lo <= 14
    ensures ChooseSum([], lo) == 0
    decreases 14 - lo
  {
    if lo < 14 {
      ChooseSumEmpty(lo + 1);
    }
  }

  /** No card occurs twice: true of any hand dealt from one standard deck. */
  predicate NoRepeatedCard(s: seq<Card>)
  {
    forall c :: c in multiset(s) ==> multiset(s)[c] <= 1
  }

  lemma AtMostFourOfAValue(s: seq<Card>, v: Value)
    requires NoRepeatedCard(s)
    ensures CountValue(s, v) <= 4
  {
    var m := multiset(s);
    assert m[Card(Hearts, v)] <= 1 && m[Card(Spades, v)] <= 1;
    assert m[Card(Diamonds, v)] <= 1 && m[Card(Clubs, v)] <= 1;
  }

  /** 0, 2, 6 and 12 points are 2 * (n choose 2) for n = 1 .. 4 cards of a value. */
  lemma GroupPointsChoose(n: nat)
    requires n <= 4
    ensures GroupPoints(if n > 0 then n - 1 else 0) == 2 * Choose2(n)
  {
    assert Choose2(1) == 0;
    assert Choose2(2) == 1;
    assert Choose2(3) == 3;
    assert Choose2(4) == 6;
  }

  lemma {:induction false} PairScoreFromIsTwiceChoose(s: seq<Card>, lo: int)
    requires 1 <= lo <= 14
    requires NoRepeatedCard(s)
    ensures PairScoreFrom(s, lo) == 2 * ChooseSum(s, lo)
    decreases 14 - lo
  {
    if lo < 14 {
      PairScoreFromIsTwiceChoose(s, lo + 1);
      GroupIsTwiceChoose(s, lo);
    }
  }

  /** The points for the cards of one value are twice the pairs among them. */
  lemma GroupIsTwiceChoose(s: seq<Card>, v: Value)
    requires NoRepeatedCard(s)
    ensures GroupPoints(Extra(s, v)) == 2 * Choose2(CountValue(s, v))
  {
    AtMostFourOfAValue(s, v);
    GroupPointsChoose(CountValue(s, v));
  }

  /** For a hand without repeated cards (one deck), the pair score is two points for each
      pair of cards of equal value: 2 for a pair, 6 for three of a kind, 12 for four. */
  lemma PairScoreIsTwoPerPair(s: seq<Card>)
    requires NoRepeatedCard(s)
    ensures PairScore(s) == 2 * EqualValuePairs(s)
  {
    PairScoreFromIsTwiceChoose(s, 1);
    ChooseSumIsPairs(s);
  }
}
