/** Worked hands: the totals countPoints (implementations/cribbage_hand.ts) gives for
    particular four-card hands and cuts, each derived from the rule-level breakdown of
    DealtHandScore. */
module CribbageHandExamples {
  import opened Cards
  import opened CardGame
  import opened HandCounts
  import opened PairCounts
  import opened RunCounts
  import opened CribbageHands

  /** 1 when two cards have the same value, otherwise 0. */
  function Match(a: Card, b: Card): nat
  {
    if a.value == b.value then 1 else 0
  }

  /** Counting one more card of the prefix adds one exactly when it has the value. */
  lemma CountPrefixStep(s: seq<Card>, k: nat, v: Value)
    requires k < |s|
    ensures CountValue(s[..k + 1], v) == CountValue(s[..k], v) + (if s[k].value == v then 1 else 0)
  {
    assert s[..k + 1] == s[..k] + [s[k]];
    CountValueAppend(s[..k], s[k], v);
  }

  /** The pairs of a prefix are those of the shorter prefix and those its last card makes. */
  lemma PairsPrefixStep(s: seq<Card>, k: nat)
    requires 0 < k <= |s|
    ensures EqualValuePairs(s[..k]) == EqualValuePairs(s[..k - 1]) + CountValue(s[..k - 1], s[k - 1].value)
  {
    assert s[..k][..k - 1] == s[..k - 1];
  }

  /** The count of a value among the first cards, card by card. */
  lemma CountsOfPrefixes(s: seq<Card>, v: Value)
    requires |s| == 5
    ensures CountValue(s[..1], v) == Match(s[0], Card(Hearts, v))
    ensures CountValue(s[..2], v) == Match(s[0], Card(Hearts, v)) + Match(s[1], Card(Hearts, v))
    ensures CountValue(s[..3], v)
         == Match(s[0], Card(Hearts, v)) + Match(s[1], Card(Hearts, v)) + Match(s[2], Card(Hearts, v))
    ensures CountValue(s[..4], v)
         == Match(s[0], Card(Hearts, v)) + Match(s[1], Card(Hearts, v)) + Match(s[2], Card(Hearts, v))
            + Match(s[3], Card(Hearts, v))
  {
    assert s[..0] == [];
    CountPrefixStep(s, 0, v);
    CountPrefixStep(s, 1, v);
    CountPrefixStep(s, 2, v);
    CountPrefixStep(s, 3, v);
  }

  /** Among five cards, the pairs of equal values are the ten pairs of positions that match. */
  lemma PairsAmongFive(s: seq<Card>)
    requires |s| == 5
    ensures EqualValuePairs(s)
         == Match(s[0], s[1]) + Match(s[0], s[2]) + Match(s[1], s[2])
            + Match(s[0], s[3]) + Match(s[1], s[3]) + Match(s[2], s[3])
            + Match(s[0], s[4]) + Match(s[1], s[4]) + Match(s[2], s[4]) + Match(s[3], s[4])
  {
    assert s[..5] == s;
    assert s[..0] == [];
    CountsOfPrefixes(s, s[1].value);
    CountsOfPrefixes(s, s[2].value);
    CountsOfPrefixes(s, s[3].value);
    CountsOfPrefixes(s, s[4].value);
    PairsPrefixStep(s, 5);
    PairsPrefixStep(s, 4);
    PairsPrefixStep(s, 3);
    PairsPrefixStep(s, 2);
    PairsPrefixStep(s, 1);
  }

  /** The distinct values present are the strictly increasing list of the hand's values. */
  lemma PresentIs(s: seq<Card>, t: seq<int>)
    requires forall i, j :: 0 <= i < j < |t| ==> t[i] < t[j]
    requires forall x :: x in t <==> x in Values(s)
    ensures Present(s, 1) == t
  {
    var p := Present(s, 1);
    forall x
      ensures x in p <==> x in t
    {
      InValues(s, x);
      if x in p {
        var i :| 0 <= i < |p| && p[i] == x;
      }
    }
    AscendingUnique(p, t);
  }

  /** The search for fifteens from the first card finds every choice that sums to fifteen. */
  lemma FifteensOfCards(cards: seq<Card>)
    ensures FifteensFrom(Worths(cards), 0, 0) == SubsetCount(Worths(cards), 15)
  {
    var w := Worths(cards);
    assert forall i :: 0 <= i < |w| ==> w[i] > 0;
    FifteensCountSubsets(w, 0, 0);
    assert w[0..] == w;
  }

  /** The score of a dealt hand in the terms each example settles one by one: the ten pairs
      of positions, the search for fifteens, the best run among the values present and how
      many ways it is formed, the right jack and the flush. */
  lemma ScoreOfDeal(s: seq<Card>, cut: Card, must: bool)
    requires |s| == 5 && s[4] == cut && cut !in s[..4] && NoRepeatedCard(s)
    ensures var r := BestRun(Present(s, 1));
      HandScore(s, cut, must)
      == 2 * (Match(s[0], s[1]) + Match(s[0], s[2]) + Match(s[1], s[2])
              + Match(s[0], s[3]) + Match(s[1], s[3]) + Match(s[2], s[3])
              + Match(s[0], s[4]) + Match(s[1], s[4]) + Match(s[2], s[4]) + Match(s[3], s[4]))
         + 2 * FifteensFrom(Worths(s), 0, 0)
         + (if |r| >= 3 then |r| * RunWays(r, multiset(Values(s))) else 0)
         + (if HasRightJack(s, cut) then 1 else 0) + FlushPoints(s, cut, must)
    ensures FlushPoints(s, cut, must) == 5 <==> OneSuit(s)
    ensures FlushPoints(s, cut, must) == 4 <==> !must && OneSuit(s[..4]) && !OneSuit(s)
    ensures FlushPoints(s, cut, must) in {0, 4, 5}
  {
    var hand := s[..4];
    assert s == hand + [cut];
    DealtHandScore(hand, cut, must);
    FlushScores(hand, cut, must);
    var r := BestRun(Present(s, 1));
    var pairs := EqualValuePairs(s);
    var fifteens := SubsetCount(Worths(s), 15);
    var runs := if |r| >= 3 then |r| * RunWays(r, multiset(Values(s))) else 0;
    var rest := (if HasRightJack(s, cut) then 1 else 0) + FlushPoints(s, cut, must);
    assert HandScore(s, cut, must) == 2 * pairs + 2 * fifteens + runs + rest;
    PairsAmongFive(s);
    FifteensOfCards(s);
  }

  /** The ways to form a run of three: the product of the counts of its values. */
  lemma RunWaysThree(r: seq<int>, m: multiset<int>, a: nat, b: nat, c: nat)
    requires |r| == 3 && m[r[0]] == a && m[r[1]] == b && m[r[2]] == c
    ensures RunWays(r, m) == a * b * c
  {
    assert r[1..][1..][1..] == [];
    assert RunWays(r[2..], m) == c by {
      assert r[2..][1..] == [];
      assert RunWays(r[2..][1..], m) == 1;
    }
    assert RunWays(r[1..], m) == b * c by {
      assert r[1..][1..] == r[2..];
    }
  }

  /** The score of a dealt hand that has no flush, from its counts: pairs of positions with
      equal values, choices summing to fifteen, the length of the best run and how many ways
      it is formed, and the right jack. */
  lemma ScoreFromCounts(s: seq<Card>, cut: Card, must: bool, pairs: nat, fifteens: nat, runLen: nat,
                        ways: nat, jack: bool, total: nat)
    requires |s| == 5 && s[4] == cut && cut !in s[..4] && NoRepeatedCard(s)
    requires Match(s[0], s[1]) + Match(s[0], s[2]) + Match(s[1], s[2])
             + Match(s[0], s[3]) + Match(s[1], s[3]) + Match(s[2], s[3])
             + Match(s[0], s[4]) + Match(s[1], s[4]) + Match(s[2], s[4]) + Match(s[3], s[4]) == pairs
    requires FifteensFrom(Worths(s), 0, 0) == fifteens
    requires |BestRun(Present(s, 1))| == runLen
    requires runLen >= 3 ==> RunWays(BestRun(Present(s, 1)), multiset(Values(s))) == ways
    requires jack == HasRightJack(s, cut)
    requires !OneSuit(s) && !OneSuit(s[..4])
    requires total == 2 * pairs + 2 * fifteens + (if runLen >= 3 then runLen * ways else 0) + (if jack then 1 else 0)
    ensures HandScore(s, cut, must) == total
  {
    ScoreOfDeal(s, cut, must);
  }

  lemma DDRunLit()
    ensures BestRun([8, 9, 10]) == [8, 9, 10]
  {
  }

  /** The values present in 8, 8, 9, 9, 10 are 8, 9 and 10. */
  lemma DDPresent(s: seq<Card>)
    requires |s| == 5 && s[0] == Card(Clubs, 8) && s[1] == Card(Hearts, 8) && s[2] == Card(Diamonds, 9)
             && s[3] == Card(Clubs, 9) && s[4] == Card(Spades, 10)
    ensures Present(s, 1) == [8, 9, 10]
  {
    assert Values(s) == [8, 8, 9, 9, 10];
    PresentIs(s, [8, 9, 10]);
  }

  /** The run 8-9-10 of 8, 8, 9, 9, 10 is formed four ways. */
  lemma DDRun(s: seq<Card>)
    requires |s| == 5 && s[0] == Card(Clubs, 8) && s[1] == Card(Hearts, 8) && s[2] == Card(Diamonds, 9)
             && s[3] == Card(Clubs, 9) && s[4] == Card(Spades, 10)
    ensures RunWays([8, 9, 10], multiset(Values(s))) == 4
  {
    assert Values(s) == [8, 8, 9, 9, 10];
    RunWaysThree([8, 9, 10], multiset(Values(s)), 2, 2, 1);
  }

  lemma DDFifteens(s: seq<Card>)
    requires |s| == 5 && s[0] == Card(Clubs, 8) && s[1] == Card(Hearts, 8) && s[2] == Card(Diamonds, 9)
             && s[3] == Card(Clubs, 9) && s[4] == Card(Spades, 10)
    ensures FifteensFrom(Worths(s), 0, 0) == 0
  {
    assert Worths(s) == [8, 8, 9, 9, 10];
    assert FifteensFrom([8, 8, 9, 9, 10], 0, 0) == 0;
  }

  lemma DDCards(s: seq<Card>, cut: Card)
    requires |s| == 5 && s[0] == Card(Clubs, 8) && s[1] == Card(Hearts, 8) && s[2] == Card(Diamonds, 9)
             && s[3] == Card(Clubs, 9) && s[4] == Card(Spades, 10)
    requires cut == Card(Spades, 10)
    ensures NoRepeatedCard(s) && cut !in s[..4]
    ensures !HasRightJack(s, cut)
    ensures !OneSuit(s) && !OneSuit(s[..4])
    ensures Match(s[0], s[1]) + Match(s[0], s[2]) + Match(s[1], s[2])
            + Match(s[0], s[3]) + Match(s[1], s[3]) + Match(s[2], s[3])
            + Match(s[0], s[4]) + Match(s[1], s[4]) + Match(s[2], s[4]) + Match(s[3], s[4]) == 2
  {
    assert s == [Card(Clubs, 8), Card(Hearts, 8), Card(Diamonds, 9), Card(Clubs, 9), Card(Spades, 10)];
    assert s[..4] == [Card(Clubs, 8), Card(Hearts, 8), Card(Diamonds, 9), Card(Clubs, 9)];
    assert s[..4][1].suit != s[..4][0].suit;
  }

  lemma DD(hand: seq<Card>, cut: Card)
    requires |hand| == 4 && hand[0] == Card(Clubs, 8) && hand[1] == Card(Hearts, 8)
             && hand[2] == Card(Diamonds, 9) && hand[3] == Card(Clubs, 9)
    requires cut == Card(Spades, 10)
    ensures HandScore(WithCut(hand, cut), cut, false) == 16
  {
    var s := hand + [cut];
    assert cut !in hand by {
      assert hand == [Card(Clubs, 8), Card(Hearts, 8), Card(Diamonds, 9), Card(Clubs, 9)];
    }
    DDCards(s, cut);
    DDFifteens(s);
    DDPresent(s);
    DDRun(s);
    DDRunLit();
    ScoreFromCounts(s, cut, false, 2, 0, 3, 4, false, 16);
  }

  /** The cards of three eights, nine, ten: all different, no right jack, no flush, three
      pairs, no fifteen. */
  lemma ThreeEightsCards(s: seq<Card>, cut: Card)
    requires s == [Card(Clubs, 8), Card(Hearts, 8), Card(Spades, 8), Card(Clubs, 9), Card(Spades, 10)]
    requires cut == Card(Spades, 10)
    ensures NoRepeatedCard(s) && cut !in s[..4]
    ensures !HasRightJack(s, cut)
    ensures !OneSuit(s) && !OneSuit(s[..4])
    ensures Match(s[0], s[1]) + Match(s[0], s[2]) + Match(s[1], s[2])
            + Match(s[0], s[3]) + Match(s[1], s[3]) + Match(s[2], s[3])
            + Match(s[0], s[4]) + Match(s[1], s[4]) + Match(s[2], s[4]) + Match(s[3], s[4]) == 3
    ensures FifteensFrom(Worths(s), 0, 0) == 0
  {
    assert s[..4] == [Card(Clubs, 8), Card(Hearts, 8), Card(Spades, 8), Card(Clubs, 9)];
    assert s[..4][1].suit != s[..4][0].suit;
    assert Worths(s) == [8, 8, 8, 9, 10];
    assert FifteensFrom([8, 8, 8, 9, 10], 0, 0) == 0;
  }

  /** The values present in three eights, nine, ten are 8, 9 and 10. */
  lemma ThreeEightsPresent(s: seq<Card>)
    requires |s| == 5 && s[0] == Card(Clubs, 8) && s[1] == Card(Hearts, 8) && s[2] == Card(Spades, 8)
             && s[3] == Card(Clubs, 9) && s[4] == Card(Spades, 10)
    ensures Present(s, 1) == [8, 9, 10]
  {
    assert Values(s) == [8, 8, 8, 9, 10];
    PresentIs(s, [8, 9, 10]);
  }

  /** The run 8-9-10 of three eights, nine, ten is formed three ways. */
  lemma ThreeEightsRun(s: seq<Card>)
    requires |s| == 5 && s[0] == Card(Clubs, 8) && s[1] == Card(Hearts, 8) && s[2] == Card(Spades, 8)
             && s[3] == Card(Clubs, 9) && s[4] == Card(Spades, 10)
    ensures RunWays([8, 9, 10], multiset(Values(s))) == 3
  {
    assert Values(s) == [8, 8, 8, 9, 10];
    RunWaysThree([8, 9, 10], multiset(Values(s)), 3, 1, 1);
  }

  /** Eight of clubs, hearts and spades, nine of clubs, cut ten of spades: three pairs among
      the eights and the run 8-9-10 formed three ways make 6 + 9 = 15. */
  lemma TripleRun(hand: seq<Card>, cut: Card)
    requires |hand| == 4 && hand[0] == Card(Clubs, 8) && hand[1] == Card(Hearts, 8)
             && hand[2] == Card(Spades, 8) && hand[3] == Card(Clubs, 9)
    requires cut == Card(Spades, 10)
    ensures HandScore(WithCut(hand, cut), cut, false) == 15
  {
    var s := hand + [cut];
    assert hand == [Card(Clubs, 8), Card(Hearts, 8), Card(Spades, 8), Card(Clubs, 9)];
    assert s == [Card(Clubs, 8), Card(Hearts, 8), Card(Spades, 8), Card(Clubs, 9), Card(Spades, 10)];
    ThreeEightsCards(s, cut);
    ThreeEightsPresent(s);
    ThreeEightsRun(s);
    DDRunLit();
    ScoreFromCounts(s, cut, false, 3, 0, 3, 3, false, 15);
  }

  /** The searches for fifteens among the last two worths, 10 and 4, from the running
      totals the search reaches there. */
  lemma TwoThreesFifteensLate(w: seq<int>)
    requires w == [2, 3, 3, 10, 4]
    ensures FifteensFrom(w, 3, 0) == 0 && FifteensFrom(w, 3, 2) == 0 && FifteensFrom(w, 3, 3) == 0
    ensures FifteensFrom(w, 3, 5) == 1 && FifteensFrom(w, 3, 6) == 0 && FifteensFrom(w, 3, 8) == 0
  {
    assert FifteensFrom(w, 5, 14) == 0 && FifteensFrom(w, 5, 12) == 0;
    assert FifteensFrom(w, 5, 4) == 0 && FifteensFrom(w, 5, 6) == 0 && FifteensFrom(w, 5, 7) == 0;
    assert FifteensFrom(w, 5, 9) == 0 && FifteensFrom(w, 5, 10) == 0;
    assert FifteensFrom(w, 4, 10) == 0 && FifteensFrom(w, 4, 12) == 0 && FifteensFrom(w, 4, 13) == 0;
    assert FifteensFrom(w, 4, 0) == 0 && FifteensFrom(w, 4, 2) == 0 && FifteensFrom(w, 4, 3) == 0;
    assert FifteensFrom(w, 4, 5) == 0 && FifteensFrom(w, 4, 6) == 0 && FifteensFrom(w, 4, 8) == 0;
  }

  /** The fifteens of 2, 3, 3, jack, 4: 2-3-jack with either three. */
  lemma TwoThreesFifteens(s: seq<Card>)
    requires s == [Card(Clubs, 2), Card(Spades, 3), Card(Hearts, 3), Card(Hearts, 11), Card(Spades, 4)]
    ensures FifteensFrom(Worths(s), 0, 0) == 2
  {
    var w := Worths(s);
    assert w == [2, 3, 3, 10, 4];
    TwoThreesFifteensLate(w);
    assert FifteensFrom(w, 2, 5) == 1 && FifteensFrom(w, 2, 2) == 1;
    assert FifteensFrom(w, 2, 3) == 0 && FifteensFrom(w, 2, 0) == 0;
    assert FifteensFrom(w, 1, 2) == 2 && FifteensFrom(w, 1, 0) == 0;
  }

  /** The best run among the values 2, 3, 4 and jack is 2-3-4. */
  lemma TwoToFourRunLit()
    ensures BestRun([2, 3, 4, 11]) == [2, 3, 4]
  {
  }

  /** The values present in 2, 3, 3, jack, 4 are 2, 3, 4 and jack. */
  lemma TwoThreesPresent(s: seq<Card>)
    requires |s| == 5 && s[0] == Card(Clubs, 2) && s[1] == Card(Spades, 3) && s[2] == Card(Hearts, 3)
             && s[3] == Card(Hearts, 11) && s[4] == Card(Spades, 4)
    ensures Present(s, 1) == [2, 3, 4, 11]
  {
    assert Values(s) == [2, 3, 3, 11, 4];
    PresentIs(s, [2, 3, 4, 11]);
  }

  /** The run 2-3-4 of 2, 3, 3, jack, 4 is formed two ways. */
  lemma TwoThreesRun(s: seq<Card>)
    requires |s| == 5 && s[0] == Card(Clubs, 2) && s[1] == Card(Spades, 3) && s[2] == Card(Hearts, 3)
             && s[3] == Card(Hearts, 11) && s[4] == Card(Spades, 4)
    ensures RunWays([2, 3, 4], multiset(Values(s))) == 2
  {
    assert Values(s) == [2, 3, 3, 11, 4];
    RunWaysThree([2, 3, 4], multiset(Values(s)), 1, 2, 1);
  }

  /** The cards of 2, 3, 3, jack, 4: all different, no right jack, no flush, one pair. */
  lemma TwoThreesCards(s: seq<Card>, cut: Card)
    requires s == [Card(Clubs, 2), Card(Spades, 3), Card(Hearts, 3), Card(Hearts, 11), Card(Spades, 4)]
    requires cut == Card(Spades, 4)
    ensures NoRepeatedCard(s) && cut !in s[..4]
    ensures !HasRightJack(s, cut)
    ensures !OneSuit(s) && !OneSuit(s[..4])
    ensures Match(s[0], s[1]) + Match(s[0], s[2]) + Match(s[1], s[2])
            + Match(s[0], s[3]) + Match(s[1], s[3]) + Match(s[2], s[3])
            + Match(s[0], s[4]) + Match(s[1], s[4]) + Match(s[2], s[4]) + Match(s[3], s[4]) == 1
  {
    assert s[..4] == [Card(Clubs, 2), Card(Spades, 3), Card(Hearts, 3), Card(Hearts, 11)];
    assert s[..4][1].suit != s[..4][0].suit;
  }

  /** Two of clubs, three of spades and hearts, jack of hearts, cut four of spades: two
      fifteens (2-3-jack with either three), the pair of threes and the run 2-3-4 formed
      two ways make 4 + 2 + 6 = 12. */
  lemma DoubleRunWithFifteens(hand: seq<Card>, cut: Card)
    requires |hand| == 4 && hand[0] == Card(Clubs, 2) && hand[1] == Card(Spades, 3)
             && hand[2] == Card(Hearts, 3) && hand[3] == Card(Hearts, 11)
    requires cut == Card(Spades, 4)
    ensures HandScore(WithCut(hand, cut), cut, false) == 12
  {
    var s := hand + [cut];
    assert hand == [Card(Clubs, 2), Card(Spades, 3), Card(Hearts, 3), Card(Hearts, 11)];
    assert s == [Card(Clubs, 2), Card(Spades, 3), Card(Hearts, 3), Card(Hearts, 11), Card(Spades, 4)];
    TwoThreesCards(s, cut);
    TwoThreesFifteens(s);
    TwoThreesPresent(s);
    TwoThreesRun(s);
    TwoToFourRunLit();
    ScoreFromCounts(s, cut, false, 1, 2, 3, 2, false, 12);
  }

  /** The searches for fifteens from the third worth of 1, 4, 8, 8, 10, from the running
      totals the search reaches there. */
  lemma AceFourEightsFifteensLate(w: seq<int>)
    requires w == [1, 4, 8, 8, 10]
    ensures FifteensFrom(w, 2, 0) == 0 && FifteensFrom(w, 2, 1) == 0
    ensures FifteensFrom(w, 2, 4) == 0 && FifteensFrom(w, 2, 5) == 1
  {
    assert FifteensFrom(w, 5, 10) == 0 && FifteensFrom(w, 5, 11) == 0 && FifteensFrom(w, 5, 14) == 0;
    assert FifteensFrom(w, 4, 0) == 0 && FifteensFrom(w, 4, 1) == 0 && FifteensFrom(w, 4, 4) == 0;
    assert FifteensFrom(w, 4, 5) == 1 && FifteensFrom(w, 4, 8) == 0 && FifteensFrom(w, 4, 9) == 0;
    assert FifteensFrom(w, 4, 12) == 0 && FifteensFrom(w, 4, 13) == 0;
    assert FifteensFrom(w, 3, 8) == 0 && FifteensFrom(w, 3, 9) == 0;
    assert FifteensFrom(w, 3, 12) == 0 && FifteensFrom(w, 3, 13) == 0;
    assert FifteensFrom(w, 3, 0) == 0 && FifteensFrom(w, 3, 1) == 0;
    assert FifteensFrom(w, 3, 4) == 0 && FifteensFrom(w, 3, 5) == 1;
  }

  /** The one fifteen of ace, four, eight, eight, queen: ace-four-queen. */
  lemma AceFourEightsFifteens(s: seq<Card>)
    requires s == [Card(Clubs, 1), Card(Hearts, 4), Card(Clubs, 8), Card(Hearts, 8), Card(Spades, 12)]
    ensures FifteensFrom(Worths(s), 0, 0) == 1
  {
    var w := Worths(s);
    assert w == [1, 4, 8, 8, 10];
    AceFourEightsFifteensLate(w);
    assert FifteensFrom(w, 1, 1) == 1 && FifteensFrom(w, 1, 0) == 0;
  }

  /** Among the values 1, 4, 8 and queen there is no run. */
  lemma AceFourEightsRunLit()
    ensures BestRun([1, 4, 8, 12]) == []
  {
  }

  /** The values present in ace, four, eight, eight, queen are 1, 4, 8 and 12. */
  lemma AceFourEightsPresent(s: seq<Card>)
    requires |s| == 5 && s[0] == Card(Clubs, 1) && s[1] == Card(Hearts, 4) && s[2] == Card(Clubs, 8)
             && s[3] == Card(Hearts, 8) && s[4] == Card(Spades, 12)
    ensures Present(s, 1) == [1, 4, 8, 12]
  {
    assert Values(s) == [1, 4, 8, 8, 12];
    PresentIs(s, [1, 4, 8, 12]);
  }

  /** The cards of ace, four, eight, eight, queen: all different, no right jack, no flush,
      one pair. */
  lemma AceFourEightsCards(s: seq<Card>, cut: Card)
    requires s == [Card(Clubs, 1), Card(Hearts, 4), Card(Clubs, 8), Card(Hearts, 8), Card(Spades, 12)]
    requires cut == Card(Spades, 12)
    ensures NoRepeatedCard(s) && cut !in s[..4]
    ensures !HasRightJack(s, cut)
    ensures !OneSuit(s) && !OneSuit(s[..4])
    ensures Match(s[0], s[1]) + Match(s[0], s[2]) + Match(s[1], s[2])
            + Match(s[0], s[3]) + Match(s[1], s[3]) + Match(s[2], s[3])
            + Match(s[0], s[4]) + Match(s[1], s[4]) + Match(s[2], s[4]) + Match(s[3], s[4]) == 1
  {
    assert s[..4] == [Card(Clubs, 1), Card(Hearts, 4), Card(Clubs, 8), Card(Hearts, 8)];
    assert s[..4][1].suit != s[..4][0].suit;
  }

  /** Ace of clubs, four of hearts, eight of clubs and hearts, cut queen of spades: the
      fifteen ace-four-queen and the pair of eights make 2 + 2 = 4. */
  lemma FifteenAndPair(hand: seq<Card>, cut: Card)
    requires |hand| == 4 && hand[0] == Card(Clubs, 1) && hand[1] == Card(Hearts, 4)
             && hand[2] == Card(Clubs, 8) && hand[3] == Card(Hearts, 8)
    requires cut == Card(Spades, 12)
    ensures HandScore(WithCut(hand, cut), cut, false) == 4
  {
    var s := hand + [cut];
    assert hand == [Card(Clubs, 1), Card(Hearts, 4), Card(Clubs, 8), Card(Hearts, 8)];
    assert s == [Card(Clubs, 1), Card(Hearts, 4), Card(Clubs, 8), Card(Hearts, 8), Card(Spades, 12)];
    AceFourEightsCards(s, cut);
    AceFourEightsFifteens(s);
    AceFourEightsPresent(s);
    AceFourEightsRunLit();
    ScoreFromCounts(s, cut, false, 1, 1, 0, 0, false, 4);
  }
}
