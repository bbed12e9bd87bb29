/** The cribbage hand scorer of implementations/cribbage_hand.ts. A cribbage hand is a hand
    with scoring, so each scoring member here works on a `Hand` object; the copies the
    source makes (makeCopy) are fresh `Hand` objects. */
module CribbageHands {
  import opened Wrappers
  import opened Cards
  import opened ItemCollections
  import opened Sorting
  import opened Hands
  import opened CardGame
  import opened HandCounts
  import opened PairCounts
  import opened RunCounts

  // ---------------------------------------------------------------------------------
  // Fifteens

  /** getCardValue: the worth of a card toward fifteen; face cards are worth ten. */
  function CardValue(c: Card): (v: int)
    ensures 1 <= v <= 10 && v <= c.value
    ensures c.value <= 10 ==> v == c.value
    ensures c.value > 10 ==> v == 10
  {
    if c.value > 10 then 10 else c.value
  }

  /** The worths of some cards, in order. */
  function Worths(cards: seq<Card>): (w: seq<int>)
    ensures |w| == |cards|
    ensures forall i :: 0 <= i < |cards| ==> w[i] == CardValue(cards[i])
  {
    seq(|cards|, i requires 0 <= i < |cards| => CardValue(cards[i]))
  }

  /** The number of sub-multisets (chosen by position) of `w` that sum to `target`: each
      element is either left out or taken. */
  function SubsetCount(w: seq<int>, target: int): nat
  {
    if w == [] then (if target == 0 then 1 else 0)
    else SubsetCount(w[1..], target) + SubsetCount(w[1..], target - w[0])
  }

  lemma {:induction false} SubsetCountNegative(w: seq<int>, target: int)
    requires forall i :: 0 <= i < |w| ==> w[i] > 0
    requires target < 0
    ensures SubsetCount(w, target) == 0
  {
    if w != [] {
      SubsetCountNegative(w[1..], target);
      SubsetCountNegative(w[1..], target - w[0]);
    }
  }

  /** With positive worths only the empty choice sums to zero. */
  lemma {:induction false} SubsetCountZero(w: seq<int>)
    requires forall i :: 0 <= i < |w| ==> w[i] > 0
    ensures SubsetCount(w, 0) == 1
  {
    if w != [] {
      SubsetCountZero(w[1..]);
      SubsetCountNegative(w[1..], -w[0]);
    }
  }

  /** What the loop of countFifteens adds up from position j on, with `total` already
      chosen: a choice that reaches exactly fifteen counts once and stops there. */
  function FifteensFrom(w: seq<int>, j: nat, total: int): nat
    requires j <= |w|
    decreases |w| - j, 1
  {
    if j == |w| then 0 else FifteensAt(w, j, total) + FifteensFrom(w, j + 1, total)
  }

  /** The choices that take position j next. */
  function FifteensAt(w: seq<int>, j: nat, total: int): nat
    requires j < |w|
    decreases |w| - j, 0
  {
    var subtotal := total + w[j];
    if subtotal == 15 then 1
    else if subtotal < 15 then FifteensFrom(w, j + 1, subtotal)
    else 0
  }

  /** The search of countFifteens visits every choice of cards summing to fifteen exactly
      once. */
  lemma {:induction false} FifteensCountSubsets(w: seq<int>, j: nat, total: int)
    requires forall i :: 0 <= i < |w| ==> w[i] > 0
    requires j <= |w| && total < 15
    ensures FifteensFrom(w, j, total) == SubsetCount(w[j..], 15 - total)
    decreases |w| - j
  {
    if j < |w| {
      var rest := w[j + 1..];
      assert w[j..][1..] == rest && w[j..][0] == w[j];
      FifteensCountSubsets(w, j + 1, total);
      var subtotal := total + w[j];
      if subtotal == 15 {
        SubsetCountZero(rest);
      } else if subtotal < 15 {
        FifteensCountSubsets(w, j + 1, subtotal);
      } else {
        SubsetCountNegative(rest, 15 - subtotal);
      }
    }
  }

  /** countFifteens(j, total): each choice of the first five cards, from position j on,
      that brings `total` to fifteen scores two. */
  method CountFifteens(h: Hand, j: nat, total: int) returns (score: nat)
    requires |h.items| >= 5 && j <= 5 && 0 <= total < 15
    ensures score == 2 * SubsetCount(Worths(h.items[..5])[j..], 15 - total)
    ensures j == 0 && total == 0 ==> score == FifteenPoints(h.items)
    decreases 5 - j
  {
    ghost var w := Worths(h.items[..5]);
    score := 0;
    var k := j;
    while k < 5
      invariant j <= k <= 5
      invariant score + 2 * FifteensFrom(w, k, total) == 2 * FifteensFrom(w, j, total)
    {
      var subtotal := total + CardValue(h.items[k]);
      if subtotal == 15 {
        score := score + 2;
      } else if subtotal < 15 {
        var sub := CountFifteens(h, k + 1, subtotal);
        FifteensCountSubsets(w, k + 1, subtotal);
        score := score + sub;
      }
      k := k + 1;
    }
    FifteensCountSubsets(w, j, total);
    assert w[0..] == w;
  }

  /** Two points for each choice of cards among the first five that sums to fifteen. */
  function FifteenPoints(cards: seq<Card>): nat
    requires |cards| >= 5
  {
    2 * SubsetCount(Worths(cards[..5]), 15)
  }

  // ---------------------------------------------------------------------------------
  // Flush and the right jack

  /** How many cards of `s` are of suit t. */
  function SuitCount(s: seq<Card>, t: Suit): nat
  {
    if s == [] then 0
    else SuitCount(s[..|s| - 1], t) + (if s[|s| - 1].suit == t then 1 else 0)
  }

  function Max(a: int, b: int): int
  {
    if a < b then b else a
  }

  /** The largest number of cards of one suit (Math.max over the four counts). */
  function MaxSuitCount(s: seq<Card>): (n: nat)
    ensures forall t :: SuitCount(s, t) <= n
    ensures n == SuitCount(s, Hearts) || n == SuitCount(s, Spades)
            || n == SuitCount(s, Diamonds) || n == SuitCount(s, Clubs)
  {
    Max(Max(SuitCount(s, Hearts), SuitCount(s, Spades)), Max(SuitCount(s, Diamonds), SuitCount(s, Clubs)))
  }

  lemma {:induction false} SuitCountsAddUp(s: seq<Card>)
    ensures SuitCount(s, Hearts) + SuitCount(s, Spades) + SuitCount(s, Diamonds) + SuitCount(s, Clubs) == |s|
  {
    if s != [] {
      SuitCountsAddUp(s[..|s| - 1]);
    }
  }

  lemma {:induction false} SuitCountAll(s: seq<Card>, t: Suit)
    ensures SuitCount(s, t) == |s| <==> forall i :: 0 <= i < |s| ==> s[i].suit == t
    ensures SuitCount(s, t) <= |s|
  {
    if s != [] {
      var init := s[..|s| - 1];
      SuitCountAll(init, t);
      assert forall i :: 0 <= i < |init| ==> init[i] == s[i];
    }
  }

  /** The count of the largest suit is the size of the hand exactly when every card is of
      one suit. */
  lemma FlushIsOneSuit(s: seq<Card>)
    requires s != []
    ensures MaxSuitCount(s) == |s| <==> forall i :: 0 <= i < |s| ==> s[i].suit == s[0].suit
  {
    SuitCountsAddUp(s);
    SuitCountAll(s, s[0].suit);
    SuitCountAll(s, Hearts);
    SuitCountAll(s, Spades);
    SuitCountAll(s, Diamonds);
    SuitCountAll(s, Clubs);
    if MaxSuitCount(s) == |s| {
      var t :| t in {Hearts, Spades, Diamonds, Clubs} && SuitCount(s, t) == |s|;
      assert s[0].suit == t;
    }
  }

  /** countFlush: tally the suits in one pass and take the largest tally. */
  method CountFlush(h: Hand) returns (n: nat)
    ensures n == MaxSuitCount(h.items)
  {
    var hearts, spades, diamonds, clubs := 0, 0, 0, 0;
    var index := 0;
    while index < |h.items|
      invariant 0 <= index <= |h.items|
      invariant hearts == SuitCount(h.items[..index], Hearts)
      invariant spades == SuitCount(h.items[..index], Spades)
      invariant diamonds == SuitCount(h.items[..index], Diamonds)
      invariant clubs == SuitCount(h.items[..index], Clubs)
    {
      assert h.items[..index + 1][..index] == h.items[..index];
      match h.items[index].suit {
        case Clubs => clubs := clubs + 1;
        case Diamonds => diamonds := diamonds + 1;
        case Hearts => hearts := hearts + 1;
        case Spades => spades := spades + 1;
      }
      index := index + 1;
    }
    assert h.items[..index] == h.items;
    n := Max(Max(hearts, spades), Max(diamonds, clubs));
  }

  /** The flush score of the hand with the cut (cards5), the cut being the card that may
      be left out unless a five-card flush is demanded. */
  function FlushPoints(cards5: seq<Card>, cut: Card, mustHaveFiveCardFlush: bool): nat
  {
    var all := MaxSuitCount(cards5);
    var numInFlush :=
      if all == 5 then all
      else if mustHaveFiveCardFlush then 0
      else MaxSuitCount(Without(cards5, cut));
    if numInFlush >= (if mustHaveFiveCardFlush then 5 else 4) then numInFlush else 0
  }

  /** Every card has the suit of the first. */
  predicate OneSuit(s: seq<Card>)
  {
    forall i :: 0 <= i < |s| ==> s[i].suit == s[0].suit
  }

  lemma MaxSuitCountBounds(s: seq<Card>)
    requires s != []
    ensures MaxSuitCount(s) <= |s|
    ensures MaxSuitCount(s) == |s| <==> OneSuit(s)
  {
    FlushIsOneSuit(s);
    SuitCountAll(s, Hearts);
    SuitCountAll(s, Spades);
    SuitCountAll(s, Diamonds);
    SuitCountAll(s, Clubs);
  }

  /** A four-card hand scores four for one suit, five if the cut matches too; a crib
      (mustHaveFiveCardFlush) scores only the five. */
  lemma FlushScores(hand: seq<Card>, cut: Card, must: bool)
    requires |hand| == 4 && cut !in hand
    ensures FlushPoints(hand + [cut], cut, must) == 5 <==> OneSuit(hand + [cut])
    ensures FlushPoints(hand + [cut], cut, must) == 4 <==> !must && OneSuit(hand) && !OneSuit(hand + [cut])
    ensures FlushPoints(hand + [cut], cut, must) in {0, 4, 5}
  {
    var all := hand + [cut];
    assert Without(all, cut) == hand by {
      WithoutIsSplice(all, cut);
      assert FirstIndex(all, cut) == 4;
      assert all[..4] == hand;
    }
    MaxSuitCountBounds(all);
    MaxSuitCountBounds(hand);
  }

  /** The right jack ("nobs"): the jack of the cut's suit in the hand, when the cut is not
      itself a jack. */
  predicate HasRightJack(cards: seq<Card>, cut: Card)
  {
    cut.value != Jack && Card(cut.suit, Jack) in cards
  }

  // ---------------------------------------------------------------------------------
  // findDuplicates

  /** `w` is `s` with position `i` spliced out, as far as card values go. */
  predicate Shifted(s: seq<Card>, w: seq<Card>, i: nat)
  {
    && |w| == |s| - 1
    && (forall a :: 0 <= a < i && a < |w| ==> w[a].value == s[a].value)
    && (forall a :: i <= a < |w| ==> w[a].value == s[a + 1].value)
  }

  /** In a hand sorted by value, taking out (with playCard) a card that shares its value
      with a later card leaves the values as if that position had been spliced out, even
      when playCard finds an identical card earlier in the block of equal values. */
  lemma RemoveWithinBlock(s: seq<Card>, i: nat, j: nat)
    requires i < j < |s| && s[i].value == s[j].value
    requires forall a, b :: 0 <= a < b < |s| ==> s[a].value <= s[b].value
    ensures Shifted(s, Without(s, s[i]), i)
  {
    var p := FirstIndex(s, s[i]);
    FirstIndexAtMost(s, i);
    WithoutIsSplice(s, s[i]);
    SpliceShifted(s, p, i);
  }

  /** Splicing out position `p` of a sorted sequence is, for values, splicing out any later
      position `i` of the same value. */
  lemma SpliceShifted(s: seq<Card>, p: nat, i: nat)
    requires p <= i < |s| && s[p].value == s[i].value
    requires forall a, b :: 0 <= a < b < |s| ==> s[a].value <= s[b].value
    ensures Shifted(s, s[..p] + s[p + 1..], i)
  {
    var w := s[..p] + s[p + 1..];
    forall k | 0 <= k < i ensures w[k].value == s[k].value {
      if k < p {
        assert w[k] == s[k];
      } else {
        assert w[k] == s[k + 1];
        assert s[p].value <= s[k].value <= s[k + 1].value <= s[i].value;
      }
    }
    forall k | i <= k < |w| ensures w[k].value == s[k + 1].value {
      assert w[k] == s[k + 1];
    }
  }

  /** Taking out position i of a sequence sorted by value keeps it sorted, and keeps it
      strictly increasing above j - 1 when it was so above j. */
  lemma ShiftKeepsOrder(s: seq<Card>, w: seq<Card>, i: nat, j: nat)
    requires i < j < |s| && |w| == |s| - 1
    requires Shifted(s, w, i)
    requires forall a, b :: 0 <= a < b < |s| ==> s[a].value <= s[b].value
    requires forall a, b :: 0 <= a < b < |s| && j < b ==> s[a].value < s[b].value
    ensures forall a, b :: 0 <= a < b < |w| ==> w[a].value <= w[b].value
    ensures forall a, b :: 0 <= a < b < |w| && j - 1 < b ==> w[a].value < w[b].value
  {
    forall a, b | 0 <= a < b < |w| ensures w[a].value <= w[b].value {
      var a' := if a < i then a else a + 1;
      var b' := if b < i then b else b + 1;
      assert a' < b';
    }
    forall a, b | 0 <= a < b < |w| && j - 1 < b ensures w[a].value < w[b].value {
      var a' := if a < i then a else a + 1;
      assert w[a].value == s[a'].value;
      assert b >= i && w[b].value == s[b + 1].value;
      assert a' < b + 1 && j < b + 1;
    }
  }

  /** ... and keeps the set of values when the value taken out also sits at j. */
  lemma ShiftKeepsValues(s: seq<Card>, w: seq<Card>, i: nat, j: nat)
    requires i < j < |s| && |w| == |s| - 1 && s[i].value == s[j].value
    requires Shifted(s, w, i)
    ensures forall x :: x in Values(w) <==> x in Values(s)
  {
    var V, W := Values(s), Values(w);
    forall x ensures x in W <==> x in V {
      if x in V {
        var k :| 0 <= k < |V| && V[k] == x;
        if k < i {
          assert W[k] == x;
        } else if k == i {
          assert W[j - 1] == x;
        } else {
          assert W[k - 1] == x;
        }
      }
      if x in W {
        var k :| 0 <= k < |W| && W[k] == x;
        assert W[k] == w[k].value;
        if k < i {
          assert w[k].value == s[k].value;
          assert V[k] == x;
        } else {
          assert w[k].value == s[k + 1].value;
          assert V[k + 1] == x;
        }
      }
    }
  }

  /** Card values never decrease along `s`. */
  predicate SortedValues(s: seq<Card>)
  {
    forall a, b :: 0 <= a < b < |s| ==> s[a].value <= s[b].value
  }

  /** Card values strictly increase into every position above `j`. */
  predicate StrictAbove(s: seq<Card>, j: int)
  {
    forall a, b :: 0 <= a < b < |s| && j < b ==> s[a].value < s[b].value
  }

  /** Duplicates come out highest value first. */
  predicate NonIncreasing(d: seq<Card>)
  {
    forall a, b :: 0 <= a < b < |d| ==> d[a].value >= d[b].value
  }

  /** Every card of `s` up to `index` is no higher than any duplicate taken so far. */
  predicate DupsAbove(s: seq<Card>, d: seq<Card>, index: int)
  {
    forall a, i :: 0 <= a < |d| && 0 <= i <= index && i < |s| ==> s[i].value <= d[a].value
  }

  /** Two card sequences hold the same set of values. */
  ghost predicate SameValueSet(s: seq<Card>, t: seq<Card>)
  {
    forall x :: x in Values(s) <==> x in Values(t)
  }

  /** What the outer loop of findDuplicates keeps, over the hand `s`, the duplicates `d`
      and the sorted hand `orig` it started from. */
  ghost predicate OuterInv(s: seq<Card>, d: seq<Card>, orig: seq<Card>, index: int)
  {
    && -1 <= index < |s|
    && SortedValues(s) && StrictAbove(s, index)
    && multiset(s) + multiset(d) == multiset(orig)
    && SameValueSet(s, orig)
    && NonIncreasing(d) && DupsAbove(s, d, index)
  }

  /** What the inner loop keeps while it looks below `index` for cards of value `v`. */
  ghost predicate InnerInv(s: seq<Card>, d: seq<Card>, orig: seq<Card>, subIx: int, index: int, v: int)
  {
    && OuterInv(s, d, orig, index)
    && -1 <= subIx < index
    && s[index].value == v
    && forall k :: subIx < k < index ==> s[k].value != v
  }

  lemma InnerEnter(s: seq<Card>, d: seq<Card>, orig: seq<Card>, index: int)
    requires OuterInv(s, d, orig, index) && index >= 0
    ensures InnerInv(s, d, orig, index - 1, index, s[index].value as int)
  {
  }

  lemma InnerExit(s: seq<Card>, d: seq<Card>, orig: seq<Card>, index: int, v: int)
    requires InnerInv(s, d, orig, -1, index, v)
    ensures OuterInv(s, d, orig, index - 1)
  {
    forall a, b | 0 <= a < b < |s| && index - 1 < b ensures s[a].value < s[b].value {
      if b == index {
        assert s[a].value <= s[b].value && s[a].value != v;
      }
    }
  }

  lemma InnerKeep(s: seq<Card>, d: seq<Card>, orig: seq<Card>, subIx: int, index: int, v: int)
    requires InnerInv(s, d, orig, subIx, index, v) && subIx >= 0 && s[subIx].value != v
    ensures InnerInv(s, d, orig, subIx - 1, index, v)
  {
  }

  /** The duplicate taken out at a step is no higher than those before it and no lower
      than what stays below the matched card. */
  lemma DupsStep(s: seq<Card>, w: seq<Card>, d: seq<Card>, c: Card, subIx: nat, index: nat)
    requires subIx < index < |s| && Shifted(s, w, subIx) && c.value == s[index].value
    requires SortedValues(s) && NonIncreasing(d) && DupsAbove(s, d, index)
    ensures NonIncreasing(d + [c]) && DupsAbove(w, d + [c], index - 1)
  {
    var d' := d + [c];
    forall a, b | 0 <= a < b < |d'| ensures d'[a].value >= d'[b].value {
      if b == |d| {
        assert d'[a] == d[a];
        assert s[index].value <= d[a].value;
      }
    }
    forall a, i | 0 <= a < |d'| && 0 <= i <= index - 1 && i < |w| ensures w[i].value <= d'[a].value {
      var i' := if i < subIx then i else i + 1;
      assert w[i].value == s[i'].value;
      if a < |d| {
        assert d'[a] == d[a];
        assert s[i'].value <= d[a].value;
      } else {
        assert s[i'].value <= s[index].value;
      }
    }
  }

  /** One removal of findDuplicates: the lower card of value `v` at `subIx` moves from the
      hand to the duplicates, and the card being matched moves down to `index - 1`. */
  lemma InnerRemove(s: seq<Card>, d: seq<Card>, orig: seq<Card>, subIx: int, index: int, v: int)
    requires InnerInv(s, d, orig, subIx, index, v) && subIx >= 0 && s[subIx].value == v
    ensures InnerInv(Without(s, s[subIx]), d + [s[subIx]], orig, subIx - 1, index - 1, v)
  {
    var c := s[subIx];
    RemoveWithinBlock(s, subIx, index);
    var w := Without(s, c);
    ShiftKeepsOrder(s, w, subIx, index);
    ShiftKeepsValues(s, w, subIx, index);
    WithoutMultiset(s, c);
    assert c in s;
    var d' := d + [c];
    assert multiset(w) + multiset(d') == multiset(orig) by {
      assert multiset(d') == multiset(d) + multiset{c};
    }
    DupsStep(s, w, d, c, subIx, index);
    assert w[index - 1].value == v;
    // the hand is sorted and nothing strictly between subIx and index has value v,
    // so the match is always the card just below
    assert s[subIx].value <= s[subIx + 1].value <= s[index].value;
    assert subIx == index - 1;
  }

  /** One step of findDuplicates' inner loop: a card at `subIx` of the value `v` being
      matched moves from the hand to the duplicates, and the matched card with it moves
      down one place; any other card stays. */
  method MatchStep(hand: Hand, duplicates: seq<Card>, ghost sorted: seq<Card>, subIx: int, index: int, v: int)
    returns (duplicates': seq<Card>, index': int)
    requires InnerInv(hand.items, duplicates, sorted, subIx, index, v) && subIx >= 0
    modifies hand
    ensures InnerInv(hand.items, duplicates', sorted, subIx - 1, index', v) && index' <= index
  {
    var subCard := hand.items[subIx];
    if subCard.value as int == v {
      InnerRemove(hand.items, duplicates, sorted, subIx, index, v);
      duplicates' := duplicates + [subCard];
      var removed := hand.PlayCard(subCard);
      index' := index - 1;
    } else {
      InnerKeep(hand.items, duplicates, sorted, subIx, index, v);
      duplicates', index' := duplicates, index;
    }
  }

  /** findDuplicates: sort the hand, then for each card from the top take out every lower
      card of the same value into the duplicates. The hand keeps one card per value, in
      ascending order, and the duplicates come out highest value first. */
  method FindDuplicates(hand: Hand) returns (duplicates: seq<Card>)
    modifies hand
    ensures forall i, j :: 0 <= i < j < |hand.items| ==> hand.items[i].value < hand.items[j].value
    ensures multiset(hand.items) + multiset(duplicates) == multiset(old(hand.items))
    ensures forall x :: x in Values(hand.items) <==> x in Values(old(hand.items))
    ensures forall a, b :: 0 <= a < b < |duplicates| ==> duplicates[a].value >= duplicates[b].value
  {
    hand.SortCards();
    ghost var sorted := hand.items;
    assert SameValueSet(sorted, old(hand.items)) by {
      forall x ensures x in Values(sorted) <==> x in Values(old(hand.items)) {
        InValues(sorted, x);
        InValues(old(hand.items), x);
      }
    }
    duplicates := [];
    var index := |hand.items| - 1;
    while index >= 0
      invariant OuterInv(hand.items, duplicates, sorted, index)
      decreases index + 1
    {
      var card := hand.items[index];
      var subIx := index - 1;
      ghost var top := index;
      InnerEnter(hand.items, duplicates, sorted, index);
      while subIx >= 0
        invariant InnerInv(hand.items, duplicates, sorted, subIx, index, card.value as int)
        invariant index <= top
      {
        duplicates, index := MatchStep(hand, duplicates, sorted, subIx, index, card.value as int);
        subIx := subIx - 1;
      }
      InnerExit(hand.items, duplicates, sorted, index, card.value as int);
      index := index - 1;
    }
  }

  /** What findDuplicates leaves, stated on values: the hand holds each value of the
      original once, in ascending order, and the duplicates are the extra copies of each
      value, highest first. */
  lemma DuplicatesSplit(unique: seq<Card>, dups: seq<Card>, orig: seq<Card>)
    requires forall i, j :: 0 <= i < j < |unique| ==> unique[i].value < unique[j].value
    requires multiset(unique) + multiset(dups) == multiset(orig)
    requires forall x :: x in Values(unique) <==> x in Values(orig)
    requires forall a, b :: 0 <= a < b < |dups| ==> dups[a].value >= dups[b].value
    ensures Values(unique) == Present(orig, 1)
    ensures Values(dups) == DupValues(orig, 1)
  {
    UniqueIsPresent(unique, orig);
    forall x: Value ensures CountValue(dups, x) == Extra(orig, x) {
      DupCount(unique, dups, orig, x);
    }
    DupsAreDupValues(dups, orig);
  }

  lemma DupsAreDupValues(dups: seq<Card>, orig: seq<Card>)
    requires forall x: Value :: CountValue(dups, x) == Extra(orig, x)
    requires forall a, b :: 0 <= a < b < |dups| ==> dups[a].value >= dups[b].value
    ensures Values(dups) == DupValues(orig, 1)
  {
    var D, E := Values(dups), DupValues(orig, 1);
    forall x ensures multiset(D)[x] == multiset(E)[x] {
      DupValuesMultiset(orig, 1, x);
      ValuesMultisetAt(dups, x);
    }
    assert multiset(D) == multiset(E);
    DescendingUnique(D, E);
  }

  lemma ValuesMultisetAt(cards: seq<Card>, x: int)
    ensures multiset(Values(cards))[x] == if 1 <= x <= 13 then CountValue(cards, x) else 0
  {
    if 1 <= x <= 13 {
      CountValueOfValues(cards, x);
    } else {
      assert x !in Values(cards);
    }
  }

  lemma DupCount(unique: seq<Card>, dups: seq<Card>, orig: seq<Card>, x: Value)
    requires forall i, j :: 0 <= i < j < |unique| ==> unique[i].value < unique[j].value
    requires multiset(unique) + multiset(dups) == multiset(orig)
    requires forall x :: x in Values(unique) <==> x in Values(orig)
    ensures CountValue(dups, x) == Extra(orig, x)
  {
    CountValueSplit(unique, dups, orig, x);
    AscendingCountsAtMostOne(unique, x);
    InValues(orig, x);
  }

  lemma UniqueIsPresent(unique: seq<Card>, orig: seq<Card>)
    requires forall i, j :: 0 <= i < j < |unique| ==> unique[i].value < unique[j].value
    requires forall x :: x in Values(unique) <==> x in Values(orig)
    ensures Values(unique) == Present(orig, 1)
  {
    var P := Present(orig, 1);
    forall x ensures x in Values(unique) <==> x in P {
      InValues(orig, x);
      if x in P {
        var i :| 0 <= i < |P| && P[i] == x;
      }
    }
    AscendingUnique(Values(unique), P);
  }

  // ---------------------------------------------------------------------------------
  // Pairs

  /** The values of cards with position k spliced out. */
  lemma ValuesSplice(cards: seq<Card>, k: nat)
    requires k < |cards|
    ensures Values(cards[..k] + cards[k + 1..]) == Values(cards)[..k] + Values(cards)[k + 1..]
  {
  }

  /** The state of the splicing scan of countPairs, on values: `head` ends with the value
      `v` being matched, the first `p` entries of `tail` have been scanned, the matches
      among them spliced out and counted, and `subIx` points at the next one. */
  ghost predicate ScanInv(vals: seq<int>, head: seq<int>, tail: seq<int>, p: int, v: int,
                          subIx: int, matches: int)
  {
    && 0 <= p <= |tail|
    && subIx == |head| + |DropValue(tail[..p], v)|
    && vals == head + DropValue(tail[..p], v) + tail[p..]
    && matches == 1 + multiset(tail[..p])[v]
  }

  lemma ScanStart(vals: seq<int>, ix: nat)
    requires ix < |vals|
    ensures ScanInv(vals, vals[..ix + 1], vals[ix + 1..], 0, vals[ix], ix + 1, 1)
  {
    assert vals == vals[..ix + 1] + vals[ix + 1..];
  }

  /** One step of the scan: the entry under it is the next of the tail; splicing it out when
      it matches, or stepping past it otherwise, keeps the scan state. */
  lemma ScanStep(vals: seq<int>, head: seq<int>, tail: seq<int>, p: int, v: int,
                 subIx: int, matches: int)
    requires ScanInv(vals, head, tail, p, v, subIx, matches) && subIx < |vals|
    ensures p < |tail| && vals[subIx] == tail[p]
    ensures tail[p] == v ==>
      ScanInv(vals[..subIx] + vals[subIx + 1..], head, tail, p + 1, v, subIx, matches + 1)
    ensures tail[p] != v ==> ScanInv(vals, head, tail, p + 1, v, subIx + 1, matches)
  {
    var d := DropValue(tail[..p], v);
    assert p < |tail|;
    assert tail[..p + 1] == tail[..p] + [tail[p]];
    assert tail[..p + 1][..p] == tail[..p];
    assert tail[p..] == [tail[p]] + tail[p + 1..];
    assert vals[subIx] == tail[p];
  }

  lemma ScanDone(vals: seq<int>, head: seq<int>, tail: seq<int>, p: int, v: int,
                 subIx: int, matches: int)
    requires ScanInv(vals, head, tail, p, v, subIx, matches) && subIx >= |vals|
    ensures vals == head + DropValue(tail, v) && matches == 1 + multiset(tail)[v]
  {
    assert p == |tail|;
    assert tail[..p] == tail;
  }

  lemma PairsOfCons(x: int, tail: seq<int>)
    ensures PairsOf([x] + tail) == MatchPoints(1 + multiset(tail)[x]) + PairsOf(DropValue(tail, x))
  {
    assert ([x] + tail)[1..] == tail;
  }

  /** countPairs: score the duplicates of a copy of the hand, one value group at a time. */
  method CountPairs(h: Hand) returns (points: nat)
    ensures points == PairScore(h.items)
  {
    var hand := new Hand(h.items);
    var duplicates := FindDuplicates(hand);
    DuplicatesSplit(hand.items, duplicates, h.items);
    PairsOfDupValues(h.items, 1);
    points := ScoreDuplicates(duplicates);
  }

  /** The loop of countPairs: for each duplicate, count and splice out the later ones of the
      same value, and score the group by how many matched. */
  method ScoreDuplicates(dups: seq<Card>) returns (points: nat)
    ensures points == PairsOf(Values(dups))
  {
    var duplicates := dups;
    points := 0;
    var ix := 0;
    while ix < |duplicates|
      invariant 0 <= ix <= |duplicates|
      invariant points + PairsOf(Values(duplicates)[ix..]) == PairsOf(Values(dups))
      decreases |duplicates| - ix
    {
      ghost var vals := Values(duplicates);
      ghost var v := vals[ix];
      assert vals[ix..] == [v] + vals[ix + 1..];
      PairsOfCons(v, vals[ix + 1..]);
      var matches;
      duplicates, matches := SpliceMatches(duplicates, ix);
      points := points + MatchPoints(matches);
      ix := ix + 1;
    }
  }

  /** The inner loop of countPairs: count the entries after `ix` with the value of entry
      `ix`, splicing each out as it is counted. */
  method SpliceMatches(dups: seq<Card>, ix: nat) returns (duplicates: seq<Card>, matches: nat)
    requires ix < |dups|
    ensures var vals := Values(dups);
      && Values(duplicates) == vals[..ix + 1] + DropValue(vals[ix + 1..], vals[ix])
      && matches == 1 + multiset(vals[ix + 1..])[vals[ix]]
  {
    duplicates := dups;
    var dup := duplicates[ix];
    matches := 1;
    var subIx := ix + 1;
    ghost var vals := Values(duplicates);
    ghost var v := vals[ix];
    ghost var head, tail := vals[..ix + 1], vals[ix + 1..];
    ghost var p := 0;
    ScanStart(vals, ix);
    while subIx < |duplicates|
      invariant vals == Values(duplicates)
      invariant ScanInv(vals, head, tail, p, v, subIx, matches)
      decreases |duplicates| - subIx
    {
      ScanStep(vals, head, tail, p, v, subIx, matches);
      if duplicates[subIx].value == dup.value {
        matches := matches + 1;
        ValuesSplice(duplicates, subIx);
        duplicates := duplicates[..subIx] + duplicates[subIx + 1..];
        vals := vals[..subIx] + vals[subIx + 1..];
        subIx := subIx - 1;
      }
      subIx := subIx + 1;
      p := p + 1;
    }
    ScanDone(vals, head, tail, p, v, subIx, matches);
  }

  // ---------------------------------------------------------------------------------
  // Runs

  /** The record countRuns returns. */
  datatype RunLength = RunLength(numRuns: nat, runLength: nat)

  /** Values strictly increasing along the cards. */
  predicate Ascending(s: seq<Card>)
  {
    forall i, j :: 0 <= i < j < |s| ==> s[i].value < s[j].value
  }

  /** What isSequentialAscending reports on the first k values of an ascending hand: the
      sort leaves them as they are, and they pass exactly when k is within the run at the
      front. */
  lemma PrefixCheck(values: seq<Value>, items: seq<Card>, k: nat, sequential: bool, sorted: seq<Value>)
    requires 3 <= k <= |items| && |values| == k && Ascending(items)
    requires forall i :: 0 <= i < k ==> values[i] == items[i].value
    requires sorted == SortBy(values, Ident)
    requires sequential <==> Consecutive(values)
    ensures sorted == values
    ensures sequential <==> k <= RunLen(Values(items))
  {
    var u := Values(items);
    assert SortedBy(values, Ident) by {
      forall i, j | 0 <= i < j < |values| ensures Ident(values[i]) <= Ident(values[j]) {
        assert values[i] == items[i].value && values[j] == items[j].value;
      }
    }
    SortBySorted(values, Ident);
    ghost var ints: seq<int> := values;
    assert ints == u[..k];
    SortedStepsIffConsecutive(ints, values);
    PrefixStepsIff(u, k);
  }

  /** isSequentialAscending on the first k values of an ascending hand. */
  method CheckPrefix(values: seq<Value>, items: seq<Card>, k: nat) returns (sequential: bool, sorted: seq<Value>)
    requires 3 <= k <= |items| && |values| == k && Ascending(items)
    requires forall i :: 0 <= i < k ==> values[i] == items[i].value
    ensures sorted == values
    ensures sequential <==> k <= RunLen(Values(items))
  {
    sequential, sorted := IsSequentialAscending(values);
    PrefixCheck(values, items, k, sequential, sorted);
  }

  /** The state of the inner loop of findLongestRun over an ascending hand whose front run
      has n values: the candidate values are the first `counter` values, and the candidate
      cards are the first `counter` cards while they form a run, else the run itself. */
  ghost predicate RunScan(items: seq<Card>, n: int, counter: int, subLongest: seq<Value>,
                          cards: seq<Card>, sequential: bool, iterated: bool)
  {
    && 3 <= counter <= |items| && |subLongest| == counter
    && (forall i :: 0 <= i < counter ==> subLongest[i] == items[i].value)
    && (sequential <==> counter <= n)
    && (sequential ==> cards == items[..counter])
    && (!sequential && iterated ==> counter == n + 1 && cards == items[..n])
    && (if iterated then counter >= 4 else counter == 3)
  }

  lemma RunScanStep(items: seq<Card>, n: int, counter: int, subLongest: seq<Value>,
                    cards: seq<Card>, iterated: bool, stillSequential: bool)
    requires RunScan(items, n, counter, subLongest, cards, true, iterated)
    requires counter < |items| && (stillSequential <==> counter + 1 <= n)
    ensures RunScan(items, n, counter + 1, subLongest + [items[counter].value],
                    if stillSequential then cards + [items[counter]] else cards, stillSequential, true)
  {
    assert items[..counter + 1] == items[..counter] + [items[counter]];
  }

  /** When the scan stops, the candidate is the run at the front, if it has three values. */
  lemma RunScanDone(items: seq<Card>, n: int, counter: int, subLongest: seq<Value>,
                    cards: seq<Card>, sequential: bool, iterated: bool)
    requires RunScan(items, n, counter, subLongest, cards, sequential, iterated)
    requires n == RunLen(Values(items)) && (sequential ==> counter == |items|)
    ensures n >= 3 <==> iterated || sequential
    ensures n >= 3 ==> cards == items[..n]
  {
  }

  /** The candidate the scan leaves behind is what Better picks. */
  lemma ExtendDone(items: seq<Card>, n: int, counter: int, subLongest: seq<Value>,
                   cards: seq<Card>, sequential: bool, iterated: bool,
                   longestRun: seq<Card>, longest: seq<Card>)
    requires RunScan(items, n, counter, subLongest, cards, sequential, iterated)
    requires n == RunLen(Values(items)) && (sequential ==> counter == |items|)
    requires longest == if (iterated || sequential) && |cards| > |longestRun| then cards else longestRun
    ensures Values(longest) == Better(Values(items), Values(longestRun))
  {
    RunScanDone(items, n, counter, subLongest, cards, sequential, iterated);
    if n >= 3 {
      assert Values(items[..n]) == Values(items)[..n];
    }
  }

  lemma AscendingSorts(s: seq<Card>)
    requires Ascending(s)
    ensures SortBy(s, ByValue) == s
  {
    SortBySorted(s, ByValue);
  }

  lemma AscendingValues(s: seq<Card>)
    requires Ascending(s)
    ensures forall i, j :: 0 <= i < j < |Values(s)| ==> Values(s)[i] < Values(s)[j]
  {
  }

  /** The inner loop of findLongestRun, from the first three cards of an ascending hand:
      extend the candidate one card at a time while its values stay a run, and record it as
      the longest run when it beats the best so far. */
  method ExtendRun(items: seq<Card>, longestRun: seq<Card>) returns (longest: seq<Card>)
    requires |items| >= 3 && Ascending(items)
    ensures Values(longest) == Better(Values(items), Values(longestRun))
  {
    ghost var n := RunLen(Values(items));
    var counter := 0;
    var subLongestCards := [items[0], items[1], items[2]];
    var subLongest: seq<Value> := [items[0].value, items[1].value, items[2].value];
    counter := 3;
    longest := longestRun;
    var sequential, sorted := CheckPrefix(subLongest, items, counter);
    subLongest := sorted;
    ghost var iterated := false;
    assert subLongestCards == items[..3];
    while sequential
      invariant RunScan(items, n, counter, subLongest, subLongestCards, sequential, iterated)
      invariant longest == if iterated && |subLongestCards| > |longestRun| then subLongestCards else longestRun
      decreases |items| - counter
    {
      if counter < |items| {
        ghost var before, cardsBefore := subLongest, subLongestCards;
        subLongest := subLongest + [items[counter].value];
        var stillSequential, sorted' := CheckPrefix(subLongest, items, counter + 1);
        subLongest := sorted';
        if stillSequential {
          subLongestCards := subLongestCards + [items[counter]];
        }
        RunScanStep(items, n, counter, before, cardsBefore, iterated, stillSequential);
        counter := counter + 1;
      } else {
        if |subLongestCards| > |longest| {
          longest := subLongestCards;
        }
        break;
      }
      if |subLongestCards| > |longest| {
        longest := subLongestCards;
      }
      iterated := true;
      var again, sorted'' := CheckPrefix(subLongest, items, counter);
      sequential, subLongest := again, sorted'';
    }
    ExtendDone(items, n, counter, subLongest, subLongestCards, sequential, iterated, longestRun, longest);
  }

  /** Playing the first card of a hand leaves the rest, still ascending. */
  lemma DropFirst(s: seq<Card>)
    requires |s| > 0 && Ascending(s)
    ensures Without(s, s[0]) == s[1..] && Ascending(s[1..])
  {
    WithoutIsSplice(s, s[0]);
    assert FirstIndex(s, s[0]) == 0;
  }

  /** One step of the search for the longest run: the candidate at the front, then the rest. */
  lemma RunFromStep(s: seq<Card>, best: seq<int>, better: seq<int>)
    requires |s| >= 3 && better == Better(Values(s), best)
    ensures RunFrom(Values(s), best) == RunFrom(Values(s[1..]), better)
  {
    assert Values(s[1..]) == Values(s)[1..];
  }

  /** findLongestRun: look for the run starting at the lowest card, then drop that card and
      look again, while three cards or more remain. */
  method FindLongestRun(aHand: Hand, longestRun: seq<Card>) returns (longest: seq<Card>)
    requires Ascending(aHand.items)
    modifies aHand
    ensures Values(longest) == RunFrom(Values(old(aHand.items)), Values(longestRun))
    decreases |aHand.items|
  {
    if |aHand.items| >= 3 {
      ghost var items := aHand.items;
      aHand.SortCards();
      AscendingSorts(items);
      longest := ExtendRun(aHand.items, longestRun);
      var first := aHand.items[0];
      var played := aHand.PlayCard(first);
      DropFirst(items);
      RunFromStep(items, Values(longestRun), Values(longest));
      longest := FindLongestRun(aHand, longest);
    } else {
      longest := longestRun;
    }
  }

  /** The record countRuns returns: the longest run among the distinct values and how many
      ways the duplicate values multiply it, or no run. */
  function Runs(cards: seq<Card>): RunLength
  {
    var r := BestRun(Present(cards, 1));
    if |r| >= 3 then RunLength(RunsFold(DupValues(cards, 1), r), |r|) else RunLength(0, 0)
  }

  /** countRuns: the longest run among the distinct values, and how many times it can be
      formed once the duplicate values are folded in. */
  method CountRuns(h: Hand) returns (runLength: RunLength)
    ensures runLength == Runs(h.items)
  {
    var hand := new Hand(h.items);
    var duplicates := FindDuplicates(hand);
    DuplicatesSplit(hand.items, duplicates, h.items);
    ghost var unique := hand.items;
    hand.SortCards();
    AscendingSorts(unique);
    var longestRun := FindLongestRun(hand, []);
    assert Values([]) == [];
    runLength := RunLength(0, 0);
    if |longestRun| >= 3 {
      runLength := runLength.(runLength := |longestRun|);
      runLength := runLength.(numRuns := 1);
      var numRuns := MultiplyRuns(duplicates, longestRun);
      runLength := runLength.(numRuns := numRuns);
    }
  }

  /** The multiplier loop of countRuns: each duplicate whose value is in the run doubles the
      count, or adds one when the previous duplicate had the same value. */
  method MultiplyRuns(duplicates: seq<Card>, longestRun: seq<Card>) returns (numRuns: nat)
    ensures numRuns == RunsFold(Values(duplicates), Values(longestRun))
  {
    numRuns := 1;
    var lastDup: Option<Card> := None;
    var dupIx := 0;
    while dupIx < |duplicates|
      invariant 0 <= dupIx <= |duplicates|
      invariant numRuns == RunsFold(Values(duplicates[..dupIx]), Values(longestRun))
      invariant lastDup == if dupIx == 0 then None else Some(duplicates[dupIx - 1])
    {
      var dup := duplicates[dupIx];
      ghost var same := lastDup.Some? && lastDup.value.value == dup.value;
      ghost var n0 := numRuns;
      var runIx := 0;
      while runIx < |longestRun|
        invariant 0 <= runIx <= |longestRun|
        invariant numRuns == StepOver(Values(longestRun[..runIx]), dup.value, same, n0)
      {
        var runCard := longestRun[runIx];
        assert Values(longestRun[..runIx + 1]) == Values(longestRun[..runIx]) + [runCard.value as int];
        if runCard.value == dup.value {
          if lastDup.Some? && lastDup.value.value == dup.value {
            numRuns := numRuns + 1;
          } else {
            numRuns := numRuns * 2;
          }
        }
        runIx := runIx + 1;
      }
      assert longestRun[..runIx] == longestRun;
      assert Values(duplicates[..dupIx + 1]) == Values(duplicates[..dupIx]) + [dup.value as int];
      lastDup := Some(dup);
      dupIx := dupIx + 1;
    }
    assert duplicates[..dupIx] == duplicates;
  }

  // ---------------------------------------------------------------------------------
  // countPoints

  /** The hand as takeCard leaves it after offering it the cut: the cut is appended unless
      the hand already holds it. */
  function WithCut(hand: seq<Card>, cut: Card): (all: seq<Card>)
    ensures cut in all && multiset(hand) <= multiset(all)
    ensures cut !in hand ==> |all| == |hand| + 1 && all[..|hand|] == hand
    ensures cut in hand ==> all == hand
  {
    if cut in hand then hand else hand + [cut]
  }

  /** The points countPoints takes from the record countRuns returns: the run length times
      the number of runs, when there is a run. */
  function RunLengthPoints(runLength: RunLength): nat
  {
    if runLength.runLength >= 3 then runLength.runLength * runLength.numRuns else 0
  }

  /** The run points of a hand. */
  function RunPoints(cards: seq<Card>): nat
  {
    RunLengthPoints(Runs(cards))
  }

  /** The points of the hand `all` (which holds the cut): pairs, fifteens among the first
      five cards, runs, the right jack and the flush. */
  function HandScore(all: seq<Card>, cut: Card, mustHaveFiveCardFlush: bool): nat
    requires |all| >= 5
  {
    PairScore(all) + FifteenPoints(all) + RunPoints(all)
    + (if HasRightJack(all, cut) then 1 else 0) + FlushPoints(all, cut, mustHaveFiveCardFlush)
  }

  /** The parts countPoints adds up make the hand's score. */
  lemma ScoreAddsUp(hand: seq<Card>, cut: Card, must: bool, all: seq<Card>, pairs: nat, fifteens: nat,
                    runLength: RunLength, jack: bool, flush: nat)
    requires all == WithCut(hand, cut) && |all| >= 5
    requires pairs == PairScore(all)
    requires fifteens == FifteenPoints(all)
    requires runLength == Runs(all)
    requires jack <==> HasRightJack(all, cut)
    requires flush == FlushPoints(all, cut, must)
    ensures pairs + fifteens + RunLengthPoints(runLength) + (if jack then 1 else 0) + flush
         == HandScore(all, cut, must)
  {
  }

  /** countPoints: take the cut into the hand and add up the five kinds of points. Looking
      for a four-card flush takes the cut out and puts it back at the end of the hand. */
  method CountPoints(h: Hand, cutCard: Card, mustHaveFiveCardFlush: bool) returns (points: nat)
    requires |WithCut(h.items, cutCard)| >= 5
    modifies h
    ensures var all := WithCut(old(h.items), cutCard);
      points == HandScore(all, cutCard, mustHaveFiveCardFlush)
      && h.items == if MaxSuitCount(all) == 5 || mustHaveFiveCardFlush then all
                    else Without(all, cutCard) + [cutCard]
    ensures cutCard !in old(h.items) ==> h.items == old(h.items) + [cutCard]
  {
    if cutCard !in h.items {
      WithoutAppended(h.items, cutCard);
    }
    points := 0;
    var taken := h.TakeCard(cutCard);
    ghost var all := h.items;
    var pairs := CountPairs(h);
    points := points + pairs;
    var fifteens := CountFifteens(h, 0, 0);
    points := points + fifteens;
    var runLength := CountRuns(h);
    points := points + RunLengthPoints(runLength);
    var jackIx := LinearSearch(h.items, Card(cutCard.suit, Jack));
    ghost var jack := cutCard.value != Jack && jackIx != -1;
    if cutCard.value != Jack && jackIx != -1 {
      points := points + 1;
    }
    var flush := ScoreFlush(h, cutCard, mustHaveFiveCardFlush);
    points := points + flush;
    ScoreAddsUp(old(h.items), cutCard, mustHaveFiveCardFlush, all, pairs, fifteens, runLength, jack, flush);
  }

  /** The flush part of countPoints: a five-card flush counts; otherwise, unless five are
      demanded, the hand is counted again without the cut, which is then put back at the
      end. */
  method ScoreFlush(h: Hand, cutCard: Card, mustHaveFiveCardFlush: bool) returns (points: nat)
    modifies h
    ensures points == FlushPoints(old(h.items), cutCard, mustHaveFiveCardFlush)
    ensures h.items == if MaxSuitCount(old(h.items)) == 5 || mustHaveFiveCardFlush then old(h.items)
                       else Without(old(h.items), cutCard) + [cutCard]
  {
    points := 0;
    var numInFlush := CountFlush(h);
    var maxFlush := numInFlush == 5;
    if !maxFlush {
      if mustHaveFiveCardFlush {
        numInFlush := 0;
      } else {
        var removed := h.RemoveItem(cutCard);
        numInFlush := CountFlush(h);
        h.AddItem(cutCard);
      }
    }
    if numInFlush >= (if mustHaveFiveCardFlush then 5 else 4) {
      points := points + numInFlush;
    }
  }

  // ---------------------------------------------------------------------------------
  // The score of a dealt hand

  /** For four cards dealt from one deck and a cut that is not among them, countPoints
      scores by the rules of cribbage: two points per pair of equal values, two per choice
      of cards summing to fifteen, each distinct longest run (one card per value) counted
      at its length, one for the right jack and 0, 4 or 5 for the flush. */
  lemma DealtHandScore(hand: seq<Card>, cut: Card, must: bool)
    requires |hand| == 4 && cut !in hand && NoRepeatedCard(hand + [cut])
    ensures var all := hand + [cut]; var r := BestRun(Present(all, 1));
      && WithCut(hand, cut) == all
      && HandScore(all, cut, must)
         == 2 * EqualValuePairs(all) + 2 * SubsetCount(Worths(all), 15)
            + (if |r| >= 3 then |r| * RunWays(r, multiset(Values(all))) else 0)
            + (if HasRightJack(all, cut) then 1 else 0) + FlushPoints(all, cut, must)
      && FlushPoints(all, cut, must) in {0, 4, 5}
  {
    var all := hand + [cut];
    assert all[..5] == all;
    PairScoreIsTwoPerPair(all);
    FiveCardRunMultiplier(all);
    FlushScores(hand, cut, must);
  }
}
