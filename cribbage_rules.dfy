/** Card movements of the game's actions in implementations/cribbage.ts, on values: what
    giveToKitty does to the thrower's hand and to the kitty. */
module CribbageRules {
  import opened Cards
  import opened ItemCollections

  /** The thrower's hand after giveToKitty takes the cards out one at a time; the removal
      stops at the first card that is no longer held (itemAt(-1) throws there). */
  function Thrown(hand: seq<Card>, cards: seq<Card>): (r: seq<Card>)
    decreases |cards|
  {
    if cards == [] || cards[0] !in hand then hand
    else Thrown(Without(hand, cards[0]), cards[1..])
  }

  /** Every card is still held when its turn to leave the hand comes. */
  predicate Removable(hand: seq<Card>, cards: seq<Card>)
    decreases |cards|
  {
    cards == [] || (cards[0] in hand && Removable(Without(hand, cards[0]), cards[1..]))
  }

  /** When no card is missing at its turn, exactly the thrown cards leave the hand. */
  lemma {:induction false} ThrownLeaves(hand: seq<Card>, cards: seq<Card>)
    requires Removable(hand, cards)
    ensures multiset(Thrown(hand, cards)) + multiset(cards) == multiset(hand)
    decreases |cards|
  {
    if cards != [] {
      var kept := Without(hand, cards[0]);
      WithoutMultiset(hand, cards[0]);
      ThrownLeaves(kept, cards[1..]);
      FirstAndRest(cards);
      Regroup(multiset(Thrown(kept, cards[1..])), multiset(cards[1..]), multiset(kept), cards[0], multiset(hand));
    }
  }

  /** A sequence's multiset is its first element's and the rest's. */
  lemma FirstAndRest(s: seq<Card>)
    requires s != []
    ensures multiset(s) == multiset{s[0]} + multiset(s[1..])
  {
    assert s == [s[0]] + s[1..];
  }

  /** Putting back a card taken out of a multiset that holds it gives the multiset
      again. */
  lemma Regroup(x: multiset<Card>, r: multiset<Card>, k: multiset<Card>, m: Card, h: multiset<Card>)
    requires x + r == k && m in h && k == h - multiset{m}
    ensures x + (multiset{m} + r) == h
  {
    forall y
      ensures (x + (multiset{m} + r))[y] == h[y]
    {
      assert k[y] == (x + r)[y] == x[y] + r[y];
      if y == m {
        assert k[y] == h[y] - 1;
      } else {
        assert k[y] == h[y];
      }
    }
  }

  /** When a card is missing at its turn, the hand keeps more than the thrown cards
      would leave. */
  lemma {:induction false} StuckKeepsCards(hand: seq<Card>, cards: seq<Card>)
    requires !Removable(hand, cards)
    ensures |Thrown(hand, cards)| > |hand| - |cards|
    decreases |cards|
  {
    WithoutMultiset(hand, cards[0]);
    if cards[0] in hand {
      StuckKeepsCards(Without(hand, cards[0]), cards[1..]);
    }
  }

  /** What giveToKitty accepts, one held card or two different held cards, always
      leaves the hand in full. */
  lemma HeldRemovable(hand: seq<Card>, cards: seq<Card>)
    requires forall i :: 0 <= i < |cards| ==> cards[i] in hand
    requires |cards| <= 1 || (|cards| == 2 && cards[0] != cards[1])
    ensures Removable(hand, cards)
  {
    if |cards| == 2 {
      WithoutMultiset(hand, cards[0]);
      assert cards[1] in multiset(Without(hand, cards[0]));
      assert cards[1..][1..] == [];
    } else if |cards| == 1 {
      assert cards[1..] == [];
    }
  }

  /** The kitty after takeCard of each card in turn: a card the kitty already holds is
      not taken again. */
  function Taken(kitty: seq<Card>, cards: seq<Card>): (r: seq<Card>)
    decreases |cards|
  {
    if cards == [] then kitty
    else Taken(if cards[0] in kitty then kitty else kitty + [cards[0]], cards[1..])
  }

  /** The kitty keeps its cards in front, and afterwards holds exactly the old cards and
      the thrown ones, each once if none was there twice before. */
  lemma {:induction false} TakenHolds(kitty: seq<Card>, cards: seq<Card>)
    ensures kitty <= Taken(kitty, cards)
    ensures forall c :: c in Taken(kitty, cards) <==> c in kitty || c in cards
    ensures Distinct(kitty) ==> Distinct(Taken(kitty, cards))
    ensures |Taken(kitty, cards)| <= |kitty| + |cards|
    decreases |cards|
  {
    if cards != [] {
      var next := if cards[0] in kitty then kitty else kitty + [cards[0]];
      TakenHolds(next, cards[1..]);
      assert forall c :: c in cards <==> c == cards[0] || c in cards[1..] by {
        assert cards == [cards[0]] + cards[1..];
      }
      assert kitty <= next;
    }
  }

  /** No card appears twice. */
  predicate Distinct(s: seq<Card>)
  {
    forall i, j :: 0 <= i < j < |s| ==> s[i] != s[j]
  }
}
