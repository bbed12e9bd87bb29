/** A deck of cards: base_classes/collections/deck.ts. Drawn cards are recorded in
    `removed`; shuffling puts them back. Math.random() is replaced by indices that the
    caller passes in. */
module Decks {
  import opened Cards

  /** Exchange the elements at positions i and j. */
  function Swap(s: seq<Card>, i: nat, j: nat): (r: seq<Card>)
    requires i < |s| && j < |s|
    ensures |r| == |s| && r[i] == s[j] && r[j] == s[i]
    ensures forall k :: 0 <= k < |s| && k != i && k != j ==> r[k] == s[k]
  {
    s[i := s[j]][j := s[i]]
  }

  lemma SwapMultiset(s: seq<Card>, i: nat, j: nat)
    requires i < |s| && j < |s|
    ensures multiset(Swap(s, i, j)) == multiset(s)
  {
    var t := s[i := s[j]];
    assert multiset(t) == multiset(s) - multiset{s[i]} + multiset{s[j]};
  }

  /** The random positions Fisher-Yates may use: at step m the new position is at most m. */
  predicate ValidPositions(positions: seq<nat>, n: nat)
  {
    |positions| >= n && forall m :: 0 <= m < |positions| ==> positions[m] <= m
  }

  /** Fisher-Yates from position m down to 1: swap s[positions[m]] with s[m], then go on
      with m - 1. */
  function FisherYates(s: seq<Card>, positions: seq<nat>, m: nat): (r: seq<Card>)
    requires m < |s| && ValidPositions(positions, |s|)
    decreases m
  {
    if m == 0 then s else FisherYates(Swap(s, positions[m], m), positions, m - 1)
  }

  /** The shuffle is a permutation of what it shuffles. */
  lemma {:induction false} FisherYatesPermutes(s: seq<Card>, positions: seq<nat>, m: nat)
    requires m < |s| && ValidPositions(positions, |s|)
    ensures |FisherYates(s, positions, m)| == |s|
    ensures multiset(FisherYates(s, positions, m)) == multiset(s)
    decreases m
  {
    if m > 0 {
      SwapMultiset(s, positions[m], m);
      FisherYatesPermutes(Swap(s, positions[m], m), positions, m - 1);
    }
  }

  /** The order shuffle leaves: the removed cards go back after the remaining ones, then
      Fisher-Yates runs over the whole deck. */
  function Shuffled(items: seq<Card>, removed: seq<Card>, positions: seq<nat>): (r: seq<Card>)
    requires ValidPositions(positions, |items| + |removed|)
  {
    var all := items + removed;
    if all == [] then [] else FisherYates(all, positions, |all| - 1)
  }

  lemma ShuffledPermutes(items: seq<Card>, removed: seq<Card>, positions: seq<nat>)
    requires ValidPositions(positions, |items| + |removed|)
    ensures multiset(Shuffled(items, removed, positions)) == multiset(items + removed)
    ensures |Shuffled(items, removed, positions)| == |items| + |removed|
  {
    var all := items + removed;
    if all != [] {
      FisherYatesPermutes(all, positions, |all| - 1);
    }
  }

  class Deck {
    var items: seq<Card>
    var removed: seq<Card>

    constructor(cards: seq<Card>)
      ensures items == cards && removed == []
    {
      items := cards;
      removed := [];
    }

    /** Every card the deck owns, whether still in it or drawn. */
    function AllCards(): multiset<Card>
      reads this
    {
      multiset(items) + multiset(removed)
    }

    /** shuffle: put the removed cards back at the end, in order, then run Fisher-Yates
        with the given positions in place of Math.random(). */
    method Shuffle(positions: seq<nat>)
      requires ValidPositions(positions, |items| + |removed|)
      modifies this
      ensures items == Shuffled(old(items), old(removed), positions)
      ensures removed == []
      ensures AllCards() == old(AllCards())
    {
      ShuffledPermutes(items, removed, positions);
      var index := 0;
      ghost var start := items;
      while index < |removed|
        invariant 0 <= index <= |removed|
        invariant removed == old(removed) && start == old(items)
        invariant items == start + removed[..index]
      {
        items := items + [removed[index]];
        index := index + 1;
      }
      assert removed[..index] == removed;
      removed := [];
      var numCards := |items|;
      ghost var all := items;
      assert all == old(items) + old(removed);
      if numCards > 0 {
        numCards := numCards - 1;
        while numCards > 0
          invariant 0 <= numCards < |items| == |all| == |old(items)| + |old(removed)|
          invariant removed == []
          invariant FisherYates(items, positions, numCards) == FisherYates(all, positions, |all| - 1)
        {
          var newPos := positions[numCards];
          var oldCard := items[newPos];
          items := items[newPos := items[numCards]];
          items := items[numCards := oldCard];
          numCards := numCards - 1;
        }
      }
    }

    /** draw: take the top card, record it as removed and return it. */
    method Draw() returns (c: Card)
      requires items != []
      modifies this
      ensures c == old(items)[0]
      ensures items == old(items)[1..]
      ensures removed == old(removed) + [c]
      ensures AllCards() == old(AllCards())
    {
      c := items[0];
      assert items == [c] + items[1..];
      items := items[1..];
      removed := removed + [c];
    }

    /** randomDraw: the card at `index` (Math.floor(Math.random() * count) in the source);
        without replacement it moves from items to removed, with replacement nothing
        changes. */
    method RandomDraw(withReplacement: bool, index: nat) returns (c: Card)
      requires index < |items|
      modifies this
      ensures c == old(items)[index]
      ensures withReplacement ==> items == old(items) && removed == old(removed)
      ensures !withReplacement ==>
        items == old(items)[..index] + old(items)[index + 1..] && removed == old(removed) + [c]
      ensures AllCards() == old(AllCards())
    {
      c := items[index];
      if !withReplacement {
        removed := removed + [c];
        assert items == items[..index] + [c] + items[index + 1..];
        items := items[..index] + items[index + 1..];
      }
    }

    /** getCards: a copy of the remaining cards, in order. */
    method GetCards() returns (cards: seq<Card>)
      ensures cards == items
    {
      cards := [];
      for i := 0 to |items|
        invariant cards == items[..i]
      {
        cards := cards + [items[i]];
      }
      assert items[..|items|] == items;
    }
  }
}
