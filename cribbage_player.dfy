/** A cribbage player: implementations/cribbage_player.ts together with what it inherits
    from base_classes/items/player.ts. The player's hand is kept as a sequence of cards
    that the player's methods update with the hand operations of ItemCollections (take out
    the first equal card, append a card that is not yet held). */
module CribbagePlayers {
  import opened Wrappers
  import opened Cards
  import opened ItemCollections
  import opened Hands
  import opened Sorting
  import opened CribbageHands

  /** Some card of the hand, at its face value, keeps the count at or below 31. */
  predicate FitsAtFace(hand: seq<Card>, count: int)
  {
    exists i :: 0 <= i < |hand| && hand[i].value + count <= 31
  }

  /** Some card of the hand, at its worth toward fifteen, keeps the count at or below 31:
      the hand holds a card that playCard's check on the count lets through. */
  predicate FitsAtWorth(hand: seq<Card>, count: int)
  {
    exists i :: 0 <= i < |hand| && CardValue(hand[i]) + count <= 31
  }

  /** A card that fits at its face value fits at its worth, and a hand holds a card that
      fits at its worth exactly when one of its cards does. */
  lemma FitsAtWorthHeld(hand: seq<Card>, count: int)
    ensures FitsAtFace(hand, count) ==> FitsAtWorth(hand, count)
    ensures FitsAtWorth(hand, count) <==> exists c :: c in hand && CardValue(c) + count <= 31
  {
    if FitsAtFace(hand, count) {
      var i :| 0 <= i < |hand| && hand[i].value + count <= 31;
      assert CardValue(hand[i]) + count <= 31;
    }
    if c :| c in hand && CardValue(c) + count <= 31 {
      var i :| 0 <= i < |hand| && hand[i] == c;
      assert CardValue(hand[i]) + count <= 31;
    }
  }

  /** The face value lets a face card through only at a count of 18 or less, where its
      worth lets it through up to 21: with only a King in hand at a count of 21, canPlay
      as written says the player cannot play, yet the King brings the count to exactly
      31. */
  lemma KingAtTwentyOne()
    ensures var hand := [Card(Spades, King)];
      !FitsAtFace(hand, 21) && FitsAtWorth(hand, 21) && CardValue(hand[0]) + 21 == 31
  {
    var hand := [Card(Spades, King)];
    assert CardValue(hand[0]) + 21 <= 31;
  }

  class CribbagePlayer {
    const name: string
    var hand: seq<Card>
    var played: seq<Card>
    var points: int

    constructor(name: string, hand: seq<Card>)
      ensures this.name == name && this.hand == hand
      ensures played == [] && points == 0
    {
      this.name := name;
      this.hand := hand;
      played := [];
      points := 0;
    }

    /** numCards: the size of the hand. */
    function NumCards(): nat
      reads this
    {
      |hand|
    }

    /** equalsOther: two players are the same player when their names are equal; no
        player equals null. */
    function EqualsOther(other: Option<CribbagePlayer>): (equals: bool)
      ensures equals <==> other.Some? && other.value.name == name
    {
      match other
      case None => false
      case Some(p) => p.name == name
    }

    /** addPoints */
    method AddPoints(amount: int)
      modifies this`points
      ensures points == old(points) + amount
    {
      points := points + amount;
    }

    /** playCard: a held card leaves the hand (its first copy) and is recorded as played;
        a card that is not held changes nothing. */
    method PlayCard(card: Card) returns (inHand: bool)
      modifies this`hand, this`played
      ensures inHand <==> card in old(hand)
      ensures hand == Without(old(hand), card)
      ensures played == if inHand then old(played) + [card] else old(played)
      ensures inHand ==> multiset(hand) == multiset(old(hand)) - multiset{card}
    {
      WithoutMultiset(hand, card);
      var index := LinearSearch(hand, card);
      inHand := index != -1;
      if inHand {
        WithoutIsSplice(hand, card);
        assert index == FirstIndex(hand, card);
        hand := hand[..index] + hand[index + 1..];
        played := played + [card];
      }
    }

    /** The hand's own playCard, used when cards go to the kitty: the first equal card
        leaves the hand and nothing is recorded as played. */
    method PlayFromHand(card: Card) returns (inHand: bool)
      modifies this`hand
      ensures inHand <==> card in old(hand)
      ensures hand == Without(old(hand), card)
      ensures inHand ==> multiset(hand) == multiset(old(hand)) - multiset{card}
    {
      WithoutMultiset(hand, card);
      var index := LinearSearch(hand, card);
      inHand := index != -1;
      if inHand {
        WithoutIsSplice(hand, card);
        hand := hand[..index] + hand[index + 1..];
      }
    }

    /** takeCard: the hand's takeCard, which appends the card only when no equal card is
        held. */
    method TakeCard(card: Card) returns (taken: bool)
      modifies this`hand
      ensures taken <==> card !in old(hand)
      ensures hand == if taken then old(hand) + [card] else old(hand)
    {
      var index := LinearSearch(hand, card);
      taken := index == -1;
      if taken {
        hand := hand + [card];
      }
    }

    /** canPlay as written: whether some held card, at its face value (a Jack is 11, not
        10), keeps the count at or below 31. */
    method CanPlay(count: int) returns (canPlay: bool)
      ensures canPlay <==> FitsAtFace(hand, count)
    {
      canPlay := false;
      var index := 0;
      while index < |hand|
        invariant 0 <= index <= |hand|
        invariant forall i :: 0 <= i < index ==> hand[i].value + count > 31
      {
        if hand[index].value + count <= 31 {
          canPlay := true;
          break;
        }
        index := index + 1;
      }
    }

    /** canPlay as the game needs it: whether some held card, at the worth playCard adds
        to the count (a face card is 10), keeps the count at or below 31. */
    method CanPlayAtWorth(count: int) returns (canPlay: bool)
      ensures canPlay <==> FitsAtWorth(hand, count)
    {
      canPlay := false;
      var index := 0;
      while index < |hand|
        invariant 0 <= index <= |hand|
        invariant forall i :: 0 <= i < index ==> CardValue(hand[i]) + count > 31
      {
        if CardValue(hand[index]) + count <= 31 {
          canPlay := true;
          break;
        }
        index := index + 1;
      }
    }

    /** resetCards: no cards in hand and none played. */
    method ResetCards()
      modifies this`hand, this`played
      ensures hand == [] && played == []
    {
      hand := [];
      played := [];
    }

    /** The hand's sortCards, which printHand calls before listing the hand: the cards
        in the stable order of their values. */
    method SortHand()
      modifies this`hand
      ensures hand == SortBy(old(hand), ByValue)
      ensures SortedBy(hand, ByValue)
      ensures multiset(hand) == multiset(old(hand))
    {
      SortByFacts(hand, ByValue);
      hand := SortBy(hand, ByValue);
    }

    /** countPoints: the played cards go back into the hand, after the ones still held;
        a copy of that hand is scored with the cut under the four-card flush rule, so the
        player's own hand does not gain the cut. */
    method CountPoints(cut: Card) returns (score: nat)
      requires |WithCut(hand + played, cut)| >= 5
      modifies this`hand, this`played
      ensures hand == old(hand) + old(played) && played == []
      ensures score == HandScore(WithCut(hand, cut), cut, false)
    {
      hand := hand + played;
      played := [];
      var cribHand := new Hand(hand);
      score := CribbageHands.CountPoints(cribHand, cut, false);
    }
  }

  /** The players' names, seat by seat. */
  function Names(players: seq<CribbagePlayer>): (names: seq<string>)
    ensures |names| == |players|
    ensures forall i :: 0 <= i < |players| ==> names[i] == players[i].name
  {
    seq(|players|, i requires 0 <= i < |players| => players[i].name)
  }

  /** No two players share a name; then they are also distinct objects. */
  predicate NamesDistinct(players: seq<CribbagePlayer>)
  {
    forall i, j :: 0 <= i < j < |players| ==> players[i].name != players[j].name
  }

  /** The test of spec/CribbagePlayerSpec.ts: a played card leaves the hand of four and is
      the one card recorded as played; resetting leaves both empty. */
  method PlayThenReset() returns (inHand: bool, handAfterPlay: nat, playedAfterPlay: seq<Card>,
                                  handAfterReset: nat, playedAfterReset: nat)
    ensures inHand && handAfterPlay == 3 && playedAfterPlay == [Card(Spades, Ace)]
    ensures handAfterReset == 0 && playedAfterReset == 0
  {
    var player := new CribbagePlayer("Bob", [Card(Spades, Ace), Card(Clubs, 4),
                                             Card(Diamonds, Jack), Card(Hearts, King)]);
    inHand := player.PlayCard(Card(Spades, Ace));
    handAfterPlay := player.NumCards();
    playedAfterPlay := player.played;
    player.ResetCards();
    handAfterReset := player.NumCards();
    playedAfterReset := |player.played|;
  }
}
