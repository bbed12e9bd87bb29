/** The 52-card deck: implementations/standard_deck.ts. Suits and values are enumerated
    as the constants 4 and 13. */
module StandardDeck {
  import opened Cards
  import opened Decks

  /** Where a card sits in the standard order: suit-major, value-minor. */
  function Position(c: Card): (p: nat)
    ensures p < 52
  {
    13 * SuitIndex(c.suit) + c.value - 1
  }

  /** The card at a position of the standard order. */
  function CardAt(p: nat): (c: Card)
    requires p < 52
    ensures Position(c) == p
    ensures SuitIndex(c.suit) == p / 13 && c.value == p % 13 + 1
  {
    Card(SuitOf(p / 13), p % 13 + 1)
  }

  /** Positions and cards correspond one to one. */
  lemma PositionRoundTrip(c: Card)
    ensures CardAt(Position(c)) == c
  {
    SuitEnumeration(c.suit);
  }

  /** The order the constructor produces: the card at 13 * s + (v - 1) has suit s and
      value v. */
  function StandardOrder(): (cards: seq<Card>)
    ensures |cards| == 52
    ensures forall p :: 0 <= p < 52 ==> cards[p] == CardAt(p)
  {
    seq(52, p requires 0 <= p < 52 => CardAt(p))
  }

  /** Every card occurs in the standard deck, at its position. */
  lemma StandardOrderComplete(c: Card)
    ensures StandardOrder()[Position(c)] == c
  {
    PositionRoundTrip(c);
  }

  /** No card occurs twice in the standard deck. */
  lemma StandardOrderDistinct()
    ensures forall i, j :: 0 <= i < j < 52 ==> StandardOrder()[i] != StandardOrder()[j]
  {
    forall i, j | 0 <= i < j < 52 ensures StandardOrder()[i] != StandardOrder()[j] {
      assert Position(StandardOrder()[i]) == i;
    }
  }

  /** The constructor's nested loops: suits outer, values 1..13 inner. */
  method StandardCards() returns (cards: seq<Card>)
    ensures cards == StandardOrder()
  {
    cards := [];
    var ixSuit := 0;
    while ixSuit < 4
      invariant 0 <= ixSuit <= 4
      invariant cards == StandardOrder()[..13 * ixSuit]
    {
      var ixVal := 1;
      while ixVal < 14
        invariant 1 <= ixVal <= 14
        invariant cards == StandardOrder()[..13 * ixSuit + ixVal - 1]
      {
        assert CardAt(13 * ixSuit + ixVal - 1) == Card(SuitOf(ixSuit), ixVal);
        cards := cards + [Card(SuitOf(ixSuit), ixVal)];
        ixVal := ixVal + 1;
      }
      ixSuit := ixSuit + 1;
    }
  }

  /** new StandardDeck(): a deck holding the 52 cards in standard order, nothing removed. */
  method NewStandardDeck() returns (d: Deck)
    ensures fresh(d)
    ensures d.items == StandardOrder() && d.removed == []
  {
    var cards := StandardCards();
    d := new Deck(cards);
  }
}
