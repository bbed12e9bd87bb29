/** Playing cards: base_classes/items/card.ts. */
module Cards {
  import opened Wrappers

  /** The four suits, in the order of the source's enum (Hearts = 0 .. Clubs = 3). */
  datatype Suit = Hearts | Spades | Diamonds | Clubs

  /** Card values, Ace = 1 up to King = 13. */
  type Value = v: int | 1 <= v <= 13 witness 1

  const Ace: Value := 1
  const Ten: Value := 10
  const Jack: Value := 11
  const Queen: Value := 12
  const King: Value := 13

  /** An immutable card; two cards are equal exactly when suit and value agree. */
  datatype Card = Card(suit: Suit, value: Value)

  /** The enum ordinal of a suit. */
  function SuitIndex(s: Suit): (i: nat)
    ensures i < 4
  {
    match s
    case Hearts => 0
    case Spades => 1
    case Diamonds => 2
    case Clubs => 3
  }

  /** The suit with a given enum ordinal. */
  function SuitOf(i: nat): (s: Suit)
    requires i < 4
    ensures SuitIndex(s) == i
  {
    if i == 0 then Hearts else if i == 1 then Spades else if i == 2 then Diamonds else Clubs
  }

  /** The ordinals 0..3 and the four suits are in one-to-one correspondence. */
  lemma SuitEnumeration(s: Suit)
    ensures SuitOf(SuitIndex(s)) == s
  {
  }

  /** BaseCard.equalsOther: false for a missing card, otherwise equality of suit and value. */
  function EqualsOther(c: Card, other: Option<Card>): (b: bool)
    ensures b <==> other == Some(c)
  {
    match other
    case None => false
    case Some(o) => c.suit == o.suit && c.value == o.value
  }

  /** The enum name of a suit. */
  function SuitName(s: Suit): (name: string)
    ensures |name| >= 5 && ' ' !in name
  {
    match s
    case Hearts => "Hearts"
    case Spades => "Spades"
    case Diamonds => "Diamonds"
    case Clubs => "Clubs"
  }

  /** The enum name of a value. */
  function ValueName(v: Value): (name: string)
    ensures |name| >= 3 && ' ' !in name
  {
    if v == 1 then "Ace" else if v == 2 then "Two" else if v == 3 then "Three"
    else if v == 4 then "Four" else if v == 5 then "Five" else if v == 6 then "Six"
    else if v == 7 then "Seven" else if v == 8 then "Eight" else if v == 9 then "Nine"
    else if v == 10 then "Ten" else if v == 11 then "Jack" else if v == 12 then "Queen"
    else "King"
  }

  /** The decimal digit of a value in 2..9. */
  function Digit(v: Value): (d: char)
    requires 1 < v < 10
    ensures '2' <= d <= '9'
  {
    ('0' as int + v) as char
  }

  /** shortString: two characters, the value's digit for 2..9 or the initial of its
      name otherwise (so Ten is 'T'), followed by the initial of the suit's name. */
  function ShortString(c: Card): (r: string)
    ensures |r| == 2
    ensures r[1] == SuitName(c.suit)[0]
    ensures 1 < c.value < 10 ==> r[0] == Digit(c.value)
    ensures !(1 < c.value < 10) ==> r[0] == ValueName(c.value)[0] && r[0] in "ATJQK"
  {
    var first := if 1 < c.value < 10 then Digit(c.value) else ValueName(c.value)[0];
    [first, SuitName(c.suit)[0]]
  }

  /** No two distinct cards share a short string. */
  lemma ShortStringInjective(a: Card, b: Card)
    requires ShortString(a) == ShortString(b)
    ensures a == b
  {
    var sa, sb := ShortString(a), ShortString(b);
    assert sa[1] == sb[1];
    assert a.suit == b.suit by {
      assert SuitName(a.suit)[0] == SuitName(b.suit)[0];
    }
    if 1 < a.value < 10 && 1 < b.value < 10 {
      assert Digit(a.value) == Digit(b.value);
    } else if !(1 < a.value < 10) && !(1 < b.value < 10) {
      assert ValueName(a.value)[0] == ValueName(b.value)[0];
    }
  }

  /** toString: "<value name> of <suit name>". */
  function ToString(c: Card): (r: string)
    ensures |r| == |ValueName(c.value)| + 4 + |SuitName(c.suit)|
    ensures r[..|ValueName(c.value)|] == ValueName(c.value)
    ensures r[|ValueName(c.value)|..|ValueName(c.value)| + 4] == " of "
    ensures r[|ValueName(c.value)| + 4..] == SuitName(c.suit)
  {
    ValueName(c.value) + " of " + SuitName(c.suit)
  }

  /** The position of the first space in a string, or its length. */
  function FirstSpace(s: string): (i: nat)
    ensures i <= |s|
    ensures i < |s| ==> s[i] == ' '
    ensures forall j :: 0 <= j < i ==> s[j] != ' '
  {
    if s == [] then 0 else if s[0] == ' ' then 0 else 1 + FirstSpace(s[1..])
  }

  /** The first word of a card's text is the value's name, so the text identifies the card. */
  lemma ToStringInjective(a: Card, b: Card)
    requires ToString(a) == ToString(b)
    ensures a == b
  {
    var s := ToString(a);
    var na, nb := ValueName(a.value), ValueName(b.value);
    FirstSpaceAfter(na, " of " + SuitName(a.suit));
    FirstSpaceAfter(nb, " of " + SuitName(b.suit));
    assert na == s[..|na|] == nb;
    assert SuitName(a.suit) == s[|na| + 4..] == SuitName(b.suit);
  }

  /** A word without spaces followed by a space: the first space is just after the word. */
  lemma {:induction false} FirstSpaceAfter(word: string, rest: string)
    requires ' ' !in word && rest != [] && rest[0] == ' '
    ensures FirstSpace(word + rest) == |word|
  {
    if word != [] {
      assert (word + rest)[1..] == word[1..] + rest;
      FirstSpaceAfter(word[1..], rest);
    }
  }

}
