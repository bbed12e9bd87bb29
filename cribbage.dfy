/** The cribbage game: implementations/cribbage.ts. The game owns its players (seats 0,
    1, ... in the order they joined), the teams built from them, the kitty, the cards
    played since the count was last reset and a standard deck. Where the source keeps a
    player object (the dealer, the next player, the last player to play, the players still
    in play) the model keeps the player's seat. Every `throw` of the source is a `Fail`
    or `Failure` result; `Defect` stands for the source failing in a way it does not
    announce (a property read on null, an index out of bounds), and `Diverges` for a loop
    of the source that would never end. Math.random() is replaced by indices and shuffle
    positions that the caller passes in. */
module CribbageGame {
  import opened Wrappers
  import opened Cards
  import opened ItemCollections
  import opened Hands
  import opened Sorting
  import opened Decks
  import opened StandardDeck
  import opened CardGame
  import opened Teams
  import opened CribbageHands
  import opened CribbagePlayers
  import opened CribbageTeams
  import opened CribbageRules

  /** Free-for-all or team play. */
  datatype Mode = FreeForAll | TeamPlay

  /** The ErrorStrings the game throws, the sequence's refusal of a card it holds, and
      the two ways the game fails without a message. */
  datatype GameError =
    | InvalidNumberOfPlayers
    | InvalidNumCardsThrownToKitty
    | DuplicateCardThrownToKitty
    | InvalidThrower
    | KittyNotReady
    | KittyIsReady
    | Exceeds31
    | NotNextPlayer
    | PlayerDoesntHaveCard
    | PlayerDoesNotExist
    | PlayerAlreadyInGame
    | PlayerCanPlay
    | PlayerNotInPlay
    | GameHasAlreadyBegun
    | CardAlreadyInSequence
    | ItemIndexOutOfBounds
    | NotImplemented
    | Defect
    | Diverges

  /** The outcome of an operation that returns nothing in the source. */
  datatype Status = Ok | Fail(error: GameError)

  /** CribbageReturn without its message. */
  datatype Response = Response(gameOver: bool, roundOver: bool, sequenceOver: bool)

  const Continue := Response(false, false, false)
  const GameOver := Response(true, false, false)

  /** The players' hands, seat by seat. */
  function HandsOf(players: seq<CribbagePlayer>): (hands: seq<seq<Card>>)
    reads (set p | p in players)`hand
    ensures |hands| == |players|
    ensures forall i :: 0 <= i < |players| ==> hands[i] == players[i].hand
  {
    if players == [] then []
    else HandsOf(players[..|players| - 1]) + [players[|players| - 1].hand]
  }

  /** The players' played cards, seat by seat. */
  function PlayedOf(players: seq<CribbagePlayer>): (played: seq<seq<Card>>)
    reads (set p | p in players)`played
    ensures |played| == |players|
    ensures forall i :: 0 <= i < |players| ==> played[i] == players[i].played
  {
    if players == [] then []
    else PlayedOf(players[..|players| - 1]) + [players[|players| - 1].played]
  }

  /** The teams as base teams (ids and member names), for Teams.findTeam. */
  function TeamValues(teams: seq<CribbageTeam>): (ts: seq<Team>)
    ensures |ts| == |teams|
    ensures forall i :: 0 <= i < |teams| ==> ts[i] == teams[i].AsTeam()
  {
    seq(|teams|, i requires 0 <= i < |teams| => teams[i].AsTeam())
  }

  /** One seat on round a table of n, as nextPlayerInOrder moves: back to seat 0 after
      the last seat. */
  function Step(seat: nat, n: nat): nat
  {
    if seat + 1 >= n then 0 else seat + 1
  }

  /** The seat d steps after `seat`. */
  function Advance(seat: nat, n: nat, d: nat): nat
  {
    if d == 0 then seat else Step(Advance(seat, n, d - 1), n)
  }

  /** Going d <= n steps round the table from a seat lands d seats on, wrapping once. */
  lemma {:induction false} AdvanceValue(seat: nat, n: nat, d: nat)
    requires seat < n && d <= n
    ensures Advance(seat, n, d) == if seat + d < n then seat + d else seat + d - n
  {
    if d > 0 {
      AdvanceValue(seat, n, d - 1);
    }
  }

  /** Every seat of the table is reached from any seat within n steps, and n steps come
      back to the start: going round visits each seat once. */
  lemma DistanceTo(start: nat, s: nat, n: nat) returns (d: nat)
    requires start < n && s < n
    ensures 1 <= d <= n && Advance(start, n, d) == s
    ensures forall d' :: 1 <= d' < d ==> Advance(start, n, d') != s
  {
    d := if s > start then s - start else s + n - start;
    AdvanceValue(start, n, d);
    forall d' | 1 <= d' < d
      ensures Advance(start, n, d') != s
    {
      AdvanceValue(start, n, d');
    }
  }

  /** How many seats after `first` the seat `s` comes, going round a table of n. */
  function Offset(s: nat, first: nat, n: nat): (d: nat)
    requires s < n && first < n
    ensures d < n
  {
    if s >= first then s - first else s + n - first
  }

  /** Cards from the top of the deck go to one player, each taken only if not already
      held, until the player holds k cards: a player whose hand is empty gets the top k
      cards. */
  method DealTo(deck: Deck, player: CribbagePlayer, k: nat)
    requires player.hand == [] && deck.removed == [] && k <= |deck.items|
    requires deck.AllCards() == multiset(StandardOrder())
    modifies deck, player`hand
    ensures player.hand == old(deck.items)[..k]
    ensures deck.items == old(deck.items)[k..] && deck.removed == player.hand
    ensures deck.AllCards() == old(deck.AllCards())
  {
    ghost var order := deck.items;
    while |player.hand| < k
      invariant |player.hand| <= k
      invariant player.hand == order[..|player.hand|] && deck.removed == player.hand
      invariant deck.items == order[|player.hand|..]
      invariant deck.AllCards() == multiset(StandardOrder())
      decreases k - |player.hand|
    {
      TopNotDrawn(deck);
      var card := deck.Draw();
      var taken := player.TakeCard(card);
    }
  }

  /** The cards a round-robin deal from `order` gives the seat `j` places after the first
      one dealt to, when every one of the n seats gets k cards: order[j], order[n + j], ... */
  function Dealt(order: seq<Card>, n: nat, j: nat, k: nat): (hand: seq<Card>)
    requires j < n && k * n <= |order|
    ensures |hand| == k
  {
    if k == 0 then []
    else
      MulStep(k, n);
      Dealt(order, n, j, k - 1) + [order[(k - 1) * n + j]]
  }

  /** The i-th card of such a hand is the card at i * n + j. */
  lemma {:induction false} DealtAt(order: seq<Card>, n: nat, j: nat, k: nat, i: nat)
    requires j < n && k * n <= |order| && i < k
    ensures i * n + j < |order| && Dealt(order, n, j, k)[i] == order[i * n + j]
  {
    MulStep(k, n);
    if i < k - 1 {
      DealtAt(order, n, j, k - 1, i);
    }
  }

  /** The round-robin deal itself: starting at seat `first` and going round the table of
      n seats, the top card of the deck goes to the current seat, unless that hand already
      holds an equal card, until the seat to be dealt to next holds m cards. The hands
      start empty. */
  method DealCards(deck: Deck, n: nat, first: nat, m: nat) returns (hands: seq<seq<Card>>)
    requires first < n && m * n <= |deck.items|
    requires deck.AllCards() == multiset(StandardOrder()) && deck.removed == []
    modifies deck
    ensures |hands| == n
    ensures forall s :: 0 <= s < n ==> hands[s] == Dealt(old(deck.items), n, Offset(s, first, n), m)
    ensures deck.items == old(deck.items)[m * n..] && deck.removed == old(deck.items)[..m * n]
    ensures deck.AllCards() == old(deck.AllCards())
  {
    hands := seq(n, _ => []);
    var seat: nat := first;
    ghost var order := deck.items;
    ghost var drawn: nat := 0;
    while |hands[seat]| < m
      invariant drawn <= m * n && seat < n && Offset(seat, first, n) == drawn % n
      invariant deck.items == order[drawn..] && deck.removed == order[..drawn]
      invariant deck.AllCards() == multiset(StandardOrder())
      invariant |hands| == n
      invariant forall s :: 0 <= s < n ==> hands[s] == Picks(order, n, Offset(s, first, n), drawn)
      decreases m * n - drawn
    {
      PicksCount(order, n, drawn % n, drawn);
      DrawnBound(drawn, n, m);
      hands := DealNext(deck, n, first, order, seat, drawn, hands);
      DivModStep(drawn, n);
      StepOffset(seat, first, n);
      seat := Step(seat, n);
      drawn := drawn + 1;
    }
    PicksCount(order, n, drawn % n, drawn);
    DrawnBound(drawn, n, m);
    forall s | 0 <= s < n
      ensures hands[s] == Dealt(order, n, Offset(s, first, n), m)
    {
      PicksDealt(order, n, Offset(s, first, n), m);
    }
  }

  /** One card of the round-robin deal: the top card goes to the seat whose turn it is,
      unless that hand already holds it, which it never does in a complete deck. */
  method DealNext(deck: Deck, n: nat, first: nat, ghost order: seq<Card>, seat: nat, ghost drawn: nat,
                  hands: seq<seq<Card>>) returns (hands': seq<seq<Card>>)
    requires first < n && seat < n && drawn < |order| && Offset(seat, first, n) == drawn % n
    requires deck.items == order[drawn..] && deck.removed == order[..drawn]
    requires deck.AllCards() == multiset(StandardOrder())
    requires |hands| == n && forall s :: 0 <= s < n ==> hands[s] == Picks(order, n, Offset(s, first, n), drawn)
    modifies deck
    ensures deck.items == order[drawn + 1..] && deck.removed == order[..drawn + 1]
    ensures deck.AllCards() == multiset(StandardOrder())
    ensures |hands'| == n && forall s :: 0 <= s < n ==> hands'[s] == Picks(order, n, Offset(s, first, n), drawn + 1)
  {
    TopNotDrawn(deck);
    var card := deck.Draw();
    assert order[..drawn] + [card] == order[..drawn + 1];
    hands' := hands;
    if card !in hands[seat] {
      hands' := hands[seat := hands[seat] + [card]];
    }
  }

  /** The first |hands| players take up these hands; the others keep theirs. */
  method GiveHands(players: seq<CribbagePlayer>, hands: seq<seq<Card>>)
    requires NamesDistinct(players) && |hands| <= |players|
    modifies (set p | p in players)`hand
    ensures forall s :: 0 <= s < |hands| ==> players[s].hand == hands[s]
    ensures forall s :: |hands| <= s < |players| ==> players[s].hand == old(players[s].hand)
  {
    forall s | 0 <= s < |hands| {
      players[s].hand := hands[s];
    }
  }

  /** The cards among the first t of `order` whose position is j modulo n: what a deal
      round a table of n gives the seat j places after the first one, once t cards are
      drawn. */
  function Picks(order: seq<Card>, n: nat, j: nat, t: nat): (hand: seq<Card>)
    requires 0 < n && t <= |order|
    ensures forall c :: c in hand ==> c in order[..t]
  {
    if t == 0 then []
    else
      var before := Picks(order, n, j, t - 1);
      assert order[..t - 1] <= order[..t];
      before + (if (t - 1) % n == j then [order[t - 1]] else [])
  }

  /** Of the first t positions, t / n are j modulo n, and one more when j < t % n. */
  lemma {:induction false} PicksCount(order: seq<Card>, n: nat, j: nat, t: nat)
    requires j < n && t <= |order|
    ensures |Picks(order, n, j, t)| == t / n + (if j < t % n then 1 else 0)
  {
    if t > 0 {
      PicksCount(order, n, j, t - 1);
      DivModStep(t - 1, n);
      var q, r := (t - 1) / n, (t - 1) % n;
      assert |Picks(order, n, j, t)| == |Picks(order, n, j, t - 1)| + (if r == j then 1 else 0);
      if r == n - 1 {
        assert t / n == q + 1 && t % n == 0;
      } else {
        assert t / n == q && t % n == r + 1;
      }
    }
  }

  /** Within one turn round the table, only the seat j places on gets a card. */
  lemma {:induction false} PicksBlock(order: seq<Card>, n: nat, j: nat, q: nat, r: nat)
    requires j < n && r <= n && q * n + r <= |order|
    ensures Picks(order, n, j, q * n + r) ==
      Picks(order, n, j, q * n) + (if j < r then [order[q * n + j]] else [])
  {
    if r > 0 {
      PicksBlock(order, n, j, q, r - 1);
      DivModUnique(q * n + r - 1, n, q, r - 1);
    }
  }

  /** After k full turns round the table, the seat j places on holds Dealt's k cards. */
  lemma {:induction false} PicksDealt(order: seq<Card>, n: nat, j: nat, k: nat)
    requires j < n && k * n <= |order|
    ensures Picks(order, n, j, k * n) == Dealt(order, n, j, k)
  {
    if k > 0 {
      MulStep(k, n);
      PicksDealt(order, n, j, k - 1);
      PicksBlock(order, n, j, k - 1, n);
    }
  }

  /** A deal of m cards each stops exactly when m * n cards are drawn. */
  lemma DrawnBound(drawn: nat, n: nat, m: nat)
    requires 0 < n && drawn <= m * n
    ensures drawn / n < m <==> drawn < m * n
  {
    var q, r := drawn / n, drawn % n;
    if q < m {
      MulMono(q + 1, m, n);
      Distrib(q, 1, n);
    } else {
      MulMono(m, q, n);
    }
  }

  lemma Distrib(a: nat, k: nat, n: nat)
    ensures (a + k) * n == a * n + k * n
  {
  }

  lemma MulAtLeast(k: nat, n: nat)
    requires k >= 1
    ensures k * n >= n
  {
    Distrib(k - 1, 1, n);
  }

  /** The quotient and remainder by n are the only such pair. */
  lemma SameDivision(n: nat, q: nat, r: nat, q': nat, r': nat)
    requires r < n && r' < n && q * n + r == q' * n + r'
    ensures q == q' && r == r'
  {
    if q' < q {
      Distrib(q', q - q', n);
      MulAtLeast(q - q', n);
    } else if q < q' {
      Distrib(q, q' - q, n);
      MulAtLeast(q' - q, n);
    }
  }

  lemma DivModUnique(x: nat, n: nat, q: nat, r: nat)
    requires r < n && x == q * n + r
    ensures x / n == q && x % n == r
  {
    SameDivision(n, q, r, x / n, x % n);
  }

  lemma DivModStep(t: nat, n: nat)
    requires 0 < n
    ensures (t + 1) / n == t / n + (if t % n == n - 1 then 1 else 0)
    ensures (t + 1) % n == if t % n == n - 1 then 0 else t % n + 1
  {
    var q, r := t / n, t % n;
    if r == n - 1 {
      DivModUnique(t + 1, n, q + 1, 0);
    } else {
      DivModUnique(t + 1, n, q, r + 1);
    }
  }

  /** The seat after `seat` is one further from `first`, or `first` itself again. */
  lemma StepOffset(seat: nat, first: nat, n: nat)
    requires seat < n && first < n
    ensures Step(seat, n) < n
    ensures Offset(Step(seat, n), first, n) == if Offset(seat, first, n) + 1 < n then Offset(seat, first, n) + 1 else 0
  {
  }

  lemma MulStep(k: nat, n: nat)
    requires k > 0
    ensures (k - 1) * n + n == k * n
  {
  }

  lemma MulMono(a: nat, b: nat, n: nat)
    requires a <= b
    ensures a * n <= b * n
  {
    var k := b - a;
    assert b * n == a * n + k * n;
  }

  /** The position of the first card of lowest value: the card that wins the cut for
      dealer. */
  function FirstLowest(cards: seq<Card>): (i: nat)
    requires cards != []
    ensures i < |cards|
    ensures forall j :: 0 <= j < |cards| ==> cards[i].value <= cards[j].value
    ensures forall j :: 0 <= j < i ==> cards[j].value > cards[i].value
  {
    if |cards| == 1 then 0
    else
      var k := FirstLowest(cards[..|cards| - 1]);
      if cards[|cards| - 1].value < cards[k].value then |cards| - 1 else k
  }

  /** The draws of cutForDealer: n cards drawn without replacement, the i-th at position
      indices[i] modulo the cards left; the drawing stops at an empty deck. */
  method CutCards(deck: Deck, indices: seq<nat>, n: nat) returns (enough: bool, cuts: seq<Card>)
    requires |indices| >= n
    modifies deck
    ensures enough <==> |old(deck.items)| >= n
    ensures |cuts| == if enough then n else |old(deck.items)|
    ensures deck.removed == old(deck.removed) + cuts
    ensures |deck.items| + |deck.removed| == |old(deck.items)| + |old(deck.removed)|
    ensures deck.AllCards() == old(deck.AllCards())
  {
    cuts := [];
    for index := 0 to n
      invariant |cuts| == index && deck.removed == old(deck.removed) + cuts
      invariant |deck.items| == |old(deck.items)| - index
      invariant deck.AllCards() == old(deck.AllCards())
    {
      if deck.items == [] {
        return false, cuts;
      }
      var card := deck.RandomDraw(false, indices[index] % |deck.items|);
      cuts := cuts + [card];
    }
    enough := true;
  }

  /** No card occurs twice in the standard deck. */
  lemma StandardOnce(c: Card)
    ensures multiset(StandardOrder())[c] <= 1
  {
    StandardOrderDistinct();
    DistinctOnce(StandardOrder(), c);
  }

  lemma {:induction false} DistinctOnce(s: seq<Card>, c: Card)
    requires forall i, j :: 0 <= i < j < |s| ==> s[i] != s[j]
    ensures multiset(s)[c] <= 1
  {
    if s != [] {
      DistinctOnce(s[1..], c);
      assert s == [s[0]] + s[1..];
      assert s[0] !in s[1..];
    }
  }

  /** In a deck holding each standard card once, the top card has not been drawn. */
  lemma TopNotDrawn(deck: Deck)
    requires deck.AllCards() == multiset(StandardOrder()) && deck.items != []
    ensures deck.items[0] !in deck.removed
  {
    var c := deck.items[0];
    StandardOnce(c);
    assert multiset(deck.items)[c] >= 1;
  }

  /** What a player's cards score at the end of a round: the cards still held and the
      cards played, with the cut, under the four-card flush rule; nothing when fewer than
      five cards would be scored (where the source fails). */
  function HandGain(cards: seq<Card>, cut: Card): (points: nat)
    ensures |WithCut(cards, cut)| < 5 ==> points == 0
    ensures |WithCut(cards, cut)| >= 5 ==> points == HandScore(WithCut(cards, cut), cut, false)
  {
    var all := WithCut(cards, cut);
    if |all| >= 5 then HandScore(all, cut, false) else 0
  }

  /** What the kitty scores for the dealer: its cards with the cut, where only a flush of
      all five counts. */
  function KittyGain(kitty: seq<Card>, cut: Card): (points: nat)
    ensures |WithCut(kitty, cut)| < 5 ==> points == 0
    ensures |WithCut(kitty, cut)| >= 5 ==> points == HandScore(WithCut(kitty, cut), cut, true)
  {
    var all := WithCut(kitty, cut);
    if |all| >= 5 then HandScore(all, cut, true) else 0
  }

  /** `points` is what the cards score at the end of a round. The quantifier is triggered
      by HandGain itself, so the scoring is unfolded only in proofs that name it. */
  ghost predicate Gained(cards: seq<Card>, cut: Card, points: nat)
  {
    forall c {:trigger HandGain(c, cut)} :: c == cards ==> points == HandGain(c, cut)
  }

  /** `points` is what the kitty scores at the end of a round, stated as Gained is. */
  ghost predicate KittyGained(kitty: seq<Card>, cut: Card, points: nat)
  {
    forall c {:trigger KittyGain(c, cut)} :: c == kitty ==> points == KittyGain(c, cut)
  }

  /** The kitty once counted: the cut joins it to be scored and its first copy leaves
      again, so a kitty that did not hold the cut is as it was. */
  function KittyAfterCount(kitty: seq<Card>, cut: Card): (cards: seq<Card>)
    ensures cut !in kitty ==> cards == kitty
  {
    if cut in kitty then Without(kitty, cut)
    else WithoutAppended(kitty, cut); Without(kitty + [cut], cut)
  }

  /** The players hold these hands, seat by seat. */
  ghost predicate HandsAre(players: seq<CribbagePlayer>, hands: seq<seq<Card>>)
    reads (set p | p in players)`hand
  {
    |hands| == |players| && forall i :: 0 <= i < |players| ==> players[i].hand == hands[i]
  }

  /** The players have played these cards, seat by seat. */
  ghost predicate PlayedAre(players: seq<CribbagePlayer>, played: seq<seq<Card>>)
    reads (set p | p in players)`played
  {
    |played| == |players| && forall i :: 0 <= i < |players| ==> players[i].played == played[i]
  }

  /** The players have these points, seat by seat. */
  ghost predicate PointsAre(players: seq<CribbagePlayer>, points: seq<int>)
    reads (set p | p in players)`points
  {
    |points| == |players| && forall i :: 0 <= i < |players| ==> players[i].points == points[i]
  }

  /** No other seat holds the player at `seat`. */
  predicate Alone(players: seq<CribbagePlayer>, seat: nat)
    requires seat < |players|
  {
    forall i :: 0 <= i < |players| && i != seat ==> players[i] != players[seat]
  }

  /** Players with distinct names are distinct players. */
  lemma NamesApart(players: seq<CribbagePlayer>, seat: nat)
    requires NamesDistinct(players) && seat < |players|
    ensures Alone(players, seat)
  {
    forall i | 0 <= i < |players| && i != seat ensures players[i] != players[seat] {
      assert players[i].name != players[seat].name;
    }
  }

  /** The player's part of countPoints: the player at `seat` scores hand and played cards
      with the cut; the played cards go back into the hand and nobody else's cards
      change. */
  method ScoreHand(players: seq<CribbagePlayer>, seat: nat, cut: Card, ghost hands: seq<seq<Card>>,
                   ghost played: seq<seq<Card>>) returns (points: nat)
    requires seat < |players| && Alone(players, seat)
    requires HandsAre(players, hands) && PlayedAre(players, played)
    requires |WithCut(hands[seat] + played[seat], cut)| >= 5
    modifies {players[seat]}`hand, {players[seat]}`played
    ensures Gained(hands[seat] + played[seat], cut, points)
    ensures HandsAre(players, hands[seat := hands[seat] + played[seat]])
    ensures PlayedAre(players, played[seat := []])
  {
    ghost var cards := hands[seat] + played[seat];
    points := players[seat].CountPoints(cut);
    assert points == HandGain(cards, cut);
    assert HandsAre(players, hands[seat := cards]) by {
      forall i | 0 <= i < |players| ensures players[i].hand == hands[seat := cards][i] {
      }
    }
    assert PlayedAre(players, played[seat := []]) by {
      forall i | 0 <= i < |players| ensures players[i].played == played[seat := []][i] {
      }
    }
  }

  /** The kitty's part of countPoints: the kitty is scored with the cut, a flush counting
      only with all five cards, and the cut is taken out of it again. */
  method ScoreKitty(kitty: Hand, cut: Card) returns (points: nat)
    requires |WithCut(kitty.items, cut)| >= 5
    modifies kitty
    ensures KittyGained(old(kitty.items), cut, points)
    ensures kitty.items == KittyAfterCount(old(kitty.items), cut)
  {
    points := CribbageHands.CountPoints(kitty, cut, true);
    var inKitty := kitty.PlayCard(cut);
  }

  /** What countPoints changes, at one moment: the players' hands, played cards and
      points, seat by seat, and the kitty's cards. */
  datatype Table = Table(hands: seq<seq<Card>>, played: seq<seq<Card>>, points: seq<int>, kitty: seq<Card>)

  /** What the counting at the end of a round gave, as CountOutcome relates them: its
      status, whether a team passed 120 (and at which seat), the table before and after,
      each seat's points and the kitty's. */
  datatype Tally = Tally(counted: Status, over: bool, stop: nat, before: Table, after: Table, scores: seq<nat>,
                         kittyPoints: nat)

  const NoTally := Tally(Ok, false, 0, Table([], [], [], []), Table([], [], [], []), [], 0)

  /** Every player has played out their hand. */
  ghost predicate AllPlayed(hands: seq<seq<Card>>)
  {
    forall s :: 0 <= s < |hands| ==> hands[s] == []
  }

  /** The game's own state apart from the players: the count, the sequence's cards, the
      seats in play, the last player to play, the next player, the winning team, the
      cut, the dealer, the kitty's cards and the deck's cards, undrawn and drawn. */
  datatype Board = Board(count: int, cards: seq<Card>, inPlay: seq<nat>, last: Option<nat>, next: Option<nat>,
                         winner: Option<CribbageTeam>, cut: Option<Card>, dealer: Option<nat>,
                         kitty: seq<Card>, undrawn: seq<Card>, drawn: seq<Card>)

  /** A table of m seats. */
  predicate Shaped(t: Table, m: nat)
  {
    |t.hands| == m && |t.played| == m && |t.points| == m
  }

  /** The table once the player at `seat` has counted: the played cards are back in the
      hand, after the cards still held, and the player has gained `gain`. */
  function HandCounted(t: Table, seat: nat, gain: int): Table
    requires seat < |t.hands| && seat < |t.played| && seat < |t.points|
  {
    t.(hands := t.hands[seat := t.hands[seat] + t.played[seat]], played := t.played[seat := []],
       points := t.points[seat := t.points[seat] + gain])
  }

  /** The table once the dealer at `seat` has counted the kitty: the cut has left the
      kitty again and the dealer has gained `gain`. */
  function KittyCounted(t: Table, seat: nat, c: Card, gain: int): Table
    requires seat < |t.points|
  {
    t.(kitty := KittyAfterCount(t.kitty, c), points := t.points[seat := t.points[seat] + gain])
  }

  /** Cards as countPoints leaves them: printHand sorts a hand, or the kitty, by value
      when it lists it, and it lists each one whose points did not end the game. */
  function Shown(cards: seq<Card>, shown: bool): (r: seq<Card>)
    ensures multiset(r) == multiset(cards)
    ensures shown ==> SortedBy(r, ByValue)
    ensures !shown ==> r == cards
  {
    SortByFacts(cards, ByValue);
    if shown then SortBy(cards, ByValue) else cards
  }

  /** HandCounted, with the hand then listed by printHand when `shown`. */
  function HandListed(t: Table, seat: nat, gain: int, shown: bool): Table
    requires seat < |t.hands| && seat < |t.played| && seat < |t.points|
  {
    var counted := HandCounted(t, seat, gain);
    counted.(hands := counted.hands[seat := Shown(counted.hands[seat], shown)])
  }

  /** KittyCounted, with the kitty then listed by printHand when `shown`. */
  function KittyListed(t: Table, seat: nat, c: Card, gain: int, shown: bool): Table
    requires seat < |t.points|
  {
    var counted := KittyCounted(t, seat, c, gain);
    counted.(kitty := Shown(counted.kitty, shown))
  }

  /** The table once the player at `seat` has had their turn of countPoints: the played
      cards are back in the hand and it has gained `handPoints`; unless those points
      ended the game the hand is listed, and at the dealer's seat (`kittyDone`) the kitty
      is counted for `kittyPoints` and listed unless those points ended the game. */
  function AfterTurn(t: Table, seat: nat, c: Card, handPoints: nat, kittyPoints: nat, kittyDone: bool,
                     over: bool): Table
    requires seat < |t.hands| && seat < |t.played| && seat < |t.points|
  {
    var listed := HandListed(t, seat, handPoints, kittyDone || !over);
    if kittyDone then KittyListed(listed, seat, c, kittyPoints, !over) else listed
  }

  /** Seat i has counted between the two tables: its played cards are back in its hand,
      listed (sorted by value) when `shown`, and it has played nothing; it has gained
      `score`, what those cards make with the cut, and `bonus` besides. */
  ghost predicate SeatCounted(before: Table, after: Table, i: nat, c: Card, score: nat, bonus: int, shown: bool)
    requires Shaped(before, |before.hands|) && Shaped(after, |before.hands|) && i < |before.hands|
  {
    var cards := before.hands[i] + before.played[i];
    && after.hands[i] == Shown(cards, shown) && after.played[i] == []
    && Gained(cards, c, score)
    && after.points[i] == before.points[i] + score + bonus
  }

  /** Seat i is as it was between the two tables. */
  ghost predicate SeatWaiting(before: Table, after: Table, i: nat)
    requires Shaped(before, |before.hands|) && Shaped(after, |before.hands|) && i < |before.hands|
  {
    after.hands[i] == before.hands[i] && after.played[i] == before.played[i] && after.points[i] == before.points[i]
  }

  /** countPoints once the d seats from the one after the dealer on (the dealer last of
      the n) have counted, the dealer the kitty's points as well: `scores` holds what
      each counted seat scored and `kittyPoints` what the kitty did; each counted hand is
      listed, so sorted by value; the other seats are as they were; the kitty, counted
      with the dealer, has given the cut back and is listed too. */
  ghost predicate CountedSoFar(n: nat, dealer: nat, c: Card, d: nat, before: Table, now: Table,
                               scores: seq<nat>, kittyPoints: nat)
  {
    && dealer < n <= |before.hands| && d <= n
    && Shaped(before, |before.hands|) && Shaped(now, |before.hands|) && |scores| == |before.hands|
    && (forall i :: 0 <= i < |scores| ==>
          if i < n && Offset(i, Step(dealer, n), n) < d then
            SeatCounted(before, now, i, c, scores[i], if i == dealer then kittyPoints else 0, true)
          else SeatWaiting(before, now, i) && scores[i] == 0)
    && if d == n then now.kitty == Shown(KittyAfterCount(before.kitty, c), true) && KittyGained(before.kitty, c, kittyPoints)
       else now.kitty == before.kitty && kittyPoints == 0
  }

  /** A whole round counted: every one of the n seats has counted, the dealer the
      kitty's points as well, and every hand is listed, so sorted by value; the seats
      beyond n are as they were; the kitty has been counted, has given the cut back and
      is listed too. */
  ghost predicate RoundCounted(n: nat, dealer: nat, c: Card, before: Table, after: Table,
                               scores: seq<nat>, kittyPoints: nat)
  {
    && dealer < n <= |before.hands|
    && Shaped(before, |before.hands|) && Shaped(after, |before.hands|) && |scores| == |before.hands|
    && (forall i :: 0 <= i < |scores| ==>
          if i < n then SeatCounted(before, after, i, c, scores[i], if i == dealer then kittyPoints else 0, true)
          else SeatWaiting(before, after, i))
    && after.kitty == Shown(KittyAfterCount(before.kitty, c), true) && KittyGained(before.kitty, c, kittyPoints)
  }

  /** countPoints stopped at the seat `stop`, whose team passed 120: the seats before it
      in the order of counting have counted and are listed, and those after it are as
      they were. Either the hand at `stop` passed 120, and it is not listed and the kitty
      is as it was, or `stop` is the dealer (counted last), whose hand is listed and
      whose kitty, counted, passed 120 and is not listed. */
  ghost predicate StoppedAt(n: nat, dealer: nat, c: Card, stop: nat, before: Table, after: Table,
                            scores: seq<nat>, kittyPoints: nat)
  {
    && dealer < n <= |before.hands| && stop < n
    && Shaped(before, |before.hands|) && Shaped(after, |before.hands|) && |scores| == |before.hands|
    && (forall i :: 0 <= i < |scores| && i != stop ==>
          if i < n && Offset(i, Step(dealer, n), n) < Offset(stop, Step(dealer, n), n) then
            SeatCounted(before, after, i, c, scores[i], 0, true)
          else SeatWaiting(before, after, i) && scores[i] == 0)
    && (|| (SeatCounted(before, after, stop, c, scores[stop], 0, false) && after.kitty == before.kitty && kittyPoints == 0)
        || (&& stop == dealer && SeatCounted(before, after, stop, c, scores[stop], kittyPoints, true)
            && after.kitty == KittyAfterCount(before.kitty, c) && KittyGained(before.kitty, c, kittyPoints)))
  }

  /** What countPoints comes to: a failure of the source, the whole round counted, or the
      count stopped at the seat whose team passed 120. */
  ghost predicate CountOutcome(n: nat, dealer: nat, c: Card, st: Status, over: bool, stop: nat,
                               before: Table, after: Table, scores: seq<nat>, kittyPoints: nat)
  {
    && (st.Fail? ==> st == Fail(Defect))
    && (st == Ok && over ==> StoppedAt(n, dealer, c, stop, before, after, scores, kittyPoints))
    && (st == Ok && !over ==> RoundCounted(n, dealer, c, before, after, scores, kittyPoints))
  }

  /** The dealer is the last seat counted. */
  lemma DealerLast(dealer: nat, n: nat)
    requires dealer < n
    ensures Offset(dealer, Step(dealer, n), n) == n - 1
  {
  }

  /** The turn of the player at `seat` took the table from `now` to `next`: the hand,
      with the played cards back in it, scored `handPoints`; when `kittyDone`, which only
      the dealer's turn can be, the kitty was counted too and scored `kittyPoints`;
      `over` says whether the turn ended the game. */
  ghost predicate Turn(now: Table, next: Table, seat: nat, dealer: nat, c: Card, handPoints: nat,
                       kittyPoints: nat, kittyDone: bool, over: bool)
    requires seat < |now.hands| && seat < |now.played| && seat < |now.points|
  {
    && Gained(now.hands[seat] + now.played[seat], c, handPoints)
    && (if kittyDone then seat == dealer && KittyGained(now.kitty, c, kittyPoints) else kittyPoints == 0)
    && next == AfterTurn(now, seat, c, handPoints, kittyPoints, kittyDone, over)
  }

  /** What a turn changes, seat by seat: the seat that counted has its cards back in
      its hand, listed unless the hand's points ended the game, and has gained its hand's
      points (and the kitty's); the others are as they were. */
  lemma TurnEffect(now: Table, next: Table, seat: nat, dealer: nat, c: Card, handPoints: nat,
                   kittyPoints: nat, kittyDone: bool, over: bool)
    requires Shaped(now, |now.hands|) && seat < |now.hands|
    requires Turn(now, next, seat, dealer, c, handPoints, kittyPoints, kittyDone, over)
    ensures Shaped(next, |now.hands|)
    ensures next.hands[seat] == Shown(now.hands[seat] + now.played[seat], kittyDone || !over)
    ensures next.played[seat] == []
    ensures next.points[seat] == now.points[seat] + handPoints + kittyPoints
    ensures forall i :: 0 <= i < |now.hands| && i != seat ==>
      next.hands[i] == now.hands[i] && next.played[i] == now.played[i] && next.points[i] == now.points[i]
    ensures next.kitty == if kittyDone then Shown(KittyAfterCount(now.kitty, c), !over) else now.kitty
  {
  }

  /** One more seat counted: the seat d places on, whose cards come back into its hand
      and whose points grow by its hand's and (at the dealer's seat) the kitty's. */
  lemma StepCounted(n: nat, dealer: nat, c: Card, d: nat, seat: nat, before: Table, now: Table, next: Table,
                    scores: seq<nat>, kittyPoints: nat, handPoints: nat, kitty: nat, kittyDone: bool)
    requires CountedSoFar(n, dealer, c, d, before, now, scores, kittyPoints)
    requires seat < n && d < n && Offset(seat, Step(dealer, n), n) == d
    requires Turn(now, next, seat, dealer, c, handPoints, kitty, kittyDone, false) && (seat == dealer ==> kittyDone)
    ensures CountedSoFar(n, dealer, c, d + 1, before, next, scores[seat := handPoints], kitty)
  {
    TurnEffect(now, next, seat, dealer, c, handPoints, kitty, kittyDone, false);
    DealerLast(dealer, n);
    var first := Step(dealer, n);
    var scores' := scores[seat := handPoints];
    forall i | 0 <= i < |scores| && i != seat
      ensures if i < n && Offset(i, first, n) < d + 1 then
                SeatCounted(before, next, i, c, scores'[i], if i == dealer then kitty else 0, true)
              else SeatWaiting(before, next, i) && scores'[i] == 0
    {
      assert next.hands[i] == now.hands[i] && next.played[i] == now.played[i] && next.points[i] == now.points[i];
      assert scores'[i] == scores[i];
      if i < n {
        assert Offset(i, first, n) != d;
      } else {
        assert SeatWaiting(before, now, i) && SeatWaiting(now, next, i);
      }
    }
    assert SeatWaiting(before, now, seat);
    assert SeatCounted(before, next, seat, c, scores'[seat], if seat == dealer then kitty else 0, true);
    assert now.kitty == before.kitty;
  }

  /** The seat d places on stopped the count: the seats before it have counted, it has
      counted its hand, and the kitty too when it is the dealer's seat and the hand did
      not end the game; the rest are as they were. */
  lemma StopStep(n: nat, dealer: nat, c: Card, d: nat, seat: nat, before: Table, now: Table, next: Table,
                 scores: seq<nat>, kittyPoints: nat, handPoints: nat, kitty: nat, kittyDone: bool)
    requires CountedSoFar(n, dealer, c, d, before, now, scores, kittyPoints)
    requires seat < n && d < n && Offset(seat, Step(dealer, n), n) == d
    requires Turn(now, next, seat, dealer, c, handPoints, kitty, kittyDone, true)
    ensures StoppedAt(n, dealer, c, seat, before, next, scores[seat := handPoints], kitty)
  {
    TurnEffect(now, next, seat, dealer, c, handPoints, kitty, kittyDone, true);
    DealerLast(dealer, n);
    var first := Step(dealer, n);
    var scores' := scores[seat := handPoints];
    forall i | 0 <= i < |scores| && i != seat
      ensures if i < n && Offset(i, first, n) < d then SeatCounted(before, next, i, c, scores'[i], 0, true)
              else SeatWaiting(before, next, i) && scores'[i] == 0
    {
      assert next.hands[i] == now.hands[i] && next.played[i] == now.played[i] && next.points[i] == now.points[i];
      assert scores'[i] == scores[i];
      if i < n {
        assert Offset(i, first, n) != d;
      } else {
        assert SeatWaiting(before, now, i) && SeatWaiting(now, next, i);
      }
    }
    assert SeatWaiting(before, now, seat);
    assert now.kitty == before.kitty;
    if kittyDone {
      assert SeatCounted(before, next, seat, c, scores'[seat], kitty, true);
    } else {
      assert SeatCounted(before, next, seat, c, scores'[seat], 0, false);
    }
  }

  /** The whole table round, the count is the round counted. */
  lemma AllCounted(n: nat, dealer: nat, c: Card, before: Table, after: Table, scores: seq<nat>, kittyPoints: nat)
    requires CountedSoFar(n, dealer, c, n, before, after, scores, kittyPoints)
    ensures RoundCounted(n, dealer, c, before, after, scores, kittyPoints)
  {
  }

  /** The seats of a table: the players' names are distinct and every team is made of
      seated players. */
  ghost predicate Seats(players: seq<CribbagePlayer>, teams: seq<CribbageTeam>)
  {
    && NamesDistinct(players)
    && (forall t, m :: t in teams && m in t.members ==> m in players)
  }

  /** The team that findTeam finds for the player at this seat. */
  function SeatTeam(players: seq<CribbagePlayer>, teams: seq<CribbageTeam>, seat: nat): (t: Option<nat>)
    requires seat < |players|
    ensures t.Some? ==> t.value < |teams| && teams[t.value].HasPlayer(players[seat].name)
    ensures t.None? ==> forall i :: 0 <= i < |teams| ==> !teams[i].HasPlayer(players[seat].name)
  {
    TeamOf(TeamValues(teams), players[seat].name)
  }

  /** `over` says whether the team has passed 120 points. The quantifier is triggered by
      Total itself, so the team's points are summed only in proofs that name it. */
  ghost predicate Passed(team: CribbageTeam, over: bool)
    reads (set p | p in team.members)`points
  {
    forall t: CribbageTeam {:trigger t.Total()} :: t == team ==> over == (t.Total() > 120)
  }

  /** The players' cards and points and the kitty's cards are those of the table. */
  ghost predicate Mirrors(players: seq<CribbagePlayer>, kitty: Hand, t: Table)
    reads kitty`items
    reads (set p | p in players)`hand, (set p | p in players)`played, (set p | p in players)`points
  {
    && HandsAre(players, t.hands) && PlayedAre(players, t.played) && PointsAre(players, t.points)
    && kitty.items == t.kitty
  }

  /** The players' cards and points and the kitty's cards, as a table. */
  function Snapshot(players: seq<CribbagePlayer>, kitty: Hand): (t: Table)
    reads kitty`items
    reads (set p | p in players)`hand, (set p | p in players)`played, (set p | p in players)`points
    ensures Mirrors(players, kitty, t)
  {
    Table(HandsOf(players), PlayedOf(players), PointsOf(players), kitty.items)
  }

  /** The seat can be counted from the table: its cards with the cut are enough to
      score, the player has a team, and at the dealer's seat the kitty with the cut is
      enough too. */
  ghost predicate Countable(players: seq<CribbagePlayer>, teams: seq<CribbageTeam>, dealer: nat, seat: nat,
                            c: Card, t: Table)
    requires seat < |players| && Shaped(t, |players|)
  {
    && |WithCut(t.hands[seat] + t.played[seat], c)| >= 5
    && SeatTeam(players, teams, seat).Some?
    && (dealer == seat ==> |WithCut(t.kitty, c)| >= 5)
  }

  /** The team's addPoints for the player at `seat`, once findTeam has found the
      player's team: the points go to that player and the answer is whether the team
      has passed 120. */
  method Credit(players: seq<CribbagePlayer>, teams: seq<CribbageTeam>, seat: nat, team: CribbageTeam,
                amount: int, ghost points: seq<int>) returns (over: bool)
    requires Seats(players, teams) && seat < |players| && PointsAre(players, points)
    requires team in teams && team.HasPlayer(players[seat].name)
    modifies (set p | p in players)`points
    ensures Passed(team, over)
    ensures PointsAre(players, points[seat := points[seat] + amount])
  {
    var me := players[seat];
    ghost var k := FirstIndex(Names(team.members), me.name);
    assert team.members[k] == me by {
      assert team.members[k] in players && team.members[k].name == me.name;
    }
    assert forall i :: 0 <= i < |players| && i != seat ==> players[i] != me by {
      forall i | 0 <= i < |players| && i != seat ensures players[i] != me {
        assert players[i].name != me.name;
      }
    }
    var r := team.AddPoints(me.name, amount);
    assert me.points == points[seat] + amount;
    assert PointsAre(players, points[seat := points[seat] + amount]) by {
      forall i | 0 <= i < |players| ensures players[i].points == points[seat := points[seat] + amount][i] {
        if i != seat {
          assert players[i] != team.members[k];
        }
      }
    }
    over := r.value;
  }

  /** printHand on the hand of the player at `seat`: sortCards leaves that hand in the
      order of its values and nothing else at the table changes. The text it returns is
      not modelled. */
  method PrintHand(players: seq<CribbagePlayer>, kitty: Hand, seat: nat, ghost t: Table)
    requires seat < |players| && Alone(players, seat) && Mirrors(players, kitty, t)
    modifies {players[seat]}`hand
    ensures Mirrors(players, kitty, t.(hands := t.hands[seat := SortBy(t.hands[seat], ByValue)]))
    ensures SortedBy(players[seat].hand, ByValue) && multiset(players[seat].hand) == multiset(t.hands[seat])
  {
    players[seat].SortHand();
    ghost var hands := t.hands[seat := SortBy(t.hands[seat], ByValue)];
    assert HandsAre(players, hands) by {
      forall i | 0 <= i < |players| ensures players[i].hand == hands[i] {
      }
    }
  }

  /** printHand on the kitty: sortCards leaves the kitty in the order of its values and
      nothing else at the table changes. */
  method ListKitty(players: seq<CribbagePlayer>, kitty: Hand, ghost t: Table)
    requires Mirrors(players, kitty, t)
    modifies kitty
    ensures Mirrors(players, kitty, t.(kitty := SortBy(t.kitty, ByValue)))
    ensures SortedBy(kitty.items, ByValue) && multiset(kitty.items) == multiset(t.kitty)
  {
    kitty.SortCards();
  }

  /** The player at `seat` counts hand and played cards with the cut and the player's
      team is credited; the played cards are back in the hand, which printHand lists
      unless the team has passed 120. */
  method HandTurn(players: seq<CribbagePlayer>, teams: seq<CribbageTeam>, kitty: Hand, seat: nat, cut: Card,
                  team: CribbageTeam, ghost now: Table) returns (over: bool, points: nat)
    requires Seats(players, teams) && seat < |players| && Mirrors(players, kitty, now)
    requires team in teams && team.HasPlayer(players[seat].name)
    requires |WithCut(now.hands[seat] + now.played[seat], cut)| >= 5
    modifies {players[seat]}`hand, {players[seat]}`played, (set p | p in players)`points
    ensures Gained(now.hands[seat] + now.played[seat], cut, points)
    ensures Passed(team, over)
    ensures Mirrors(players, kitty, HandListed(now, seat, points, !over))
  {
    NamesApart(players, seat);
    points := ScoreHand(players, seat, cut, now.hands, now.played);
    over := Credit(players, teams, seat, team, points, now.points);
    ghost var counted := HandCounted(now, seat, points);
    assert Mirrors(players, kitty, counted);
    if !over {
      PrintHand(players, kitty, seat, counted);
    }
  }

  /** The dealer at `seat` counts the kitty with the cut (a flush only with all five
      cards), the cut leaves the kitty again and the dealer's team is credited; printHand
      lists the kitty unless the team has passed 120. */
  method KittyTurn(players: seq<CribbagePlayer>, teams: seq<CribbageTeam>, kitty: Hand, seat: nat, cut: Card,
                   team: CribbageTeam, ghost now: Table) returns (over: bool, points: nat)
    requires Seats(players, teams) && seat < |players| && Mirrors(players, kitty, now)
    requires team in teams && team.HasPlayer(players[seat].name)
    requires |WithCut(now.kitty, cut)| >= 5
    modifies kitty, (set p | p in players)`points
    ensures KittyGained(now.kitty, cut, points)
    ensures Passed(team, over)
    ensures Mirrors(players, kitty, KittyListed(now, seat, cut, points, !over))
  {
    points := ScoreKitty(kitty, cut);
    over := Credit(players, teams, seat, team, points, now.points);
    ghost var counted := KittyCounted(now, seat, cut, points);
    assert Mirrors(players, kitty, counted);
    if !over {
      ListKitty(players, kitty, counted);
    }
  }

  /** The scoring part of a turn, once the checks have passed: the hand, then, unless
      the team has passed 120, the kitty at the dealer's seat. */
  method ScoreSeat(players: seq<CribbagePlayer>, teams: seq<CribbageTeam>, kitty: Hand, dealer: nat, seat: nat,
                   cut: Card, team: CribbageTeam, ghost now: Table)
    returns (over: bool, handPoints: nat, kittyPoints: nat, ghost next: Table, ghost kittyDone: bool)
    requires Seats(players, teams) && seat < |players| && Mirrors(players, kitty, now)
    requires team in teams && team.HasPlayer(players[seat].name)
    requires |WithCut(now.hands[seat] + now.played[seat], cut)| >= 5
    requires dealer == seat ==> |WithCut(now.kitty, cut)| >= 5
    modifies {players[seat]}`hand, {players[seat]}`played, (set p | p in players)`points, kitty
    ensures Mirrors(players, kitty, next)
    ensures Passed(team, over)
    ensures Turn(now, next, seat, dealer, cut, handPoints, kittyPoints, kittyDone, over)
    ensures !over && dealer == seat ==> kittyDone
  {
    kittyPoints, kittyDone := 0, false;
    over, handPoints := HandTurn(players, teams, kitty, seat, cut, team, now);
    next := HandListed(now, seat, handPoints, !over);
    if !over && dealer == seat {
      over, kittyPoints := KittyTurn(players, teams, kitty, seat, cut, team, next);
      next, kittyDone := KittyListed(next, seat, cut, kittyPoints, !over), true;
    }
  }

  /** One turn of countPoints' loop: the player at `seat` scores hand and played cards
      with the cut and the points go to the player's team; at the dealer's seat the
      kitty is scored too (a flush only with all five cards) and the cut taken out of it
      again. printHand lists the hand, and then the kitty, sorting each by value, as long
      as the team has not passed 120; the turn stops as soon as it has. A player on no
      team, a hand too small to score or, at the dealer's seat, a kitty too small make
      the source fail, at cribbage.ts:708 (addPoints on a null team) or inside
      countFifteens. By then the source has already moved the player's played cards into
      the hand (cribbage_player.ts:55-56), and for a small kitty it has also credited and
      listed the hand. The model reports every such failure as Defect and leaves the
      table as it was. */
  method CountSeat(players: seq<CribbagePlayer>, teams: seq<CribbageTeam>, kitty: Hand, dealer: nat, seat: nat,
                   cut: Card, ghost now: Table)
    returns (st: Status, over: bool, handPoints: nat, kittyPoints: nat, ghost next: Table, ghost kittyDone: bool)
    requires Seats(players, teams) && seat < |players| && Mirrors(players, kitty, now)
    modifies {players[seat]}`hand, {players[seat]}`played, (set p | p in players)`points, kitty
    ensures Mirrors(players, kitty, next)
    ensures st == Ok <==> Countable(players, teams, dealer, seat, cut, now)
    ensures st.Fail? ==> st == Fail(Defect)
    ensures st == Ok ==>
      && Passed(teams[SeatTeam(players, teams, seat).value], over)
      && Turn(now, next, seat, dealer, cut, handPoints, kittyPoints, kittyDone, over)
      && (!over && dealer == seat ==> kittyDone)
  {
    var t := SeatTeam(players, teams, seat);
    if || t.None? || |WithCut(players[seat].hand + players[seat].played, cut)| < 5
       || (dealer == seat && |WithCut(kitty.items, cut)| < 5) {
      st, over, handPoints, kittyPoints, next, kittyDone := Fail(Defect), false, 0, 0, now, false;
    } else {
      st := Ok;
      over, handPoints, kittyPoints, next, kittyDone := ScoreSeat(players, teams, kitty, dealer, seat, cut, teams[t.value], now);
    }
  }

  /** One pass of countPoints' loop over a table of n, at the seat d places after the
      dealer's next: the turn of CountSeat, recorded in the table. */
  method CountStep(players: seq<CribbagePlayer>, teams: seq<CribbageTeam>, kitty: Hand, n: nat, dealer: nat,
                   seat: nat, c: Card, ghost d: nat, ghost before: Table, ghost now: Table,
                   scores: seq<nat>, kittyPoints: nat)
    returns (st: Status, over: bool, scores': seq<nat>, kittyPoints': nat, ghost next: Table)
    requires Seats(players, teams) && n <= |players| && dealer < n && seat < n && d < n
    requires Offset(seat, Step(dealer, n), n) == d
    requires Mirrors(players, kitty, now) && CountedSoFar(n, dealer, c, d, before, now, scores, kittyPoints)
    modifies (set p | p in players)`hand, (set p | p in players)`played, (set p | p in players)`points, kitty
    ensures Mirrors(players, kitty, next)
    ensures st.Fail? ==> st == Fail(Defect) && !Countable(players, teams, dealer, seat, c, before)
    ensures st == Ok && over ==>
      && SeatTeam(players, teams, seat).Some? && Passed(teams[SeatTeam(players, teams, seat).value], true)
      && StoppedAt(n, dealer, c, seat, before, next, scores', kittyPoints')
    ensures st == Ok && !over ==> CountedSoFar(n, dealer, c, d + 1, before, next, scores', kittyPoints')
  {
    var handPoints, kitty';
    ghost var kittyDone;
    st, over, handPoints, kitty', next, kittyDone := CountSeat(players, teams, kitty, dealer, seat, c, now);
    scores', kittyPoints' := scores[seat := handPoints], kitty';
    if st == Ok && over {
      StopStep(n, dealer, c, d, seat, before, now, next, scores, kittyPoints, handPoints, kitty', kittyDone);
    } else if st == Ok {
      StepCounted(n, dealer, c, d, seat, before, now, next, scores, kittyPoints, handPoints, kitty', kittyDone);
    }
  }

  /** The loop of countPoints over the n seats at the table, from the one after the
      dealer round to the dealer: each seat counts (CountStep) until a count fails or a
      team passes 120, which ends the game (setGameOver on `game`) and the counting. */
  method CountRound(game: Cribbage, players: seq<CribbagePlayer>, teams: seq<CribbageTeam>, kitty: Hand,
                    n: nat, dealer: nat, c: Card)
    returns (st: Status, over: bool, scores: seq<nat>, kittyPoints: nat, stop: nat,
             ghost before: Table, ghost after: Table)
    requires Seats(players, teams) && n <= |players| && dealer < n
    modifies (set p | p in players)`hand, (set p | p in players)`played, (set p | p in players)`points, kitty
    modifies game`winningTeam
    ensures old(Mirrors(players, kitty, before)) && Mirrors(players, kitty, after)
    ensures st.Fail? ==> st == Fail(Defect)
    ensures (forall i :: 0 <= i < n ==> Countable(players, teams, dealer, i, c, before)) ==> st == Ok
    ensures st == Ok && over ==>
      && stop < n && SeatTeam(players, teams, stop).Some?
      && Passed(teams[SeatTeam(players, teams, stop).value], true)
      && game.winningTeam == Some(teams[SeatTeam(players, teams, stop).value])
      && StoppedAt(n, dealer, c, stop, before, after, scores, kittyPoints)
    ensures !(st == Ok && over) ==> game.winningTeam == old(game.winningTeam)
    ensures st == Ok && !over ==> RoundCounted(n, dealer, c, before, after, scores, kittyPoints)
  {
    var first: nat := Step(dealer, n);
    before := Snapshot(players, kitty);
    after := before;
    var seat: nat := first;
    ghost var d: nat := 0;
    var done := false;
    st, over, scores, kittyPoints, stop := Ok, false, seq(|players|, _ => 0), 0, 0;
    while !done
      invariant old(Mirrors(players, kitty, before)) && Mirrors(players, kitty, after)
      invariant game.winningTeam == old(game.winningTeam)
      invariant seat < n && st == Ok && !over
      invariant !done ==> d < n && Offset(seat, first, n) == d
      invariant done ==> d == n
      invariant CountedSoFar(n, dealer, c, d, before, after, scores, kittyPoints)
      decreases n - d
    {
      var o;
      st, o, scores, kittyPoints, after := CountStep(players, teams, kitty, n, dealer, seat, c, d, before, after, scores, kittyPoints);
      if st.Fail? {
        break;
      }
      if o {
        var response := game.SetGameOver(teams[SeatTeam(players, teams, seat).value]);
        over, stop := true, seat;
        break;
      }
      StepOffset(seat, first, n);
      seat := Step(seat, n);
      d := d + 1;
      done := seat == first;
    }
    if !over && st == Ok {
      AllCounted(n, dealer, c, before, after, scores, kittyPoints);
    }
  }

  /** The points a card laid scores: what the sequence scored, and 2 more when the count
      it brings reaches 15 or 31. */
  function PegPoints(run: nat, count: int): (p: nat)
    ensures p == run || p == run + 2
    ensures p == run + 2 <==> count == 15 || count == 31
  {
    if count == 15 || count == 31 then run + 2 else run
  }

  /** `next` is the first seat of `play` going round the n seats from `seat`, seat itself
      coming last. */
  ghost predicate FirstInPlayAfter(seat: nat, n: nat, play: seq<nat>, next: nat)
  {
    exists d :: 1 <= d && next == Advance(seat, n, d) && forall d' :: 1 <= d' < d ==> Advance(seat, n, d') !in play
  }

  /** `next` is the first seat of `play` going round at most n seats on from `start`. */
  ghost predicate Reaches(start: nat, n: nat, play: seq<nat>, next: nat)
  {
    exists d :: 1 <= d <= n && next == Advance(start, n, d) && forall d' :: 1 <= d' < d ==> Advance(start, n, d') !in play
  }

  /** Going round from the seat after `seat` is going round from `seat`, one step on. */
  lemma {:induction false} AdvanceShift(seat: nat, n: nat, d: nat)
    ensures Advance(Step(seat, n), n, d) == Advance(seat, n, d + 1)
  {
    if d > 0 {
      AdvanceShift(seat, n, d - 1);
    }
  }

  /** The turn handed to the seat after `seat` and then moved on to a seat in play, as
      setNextPlayerInSequence moves it, lands on the first seat in play after `seat`. */
  lemma FromNextSeat(seat: nat, n: nat, play: seq<nat>, next: nat)
    requires Step(seat, n) in play ==> next == Step(seat, n)
    requires Step(seat, n) !in play ==> Reaches(Step(seat, n), n, play, next)
    ensures FirstInPlayAfter(seat, n, play, next)
  {
    var start := Step(seat, n);
    if start in play {
      assert next == Advance(seat, n, 1);
    } else {
      var d :| 1 <= d <= n && next == Advance(start, n, d)
               && forall d' :: 1 <= d' < d ==> Advance(start, n, d') !in play;
      AdvanceShift(seat, n, d);
      forall d' | 1 <= d' < d + 1
        ensures Advance(seat, n, d') !in play
      {
        if d' == 1 {
          assert Advance(seat, n, 1) == start;
        } else {
          AdvanceShift(seat, n, d' - 1);
        }
      }
    }
  }

  /** Taking a seat out of a list of seats below n leaves seats below n. */
  lemma {:induction false} WithoutWithin(s: seq<nat>, x: nat, n: nat)
    requires forall i :: 0 <= i < |s| ==> s[i] < n
    ensures forall y :: y in Without<nat>(s, x) ==> y < n
  {
    if s != [] && s[0] != x {
      WithoutWithin(s[1..], x, n);
    }
  }

  /** Adding nothing to a seat's points changes nothing. */
  lemma AddNothing(points: seq<int>, seat: nat)
    requires seat < |points|
    ensures points[seat := points[seat] + 0] == points
  {
  }

  /** Adding to a seat's points twice adds the sum. */
  lemma AddTwice(points: seq<int>, now: seq<int>, seat: nat, a: int, b: int)
    requires seat < |points| && now == points[seat := points[seat] + a]
    ensures now[seat := now[seat] + b] == points[seat := points[seat] + (a + b)]
  {
  }

  class Cribbage {
    var players: seq<CribbagePlayer>
    var teams: seq<CribbageTeam>
    var numPlayers: nat
    var mode: Mode
    var cut: Option<Card>
    const kitty: Hand
    const sequence: Sequence
    const deck: Deck
    var dealer: Option<nat>
    var lastPlayerToPlay: Option<nat>
    var nextPlayerInSequence: Option<nat>
    var playersInPlay: seq<nat>
    var count: int
    var winningTeam: Option<CribbageTeam>
    var hasBegun: bool

    /** A seat that is empty or one of the first numPlayers. */
    predicate Seated(seat: Option<nat>)
      reads this`numPlayers
    {
      seat.None? || seat.value < numPlayers
    }

    /** What every operation keeps: players have distinct names and are the only members
        of teams; the dealer, the next player, the last player to play and the players in
        play are among the first numPlayers seats; the count stays within 0..31; the deck
        owns the 52 standard cards, once each. */
    ghost predicate Valid()
      reads this`players, this`numPlayers, this`dealer, this`nextPlayerInSequence, this`lastPlayerToPlay,
        this`playersInPlay, this`count, this`teams, deck
    {
      Seating() && DeckComplete()
    }

    /** The game's own fields are consistent: distinct names, seats within the game,
        teams made of the game's players. */
    ghost predicate Seating()
      reads this`players, this`numPlayers, this`dealer, this`nextPlayerInSequence, this`lastPlayerToPlay,
        this`playersInPlay, this`count, this`teams
    {
      && Roster()
      && Seated(dealer) && Seated(nextPlayerInSequence) && Seated(lastPlayerToPlay)
      && (forall i :: 0 <= i < |playersInPlay| ==> playersInPlay[i] < numPlayers)
      && 0 <= count <= 31
    }

    /** The part of Seating that counting relies on: distinct names, the seats within the
        players, and teams made of the game's players. */
    ghost predicate Roster()
      reads this`players, this`numPlayers, this`teams
    {
      Seats(players, teams) && numPlayers <= |players|
    }

    /** The deck, drawn or not, holds each standard card once. */
    ghost predicate DeckComplete()
      reads deck
    {
      && deck.AllCards() == multiset(StandardOrder())
      && |deck.items| + |deck.removed| == 52
    }

    /** A new game: no teams, no dealer, an empty kitty and sequence, a standard deck in
        order, a count of 0, and not begun. */
    constructor(players: seq<CribbagePlayer>)
      requires NamesDistinct(players)
      ensures Valid()
      ensures this.players == players && teams == [] && numPlayers == 0 && mode == FreeForAll
      ensures cut.None? && dealer.None? && lastPlayerToPlay.None? && nextPlayerInSequence.None?
      ensures winningTeam.None? && playersInPlay == [] && count == 0 && !hasBegun
      ensures kitty.items == [] && sequence.cards == []
      ensures deck.items == StandardOrder() && deck.removed == []
      ensures fresh(kitty) && fresh(sequence) && fresh(deck)
    {
      this.players := players;
      teams := [];
      numPlayers := 0;
      mode := FreeForAll;
      cut := None;
      var d := NewStandardDeck();
      deck := d;
      kitty := new Hand([]);
      sequence := new Sequence();
      dealer := None;
      lastPlayerToPlay := None;
      nextPlayerInSequence := None;
      playersInPlay := [];
      count := 0;
      winningTeam := None;
      hasBegun := false;
    }

    /** The seat of the player with this name, as findPlayer finds it. */
    function SeatOf(name: string): (seat: Option<nat>)
      reads this`players
      ensures seat.None? <==> forall i :: 0 <= i < |players| ==> players[i].name != name
      ensures seat.Some? ==> seat.value < |players| && players[seat.value].name == name
    {
      var i := FirstIndex(Names(players), name);
      if i < 0 then None else Some(i)
    }

    /** findPlayer, the game's own loop over its players. */
    method FindSeat(name: string) returns (seat: Option<nat>)
      requires NamesDistinct(players)
      ensures seat == SeatOf(name)
    {
      seat := FindPlayer(Names(players), name);
    }

    /** nextPlayerInOrder: the seat after the player's, going back to seat 0 after the last
        of the numPlayers seats. It is given a seated player: looking nobody (null) up
        among the players makes the source call a method of null, which its callers below
        treat as a defect. */
    function NextInOrder(seat: nat): (next: nat)
      reads this`numPlayers, this`players
      requires numPlayers <= |players| && seat < |players|
      ensures next < |players|
      ensures seat < numPlayers ==> next < numPlayers && next == (seat + 1) % numPlayers
      ensures seat >= numPlayers ==> next == 0
    {
      Step(seat, numPlayers)
    }

    /** The team that findTeam finds for the player at this seat. */
    function TeamOfSeat(seat: nat): (t: Option<nat>)
      reads this`teams, this`players
      requires seat < |players|
      ensures t.Some? ==> t.value < |teams| && teams[t.value].HasPlayer(players[seat].name)
      ensures t.None? ==> forall i :: 0 <= i < |teams| ==> !teams[i].HasPlayer(players[seat].name)
    {
      SeatTeam(players, teams, seat)
    }

    /** The players' points, seat by seat. */
    function Scores(): (scores: seq<int>)
      reads this`players, (set p | p in players)`points
      ensures |scores| == |players|
    {
      PointsOf(players)
    }

    /** setGameOver: the team becomes the winning team. */
    method SetGameOver(team: CribbageTeam) returns (response: Response)
      modifies this`winningTeam
      ensures winningTeam == Some(team) && response == GameOver
      ensures Passed(team, true) == old(Passed(team, true))
      ensures State() == old(State()).(winner := winningTeam)
    {
      winningTeam := Some(team);
      response := GameOver;
    }

    /** addPlayer: a name already in the game is refused, and so is any player once the
        game has begun; otherwise the player takes the next seat. */
    method AddPlayer(player: CribbagePlayer) returns (st: Status)
      requires Valid()
      modifies this`players
      ensures Valid()
      ensures old(SeatOf(player.name)).Some? ==> st == Fail(PlayerAlreadyInGame)
      ensures old(SeatOf(player.name)).None? && hasBegun ==> st == Fail(GameHasAlreadyBegun)
      ensures st.Fail? ==> players == old(players)
      ensures old(SeatOf(player.name)).None? && !hasBegun ==> st == Ok && players == old(players) + [player]
    {
      var seat := FindSeat(player.name);
      if seat.Some? {
        return Fail(PlayerAlreadyInGame);
      } else if hasBegun {
        return Fail(GameHasAlreadyBegun);
      }
      players := players + [player];
      st := Ok;
    }

    /** The teams makeTeams builds: in team play seats 0 and 2 against 1 and 3 with four
        players, and 0 and 3, 1 and 4, 2 and 5 with six; otherwise one team per player,
        numbered from 1 in seat order. */
    ghost predicate TeamLayout()
      reads this`mode, this`numPlayers, this`teams, this`players
    {
      if mode == TeamPlay && numPlayers == 4 then
        && |players| >= 4 && |teams| == 2
        && teams[0].id == 1 && teams[0].members == [players[0], players[2]]
        && teams[1].id == 2 && teams[1].members == [players[1], players[3]]
      else if mode == TeamPlay then
        && |players| >= 6 && |teams| == 3
        && teams[0].id == 1 && teams[0].members == [players[0], players[3]]
        && teams[1].id == 2 && teams[1].members == [players[1], players[4]]
        && teams[2].id == 3 && teams[2].members == [players[2], players[5]]
      else
        && |teams| == |players|
        && forall i :: 0 <= i < |teams| ==> teams[i].id == i + 1 && teams[i].members == [players[i]]
    }

    /** makeTeams */
    method MakeTeams()
      requires Valid() && numPlayers == |players|
      requires mode == TeamPlay ==> numPlayers == 4 || numPlayers == 6
      modifies this`teams
      ensures Valid() && TeamLayout()
    {
      if mode == TeamPlay {
        if numPlayers == 4 {
          var one := new CribbageTeam(1, [players[0], players[2]]);
          var two := new CribbageTeam(2, [players[1], players[3]]);
          teams := [one, two];
        } else {
          var one := new CribbageTeam(1, [players[0], players[3]]);
          var two := new CribbageTeam(2, [players[1], players[4]]);
          var three := new CribbageTeam(3, [players[2], players[5]]);
          teams := [one, two, three];
        }
      } else {
        teams := [];
        var id := 1;
        for index := 0 to |players|
          invariant |teams| == index && id == index + 1
          invariant forall i :: 0 <= i < index ==> teams[i].id == i + 1 && teams[i].members == [players[i]]
        {
          var team := new CribbageTeam(id, [players[index]]);
          teams := teams + [team];
          id := id + 1;
        }
      }
    }

    /** initializeGame: numPlayers becomes the number of players even when that number is
        refused (fewer than 2 or more than 6); otherwise four or six players play in teams,
        the previous winners are forgotten and the teams are made. */
    method InitializeGame() returns (st: Status)
      requires Valid()
      modifies this`numPlayers, this`mode, this`winningTeam, this`teams
      ensures Valid() && numPlayers == |players|
      ensures st == Fail(InvalidNumberOfPlayers) <==> numPlayers < 2 || numPlayers > 6
      ensures st.Fail? ==> mode == old(mode) && winningTeam == old(winningTeam) && teams == old(teams)
      ensures st == Ok ==> && mode == (if numPlayers == 4 || numPlayers == 6 then TeamPlay else FreeForAll)
                           && winningTeam.None? && TeamLayout()
      ensures st.Ok? || st == Fail(InvalidNumberOfPlayers)
    {
      numPlayers := |players|;
      if numPlayers < 2 || numPlayers > 6 {
        return Fail(InvalidNumberOfPlayers);
      }
      mode := if numPlayers == 4 || numPlayers == 6 then TeamPlay else FreeForAll;
      winningTeam := None;
      MakeTeams();
      st := Ok;
    }

    /** isReady: every player has thrown to the kitty. */
    predicate IsReady()
      reads this, kitty
    {
      |kitty.items| == 4
    }

    /** setNextDealer: the deal passes to the next seat and play starts at the seat after
        the new dealer. */
    method SetNextDealer()
      requires Valid() && 0 < numPlayers && dealer.Some?
      modifies this`dealer, this`nextPlayerInSequence
      ensures Valid()
      ensures dealer == Some((old(dealer).value + 1) % numPlayers)
      ensures nextPlayerInSequence == Some((dealer.value + 1) % numPlayers)
    {
      dealer := Some(NextInOrder(dealer.value));
      nextPlayerInSequence := Some(NextInOrder(dealer.value));
    }

    /** resetSequence: the count goes back to 0, nobody has played, the sequence is
        emptied and the players in play are again those of the first numPlayers seats who
        hold cards, in seat order; the player after the given one, if any, is next. */
    method ResetSequence(player: Option<nat>)
      requires Seating() && Seated(player)
      modifies this`count, this`lastPlayerToPlay, sequence, this`playersInPlay, this`nextPlayerInSequence
      ensures Seating()
      ensures count == 0 && lastPlayerToPlay.None? && sequence.cards == []
      ensures forall s: nat :: s in playersInPlay <==> s < numPlayers && players[s].hand != []
      ensures forall i, j :: 0 <= i < j < |playersInPlay| ==> playersInPlay[i] < playersInPlay[j]
      ensures player.None? ==> nextPlayerInSequence == old(nextPlayerInSequence)
      ensures player.Some? ==> nextPlayerInSequence == Some((player.value + 1) % numPlayers)
    {
      count := 0;
      lastPlayerToPlay := None;
      sequence.RemoveAll();
      var inPlay: seq<nat> := [];
      for ix := 0 to numPlayers
        invariant forall s: nat :: s in inPlay <==> s < ix && players[s].hand != []
        invariant forall i, j :: 0 <= i < j < |inPlay| ==> inPlay[i] < inPlay[j]
        invariant forall i :: 0 <= i < |inPlay| ==> inPlay[i] < ix
      {
        if |players[ix].hand| > 0 {
          inPlay := inPlay + [ix];
        }
      }
      playersInPlay := inPlay;
      if player.Some? {
        nextPlayerInSequence := Some(NextInOrder(player.value));
      }
    }

    /** setNextPlayerInSequence: the turn moves on round the table to the first seat still
        in play, when the next player is the given one or is no longer in play. With
        nobody in play the source's loop would never end. */
    method SetNextPlayerInSequence(player: nat) returns (st: Status)
      requires Seating()
      modifies this`nextPlayerInSequence
      ensures Seating()
      ensures old(nextPlayerInSequence).None? ==> st == Fail(Defect)
      ensures old(nextPlayerInSequence).Some? ==>
        var start := old(nextPlayerInSequence).value;
        var moves := start == player || start !in playersInPlay;
        && (!moves ==> st == Ok && nextPlayerInSequence == old(nextPlayerInSequence))
        && (moves && playersInPlay == [] ==> st == Fail(Diverges))
        && (moves && playersInPlay != [] ==>
              st == Ok && nextPlayerInSequence.Some? && nextPlayerInSequence.value in playersInPlay
              && Reaches(start, numPlayers, playersInPlay, nextPlayerInSequence.value))
      ensures st.Fail? ==> nextPlayerInSequence == old(nextPlayerInSequence)
    {
      if nextPlayerInSequence.None? {
        return Fail(Defect);
      }
      var start := nextPlayerInSequence.value;
      var index := LinearSearch(playersInPlay, start);
      if !(start == player || index == -1) {
        return Ok;
      }
      if playersInPlay == [] {
        return Fail(Diverges);
      }
      var n: nat := numPlayers;
      ghost var target := DistanceTo(start, playersInPlay[0], n);
      var seat := NextInOrder(start);
      ghost var d := 1;
      index := LinearSearch(playersInPlay, seat);
      while index == -1
        invariant 1 <= d <= target && seat == Advance(start, n, d) && seat < n
        invariant index == -1 <==> seat !in playersInPlay
        invariant forall d' :: 1 <= d' < d ==> Advance(start, n, d') !in playersInPlay
        decreases target - d
      {
        seat := NextInOrder(seat);
        d := d + 1;
        index := LinearSearch(playersInPlay, seat);
      }
      assert Reaches(start, n, playersInPlay, seat);
      nextPlayerInSequence := Some(seat);
      st := Ok;
    }

    /** roundOver: nobody holds a card. */
    method RoundOver() returns (done: bool)
      ensures done <==> forall s :: 0 <= s < |players| ==> players[s].hand == []
    {
      done := true;
      for index := 0 to |players|
        invariant done <==> forall s :: 0 <= s < index ==> players[s].hand == []
      {
        if |players[index].hand| > 0 {
          done := false;
          break;
        }
      }
    }

    /** cutForDealer: each of the numPlayers players cuts a card (drawn from the deck at
        the given index, without replacement); the first lowest card deals, and play
        starts after the dealer. A deck that runs out makes the source read the value of
        a missing card. */
    method CutForDealer(indices: seq<nat>) returns (st: Status, cuts: seq<Card>)
      requires Valid() && 2 <= numPlayers && |indices| >= numPlayers
      modifies deck, this`dealer, this`nextPlayerInSequence
      ensures Valid()
      ensures st == Ok <==> |old(deck.items)| >= numPlayers
      ensures st.Fail? ==> st.error == Defect
      ensures st == Ok ==>
        && |cuts| == numPlayers && deck.removed == old(deck.removed) + cuts
        && dealer == Some(FirstLowest(cuts))
        && nextPlayerInSequence == Some((dealer.value + 1) % numPlayers)
    {
      var enough;
      enough, cuts := CutCards(deck, indices, numPlayers);
      if cuts != [] {
        dealer := Some(FirstLowest(cuts));
      }
      if !enough {
        return Fail(Defect), cuts;
      }
      nextPlayerInSequence := Some(NextInOrder(dealer.value));
      st := Ok;
    }

    /** dealForTwo, dealForThree, dealForFour: starting after the dealer and going round
        the table, one card at a time from the top of the deck, until the player to be
        dealt to next holds m cards. With the hands empty and a full deck, the seat d
        places after the first one dealt to gets the cards at d, d + n, d + 2n, ... */
    method DealRound(m: nat)
      requires Valid() && 2 <= numPlayers <= 4 && m * numPlayers <= 20 && dealer.Some?
      requires deck.removed == [] && |deck.items| == 52
      requires forall s :: 0 <= s < numPlayers ==> players[s].hand == []
      modifies deck, (set p | p in players)`hand
      ensures Valid()
      ensures var n := numPlayers;
        && (forall s :: 0 <= s < n ==>
              players[s].hand == Dealt(old(deck.items), n, Offset(s, NextInOrder(dealer.value), n), m))
        && deck.items == old(deck.items)[m * n..]
      ensures forall s :: numPlayers <= s < |players| ==> players[s].hand == old(players[s].hand)
    {
      var n: nat := numPlayers;
      var hands := DealCards(deck, n, NextInOrder(dealer.value), m);
      GiveHands(players, hands);
    }

    /** What dealForSix comes to: the player after the dealer is dealt to only when on a
        team other than the dealer's (teams compare by id). Looking up a missing team
        reads a property of null. */
    function SixDealOutcome(): (st: Status)
      reads this`dealer, this`numPlayers, this`teams, this`players
      requires numPlayers <= |players| && Seated(dealer) && dealer.Some?
      ensures st.Fail? ==> st.error == Defect || st.error == Diverges
    {
      var first: nat := NextInOrder(dealer.value);
      var dealing := TeamOfSeat(dealer.value);
      var receiving := TeamOfSeat(first);
      if dealer.value == first then Fail(Diverges)
      else if dealing.None? || receiving.None? then Fail(Defect)
      else if teams[dealing.value].id == teams[receiving.value].id then Fail(Diverges)
      else Ok
    }

    /** dealForSix as written: only the player after the dealer is dealt to, from the top
        of the deck until holding five cards, and only when that player is neither the
        dealer nor on the dealer's team; otherwise the loop never ends. */
    method DealForSix() returns (st: Status)
      requires Valid() && numPlayers == 6 && deck.removed == [] && dealer.Some?
      requires forall s :: 0 <= s < 6 ==> players[s].hand == []
      modifies deck, {players[NextInOrder(dealer.value)]}`hand
      ensures Valid()
      ensures st == old(SixDealOutcome())
      ensures st == Ok ==>
        && players[NextInOrder(dealer.value)].hand == old(deck.items)[..5]
        && deck.items == old(deck.items)[5..]
      ensures st.Fail? ==> players[NextInOrder(dealer.value)].hand == [] && deck.items == old(deck.items)
    {
      st := SixDealOutcome();
      if st.Fail? {
        return;
      }
      DealTo(deck, players[NextInOrder(dealer.value)], 5);
      st := Ok;
    }

    /** The hand the deal gives seat s from the shuffled deck `order`: round the table
        from the seat after the dealer, six cards each for two players and five for three
        or four; with six players, the top five cards to the seat after the dealer only. */
    ghost function DealtHand(order: seq<Card>, s: nat): (hand: seq<Card>)
      reads this`dealer, this`numPlayers, this`players
      requires numPlayers <= |players| && Seated(dealer) && dealer.Some? && |order| == 52 && s < numPlayers
      requires numPlayers in {2, 3, 4, 6}
      ensures |hand| == if numPlayers == 2 then 6 else if numPlayers == 6 && s != NextInOrder(dealer.value) then 0 else 5
    {
      var n: nat := numPlayers;
      var first: nat := NextInOrder(dealer.value);
      if n == 6 then (if s == first then order[..5] else [])
      else Dealt(order, n, Offset(s, first, n), if n == 2 then 6 else 5)
    }

    /** The kitty after the deal: a three-player game starts it with the card after the
        fifteen dealt. */
    function KittyDealt(order: seq<Card>): (cards: seq<Card>)
      reads this`numPlayers
      requires |order| == 52
      ensures |cards| <= 1
    {
      if numPlayers == 3 then [order[15]] else []
    }

    /** The first part of deal: the kitty and the first numPlayers hands are emptied, and
        the deck is gathered and shuffled with the given positions. */
    method ClearAndShuffle(positions: seq<nat>)
      requires Valid() && ValidPositions(positions, 52)
      modifies kitty, deck, (set p | p in players)`hand
      ensures Valid()
      ensures kitty.items == [] && deck.removed == []
      ensures deck.items == Shuffled(old(deck.items), old(deck.removed), positions)
      ensures |deck.items| == 52
      ensures forall s :: 0 <= s < numPlayers ==> players[s].hand == []
      ensures forall s :: numPlayers <= s < |players| ==> players[s].hand == old(players[s].hand)
    {
      kitty.RemoveAll();
      forall s | 0 <= s < numPlayers {
        players[s].hand := [];
      }
      ShuffledPermutes(deck.items, deck.removed, positions);
      deck.Shuffle(positions);
    }

    /** The dealing part of deal, by the number of players: dealForTwo, dealForThree (which
        also gives the kitty a card), dealForFour, dealForFive (not implemented) and
        dealForSix; any other number is refused. */
    method DealHands() returns (st: Status)
      requires Valid() && deck.removed == [] && |deck.items| == 52 && kitty.items == []
      requires forall s :: 0 <= s < numPlayers ==> players[s].hand == []
      modifies kitty, deck, (set p | p in players)`hand
      ensures Valid()
      ensures st == DealOutcome()
      ensures st == Ok ==> DealtFrom(old(deck.items))
      ensures forall s :: numPlayers <= s < |players| ==> players[s].hand == old(players[s].hand)
    {
      var n: nat := numPlayers;
      if n < 2 || n > 6 {
        st := Fail(InvalidNumberOfPlayers);
      } else if n == 5 {
        st := Fail(NotImplemented);
      } else if dealer.None? {
        st := Fail(Defect);
      } else if n == 6 {
        st := DealForSix();
      } else {
        DealAround();
        st := Ok;
      }
    }

    /** dealForTwo, dealForThree and dealForFour: round the table from the seat after the
        dealer, six cards each for two players and five for three or four, and with three
        players the next card to the kitty. */
    method DealAround()
      requires Valid() && 2 <= numPlayers <= 4 && dealer.Some? && deck.removed == [] && |deck.items| == 52
      requires kitty.items == []
      requires forall s :: 0 <= s < numPlayers ==> players[s].hand == []
      modifies kitty, deck, (set p | p in players)`hand
      ensures Valid()
      ensures DealtFrom(old(deck.items))
      ensures forall s :: numPlayers <= s < |players| ==> players[s].hand == old(players[s].hand)
    {
      var n: nat := numPlayers;
      DealRound(if n == 2 then 6 else 5);
      if n == 3 {
        var card := deck.Draw();
        var taken := kitty.TakeCard(card);
      }
    }

    /** deal: the kitty and hands are cleared, the deck shuffled, the cards dealt, and
        the players holding cards are in play again. */
    method Deal(positions: seq<nat>) returns (st: Status)
      requires Valid() && ValidPositions(positions, 52)
      modifies kitty, deck, sequence, (set p | p in players)`hand
      modifies this`count, this`lastPlayerToPlay, this`playersInPlay, this`nextPlayerInSequence
      ensures Valid()
      ensures st == DealOutcome()
      ensures st == Ok ==>
        && DealtFrom(Shuffled(old(deck.items), old(deck.removed), positions))
        && InPlayAgain() && lastPlayerToPlay.None?
      ensures st.Fail? ==> lastPlayerToPlay == old(lastPlayerToPlay)
      ensures nextPlayerInSequence == old(nextPlayerInSequence)
      ensures forall s :: numPlayers <= s < |players| ==> players[s].hand == old(players[s].hand)
    {
      ClearAndShuffle(positions);
      st := DealHands();
      if st.Fail? {
        return;
      }
      ResetSequence(None);
    }

    /** begin: a game that has begun cannot begin again; otherwise the game is set up, the
        players cut for dealer (drawing at the given indices) and the cards are dealt (with
        the given shuffle positions). */
    method Begin(indices: seq<nat>, positions: seq<nat>) returns (st: Status)
      requires Valid() && |indices| >= |players| && ValidPositions(positions, 52)
      modifies this`numPlayers, this`mode, this`winningTeam, this`teams, this`dealer, this`hasBegun
      modifies this`count, this`lastPlayerToPlay, this`playersInPlay, this`nextPlayerInSequence
      modifies kitty, deck, sequence, (set p | p in players)`hand
      ensures Valid()
      ensures old(hasBegun) ==> st == Fail(GameHasAlreadyBegun) && deck.items == old(deck.items)
      ensures !old(hasBegun) ==> numPlayers == |players|
      ensures !old(hasBegun) && (|players| < 2 || |players| > 6) ==> st == Fail(InvalidNumberOfPlayers)
      ensures !old(hasBegun) && |players| == 5 && |old(deck.items)| >= 5 ==> st == Fail(NotImplemented)
      ensures !old(hasBegun) && 2 <= |players| <= 4 && |old(deck.items)| >= |players| ==> st == Ok
      ensures hasBegun <==> old(hasBegun) || st == Ok
      ensures st == Ok ==> Started()
    {
      if hasBegun {
        return Fail(GameHasAlreadyBegun);
      }
      st := SetUp(indices, positions);
      if st.Ok? {
        hasBegun := true;
      }
    }

    /** The state a game begins in: teams made, nobody has won, a dealer chosen, play
        starting after the dealer, and a fresh sequence with the players holding cards
        in play. */
    ghost predicate Started()
      reads this`players, this`numPlayers, this`dealer, this`nextPlayerInSequence, this`lastPlayerToPlay,
        this`playersInPlay, this`count, this`teams, this`mode, this`winningTeam, sequence, (set p | p in players)`hand
    {
      TeamLayout() && winningTeam.None? && Opened()
    }

    /** A dealer chosen, play starting after the dealer, and a fresh sequence with the
        players holding cards in play. */
    ghost predicate Opened()
      reads this`players, this`numPlayers, this`dealer, this`nextPlayerInSequence, this`lastPlayerToPlay,
        this`playersInPlay, this`count, this`teams, sequence, (set p | p in players)`hand
    {
      && Seating() && dealer.Some? && 0 < numPlayers
      && nextPlayerInSequence == Some((dealer.value + 1) % numPlayers)
      && lastPlayerToPlay.None? && InPlayAgain()
    }

    /** The body of begin: initializeGame, cutForDealer and deal, stopping at the first
        that fails. */
    method SetUp(indices: seq<nat>, positions: seq<nat>) returns (st: Status)
      requires Valid() && |indices| >= |players| && ValidPositions(positions, 52)
      modifies this`numPlayers, this`mode, this`winningTeam, this`teams, this`dealer
      modifies this`count, this`lastPlayerToPlay, this`playersInPlay, this`nextPlayerInSequence
      modifies kitty, deck, sequence, (set p | p in players)`hand
      ensures Valid() && numPlayers == |players|
      ensures |players| < 2 || |players| > 6 ==> st == Fail(InvalidNumberOfPlayers)
      ensures |players| == 5 && |old(deck.items)| >= 5 ==> st == Fail(NotImplemented)
      ensures 2 <= |players| <= 4 && |old(deck.items)| >= |players| ==> st == Ok
      ensures st == Ok ==> Started()
    {
      st := InitializeGame();
      if st == Ok {
        assert deck.items == old(deck.items);
        st := CutAndDeal(indices, positions);
      }
    }

    /** The end of begin once the game is initialized: cutForDealer, then deal. */
    method CutAndDeal(indices: seq<nat>, positions: seq<nat>) returns (st: Status)
      requires Valid() && 2 <= numPlayers == |players| <= 6 && |indices| >= |players| && ValidPositions(positions, 52)
      modifies this`dealer, this`count, this`lastPlayerToPlay, this`playersInPlay, this`nextPlayerInSequence
      modifies kitty, deck, sequence, (set p | p in players)`hand
      ensures Valid()
      ensures |old(deck.items)| < numPlayers ==> st == Fail(Defect)
      ensures |old(deck.items)| >= numPlayers ==> st == DealOutcome() && dealer.Some?
      ensures st == Ok ==> Opened()
    {
      var cuts;
      st, cuts := CutForDealer(indices);
      if st == Ok {
        st := DealOpening(positions);
      }
    }

    /** The deal of begin, once a dealer has been cut for. */
    method DealOpening(positions: seq<nat>) returns (st: Status)
      requires Valid() && 2 <= numPlayers && ValidPositions(positions, 52)
      requires dealer.Some? && nextPlayerInSequence == Some((dealer.value + 1) % numPlayers)
      modifies this`count, this`lastPlayerToPlay, this`playersInPlay, this`nextPlayerInSequence
      modifies kitty, deck, sequence, (set p | p in players)`hand
      ensures Valid() && st == DealOutcome() && dealer.Some?
      ensures st == Ok ==> Opened()
    {
      st := Deal(positions);
    }

    /** countPoints: from the seat after the dealer round the table back to it, each
        player scores hand and played cards with the cut (the played cards going back into
        the hand) and the dealer, counted last, the kitty as well; the points go to the
        players' teams, and the first team past 120 wins and ends the counting. The
        tables `before` and `after` are the players' cards and points and the kitty's
        cards before and after; `scores` and `kittyPoints` are the points the source
        reports seat by seat and for the kitty; `stop` is the seat of the player counting
        when the game ended. A hand, kitty or team the count cannot use makes the source
        fail. */
    method CountPoints() returns (st: Status, over: bool, scores: seq<nat>, kittyPoints: nat, stop: nat,
                                  ghost before: Table, ghost after: Table)
      requires Valid() && cut.Some? && dealer.Some?
      modifies (set p | p in players)`hand, (set p | p in players)`played, (set p | p in players)`points
      modifies kitty, this`winningTeam
      ensures Valid()
      ensures old(Mirrors(players, kitty, before)) && Mirrors(players, kitty, after)
      ensures CountOutcome(numPlayers, dealer.value, cut.value, st, over, stop, before, after, scores, kittyPoints)
      ensures (forall i :: 0 <= i < numPlayers ==> Countable(players, teams, dealer.value, i, cut.value, before))
              ==> st == Ok
      ensures st == Ok && over ==>
        && stop < numPlayers && SeatTeam(players, teams, stop).Some?
        && winningTeam == Some(teams[SeatTeam(players, teams, stop).value])
        && Passed(teams[SeatTeam(players, teams, stop).value], true)
      ensures !(st == Ok && over) ==> winningTeam == old(winningTeam)
    {
      var ps, ts, n, dl, c := players, teams, numPlayers, dealer.value, cut.value;
      st, over, scores, kittyPoints, stop, before, after := CountRound(this, ps, ts, kitty, n, dl, c);
      assert ps == players && ts == teams && n == numPlayers && dl == dealer.value && c == cut.value;
    }

    /** The dealer as a player, or null when there is none. */
    function DealerPlayer(): (p: Option<CribbagePlayer>)
      reads this`dealer, this`players, this`numPlayers
      requires Seated(dealer) && numPlayers <= |players|
      ensures p.None? <==> dealer.None?
      ensures p.Some? ==> p.value == players[dealer.value]
    {
      if dealer.None? then None else Some(players[dealer.value])
    }

    /** What giveToKitty refuses, in the order it checks, before anything changes: an
        unknown player, a full kitty, a card the player does not hold, the wrong number of
        cards (two different cards with two players, one with three to six), the dealer
        throwing in a five-player game and a member of the dealer's team throwing in a
        six-player game. A six-player thrower on no team makes the source read a property
        of null. Whatever passes these checks in a game of two to six leaves the hand in
        full. */
    function KittyRefusal(name: string, cards: seq<Card>): (e: Option<GameError>)
      reads this`players, this`numPlayers, this`dealer, this`teams, kitty, (set p | p in players)`hand
      requires Seated(dealer) && numPlayers <= |players|
      ensures e.None? ==> SeatOf(name).Some? && |kitty.items| != 4
      ensures e.None? && 2 <= numPlayers <= 6 ==>
        && |cards| == (if numPlayers == 2 then 2 else 1)
        && Removable(players[SeatOf(name).value].hand, cards)
    {
      var seat := SeatOf(name);
      if seat.None? then Some(PlayerDoesNotExist)
      else if |kitty.items| == 4 then Some(KittyIsReady)
      else if exists i :: 0 <= i < |cards| && cards[i] !in players[seat.value].hand then Some(PlayerDoesntHaveCard)
      else if numPlayers == 2 && |cards| != 2 then Some(InvalidNumCardsThrownToKitty)
      else if numPlayers == 2 && cards[0] == cards[1] then Some(DuplicateCardThrownToKitty)
      else if 3 <= numPlayers <= 6 && |cards| != 1 then Some(InvalidNumCardsThrownToKitty)
      else if numPlayers == 5 && dealer == seat then Some(InvalidThrower)
      else if numPlayers == 6 && TeamOfSeat(seat.value).None? then Some(Defect)
      else if numPlayers == 6 && dealer.Some? && teams[TeamOfSeat(seat.value).value].HasPlayer(players[dealer.value].name)
      then Some(InvalidThrower)
      else if 2 <= numPlayers <= 6 then HeldRemovable(players[seat.value].hand, cards); None
      else None
    }

    /** The six-player check of giveToKitty: findTeam finds the thrower's team and no
        member of it may be the dealer. */
    method DealerOnTeam(seat: nat) returns (refusal: Option<GameError>)
      requires Valid() && seat < |players|
      ensures TeamOfSeat(seat).None? ==> refusal == Some(Defect)
      ensures TeamOfSeat(seat).Some? ==>
        (refusal == Some(InvalidThrower) <==> dealer.Some? && teams[TeamOfSeat(seat).value].HasPlayer(players[dealer.value].name))
      ensures TeamOfSeat(seat).Some? ==> refusal.None? || refusal == Some(InvalidThrower)
    {
      var t := FindTeam(TeamValues(teams), players[seat].name);
      if t.None? {
        return Some(Defect);
      }
      var onTeam := AnyEquals(teams[t.value].members, DealerPlayer());
      refusal := if onTeam then Some(InvalidThrower) else None;
    }

    /** The loop over a team's members in giveToKitty: whether one of them equals the
        given player (the dealer), by name; none equals null. */
    static method AnyEquals(members: seq<CribbagePlayer>, other: Option<CribbagePlayer>) returns (found: bool)
      ensures found <==> other.Some? && exists i :: 0 <= i < |members| && members[i].name == other.value.name
    {
      found := false;
      for ix := 0 to |members|
        invariant !found
        invariant forall i :: 0 <= i < ix ==> !members[i].EqualsOther(other)
      {
        if members[ix].EqualsOther(other) {
          found := true;
          break;
        }
      }
    }

    /** The checks of giveToKitty, made as the source makes them; they change nothing. */
    method CheckThrow(name: string, cards: seq<Card>) returns (refusal: Option<GameError>, seat: nat)
      requires Valid()
      ensures refusal == KittyRefusal(name, cards)
      ensures refusal.None? ==> SeatOf(name) == Some(seat)
    {
      var found := FindSeat(name);
      seat := if found.None? then 0 else found.value;
      if found.None? {
        refusal := Some(PlayerDoesNotExist);
      } else if kitty.Size() == 4 {
        refusal := Some(KittyIsReady);
      } else {
        refusal := CheckHeld(players[seat].hand, cards);
        if refusal.None? {
          refusal := CheckCount(seat, cards);
        }
      }
    }

    /** The first check of giveToKitty on the cards: each must be in the hand. */
    static method CheckHeld(hand: seq<Card>, cards: seq<Card>) returns (refusal: Option<GameError>)
      ensures refusal.None? <==> forall i :: 0 <= i < |cards| ==> cards[i] in hand
      ensures refusal.Some? ==> refusal == Some(PlayerDoesntHaveCard)
    {
      refusal := None;
      for ix := 0 to |cards|
        invariant refusal.None?
        invariant forall i :: 0 <= i < ix ==> cards[i] in hand
      {
        var index := LinearSearch(hand, cards[ix]);
        if index == -1 {
          refusal := Some(PlayerDoesntHaveCard);
          break;
        }
      }
    }

    /** The switch of giveToKitty on the number of players: how many cards, whether two
        are the same, and who may throw. */
    method CheckCount(seat: nat, cards: seq<Card>) returns (refusal: Option<GameError>)
      requires Valid() && seat < |players|
      ensures numPlayers == 2 ==>
        refusal == (if |cards| != 2 then Some(InvalidNumCardsThrownToKitty)
                    else if cards[0] == cards[1] then Some(DuplicateCardThrownToKitty)
                    else None)
      ensures 3 <= numPlayers <= 6 && |cards| != 1 ==> refusal == Some(InvalidNumCardsThrownToKitty)
      ensures numPlayers == 5 && |cards| == 1 ==> (refusal == Some(InvalidThrower) <==> dealer == Some(seat))
      ensures numPlayers == 5 && |cards| == 1 ==> refusal.None? || refusal == Some(InvalidThrower)
      ensures numPlayers == 6 && |cards| == 1 && TeamOfSeat(seat).None? ==> refusal == Some(Defect)
      ensures numPlayers == 6 && |cards| == 1 && TeamOfSeat(seat).Some? ==>
        (refusal == Some(InvalidThrower) <==> dealer.Some? && teams[TeamOfSeat(seat).value].HasPlayer(players[dealer.value].name))
      ensures numPlayers == 6 && |cards| == 1 && TeamOfSeat(seat).Some? ==> refusal.None? || refusal == Some(InvalidThrower)
      ensures (numPlayers < 2 || numPlayers > 6) || (3 <= numPlayers <= 4 && |cards| == 1) ==> refusal.None?
    {
      refusal := None;
      if numPlayers == 2 {
        if |cards| != 2 {
          refusal := Some(InvalidNumCardsThrownToKitty);
        } else if cards[0] == cards[1] {
          refusal := Some(DuplicateCardThrownToKitty);
        }
      } else if 3 <= numPlayers <= 6 {
        if |cards| != 1 {
          refusal := Some(InvalidNumCardsThrownToKitty);
        } else if numPlayers == 5 && players[seat].EqualsOther(DealerPlayer()) {
          NamesApart(players, seat);
          refusal := Some(InvalidThrower);
        } else if numPlayers == 6 {
          refusal := DealerOnTeam(seat);
        }
      }
    }

    /** The throw itself: the cards leave the thrower's hand one at a time, each while
        still held (itemAt(-1) throws at the first that is not), then the kitty takes
        each card it does not hold yet. */
    method Throw(seat: nat, cards: seq<Card>) returns (st: Status)
      requires seat < |players|
      modifies {players[seat]}`hand, kitty
      ensures players[seat].hand == Thrown(old(players[seat].hand), cards)
      ensures st == Ok <==> Removable(old(players[seat].hand), cards)
      ensures st.Fail? ==> st == Fail(ItemIndexOutOfBounds) && kitty.items == old(kitty.items)
      ensures st == Ok ==> kitty.items == Taken(old(kitty.items), cards)
    {
      var player := players[seat];
      st := Ok;
      for ix := 0 to |cards|
        invariant Thrown(player.hand, cards[ix..]) == Thrown(old(player.hand), cards)
        invariant Removable(player.hand, cards[ix..]) <==> Removable(old(player.hand), cards)
        invariant kitty.items == old(kitty.items)
      {
        assert cards[ix..][1..] == cards[ix + 1..];
        var index := LinearSearch(player.hand, cards[ix]);
        if index == -1 {
          assert cards[ix..][0] == cards[ix];
          st := Fail(ItemIndexOutOfBounds);
          break;
        }
        var inHand := player.PlayFromHand(player.hand[index]);
      }
      if st == Ok {
        assert cards[|cards|..] == [];
        for index := 0 to |cards|
          invariant Taken(kitty.items, cards[index..]) == Taken(old(kitty.items), cards)
          invariant player.hand == Thrown(old(player.hand), cards)
        {
          assert cards[index..][1..] == cards[index + 1..];
          var taken := kitty.TakeCard(cards[index]);
        }
      }
    }

    /** cutTheDeck: the card at `index` of the deck (where Math.random() points in the
        source) is drawn without replacement and becomes the cut. An empty deck yields no
        card, and the source then reads the value of undefined. */
    method CutTheDeck(index: nat) returns (st: Status)
      requires DeckComplete() && (deck.items != [] ==> index < |deck.items|)
      modifies deck, this`cut
      ensures DeckComplete()
      ensures old(deck.items) == [] ==>
        st == Fail(Defect) && cut == old(cut) && deck.items == old(deck.items) && deck.removed == old(deck.removed)
      ensures old(deck.items) != [] ==>
        && st == Ok && cut == Some(old(deck.items)[index])
        && deck.items == old(deck.items)[..index] + old(deck.items)[index + 1..]
        && deck.removed == old(deck.removed) + [cut.value]
    {
      if deck.items == [] {
        st := Fail(Defect);
      } else {
        var c := deck.RandomDraw(false, index);
        cut := Some(c);
        st := Ok;
      }
    }

    /** addPoints on the team findTeam finds for the player at `seat`, and setGameOver
        when that team passes 120. With the player on no team the source reads a
        property of null. */
    method Award(seat: nat, amount: int, ghost points: seq<int>) returns (st: Status, over: bool)
      requires Roster() && seat < |players| && PointsAre(players, points)
      modifies (set p | p in players)`points, this`winningTeam
      ensures SeatTeam(players, teams, seat).None? ==>
        st == Fail(Defect) && !over && PointsAre(players, points) && winningTeam == old(winningTeam)
      ensures SeatTeam(players, teams, seat).Some? ==>
        var team := teams[SeatTeam(players, teams, seat).value];
        && st == Ok && PointsAre(players, points[seat := points[seat] + amount])
        && Passed(team, over)
        && winningTeam == if over then Some(team) else old(winningTeam)
      ensures State() == old(State()).(winner := winningTeam)
    {
      var t := FindTeam(TeamValues(teams), players[seat].name);
      if t.None? {
        return Fail(Defect), false;
      }
      assert t == SeatTeam(players, teams, seat);
      st := Ok;
      over := AwardTeam(seat, t.value, amount, points);
    }

    /** Award for a player on the team `teams[t]`. */
    method AwardTeam(seat: nat, t: nat, amount: int, ghost points: seq<int>) returns (over: bool)
      requires Roster() && seat < |players| && PointsAre(players, points) && SeatTeam(players, teams, seat) == Some(t)
      modifies (set p | p in players)`points, this`winningTeam
      ensures PointsAre(players, points[seat := points[seat] + amount])
      ensures Passed(teams[t], over)
      ensures winningTeam == if over then Some(teams[t]) else old(winningTeam)
      ensures State() == old(State()).(winner := winningTeam)
    {
      var team := teams[t];
      over := Credit(players, teams, seat, team, amount, points);
      if over {
        var response := SetGameOver(team);
      }
    }

    /** Award of a point to the player at `g` at a table whose hands, played cards and
        points are `hands`, `played` and `points`: the hands and played cards stay. */
    method AwardAtTable(g: nat, ghost hands: seq<seq<Card>>, ghost played: seq<seq<Card>>, ghost points: seq<int>)
      returns (st: Status, over: bool)
      requires Valid() && g < numPlayers
      requires HandsAre(players, hands) && PlayedAre(players, played) && PointsAre(players, points)
      modifies (set p | p in players)`points, this`winningTeam
      ensures Valid() && HandsAre(players, hands) && PlayedAre(players, played)
      ensures SeatTeam(players, teams, g).None? ==>
        st == Fail(Defect) && !over && PointsAre(players, points) && winningTeam == old(winningTeam)
      ensures SeatTeam(players, teams, g).Some? ==>
        var team := teams[SeatTeam(players, teams, g).value];
        && st == Ok && PointsAre(players, points[g := points[g] + 1])
        && Passed(team, over)
        && winningTeam == if over then Some(team) else old(winningTeam)
      ensures State() == old(State()).(winner := winningTeam)
    {
      st, over := Award(g, 1, points);
    }

    /** What his heels leaves, with the points and the winning team from before it: a
        Jack cut gives the dealer 2 points through findTeam on the dealer, and their team
        wins when it passes 120; with no dealer or no team for the dealer, findTeam finds
        nothing and the source reads a property of null. */
    ghost predicate HeelsPaid(points: seq<int>, st: Status, over: bool, before: Option<CribbageTeam>)
      reads this`players, this`teams, this`numPlayers, this`dealer, this`cut, this`winningTeam
      reads (set p | p in players)`points, (set t, p | t in teams && p in t.members :: p)`points
    {
      && cut.Some?
      && (cut.value.value != Jack ==>
            st == Ok && !over && PointsAre(players, points) && winningTeam == before)
      && (cut.value.value == Jack && (dealer.None? || dealer.value >= |players|) ==>
            st == Fail(Defect) && !over && PointsAre(players, points) && winningTeam == before)
      && (cut.value.value == Jack && dealer.Some? && dealer.value < |players| ==>
            match SeatTeam(players, teams, dealer.value)
            case None =>
              st == Fail(Defect) && !over && PointsAre(players, points) && winningTeam == before
            case Some(t) =>
              && st == Ok && |points| == |players|
              && PointsAre(players, points[dealer.value := points[dealer.value] + 2])
              && Passed(teams[t], over)
              && winningTeam == if over then Some(teams[t]) else before)
    }

    /** His heels, after the cut. */
    method HisHeels(ghost points: seq<int>) returns (st: Status, over: bool)
      requires Roster() && Seated(dealer) && cut.Some? && PointsAre(players, points)
      modifies (set p | p in players)`points, this`winningTeam
      ensures HeelsPaid(points, st, over, old(winningTeam))
    {
      st, over := Ok, false;
      if cut.value.value == Jack {
        if dealer.None? {
          st := Fail(Defect);
        } else {
          st, over := Award(dealer.value, 2, points);
        }
      }
    }

    /** The end of giveToKitty once the kitty holds four cards: the deck is cut and his
        heels scored. */
    method CutAndScore(cutIndex: nat, ghost points: seq<int>) returns (st: Status, over: bool)
      requires Valid() && PointsAre(players, points) && (deck.items != [] ==> cutIndex < |deck.items|)
      modifies deck, this`cut, (set p | p in players)`points, this`winningTeam
      ensures DeckComplete()
      ensures old(deck.items) == [] ==>
        && st == Fail(Defect) && !over && cut == old(cut) && deck.items == old(deck.items)
        && PointsAre(players, points) && winningTeam == old(winningTeam)
      ensures old(deck.items) != [] ==>
        && cut == Some(old(deck.items)[cutIndex])
        && deck.items == old(deck.items)[..cutIndex] + old(deck.items)[cutIndex + 1..]
        && HeelsPaid(points, st, over, old(winningTeam))
    {
      over := false;
      st := CutTheDeck(cutIndex);
      if st == Ok {
        st, over := HisHeels(points);
      }
    }

    /** giveToKitty once its checks have passed, for the player at `seat`: the cards leave
        the hand for the kitty, and a full kitty brings the cut and his heels. */
    method Accept(seat: nat, cards: seq<Card>, cutIndex: nat, ghost hands: seq<seq<Card>>, ghost points: seq<int>)
      returns (st: Status, over: bool)
      requires Valid() && seat < |players| && HandsAre(players, hands) && PointsAre(players, points)
      requires deck.items != [] ==> cutIndex < |deck.items|
      modifies (set p | p in players)`hand, kitty, deck, this`cut, (set p | p in players)`points, this`winningTeam
      ensures Valid()
      ensures HandsAre(players, hands[seat := Thrown(hands[seat], cards)])
      ensures st == Fail(ItemIndexOutOfBounds) <==> !Removable(hands[seat], cards)
      ensures kitty.items == if Removable(hands[seat], cards) then Taken(old(kitty.items), cards) else old(kitty.items)
      ensures !Removable(hands[seat], cards) || |kitty.items| != 4 ==>
        && (st == Ok || st == Fail(ItemIndexOutOfBounds)) && !over
        && cut == old(cut) && deck.items == old(deck.items)
        && PointsAre(players, points) && winningTeam == old(winningTeam)
      ensures Removable(hands[seat], cards) && |kitty.items| == 4 && old(deck.items) == [] ==>
        && st == Fail(Defect) && !over && cut == old(cut) && deck.items == old(deck.items)
        && PointsAre(players, points) && winningTeam == old(winningTeam)
      ensures Removable(hands[seat], cards) && |kitty.items| == 4 && old(deck.items) != [] ==>
        && cut == Some(old(deck.items)[cutIndex])
        && deck.items == old(deck.items)[..cutIndex] + old(deck.items)[cutIndex + 1..]
        && HeelsPaid(points, st, over, old(winningTeam))
    {
      NamesApart(players, seat);
      over := false;
      st := Throw(seat, cards);
      if st == Ok && kitty.Size() == 4 {
        st, over := CutAndScore(cutIndex, points);
      }
    }

    /** giveToKitty: nothing changes when one of the refusals of KittyRefusal applies;
        otherwise the player's cards go to the kitty as Accept says. */
    method GiveToKitty(name: string, cards: seq<Card>, cutIndex: nat, ghost hands: seq<seq<Card>>,
                       ghost points: seq<int>) returns (st: Status, response: Response)
      requires Valid() && HandsAre(players, hands) && PointsAre(players, points)
      requires deck.items != [] ==> cutIndex < |deck.items|
      modifies (set p | p in players)`hand, kitty, deck, this`cut, (set p | p in players)`points, this`winningTeam
      ensures Valid() && !response.roundOver && !response.sequenceOver
      ensures old(KittyRefusal(name, cards)).Some? ==>
        && st == Fail(old(KittyRefusal(name, cards)).value) && !response.gameOver
        && HandsAre(players, hands) && kitty.items == old(kitty.items)
        && cut == old(cut) && deck.items == old(deck.items)
        && PointsAre(players, points) && winningTeam == old(winningTeam)
      ensures old(KittyRefusal(name, cards)).None? ==>
        var seat := SeatOf(name).value;
        && HandsAre(players, hands[seat := Thrown(hands[seat], cards)])
        && (2 <= numPlayers <= 6 ==> Removable(hands[seat], cards))
        && (Removable(hands[seat], cards) ==> kitty.items == Taken(old(kitty.items), cards))
        && (Removable(hands[seat], cards) && |kitty.items| != 4 ==>
              && st == Ok && !response.gameOver && cut == old(cut) && deck.items == old(deck.items)
              && PointsAre(players, points) && winningTeam == old(winningTeam))
        && (Removable(hands[seat], cards) && |kitty.items| == 4 && old(deck.items) == [] ==>
              st == Fail(Defect) && !response.gameOver)
        && (Removable(hands[seat], cards) && |kitty.items| == 4 && old(deck.items) != [] ==>
              && cut == Some(old(deck.items)[cutIndex])
              && deck.items == old(deck.items)[..cutIndex] + old(deck.items)[cutIndex + 1..]
              && HeelsPaid(points, st, response.gameOver, old(winningTeam)))
    {
      var refusal, seat := CheckThrow(name, cards);
      response := Continue;
      if refusal.Some? {
        st := Fail(refusal.value);
      } else {
        var over;
        st, over := Accept(seat, cards, cutIndex, hands, points);
        response := if over then GameOver else Continue;
      }
    }

    /** The game once a round is over and the next dealt: no cut and nobody to have
        played, the deal passed on from `prev` and play starting after the new dealer,
        and the deal's outcome `st` by the number of players; a deal that went through
        gave the hands and kitty from the shuffled deck `order` and put the players
        holding cards back in play with a count of 0. */
    ghost predicate NewRound(prev: nat, order: seq<Card>, st: Status)
      reads this`players, this`numPlayers, this`dealer, this`nextPlayerInSequence, this`lastPlayerToPlay,
        this`playersInPlay, this`count, this`teams, this`cut, kitty, sequence, (set p | p in players)`hand
    {
      && cut.None? && lastPlayerToPlay.None? && 0 < numPlayers <= |players|
      && dealer == Some((prev + 1) % numPlayers)
      && nextPlayerInSequence == Some((dealer.value + 1) % numPlayers)
      && st == DealOutcome()
      && (st == Ok ==> DealtFrom(order) && InPlayAgain())
    }

    /** What deal comes to by the number of players: two to four are dealt, dealForFive
        is not implemented, six as SixDealOutcome says, and any other number is
        refused. */
    function DealOutcome(): (st: Status)
      reads this`dealer, this`numPlayers, this`teams, this`players
      requires numPlayers <= |players| && Seated(dealer)
      ensures st == Ok ==> numPlayers in {2, 3, 4, 6} && dealer.Some?
      ensures st.Fail? ==> st.error in {InvalidNumberOfPlayers, NotImplemented, Defect, Diverges}
      ensures dealer.None? && numPlayers in {2, 3, 4, 6} ==> st == Fail(Defect)
    {
      if numPlayers < 2 || numPlayers > 6 then Fail(InvalidNumberOfPlayers)
      else if numPlayers == 5 then Fail(NotImplemented)
      else if dealer.None? then Fail(Defect)
      else if numPlayers == 6 then SixDealOutcome()
      else Ok
    }

    /** The hands and the kitty are those the deal gives from the shuffled deck `order`. */
    ghost predicate DealtFrom(order: seq<Card>)
      reads this`players, this`numPlayers, this`dealer, kitty, (set p | p in players)`hand
      requires numPlayers <= |players| && Seated(dealer) && dealer.Some? && numPlayers in {2, 3, 4, 6}
    {
      && |order| == 52
      && (forall s :: 0 <= s < numPlayers ==> players[s].hand == DealtHand(order, s))
      && kitty.items == KittyDealt(order)
    }

    /** A fresh sequence: a count of 0, no cards, and the players holding cards in play. */
    ghost predicate InPlayAgain()
      reads this`players, this`numPlayers, this`playersInPlay, this`count, sequence, (set p | p in players)`hand
      requires numPlayers <= |players|
    {
      && count == 0 && sequence.cards == []
      && (forall s: nat :: s in playersInPlay <==> s < numPlayers && players[s].hand != [])
    }

    /** The end of roundOverResetState: the cut and the last player to play are cleared,
        the deal passes on and the cards are dealt (with the given shuffle positions). */
    method NextRound(positions: seq<nat>, ghost points: seq<int>) returns (st: Status)
      requires Valid() && ValidPositions(positions, 52) && dealer.Some? && PointsAre(players, points)
      modifies this`cut, this`dealer, kitty, deck, sequence, (set p | p in players)`hand
      modifies this`count, this`lastPlayerToPlay, this`playersInPlay, this`nextPlayerInSequence
      ensures Valid()
      ensures NewRound(old(dealer).value, Shuffled(old(deck.items), old(deck.removed), positions), st)
      ensures PointsAre(players, points) && winningTeam == old(winningTeam)
    {
      ghost var prev := dealer.value;
      cut := None;
      lastPlayerToPlay := None;
      SetNextDealer();
      st := DealNext(prev, positions, points);
    }

    /** The deal of NextRound, once the deal has passed on from the seat `prev`. */
    method DealNext(ghost prev: nat, positions: seq<nat>, ghost points: seq<int>) returns (st: Status)
      requires Valid() && ValidPositions(positions, 52) && PointsAre(players, points)
      requires cut.None? && lastPlayerToPlay.None? && 0 < numPlayers
      requires dealer == Some((prev + 1) % numPlayers) && nextPlayerInSequence == Some((dealer.value + 1) % numPlayers)
      modifies kitty, deck, sequence, (set p | p in players)`hand
      modifies this`count, this`lastPlayerToPlay, this`playersInPlay, this`nextPlayerInSequence
      ensures Valid()
      ensures NewRound(prev, Shuffled(old(deck.items), old(deck.removed), positions), st)
      ensures PointsAre(players, points)
    {
      st := Deal(positions);
    }

    /** roundOverResetState: the round is counted (countPoints, whose outcome `counted`,
        `over`, `stop`, `scores` and `kittyPoints` are as CountPoints says) and the next
        round dealt, whether or not the count ended the game. Counting without a cut or a
        dealer, or a count the source fails in, stops the source there. */
    method RoundOverResetState(positions: seq<nat>)
      returns (st: Status, counted: Status, over: bool, stop: nat, ghost before: Table,
               ghost after: Table, ghost scores: seq<nat>, ghost kittyPoints: nat)
      requires Valid() && ValidPositions(positions, 52)
      modifies (set p | p in players)`hand, (set p | p in players)`played, (set p | p in players)`points
      modifies kitty, deck, sequence, this`winningTeam, this`cut, this`dealer
      modifies this`count, this`lastPlayerToPlay, this`playersInPlay, this`nextPlayerInSequence
      ensures Valid()
      ensures old(cut).Some? && old(dealer).Some? ==> old(Mirrors(players, kitty, before))
      ensures RoundReset(old(dealer), old(cut), Shuffled(old(deck.items), old(deck.removed), positions), old(winningTeam),
                         st, counted, over, stop, before, after, scores, kittyPoints)
    {
      if cut.None? || dealer.None? {
        st, counted, over, stop := Fail(Defect), Fail(Defect), false, 0;
        before, after, scores, kittyPoints := Table([], [], [], []), Table([], [], [], []), [], 0;
      } else {
        st, counted, over, stop, before, after, scores, kittyPoints := CountThenDeal(positions);
      }
    }

    /** roundOverResetState with a cut and a dealer. */
    method CountThenDeal(positions: seq<nat>)
      returns (st: Status, counted: Status, over: bool, stop: nat, ghost before: Table,
               ghost after: Table, ghost scores: seq<nat>, ghost kittyPoints: nat)
      requires Valid() && ValidPositions(positions, 52) && cut.Some? && dealer.Some?
      modifies (set p | p in players)`hand, (set p | p in players)`played, (set p | p in players)`points
      modifies kitty, deck, sequence, this`winningTeam, this`cut, this`dealer
      modifies this`count, this`lastPlayerToPlay, this`playersInPlay, this`nextPlayerInSequence
      ensures Valid()
      ensures old(Mirrors(players, kitty, before)) && PointsAre(players, after.points)
      ensures CountOutcome(numPlayers, old(dealer).value, old(cut).value, counted, over, stop, before, after, scores, kittyPoints)
      ensures (forall i :: 0 <= i < numPlayers ==> old(Countable(players, teams, dealer.value, i, cut.value, before)))
              ==> counted == Ok
      ensures counted == Ok && over ==>
        stop < numPlayers && SeatTeam(players, teams, stop).Some?
        && winningTeam == Some(teams[SeatTeam(players, teams, stop).value])
      ensures !(counted == Ok && over) ==> winningTeam == old(winningTeam)
      ensures counted.Fail? ==> st == counted
      ensures counted == Ok ==> NewRound(old(dealer).value, Shuffled(old(deck.items), old(deck.removed), positions), st)
    {
      ghost var ps, ts, n := players, teams, numPlayers;
      counted, over, scores, kittyPoints, stop, before, after := CountPoints();
      assert ps == players && ts == teams && n == numPlayers;
      st := counted;
      if counted == Ok {
        ghost var w := winningTeam;
        st := NextRound(positions, after.points);
        assert ps == players && ts == teams && n == numPlayers && w == winningTeam;
      }
    }

    // -------------------------------------------------------------------------------
    // Playing a card and saying go

    /** What playCard refuses, in the order it checks, before anything changes: a kitty
        that is not full, a player who is not next, and a card whose worth takes the count
        past 31. An unknown player, or no next player, makes the source read a property of
        null. (A card the player does not hold is refused afterwards, by the player's own
        playCard, which then changes nothing.) */
    function PlayRefusal(name: string, card: Card): (e: Option<GameError>)
      reads kitty`items, this`players, this`nextPlayerInSequence, this`count
      ensures e.None? <==>
        && |kitty.items| == 4 && SeatOf(name).Some? && nextPlayerInSequence == SeatOf(name)
        && count + CardValue(card) <= 31
      ensures |kitty.items| != 4 ==> e == Some(KittyNotReady)
      ensures |kitty.items| == 4 && SeatOf(name).Some? && nextPlayerInSequence.Some? && nextPlayerInSequence != SeatOf(name)
              ==> e == Some(NotNextPlayer)
      ensures e == Some(Exceeds31) <==>
        && |kitty.items| == 4 && SeatOf(name).Some? && nextPlayerInSequence == SeatOf(name)
        && count + CardValue(card) > 31
    {
      var seat := SeatOf(name);
      if |kitty.items| != 4 then Some(KittyNotReady)
      else if seat.None? || nextPlayerInSequence.None? then Some(Defect)
      else if nextPlayerInSequence != seat then Some(NotNextPlayer)
      else if count + CardValue(card) > 31 then Some(Exceeds31)
      else None
    }

    /** What go refuses, in the order it checks, before anything changes: an unknown
        player, a player holding a card that fits the count, a player no longer in play,
        and a player who is not next (with no next player the source reads a property of
        null). As written, go asks the player's canPlay, which judges a card at its face
        value, not at the worth playCard adds to the count. */
    function GoRefusal(name: string): (e: Option<GameError>)
      reads this`players, this`playersInPlay, this`nextPlayerInSequence, this`count, (set p | p in players)`hand
      ensures e.None? <==>
        && SeatOf(name).Some? && !FitsAtFace(players[SeatOf(name).value].hand, count)
        && SeatOf(name).value in playersInPlay && nextPlayerInSequence == SeatOf(name)
      ensures SeatOf(name).None? ==> e == Some(PlayerDoesNotExist)
      ensures SeatOf(name).Some? && FitsAtFace(players[SeatOf(name).value].hand, count) ==> e == Some(PlayerCanPlay)
    {
      var seat := SeatOf(name);
      if seat.None? then Some(PlayerDoesNotExist)
      else if FitsAtFace(players[seat.value].hand, count) then Some(PlayerCanPlay)
      else if seat.value !in playersInPlay then Some(PlayerNotInPlay)
      else if nextPlayerInSequence.None? then Some(Defect)
      else if nextPlayerInSequence != seat then Some(NotNextPlayer)
      else None
    }

    /** go's refusals as the game needs them: the same checks in the same order, with a
        card judged to fit at its worth, as playCard judges it. */
    function GoRefusalAtWorth(name: string): (e: Option<GameError>)
      reads this`players, this`playersInPlay, this`nextPlayerInSequence, this`count, (set p | p in players)`hand
      ensures e.None? <==>
        && SeatOf(name).Some? && !FitsAtWorth(players[SeatOf(name).value].hand, count)
        && SeatOf(name).value in playersInPlay && nextPlayerInSequence == SeatOf(name)
      ensures SeatOf(name).None? ==> e == Some(PlayerDoesNotExist)
      ensures SeatOf(name).Some? && FitsAtWorth(players[SeatOf(name).value].hand, count) ==> e == Some(PlayerCanPlay)
    {
      var seat := SeatOf(name);
      if seat.None? then Some(PlayerDoesNotExist)
      else if FitsAtWorth(players[seat.value].hand, count) then Some(PlayerCanPlay)
      else if seat.value !in playersInPlay then Some(PlayerNotInPlay)
      else if nextPlayerInSequence.None? then Some(Defect)
      else if nextPlayerInSequence != seat then Some(NotNextPlayer)
      else None
    }

    /** The go judged at worth accepts no go that the go as written refuses. */
    lemma GoAtWorthStricter(name: string)
      ensures GoRefusalAtWorth(name).None? ==> GoRefusal(name).None?
    {
      if SeatOf(name).Some? {
        FitsAtWorthHeld(players[SeatOf(name).value].hand, count);
      }
    }

    /** With the go judged at worth, once the kitty is full a go is accepted only from a
        player every one of whose cards playCard would refuse for taking the count past
        31. */
    lemma GoOnlyWhenStuck(name: string, card: Card)
      requires GoRefusalAtWorth(name).None? && |kitty.items| == 4
      requires card in players[SeatOf(name).value].hand
      ensures PlayRefusal(name, card) == Some(Exceeds31)
    {
      FitsAtWorthHeld(players[SeatOf(name).value].hand, count);
    }

    /** The go as written accepts a go from a player who could play: at a count of 21,
        with a lone King in hand, go lets the player pass, and playCard would take the
        King to exactly 31. */
    lemma GoAtTwentyOne(name: string, seat: nat)
      requires |kitty.items| == 4 && count == 21
      requires SeatOf(name) == Some(seat) && seat in playersInPlay && nextPlayerInSequence == Some(seat)
      requires players[seat].hand == [Card(Spades, King)]
      ensures GoRefusal(name).None? && GoRefusalAtWorth(name) == Some(PlayerCanPlay)
      ensures PlayRefusal(name, Card(Spades, King)).None?
    {
      KingAtTwentyOne();
    }

    /** The turn has passed on from `seat` as setNextPlayerInSequence passes it: to the
        first seat in play after it; with nobody in play the source's loop never ends. */
    ghost predicate TurnPassed(seat: nat, st: Status)
      reads this`playersInPlay, this`nextPlayerInSequence, this`numPlayers
    {
      && (playersInPlay == [] ==> st == Fail(Diverges))
      && (playersInPlay != [] ==>
            && st == Ok && nextPlayerInSequence.Some? && nextPlayerInSequence.value in playersInPlay
            && FirstInPlayAfter(seat, numPlayers, playersInPlay, nextPlayerInSequence.value))
    }

    /** setNextPlayerInSequence for the player at `seat` once the turn has been handed to
        the seat after it. */
    method PassFromNextSeat(seat: nat) returns (st: Status)
      requires Seating() && seat < numPlayers && nextPlayerInSequence == Some((seat + 1) % numPlayers)
      modifies this`nextPlayerInSequence
      ensures Seating() && TurnPassed(seat, st)
    {
      assert Step(seat, numPlayers) == (seat + 1) % numPlayers;
      st := SetNextPlayerInSequence(seat);
      if playersInPlay != [] {
        FromNextSeat(seat, numPlayers, playersInPlay, nextPlayerInSequence.value);
      }
    }

    /** setNextPlayerInSequence for the player at `seat` while the turn is still theirs. */
    method PassFromSeat(seat: nat) returns (st: Status)
      requires Seating() && seat < numPlayers && nextPlayerInSequence == Some(seat)
      modifies this`nextPlayerInSequence
      ensures Seating() && TurnPassed(seat, st)
    {
      st := SetNextPlayerInSequence(seat);
      if playersInPlay != [] {
        var d :| 1 <= d <= numPlayers && nextPlayerInSequence.value == Advance(seat, numPlayers, d)
                 && forall d' :: 1 <= d' < d ==> Advance(seat, numPlayers, d') !in playersInPlay;
      }
    }

    /** The checks of playCard on the kitty, the player and the count. */
    method CheckPlay(name: string, card: Card) returns (refusal: Option<GameError>, seat: nat)
      requires NamesDistinct(players)
      ensures refusal == PlayRefusal(name, card)
      ensures refusal.None? ==> SeatOf(name) == Some(seat)
    {
      seat := 0;
      if kitty.Size() != 4 {
        return Some(KittyNotReady), 0;
      }
      var found := FindSeat(name);
      if found.None? || nextPlayerInSequence.None? {
        return Some(Defect), 0;
      }
      if nextPlayerInSequence != found {
        return Some(NotNextPlayer), 0;
      }
      if count + CardValue(card) > 31 {
        return Some(Exceeds31), 0;
      }
      refusal, seat := None, found.value;
    }

    /** The checks of go, in its order. */
    method CheckGo(name: string) returns (refusal: Option<GameError>, seat: nat)
      requires NamesDistinct(players)
      ensures refusal == GoRefusal(name)
      ensures refusal.None? ==> SeatOf(name) == Some(seat)
    {
      seat := 0;
      var found := FindSeat(name);
      if found.None? {
        return Some(PlayerDoesNotExist), 0;
      }
      var canPlay := players[found.value].CanPlay(count);
      if canPlay {
        return Some(PlayerCanPlay), 0;
      }
      var index := LinearSearch(playersInPlay, found.value);
      if index == -1 {
        return Some(PlayerNotInPlay), 0;
      }
      if nextPlayerInSequence.None? {
        return Some(Defect), 0;
      }
      if nextPlayerInSequence != found {
        return Some(NotNextPlayer), 0;
      }
      refusal, seat := None, found.value;
    }

    /** The player's own playCard, seen from the table: a held card leaves the hand at
        `seat` for its played cards, and no other seat changes. */
    method PlayFromSeat(seat: nat, card: Card, ghost hands: seq<seq<Card>>, ghost played: seq<seq<Card>>)
      returns (inHand: bool)
      requires NamesDistinct(players) && seat < |players| && HandsAre(players, hands) && PlayedAre(players, played)
      modifies (set p | p in players)`hand, (set p | p in players)`played
      ensures inHand <==> card in hands[seat]
      ensures HandsAre(players, hands[seat := Without(hands[seat], card)])
      ensures PlayedAre(players, if inHand then played[seat := played[seat] + [card]] else played)
    {
      NamesApart(players, seat);
      inHand := players[seat].PlayCard(card);
      assert HandsAre(players, hands[seat := Without(hands[seat], card)]) by {
        forall i | 0 <= i < |players| ensures players[i].hand == hands[seat := Without(hands[seat], card)][i] {
        }
      }
      assert PlayedAre(players, if inHand then played[seat := played[seat] + [card]] else played) by {
        forall i | 0 <= i < |players|
          ensures players[i].played == (if inHand then played[seat := played[seat] + [card]] else played)[i]
        {
        }
      }
    }

    /** The first half of playCard once its checks have passed: the player's own playCard,
        then, if the card was held, the count and the sequence. */
    method Lay(seat: nat, card: Card, ghost hands: seq<seq<Card>>, ghost played: seq<seq<Card>>)
      returns (inHand: bool, added: Result<nat, SequenceError>)
      requires Seating() && seat < numPlayers && count + CardValue(card) <= 31
      requires HandsAre(players, hands) && PlayedAre(players, played)
      modifies (set p | p in players)`hand, (set p | p in players)`played, this`lastPlayerToPlay, this`playersInPlay, this`count, sequence
      ensures Seating()
      ensures inHand <==> card in hands[seat]
      ensures !inHand ==> HandsAre(players, hands) && PlayedAre(players, played) && State() == old(State())
      ensures inHand ==>
        && HandsAre(players, hands[seat := Without(hands[seat], card)])
        && PlayedAre(players, played[seat := played[seat] + [card]])
        && State() == AfterLay(seat, card, Without(hands[seat], card) == [], old(State())).(cards := sequence.cards)
        && (card in old(sequence.cards) ==>
              added == Failure(SequenceError.CardAlreadyInSequence) && sequence.cards == old(sequence.cards))
        && (card !in old(sequence.cards) ==>
              sequence.cards == old(sequence.cards) + [card] && added == Success(SequencePoints(sequence.cards)))
    {
      ghost var before := State();
      inHand := PlayFromSeat(seat, card, hands, played);
      assert State() == before;
      if !inHand {
        WithoutMultiset(hands[seat], card);
        assert hands[seat := Without(hands[seat], card)] == hands;
        return inHand, Success(0);
      }
      assert players[seat].hand == Without(hands[seat], card);
      added := Record(seat, card, players[seat].hand == []);
    }

    /** The game's side of a card laid: the player is the last to play and, when
        `emptied`, leaves play; the card goes on the count and into the sequence. */
    method Record(seat: nat, card: Card, emptied: bool) returns (added: Result<nat, SequenceError>)
      requires Seating() && seat < numPlayers && count + CardValue(card) <= 31
      modifies this`lastPlayerToPlay, this`playersInPlay, this`count, sequence
      ensures Seating()
      ensures State() == AfterLay(seat, card, emptied, old(State())).(cards := sequence.cards)
      ensures card in old(sequence.cards) ==> added == Failure(SequenceError.CardAlreadyInSequence) && sequence.cards == old(sequence.cards)
      ensures card !in old(sequence.cards) ==> sequence.cards == old(sequence.cards) + [card] && added == Success(SequencePoints(sequence.cards))
    {
      ghost var b := State();
      lastPlayerToPlay := Some(seat);
      if emptied {
        RemoveFromPlay(seat);
      }
      count := count + CardValue(card);
      assert Seating() && State() == AfterLay(seat, card, emptied, b).(cards := b.cards);
      added := sequence.AddCard(card);
    }

    /** removeItem on the players in play: the first occurrence of `seat` leaves. */
    method RemoveFromPlay(seat: nat)
      requires Seating()
      modifies this`playersInPlay
      ensures Seating() && playersInPlay == Without(old(playersInPlay), seat)
      ensures State() == old(State()).(inPlay := playersInPlay)
    {
      WithoutWithin(playersInPlay, seat, numPlayers);
      var rest := Without<nat>(playersInPlay, seat);
      assert forall i :: 0 <= i < |rest| ==> rest[i] < numPlayers by {
        forall i | 0 <= i < |rest| ensures rest[i] < numPlayers {
          assert rest[i] in rest;
        }
      }
      playersInPlay := rest;
    }

    /** The points of a card laid, through addPoints on the player's team, which the
        source looks up before the card is laid: what the sequence scored, then 2 more at
        a count of 15 or 31, the game ending as soon as the team passes 120. A player on
        no team makes the source read a property of null, but only when there are points
        to give. `early` says the game ended on the sequence's points, before the 2. */
    method Peg(seat: nat, run: nat, ghost hands: seq<seq<Card>>, ghost played: seq<seq<Card>>, ghost points: seq<int>)
      returns (st: Status, over: bool, ghost early: bool, ghost gain: nat)
      requires Valid() && seat < numPlayers
      requires HandsAre(players, hands) && PlayedAre(players, played) && PointsAre(players, points)
      modifies (set p | p in players)`points, this`winningTeam
      ensures Valid() && HandsAre(players, hands) && PlayedAre(players, played)
      ensures SeatTeam(players, teams, seat).None? ==>
        && st == (if PegPoints(run, count) > 0 then Fail(Defect) else Ok) && !over && gain == PegPoints(run, count)
        && PointsAre(players, points) && winningTeam == old(winningTeam)
      ensures SeatTeam(players, teams, seat).Some? ==>
        var team := teams[SeatTeam(players, teams, seat).value];
        && st == Ok && (early ==> over && run > 0)
        && gain == (if early then run else PegPoints(run, count))
        && PointsAre(players, points[seat := points[seat] + gain])
        && (if PegPoints(run, count) > 0 then Passed(team, over) else !over)
        && winningTeam == if over then Some(team) else old(winningTeam)
      ensures State() == old(State()).(winner := winningTeam)
    {
      var t := FindTeam(TeamValues(teams), players[seat].name);
      assert t == SeatTeam(players, teams, seat);
      st, over, early, gain := Ok, false, false, PegPoints(run, count);
      if t.None? {
        if PegPoints(run, count) > 0 {
          st := Fail(Defect);
        }
        return;
      }
      over, early, gain := PegSome(seat, t.value, run, hands, played, points);
    }

    /** Peg for a player on the team `teams[t]`. */
    method PegSome(seat: nat, t: nat, run: nat, ghost hands: seq<seq<Card>>, ghost played: seq<seq<Card>>,
                   ghost points: seq<int>)
      returns (over: bool, ghost early: bool, ghost gain: nat)
      requires Roster() && seat < |players| && PointsAre(players, points) && SeatTeam(players, teams, seat) == Some(t)
      modifies (set p | p in players)`points, this`winningTeam
      ensures HandsAre(players, hands) == old(HandsAre(players, hands))
      ensures PlayedAre(players, played) == old(PlayedAre(players, played))
      ensures SeatTeam(players, teams, seat).Some? ==>
        var team := teams[SeatTeam(players, teams, seat).value];
        && (early ==> over && run > 0)
        && gain == (if early then run else PegPoints(run, count))
        && PointsAre(players, points[seat := points[seat] + gain])
        && (if PegPoints(run, count) > 0 then Passed(team, over) else !over)
        && winningTeam == if over then Some(team) else old(winningTeam)
      ensures State() == old(State()).(winner := winningTeam)
    {
      over, early, gain := PegTeam(seat, teams[t], run, points);
      assert SeatTeam(players, teams, seat) == Some(t);
    }

    /** Peg, once the player's team is known. */
    method PegTeam(seat: nat, team: CribbageTeam, run: nat, ghost points: seq<int>)
        returns (over: bool, ghost early: bool, ghost gain: nat)
      requires Seats(players, teams) && seat < |players| && PointsAre(players, points)
      requires team in teams && team.HasPlayer(players[seat].name)
      modifies (set p | p in players)`points, this`winningTeam
      ensures early ==> over && run > 0
      ensures gain == (if early then run else PegPoints(run, count))
      ensures PointsAre(players, points[seat := points[seat] + gain])
      ensures if PegPoints(run, count) > 0 then Passed(team, over) else !over
      ensures winningTeam == if over then Some(team) else old(winningTeam)
      ensures State() == old(State()).(winner := winningTeam)
    {
      over, early, gain := false, false, run;
      if run > 0 {
        over := Credit(players, teams, seat, team, run, points);
        if over {
          var response := SetGameOver(team);
          early := true;
          return;
        }
      } else {
        AddNothing(points, seat);
      }
      if count == 15 || count == 31 {
        ghost var now := points[seat := points[seat] + run];
        over := Credit(players, teams, seat, team, 2, now);
        AddTwice(points, now, seat, run, 2);
        gain := run + 2;
        if over {
          var response := SetGameOver(team);
        }
      }
    }

    /** A sequence begun again after the player at `seat`: a count of 0, an empty
        sequence, nobody the last to play, the players holding cards in play, and the turn
        passed on from the seat. */
    ghost predicate Restarted(seat: nat, st: Status)
      reads this`players, this`numPlayers, this`playersInPlay, this`count, sequence, (set p | p in players)`hand
      reads this`lastPlayerToPlay, this`nextPlayerInSequence
      requires numPlayers <= |players|
    {
      InPlayAgain() && lastPlayerToPlay.None? && TurnPassed(seat, st)
    }

    /** resetSequence naming the player at `seat`, then setNextPlayerInSequence for that
        player: the sequence begins again with the turn handed to the seat after theirs,
        then passed on. */
    method RestartAfter(seat: nat) returns (st: Status)
      requires Seating() && seat < numPlayers
      modifies this`count, this`lastPlayerToPlay, sequence, this`playersInPlay, this`nextPlayerInSequence
      ensures Seating() && Restarted(seat, st)
      ensures State() == old(State()).(count := 0, cards := [], inPlay := playersInPlay, last := None,
                                      next := nextPlayerInSequence)
    {
      ResetSequence(Some(seat));
      st := PassFromNextSeat(seat);
    }

    /** The point for a go to the player at `g`, then, unless it ends the game, the
        sequence begun again with the turn passed on from `seat`: after the seat when
        `named` (resetSequence names the player), from the seat itself otherwise. */
    method GoPoint(g: nat, seat: nat, named: bool, ghost hands: seq<seq<Card>>, ghost played: seq<seq<Card>>,
                   ghost points: seq<int>)
      returns (st: Status, over: bool, response: Response)
      requires Valid() && g < numPlayers && seat < numPlayers && nextPlayerInSequence == Some(seat)
      requires HandsAre(players, hands) && PlayedAre(players, played) && PointsAre(players, points)
      modifies this`count, this`lastPlayerToPlay, sequence, this`playersInPlay, this`nextPlayerInSequence
      modifies (set p | p in players)`points, this`winningTeam
      ensures Valid() && HandsAre(players, hands) && PlayedAre(players, played)
      ensures GoPointGiven(g, seat, points, old(State()), st, over, response)
    {
      ghost var b := State();
      st, over := AwardAtTable(g, hands, played, points);
      if st.Fail? || over {
        response := if over then GameOver else Continue;
        return;
      }
      st, response := RestartAfterPoint(g, seat, named, hands, played, points, b);
    }

    /** The rest of GoPoint once the point is given and no team has passed 120: the
        sequence begins again, with the points `points` before the point and the
        game's state `b` before it. */
    method RestartAfterPoint(g: nat, seat: nat, named: bool, ghost hands: seq<seq<Card>>,
                             ghost played: seq<seq<Card>>, ghost points: seq<int>, ghost b: Board)
      returns (st: Status, response: Response)
      requires Valid() && g < numPlayers && seat < numPlayers && nextPlayerInSequence == Some(seat)
      requires HandsAre(players, hands) && PlayedAre(players, played) && State() == b
      requires g < |points| && SeatTeam(players, teams, g).Some?
      requires PointsAre(players, points[g := points[g] + 1])
      requires Passed(teams[SeatTeam(players, teams, g).value], false)
      modifies this`count, this`lastPlayerToPlay, sequence, this`playersInPlay, this`nextPlayerInSequence
      ensures Valid() && HandsAre(players, hands) && PlayedAre(players, played)
      ensures GoPointGiven(g, seat, points, b, st, false, response)
    {
      ghost var t := SeatTeam(players, teams, g).value;
      st := Restart(seat, named, teams[t], false, hands, played, points[g := points[g] + 1]);
      assert SeatTeam(players, teams, g) == Some(t);
      response := Response(false, false, true);
    }

    /** The sequence begun again with the turn passed on from `seat`, after it when
        `named`; the players' points, and so whether a team has passed 120, are as they
        were. */
    method Restart(seat: nat, named: bool, ghost team: CribbageTeam, ghost over: bool, ghost hands: seq<seq<Card>>,
                   ghost played: seq<seq<Card>>, ghost points: seq<int>)
      returns (st: Status)
      requires Seating() && seat < numPlayers && nextPlayerInSequence == Some(seat)
      modifies this`count, this`lastPlayerToPlay, sequence, this`playersInPlay, this`nextPlayerInSequence
      ensures Seating() && Restarted(seat, st)
      ensures State() == old(State()).(count := 0, cards := [], inPlay := playersInPlay, last := None,
                                      next := nextPlayerInSequence)
      ensures PointsAre(players, points) == old(PointsAre(players, points))
      ensures Passed(team, over) == old(Passed(team, over))
      ensures HandsAre(players, hands) == old(HandsAre(players, hands))
      ensures PlayedAre(players, played) == old(PlayedAre(players, played))
      ensures DeckComplete() == old(DeckComplete())
    {
      if named {
        st := RestartAfter(seat);
      } else {
        st := RestartFromSeat(seat);
      }
    }

    /** resetSequence with nobody named, then setNextPlayerInSequence for the player at
        `seat`, whose turn it still is. */
    method RestartFromSeat(seat: nat) returns (st: Status)
      requires Seating() && seat < numPlayers && nextPlayerInSequence == Some(seat)
      modifies this`count, this`lastPlayerToPlay, sequence, this`playersInPlay, this`nextPlayerInSequence
      ensures Seating() && Restarted(seat, st)
      ensures State() == old(State()).(count := 0, cards := [], inPlay := playersInPlay, last := None,
                                      next := nextPlayerInSequence)
    {
      ResetSequence(None);
      st := PassFromSeat(seat);
    }

    /** playCard in the ordinary case: the turn goes to the next seat in order, then on
        to the first seat still in play. */
    method PassTurn(seat: nat) returns (st: Status)
      requires Seating() && seat < numPlayers && nextPlayerInSequence == Some(seat)
      modifies this`nextPlayerInSequence
      ensures Seating() && TurnPassed(seat, st)
      ensures State() == old(State()).(next := nextPlayerInSequence)
    {
      nextPlayerInSequence := Some(NextInOrder(seat));
      st := PassFromNextSeat(seat);
    }

    /** The game's own state apart from the players. */
    ghost function State(): Board
      reads this`count, sequence, this`playersInPlay, this`lastPlayerToPlay, this`nextPlayerInSequence
      reads this`winningTeam, this`cut, this`dealer, kitty, deck
    {
      Board(count, sequence.cards, playersInPlay, lastPlayerToPlay, nextPlayerInSequence, winningTeam, cut, dealer,
            kitty.items, deck.items, deck.removed)
    }

    /** Nothing has changed since the players held `hands` and `played`, had `points`,
        and the game's own state was `b`. */
    ghost predicate Untouched(hands: seq<seq<Card>>, played: seq<seq<Card>>, points: seq<int>, b: Board)
      reads this`players, (set p | p in players)`hand, (set p | p in players)`played, (set p | p in players)`points
      reads this`count, sequence, this`playersInPlay, this`lastPlayerToPlay, this`nextPlayerInSequence
      reads this`winningTeam, this`cut, this`dealer, kitty, deck
    {
      HandsAre(players, hands) && PlayedAre(players, played) && PointsAre(players, points) && State() == b
    }

    /** What the point for a go to the player at `g` leaves, from the points `points`
        and the game's state `b` before it: with no team for the player the source reads
        a property of null; otherwise the team has the point and either has won, and
        nothing else moved, or the sequence has begun again with the turn passed on from
        `seat`. */
    ghost predicate GoPointGiven(g: nat, seat: nat, points: seq<int>, b: Board, st: Status, over: bool, response: Response)
      reads this`players, this`teams, this`numPlayers, (set p | p in players)`points, (set p | p in players)`hand
      reads (set t, p | t in teams && p in t.members :: p)`points
      reads this`count, sequence, this`playersInPlay, this`lastPlayerToPlay, this`nextPlayerInSequence
      reads this`winningTeam, this`cut, this`dealer, kitty, deck
      requires g < |players| && numPlayers <= |players|
    {
      match SeatTeam(players, teams, g)
      case None => st == Fail(Defect) && !over && PointsAre(players, points) && State() == b
      case Some(t) =>
        && g < |points| && PointsAre(players, points[g := points[g] + 1]) && Passed(teams[t], over)
        && (over ==> st == Ok && response == GameOver && State() == b.(winner := Some(teams[t])))
        && (!over ==>
              && response == Response(false, false, true) && Restarted(seat, st)
              && State() == b.(count := 0, cards := [], inPlay := playersInPlay, last := None,
                               next := nextPlayerInSequence))
    }

    /** What roundOverResetState leaves, from the dealer `dealer0`, the cut `cut0` and the
        winning team `winner0` before it, as RoundOverResetState states it, the next deal
        coming from the shuffled deck `order`. */
    ghost predicate RoundReset(dealer0: Option<nat>, cut0: Option<Card>, order: seq<Card>, winner0: Option<CribbageTeam>,
                               st: Status, counted: Status, over: bool, stop: nat, before: Table, after: Table,
                               scores: seq<nat>, kittyPoints: nat)
      reads this`players, this`numPlayers, this`dealer, this`nextPlayerInSequence, this`lastPlayerToPlay
      reads this`playersInPlay, this`count, this`teams, this`cut, this`winningTeam, kitty, sequence
      reads (set p | p in players)`hand, (set p | p in players)`points
    {
      && (cut0.None? || dealer0.None? ==> st == Fail(Defect) && cut == cut0 && dealer == dealer0)
      && (cut0.Some? && dealer0.Some? ==>
            && PointsAre(players, after.points)
            && CountOutcome(numPlayers, dealer0.value, cut0.value, counted, over, stop, before, after, scores, kittyPoints)
            && ((numPlayers <= |players| && Shaped(before, |players|)
                 && forall i :: 0 <= i < numPlayers ==> Countable(players, teams, dealer0.value, i, cut0.value, before))
                ==> counted == Ok)
            && (counted == Ok && over ==>
                  stop < numPlayers <= |players| && SeatTeam(players, teams, stop).Some?
                  && winningTeam == Some(teams[SeatTeam(players, teams, stop).value]))
            && (!(counted == Ok && over) ==> winningTeam == winner0)
            && (counted.Fail? ==> st == counted)
            && (counted == Ok ==> NewRound(dealer0.value, order, st)))
    }

    /** The end of a round after the last card of a sequence, with (`give`) or without the
        point for the go to the player at `g` (playCard's and go's roundOver branches). */
    method PointThenReset(g: nat, give: bool, seqOver: bool, positions: seq<nat>, ghost hands: seq<seq<Card>>,
                          ghost played: seq<seq<Card>>, ghost points: seq<int>)
      returns (st: Status, response: Response, over: bool, ghost counted: Status, ghost countOver: bool,
               ghost stop: nat, ghost before: Table, ghost after: Table, ghost scores: seq<nat>, ghost kittyPoints: nat)
      requires Valid() && ValidPositions(positions, 52) && g < numPlayers
      requires HandsAre(players, hands) && PlayedAre(players, played) && PointsAre(players, points)
      modifies (set p | p in players)`hand, (set p | p in players)`played, (set p | p in players)`points
      modifies kitty, deck, sequence, this`winningTeam, this`cut, this`dealer
      modifies this`count, this`lastPlayerToPlay, this`playersInPlay, this`nextPlayerInSequence
      ensures Valid()
      ensures RoundEnd(g, give, seqOver, Shuffled(old(deck.items), old(deck.removed), positions), hands, played, points,
                       old(State()), st, response, over, counted, countOver, stop, before, after, scores, kittyPoints)
    {
      if give {
        st, response, over, counted, countOver, stop, before, after, scores, kittyPoints :=
          GiveThenReset(g, seqOver, positions, hands, played, points);
      } else {
        ghost var b := State();
        over := false;
        st, counted, countOver, stop, before, after, scores, kittyPoints := ResetRound(positions, hands, played, points, b);
        response := Response(false, true, seqOver);
      }
    }

    /** The point for a go to the player at `g`, then, unless it wins the game, the
        end of the round. */
    method GiveThenReset(g: nat, seqOver: bool, positions: seq<nat>, ghost hands: seq<seq<Card>>,
                         ghost played: seq<seq<Card>>, ghost points: seq<int>)
      returns (st: Status, response: Response, over: bool, ghost counted: Status, ghost countOver: bool,
               ghost stop: nat, ghost before: Table, ghost after: Table, ghost scores: seq<nat>, ghost kittyPoints: nat)
      requires Valid() && ValidPositions(positions, 52) && g < numPlayers
      requires HandsAre(players, hands) && PlayedAre(players, played) && PointsAre(players, points)
      modifies (set p | p in players)`hand, (set p | p in players)`played, (set p | p in players)`points
      modifies kitty, deck, sequence, this`winningTeam, this`cut, this`dealer
      modifies this`count, this`lastPlayerToPlay, this`playersInPlay, this`nextPlayerInSequence
      ensures Valid()
      ensures GiveEnd(g, seqOver, Shuffled(old(State()).undrawn, old(State()).drawn, positions), hands, played, points,
                      old(State()), st, response, over, counted, countOver, stop, before, after, scores, kittyPoints)
    {
      ghost var t := SeatTeam(players, teams, g);
      ghost var b := State();
      response := Continue;
      counted, countOver, stop := Ok, false, 0;
      before, after, scores, kittyPoints := Table([], [], [], []), Table([], [], [], []), [], 0;
      st, over := AwardAtTable(g, hands, played, points);
      if st.Fail? || over {
        response := if over then GameOver else Continue;
        return;
      }
      st, response, counted, countOver, stop, before, after, scores, kittyPoints :=
        ResetAfterPoint(g, seqOver, positions, hands, played, points, b);
    }

    /** The rest of GiveThenReset once the point is given and no team has passed 120,
        with the points `points` before the point and the game's state `b` before it. */
    method ResetAfterPoint(g: nat, seqOver: bool, positions: seq<nat>, ghost hands: seq<seq<Card>>,
                           ghost played: seq<seq<Card>>, ghost points: seq<int>, ghost b: Board)
      returns (st: Status, response: Response, ghost counted: Status, ghost countOver: bool, ghost stop: nat,
               ghost before: Table, ghost after: Table, ghost scores: seq<nat>, ghost kittyPoints: nat)
      requires Valid() && ValidPositions(positions, 52) && g < numPlayers && State() == b
      requires HandsAre(players, hands) && PlayedAre(players, played)
      requires g < |points| && SeatTeam(players, teams, g).Some?
      requires PointsAre(players, points[g := points[g] + 1])
      modifies (set p | p in players)`hand, (set p | p in players)`played, (set p | p in players)`points
      modifies kitty, deck, sequence, this`winningTeam, this`cut, this`dealer
      modifies this`count, this`lastPlayerToPlay, this`playersInPlay, this`nextPlayerInSequence
      ensures Valid()
      ensures GiveEnd(g, seqOver, Shuffled(b.undrawn, b.drawn, positions), hands, played, points,
                      b, st, response, false, counted, countOver, stop, before, after, scores, kittyPoints)
    {
      ghost var t := SeatTeam(players, teams, g);
      st, counted, countOver, stop, before, after, scores, kittyPoints :=
        ResetRound(positions, hands, played, points[g := points[g] + 1], b);
      assert t == SeatTeam(players, teams, g);
      response := Response(false, true, seqOver);
    }

    /** roundOverResetState from the table of `hands`, `played` and `points` and the
        game's state `b`. */
    method ResetRound(positions: seq<nat>, ghost hands: seq<seq<Card>>, ghost played: seq<seq<Card>>,
                      ghost points: seq<int>, ghost b: Board)
      returns (st: Status, ghost counted: Status, ghost over: bool, ghost stop: nat, ghost before: Table,
               ghost after: Table, ghost scores: seq<nat>, ghost kittyPoints: nat)
      requires Valid() && ValidPositions(positions, 52) && State() == b
      requires HandsAre(players, hands) && PlayedAre(players, played) && PointsAre(players, points)
      modifies (set p | p in players)`hand, (set p | p in players)`played, (set p | p in players)`points
      modifies kitty, deck, sequence, this`winningTeam, this`cut, this`dealer
      modifies this`count, this`lastPlayerToPlay, this`playersInPlay, this`nextPlayerInSequence
      ensures Valid() && |b.undrawn| + |b.drawn| == 52
      ensures RoundRestarted(Shuffled(b.undrawn, b.drawn, positions), hands, played, points, b,
                             st, counted, over, stop, before, after, scores, kittyPoints)
    {
      var cnt, ov, sp;
      st, cnt, ov, sp, before, after, scores, kittyPoints := RoundOverResetState(positions);
      counted, over, stop := cnt, ov, sp;
      if old(cut).Some? && old(dealer).Some? {
        assert old(HandsAre(players, before.hands) && PlayedAre(players, before.played) && PointsAre(players, before.points));
      }
    }

    /** roundOverResetState has counted the round from the table of `hands`, `played` and
        `points` and the game's state `b`, and dealt the next from the shuffled deck
        `order`, as RoundReset says. */
    ghost predicate RoundRestarted(order: seq<Card>, hands: seq<seq<Card>>, played: seq<seq<Card>>, points: seq<int>,
                                   b: Board, st: Status, counted: Status, over: bool, stop: nat, before: Table,
                                   after: Table, scores: seq<nat>, kittyPoints: nat)
      reads this`players, this`numPlayers, this`dealer, this`nextPlayerInSequence, this`lastPlayerToPlay
      reads this`playersInPlay, this`count, this`teams, this`cut, this`winningTeam, kitty, sequence
      reads (set p | p in players)`hand, (set p | p in players)`points
    {
      && (b.cut.Some? && b.dealer.Some? ==> before == Table(hands, played, points, b.kitty))
      && RoundReset(b.dealer, b.cut, order, b.winner, st, counted, over, stop, before, after, scores, kittyPoints)
    }

    /** What PointThenReset leaves, from the hands, played cards and points before it and
        the game's state `b`. */
    ghost predicate RoundEnd(g: nat, give: bool, seqOver: bool, order: seq<Card>, hands: seq<seq<Card>>,
                             played: seq<seq<Card>>, points: seq<int>, b: Board, st: Status, response: Response,
                             over: bool, counted: Status, countOver: bool, stop: nat, before: Table, after: Table,
                             scores: seq<nat>, kittyPoints: nat)
      reads this`players, this`teams, this`numPlayers, (set p | p in players)`points, (set p | p in players)`hand
      reads (set p | p in players)`played, (set t, p | t in teams && p in t.members :: p)`points
      reads this`count, sequence, this`playersInPlay, this`lastPlayerToPlay, this`nextPlayerInSequence
      reads this`winningTeam, this`cut, this`dealer, kitty, deck
      requires g < |players| && |points| == |players|
    {
      if give then
        GiveEnd(g, seqOver, order, hands, played, points, b, st, response, over, counted, countOver, stop, before,
                after, scores, kittyPoints)
      else
        && !over && response == Response(false, true, seqOver)
        && RoundRestarted(order, hands, played, points, b, st, counted, countOver, stop, before, after, scores, kittyPoints)
    }

    /** What GiveThenReset leaves: with the player at `g` on no team the source reads a
        property of null; otherwise their team has the point and either has won, with
        nothing else changed, or the round has ended. */
    ghost predicate GiveEnd(g: nat, seqOver: bool, order: seq<Card>, hands: seq<seq<Card>>,
                            played: seq<seq<Card>>, points: seq<int>, b: Board, st: Status, response: Response,
                            over: bool, counted: Status, countOver: bool, stop: nat, before: Table, after: Table,
                            scores: seq<nat>, kittyPoints: nat)
      reads this`players, this`teams, this`numPlayers, (set p | p in players)`points, (set p | p in players)`hand
      reads (set p | p in players)`played, (set t, p | t in teams && p in t.members :: p)`points
      reads this`count, sequence, this`playersInPlay, this`lastPlayerToPlay, this`nextPlayerInSequence
      reads this`winningTeam, this`cut, this`dealer, kitty, deck
      requires g < |players| && |points| == |players|
    {
      match SeatTeam(players, teams, g)
      case None => st == Fail(Defect) && response == Continue && !over && Untouched(hands, played, points, b)
      case Some(t) =>
        var pts := points[g := points[g] + 1];
        if over then
          && st == Ok && response == GameOver && Passed(teams[t], true)
          && Untouched(hands, played, pts, b.(winner := Some(teams[t])))
        else
          && response == Response(false, true, seqOver)
          && RoundRestarted(order, hands, played, pts, b, st, counted, countOver, stop, before, after, scores, kittyPoints)
    }

    /** playCard after the points of a card laid by the player at `seat`: the end of the
        round once every hand is empty (with the point for a go unless the count is 31);
        otherwise, at 31, the sequence begun again after the player; with nobody left in
        play, the point for a go and the sequence begun again from the player; otherwise
        the turn passed on. */
    method Proceed(seat: nat, positions: seq<nat>, ghost hands: seq<seq<Card>>, ghost played: seq<seq<Card>>,
                   ghost points: seq<int>)
      returns (st: Status, response: Response, over: bool, ghost c: Tally)
      requires Valid() && ValidPositions(positions, 52) && seat < numPlayers && nextPlayerInSequence == Some(seat)
      requires HandsAre(players, hands) && PlayedAre(players, played) && PointsAre(players, points)
      modifies (set p | p in players)`hand, (set p | p in players)`played, (set p | p in players)`points
      modifies kitty, deck, sequence, this`winningTeam, this`cut, this`dealer
      modifies this`count, this`lastPlayerToPlay, this`playersInPlay, this`nextPlayerInSequence
      ensures Valid()
      ensures Proceeded(seat, Shuffled(old(deck.items), old(deck.removed), positions), hands, played, points,
                        old(State()), st, response, over, c)
    {
      c := NoTally;
      var done := RoundOver();
      assert done == AllPlayed(hands) && State().count == count;
      if done {
        st, response, over, c := EndRound(seat, positions, hands, played, points);
      } else {
        st, response, over := MidRound(seat, hands, played, points);
      }
    }

    /** playCard's end of a round: PointThenReset with the point for a go unless the
        count is 31, its count gathered into a Tally. */
    method EndRound(g: nat, positions: seq<nat>, ghost hands: seq<seq<Card>>,
                    ghost played: seq<seq<Card>>, ghost points: seq<int>)
      returns (st: Status, response: Response, over: bool, ghost c: Tally)
      requires Valid() && ValidPositions(positions, 52) && g < numPlayers
      requires HandsAre(players, hands) && PlayedAre(players, played) && PointsAre(players, points)
      modifies (set p | p in players)`hand, (set p | p in players)`played, (set p | p in players)`points
      modifies kitty, deck, sequence, this`winningTeam, this`cut, this`dealer
      modifies this`count, this`lastPlayerToPlay, this`playersInPlay, this`nextPlayerInSequence
      ensures Valid()
      ensures RoundEnd(g, old(State()).count != 31, false, Shuffled(old(deck.items), old(deck.removed), positions), hands,
                       played, points, old(State()), st, response, over, c.counted, c.over, c.stop, c.before, c.after, c.scores,
                       c.kittyPoints)
    {
      ghost var counted, countOver, stop, before, after, scores, kittyPoints;
      st, response, over, counted, countOver, stop, before, after, scores, kittyPoints :=
        PointThenReset(g, count != 31, false, positions, hands, played, points);
      c := Tally(counted, countOver, stop, before, after, scores, kittyPoints);
    }

    /** Proceed while some hand still holds cards. */
    method MidRound(seat: nat, ghost hands: seq<seq<Card>>, ghost played: seq<seq<Card>>, ghost points: seq<int>)
      returns (st: Status, response: Response, over: bool)
      requires Valid() && seat < numPlayers && nextPlayerInSequence == Some(seat)
      requires HandsAre(players, hands) && PlayedAre(players, played) && PointsAre(players, points)
      modifies this`count, this`lastPlayerToPlay, sequence, this`playersInPlay, this`nextPlayerInSequence
      modifies (set p | p in players)`points, this`winningTeam
      ensures Valid() && HandsAre(players, hands) && PlayedAre(players, played)
      ensures MidRoundLeft(seat, points, old(State()), st, response, over)
    {
      if count == 31 {
        over, response := false, Response(false, false, true);
        st := RestartAfter(seat);
      } else if playersInPlay == [] {
        st, over, response := GoPoint(seat, seat, false, hands, played, points);
      } else {
        over, response := false, Continue;
        st := PassTurn(seat);
      }
    }

    /** What MidRound leaves, from the points `points` and the game's state `b`. */
    ghost predicate MidRoundLeft(seat: nat, points: seq<int>, b: Board, st: Status, response: Response, over: bool)
      reads this`players, this`teams, this`numPlayers, (set p | p in players)`points, (set p | p in players)`hand
      reads (set t, p | t in teams && p in t.members :: p)`points
      reads this`count, sequence, this`playersInPlay, this`lastPlayerToPlay, this`nextPlayerInSequence
      reads this`winningTeam, this`cut, this`dealer, kitty, deck
      requires seat < |players| && numPlayers <= |players|
    {
      if b.count == 31 then
        && !over && response == Response(false, false, true) && Restarted(seat, st) && PointsAre(players, points)
        && State() == b.(count := 0, cards := [], inPlay := playersInPlay, last := None, next := nextPlayerInSequence)
      else if b.inPlay == [] then
        GoPointGiven(seat, seat, points, b, st, over, response)
      else
        && !over && response == Continue && TurnPassed(seat, st) && PointsAre(players, points)
        && State() == b.(next := nextPlayerInSequence)
    }

    /** What Proceed leaves, from the hands, played cards and points before it and the
        game's state `b`. */
    ghost predicate Proceeded(seat: nat, order: seq<Card>, hands: seq<seq<Card>>, played: seq<seq<Card>>,
                              points: seq<int>, b: Board, st: Status, response: Response, over: bool, c: Tally)
      reads this`players, this`teams, this`numPlayers, (set p | p in players)`points, (set p | p in players)`hand
      reads (set p | p in players)`played, (set t, p | t in teams && p in t.members :: p)`points
      reads this`count, sequence, this`playersInPlay, this`lastPlayerToPlay, this`nextPlayerInSequence
      reads this`winningTeam, this`cut, this`dealer, kitty, deck
      requires seat < |players| && |points| == |players| && numPlayers <= |players|
    {
      if AllPlayed(hands) then
        RoundEnd(seat, b.count != 31, false, order, hands, played, points, b, st, response, over,
                 c.counted, c.over, c.stop, c.before, c.after, c.scores, c.kittyPoints)
      else
        HandsAre(players, hands) && PlayedAre(players, played) && MidRoundLeft(seat, points, b, st, response, over)
    }

    /** playCard once the card has been laid and the sequence has scored `run`: the
        points pegged for the player at `seat`, then, unless they end the game, Proceed. */
    method Score(seat: nat, run: nat, positions: seq<nat>, ghost hands: seq<seq<Card>>, ghost played: seq<seq<Card>>,
                 ghost points: seq<int>)
      returns (st: Status, response: Response, over: bool, pegOver: bool, ghost early: bool, ghost gain: nat,
               ghost c: Tally)
      requires Valid() && ValidPositions(positions, 52) && seat < numPlayers && nextPlayerInSequence == Some(seat)
      requires HandsAre(players, hands) && PlayedAre(players, played) && PointsAre(players, points)
      modifies (set p | p in players)`hand, (set p | p in players)`played, (set p | p in players)`points
      modifies kitty, deck, sequence, this`winningTeam, this`cut, this`dealer
      modifies this`count, this`lastPlayerToPlay, this`playersInPlay, this`nextPlayerInSequence
      ensures Valid()
      ensures Scored(seat, run, Shuffled(old(deck.items), old(deck.removed), positions), hands, played, points,
                     old(State()), st, response, over, pegOver, early, gain, c)
    {
      c := NoTally;
      st, pegOver, early, gain := Peg(seat, run, hands, played, points);
      if st.Fail? || pegOver {
        response, over := if pegOver then GameOver else Continue, pegOver;
        return;
      }
      st, response, over, c := Proceed(seat, positions, hands, played, points[seat := points[seat] + gain]);
    }

    /** What Score leaves, from the hands, played cards and points before it and the
        game's state `b`: the points pegged (`gain`, all of `run` and no more when the
        game ended on it, `early`), and then either the end of the game or what Proceed
        leaves. With the player on no team, the source reads a property of null when
        there are points to give. */
    ghost predicate Scored(seat: nat, run: nat, order: seq<Card>, hands: seq<seq<Card>>, played: seq<seq<Card>>,
                           points: seq<int>, b: Board, st: Status, response: Response, over: bool, pegOver: bool,
                           early: bool, gain: nat, c: Tally)
      reads this`players, this`teams, this`numPlayers, (set p | p in players)`points, (set p | p in players)`hand
      reads (set p | p in players)`played, (set t, p | t in teams && p in t.members :: p)`points
      reads this`count, sequence, this`playersInPlay, this`lastPlayerToPlay, this`nextPlayerInSequence
      reads this`winningTeam, this`cut, this`dealer, kitty, deck
      requires seat < |players| && |points| == |players| && numPlayers <= |players|
    {
      var pts := points[seat := points[seat] + gain];
      && (PegPoints(run, b.count) == 0 ==> !pegOver)
      && match SeatTeam(players, teams, seat)
         case None =>
           && gain == PegPoints(run, b.count) && !pegOver
           && (gain > 0 ==> st == Fail(Defect) && response == Continue && !over && Untouched(hands, played, points, b))
           && (gain == 0 ==> Proceeded(seat, order, hands, played, pts, b, st, response, over, c))
         case Some(t) =>
           && (early ==> pegOver && run > 0)
           && gain == (if early then run else PegPoints(run, b.count))
           && (pegOver ==>
                 && st == Ok && response == GameOver && over && Passed(teams[t], true)
                 && Untouched(hands, played, pts, b.(winner := Some(teams[t]))))
           && (!pegOver ==> Proceeded(seat, order, hands, played, pts, b, st, response, over, c))
    }

    /** playCard once its checks have passed, for the player at `seat`: the player's own
        playCard, the card on the count and in the sequence, then Score. */
    method PlaySeat(seat: nat, card: Card, positions: seq<nat>, ghost hands: seq<seq<Card>>,
                    ghost played: seq<seq<Card>>, ghost points: seq<int>)
      returns (st: Status, response: Response, over: bool, pegOver: bool, ghost early: bool, ghost gain: nat,
               ghost c: Tally)
      requires Valid() && ValidPositions(positions, 52) && seat < numPlayers && nextPlayerInSequence == Some(seat)
      requires count + CardValue(card) <= 31
      requires HandsAre(players, hands) && PlayedAre(players, played) && PointsAre(players, points)
      modifies (set p | p in players)`hand, (set p | p in players)`played, (set p | p in players)`points
      modifies kitty, deck, sequence, this`winningTeam, this`cut, this`dealer
      modifies this`count, this`lastPlayerToPlay, this`playersInPlay, this`nextPlayerInSequence
      ensures Valid()
      ensures CardPlayed(seat, card, Shuffled(old(deck.items), old(deck.removed), positions), hands, played, points,
                         old(State()), st, response, over, pegOver, early, gain, c)
    {
      response, over, pegOver, early, gain, c := Continue, false, false, false, 0, NoTally;
      var inHand, added := Lay(seat, card, hands, played);
      if !inHand {
        return Fail(PlayerDoesntHaveCard), response, over, pegOver, early, gain, c;
      }
      if added.Failure? {
        return Fail(GameError.CardAlreadyInSequence), response, over, pegOver, early, gain, c;
      }
      st, response, over, pegOver, early, gain, c :=
        Score(seat, added.value, positions, hands[seat := Without(hands[seat], card)],
              played[seat := played[seat] + [card]], points);
    }

    /** The game's own state `b` once the player at `seat` has laid `card`: it is on the
        count and in the sequence, the player is the last to play and, when `emptied`
        (their hand), out of play. */
    ghost function AfterLay(seat: nat, card: Card, emptied: bool, b: Board): Board
    {
      b.(count := b.count + CardValue(card), cards := b.cards + [card],
         inPlay := if emptied then Without(b.inPlay, seat) else b.inPlay, last := Some(seat))
    }

    /** What PlaySeat leaves, from the hands, played cards and points before it and the
        game's state `b`: a card the player does not hold changes nothing; a held card
        leaves the hand for the played cards, goes on the count, makes the player the last
        to play and, with the hand empty, takes them out of play; a card already in the
        sequence stops there, and otherwise the sequence takes it and Score follows. */
    ghost predicate CardPlayed(seat: nat, card: Card, order: seq<Card>, hands: seq<seq<Card>>,
                               played: seq<seq<Card>>, points: seq<int>, b: Board, st: Status, response: Response,
                               over: bool, pegOver: bool, early: bool, gain: nat, c: Tally)
      reads this`players, this`teams, this`numPlayers, (set p | p in players)`points, (set p | p in players)`hand
      reads (set p | p in players)`played, (set t, p | t in teams && p in t.members :: p)`points
      reads this`count, sequence, this`playersInPlay, this`lastPlayerToPlay, this`nextPlayerInSequence
      reads this`winningTeam, this`cut, this`dealer, kitty, deck
      requires seat < |players| && |hands| == |played| == |points| == |players| && numPlayers <= |players|
    {
      var hands1 := hands[seat := Without(hands[seat], card)];
      var played1 := played[seat := played[seat] + [card]];
      var b1 := AfterLay(seat, card, Without(hands[seat], card) == [], b);
      && (card !in hands[seat] ==>
            st == Fail(PlayerDoesntHaveCard) && response == Continue && !over && Untouched(hands, played, points, b))
      && (card in hands[seat] && card in b.cards ==>
            && st == Fail(GameError.CardAlreadyInSequence) && response == Continue && !over
            && Untouched(hands1, played1, points, b1.(cards := b.cards)))
      && (card in hands[seat] && card !in b.cards ==>
            Scored(seat, SequencePoints(b.cards + [card]), order, hands1, played1, points, b1, st, response, over,
                   pegOver, early, gain, c))
    }

    /** playCard: the player named `name` lays `card`. Its checks refuse, in order, a
        kitty that is not full, a player who is not next and a card that takes the count
        past 31, changing nothing; otherwise PlaySeat for the player's seat. */
    method PlayCard(name: string, card: Card, positions: seq<nat>, ghost hands: seq<seq<Card>>,
                    ghost played: seq<seq<Card>>, ghost points: seq<int>)
      returns (st: Status, response: Response, ghost over: bool, ghost pegOver: bool, ghost early: bool,
               ghost gain: nat, ghost c: Tally)
      requires Valid() && ValidPositions(positions, 52)
      requires HandsAre(players, hands) && PlayedAre(players, played) && PointsAre(players, points)
      modifies (set p | p in players)`hand, (set p | p in players)`played, (set p | p in players)`points
      modifies kitty, deck, sequence, this`winningTeam, this`cut, this`dealer
      modifies this`count, this`lastPlayerToPlay, this`playersInPlay, this`nextPlayerInSequence
      ensures Valid()
      ensures old(PlayRefusal(name, card)).Some? ==>
        && st == Fail(old(PlayRefusal(name, card)).value) && response == Continue
        && Untouched(hands, played, points, old(State()))
      ensures old(PlayRefusal(name, card)).None? ==>
        && SeatOf(name).Some? && SeatOf(name).value < numPlayers
        && CardPlayed(SeatOf(name).value, card, Shuffled(old(deck.items), old(deck.removed), positions), hands, played,
                      points, old(State()), st, response, over, pegOver, early, gain, c)
    {
      over, pegOver, early, gain, c := false, false, false, 0, NoTally;
      var refusal, seat := CheckPlay(name, card);
      if refusal.Some? {
        return Fail(refusal.value), Continue, over, pegOver, early, gain, c;
      }
      st, response, over, pegOver, early, gain, c := PlaySeat(seat, card, positions, hands, played, points);
    }

    /** go: the refusals of GoRefusal leave the game as it was; an accepted go takes the
        player out of play and goes on as GoOn does. */
    method Go(name: string, positions: seq<nat>, ghost hands: seq<seq<Card>>, ghost played: seq<seq<Card>>,
              ghost points: seq<int>)
      returns (st: Status, response: Response, ghost over: bool, ghost c: Tally)
      requires Valid() && ValidPositions(positions, 52)
      requires HandsAre(players, hands) && PlayedAre(players, played) && PointsAre(players, points)
      modifies (set p | p in players)`hand, (set p | p in players)`played, (set p | p in players)`points
      modifies kitty, deck, sequence, this`winningTeam, this`cut, this`dealer
      modifies this`count, this`lastPlayerToPlay, this`playersInPlay, this`nextPlayerInSequence
      ensures Valid()
      ensures old(GoRefusal(name)).Some? ==>
        && st == Fail(old(GoRefusal(name)).value) && response == Continue
        && Untouched(hands, played, points, old(State()))
      ensures old(GoRefusal(name)).None? ==>
        && SeatOf(name).Some? && SeatOf(name).value < numPlayers
        && WentOn(SeatOf(name).value, Shuffled(old(deck.items), old(deck.removed), positions), hands, played, points,
                  old(State()).(inPlay := Without(old(playersInPlay), SeatOf(name).value)), st, response, over, c)
    {
      over, c := false, NoTally;
      var refusal, seat := CheckGo(name);
      if refusal.Some? {
        return Fail(refusal.value), Continue, over, c;
      }
      st, response, over, c := GoFrom(seat, positions, hands, played, points);
    }

    /** An accepted go from the player at `seat`: out of play, then GoOn. */
    method GoFrom(seat: nat, positions: seq<nat>, ghost hands: seq<seq<Card>>, ghost played: seq<seq<Card>>,
                  ghost points: seq<int>)
      returns (st: Status, response: Response, over: bool, ghost c: Tally)
      requires Valid() && ValidPositions(positions, 52) && seat < numPlayers && nextPlayerInSequence == Some(seat)
      requires HandsAre(players, hands) && PlayedAre(players, played) && PointsAre(players, points)
      modifies (set p | p in players)`hand, (set p | p in players)`played, (set p | p in players)`points
      modifies kitty, deck, sequence, this`winningTeam, this`cut, this`dealer
      modifies this`count, this`lastPlayerToPlay, this`playersInPlay, this`nextPlayerInSequence
      ensures Valid()
      ensures WentOn(seat, Shuffled(old(deck.items), old(deck.removed), positions), hands, played, points,
                     old(State()).(inPlay := Without(old(playersInPlay), seat)), st, response, over, c)
    {
      RemoveFromPlay(seat);
      st, response, over, c := GoOn(seat, positions, hands, played, points);
    }

    /** go for the player at `seat`, once they are out of play: with others still in
        play the turn passes on; otherwise the last player to play has the point for a
        go, and the round ends when every hand is empty, or else the sequence begins
        again after `seat`. */
    method GoOn(seat: nat, positions: seq<nat>, ghost hands: seq<seq<Card>>, ghost played: seq<seq<Card>>,
                ghost points: seq<int>)
      returns (st: Status, response: Response, over: bool, ghost c: Tally)
      requires Valid() && ValidPositions(positions, 52) && seat < numPlayers && nextPlayerInSequence == Some(seat)
      requires HandsAre(players, hands) && PlayedAre(players, played) && PointsAre(players, points)
      modifies (set p | p in players)`hand, (set p | p in players)`played, (set p | p in players)`points
      modifies kitty, deck, sequence, this`winningTeam, this`cut, this`dealer
      modifies this`count, this`lastPlayerToPlay, this`playersInPlay, this`nextPlayerInSequence
      ensures Valid()
      ensures WentOn(seat, Shuffled(old(deck.items), old(deck.removed), positions), hands, played, points,
                     old(State()), st, response, over, c)
    {
      c, over, response := NoTally, false, Continue;
      if playersInPlay != [] {
        st := PassFromSeat(seat);
        return;
      }
      if lastPlayerToPlay.None? {
        st := Fail(Defect);
        return;
      }
      var done := RoundOver();
      assert done == AllPlayed(hands);
      if done {
        ghost var counted, countOver, stop, before, after, scores, kittyPoints;
        st, response, over, counted, countOver, stop, before, after, scores, kittyPoints :=
          GiveThenReset(lastPlayerToPlay.value, true, positions, hands, played, points);
        c := Tally(counted, countOver, stop, before, after, scores, kittyPoints);
      } else {
        st, over, response := GoPoint(lastPlayerToPlay.value, seat, true, hands, played, points);
      }
    }

    /** What GoOn leaves, from the hands, played cards and points before it and the
        game's state `b`. With nobody the last to play the source reads a property of
        null. */
    ghost predicate WentOn(seat: nat, order: seq<Card>, hands: seq<seq<Card>>, played: seq<seq<Card>>,
                           points: seq<int>, b: Board, st: Status, response: Response, over: bool, c: Tally)
      reads this`players, this`teams, this`numPlayers, (set p | p in players)`points, (set p | p in players)`hand
      reads (set p | p in players)`played, (set t, p | t in teams && p in t.members :: p)`points
      reads this`count, sequence, this`playersInPlay, this`lastPlayerToPlay, this`nextPlayerInSequence
      reads this`winningTeam, this`cut, this`dealer, kitty, deck
      requires seat < |players| && |points| == |players| && numPlayers <= |players|
      requires b.last.Some? ==> b.last.value < |players|
    {
      if b.inPlay != [] then
        && !over && response == Continue && TurnPassed(seat, st)
        && HandsAre(players, hands) && PlayedAre(players, played) && PointsAre(players, points)
        && State() == b.(next := nextPlayerInSequence)
      else if b.last.None? then
        st == Fail(Defect) && response == Continue && !over && Untouched(hands, played, points, b)
      else if AllPlayed(hands) then
        GiveEnd(b.last.value, true, order, hands, played, points, b, st, response, over,
                c.counted, c.over, c.stop, c.before, c.after, c.scores, c.kittyPoints)
      else
        HandsAre(players, hands) && PlayedAre(players, played) && GoPointGiven(b.last.value, seat, points, b, st, over, response)
    }
  }
}
