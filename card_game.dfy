/** base_classes/card_game.ts: the play sequence and its scoring, the player and team
    searches, and removeLastTwoChars. */
module CardGame {
  import opened Wrappers
  import opened Cards
  import opened ItemCollections
  import opened Sorting
  import opened Teams

  /** removeLastTwoChars: drop a trailing two-character separator; a one-character string
      is kept as it is and the empty string stays empty. */
  function RemoveLastTwoChars(s: string): (r: string)
    ensures r <= s
    ensures |r| == if |s| == 1 then 1 else if |s| < 2 then 0 else |s| - 2
  {
    if |s| == 1 then s
    else if |s| > 1 then s[..|s| - 2]
    else ""
  }

  /** What the function is for: undoing the ", " appended after the last item. */
  lemma RemoveLastTwoCharsUndoesSeparator(s: string)
    ensures RemoveLastTwoChars(s + ", ") == s
  {
    assert (s + ", ")[..|s|] == s;
  }

  /** Players.findPlayer: the first seat whose player has the name, or null. */
  method FindPlayer(names: seq<string>, playerName: string) returns (seat: Option<nat>)
    ensures seat.None? <==> playerName !in names
    ensures seat.Some? ==> seat.value < |names| && names[seat.value] == playerName
    ensures seat.Some? ==> forall j :: 0 <= j < seat.value ==> names[j] != playerName
  {
    seat := None;
    var index := 0;
    while index < |names|
      invariant 0 <= index <= |names|
      invariant forall j :: 0 <= j < index ==> names[j] != playerName
    {
      if names[index] == playerName {
        seat := Some(index);
        return;
      }
      index := index + 1;
    }
  }

  /** The first team that has a member with this name, as an index into `teams`. */
  function TeamOf(teams: seq<Team>, name: string): (t: Option<nat>)
    ensures t.None? <==> forall i :: 0 <= i < |teams| ==> !HasPlayer(teams[i], name)
    ensures t.Some? ==> t.value < |teams| && HasPlayer(teams[t.value], name)
    ensures t.Some? ==> forall i :: 0 <= i < t.value ==> !HasPlayer(teams[i], name)
  {
    if teams == [] then None
    else if HasPlayer(teams[0], name) then Some(0)
    else
      var t := TeamOf(teams[1..], name);
      if t.None? then None else Some(t.value + 1)
  }

  /** Teams.findTeam: scan the teams in order for the first one that has the player. */
  method FindTeam(teams: seq<Team>, name: string) returns (team: Option<nat>)
    ensures team == TeamOf(teams, name)
  {
    team := None;
    var ix := 0;
    while ix < |teams|
      invariant 0 <= ix <= |teams|
      invariant forall i :: 0 <= i < ix ==> !HasPlayer(teams[i], name)
    {
      if HasPlayer(teams[ix], name) {
        team := Some(ix);
        return;
      }
      ix := ix + 1;
    }
  }

  // ---------------------------------------------------------------------------------
  // Runs of consecutive values

  /** The values of some cards, in order. */
  function Values(cards: seq<Card>): (vs: seq<int>)
    ensures |vs| == |cards|
    ensures forall i :: 0 <= i < |cards| ==> vs[i] == cards[i].value
  {
    seq(|cards|, i requires 0 <= i < |cards| => cards[i].value as int)
  }

  /** No value occurs twice. */
  predicate NoRepeats(vs: seq<int>)
  {
    forall x :: x in multiset(vs) ==> multiset(vs)[x] <= 1
  }

  /** The values are some ordering of consecutive integers: none repeats and no two are
      |vs| or more apart. */
  predicate Consecutive(vs: seq<int>)
  {
    NoRepeats(vs) && forall x, y :: x in vs && y in vs ==> x - y < |vs|
  }

  /** Both halves of Consecutive depend only on the multiset of values. */
  lemma ConsecutivePermutation(a: seq<int>, b: seq<int>)
    requires multiset(a) == multiset(b)
    ensures Consecutive(a) <==> Consecutive(b)
  {
    assert |a| == |multiset(a)| == |b|;
    forall x ensures x in a <==> x in b {
      assert x in a <==> x in multiset(a);
      assert x in b <==> x in multiset(b);
    }
  }

  /** Each value is one more than the one before it. */
  predicate StepsByOne(s: seq<int>)
  {
    forall k :: 1 <= k < |s| ==> s[k] == s[k - 1] + 1
  }

  lemma {:induction false} StepsByOneOffsets(s: seq<int>, k: nat)
    requires StepsByOne(s) && k < |s|
    ensures s[k] == s[0] + k
  {
    if k > 0 {
      StepsByOneOffsets(s, k - 1);
    }
  }

  lemma {:induction false} IncreasingNoRepeats(s: seq<int>)
    requires forall i, j :: 0 <= i < j < |s| ==> s[i] < s[j]
    ensures NoRepeats(s)
  {
    if s != [] {
      var init, last := s[..|s| - 1], s[|s| - 1];
      IncreasingNoRepeats(init);
      assert s == init + [last];
      assert last !in init by {
        forall i | 0 <= i < |init| ensures init[i] != last {
          assert init[i] == s[i];
        }
      }
      forall x ensures multiset(s)[x] <= 1 {
        assert multiset(s)[x] == multiset(init)[x] + multiset([last])[x];
      }
    }
  }

  /** A sequence that steps by one is a run. */
  lemma StepsByOneIsConsecutive(s: seq<int>)
    requires StepsByOne(s)
    ensures Consecutive(s)
  {
    forall k | 0 <= k < |s| ensures s[k] == s[0] + k {
      StepsByOneOffsets(s, k);
    }
    IncreasingNoRepeats(s);
  }

  lemma RepeatCounted(s: seq<int>, i: nat, j: nat)
    requires i < j < |s| && s[i] == s[j]
    ensures multiset(s)[s[i]] >= 2
  {
    assert s == s[..i] + [s[i]] + s[i + 1..j] + [s[j]] + s[j + 1..];
  }

  lemma {:induction false} StrictGaps(s: seq<int>, i: nat, j: nat)
    requires forall k :: 1 <= k < |s| ==> s[k] >= s[k - 1] + 1
    requires i <= j < |s|
    ensures s[j] - s[i] >= j - i
    decreases j - i
  {
    if i < j {
      StrictGaps(s, i, j - 1);
    }
  }

  /** A sorted run steps by one. */
  lemma SortedConsecutiveStepsByOne(s: seq<int>)
    requires forall i, j :: 0 <= i < j < |s| ==> s[i] <= s[j]
    requires Consecutive(s)
    ensures StepsByOne(s)
  {
    forall k | 1 <= k < |s| ensures s[k] >= s[k - 1] + 1 {
      if s[k] == s[k - 1] {
        RepeatCounted(s, k - 1, k);
      }
    }
    forall k | 1 <= k < |s| ensures s[k] == s[k - 1] + 1 {
      StrictGaps(s, 0, k - 1);
      StrictGaps(s, k, |s| - 1);
      assert s[|s| - 1] in s && s[0] in s;
    }
  }

  /** The key isSequentialAscending sorts by. */
  function Ident(v: Value): int
  {
    v
  }

  /** After sorting, stepping by one is exactly being a run. */
  lemma SortedStepsIffConsecutive(sorted: seq<int>, values: seq<Value>)
    requires sorted == SortBy(values, Ident)
    ensures StepsByOne(sorted) <==> Consecutive(values)
  {
    SortByFacts(values, Ident);
    assert forall i, j :: 0 <= i < j < |sorted| ==> sorted[i] <= sorted[j] by {
      assert SortedBy(SortBy(values, Ident), Ident);
    }
    ConsecutivePermutation(sorted, values);
    if StepsByOne(sorted) {
      StepsByOneIsConsecutive(sorted);
    } else if Consecutive(sorted) {
      SortedConsecutiveStepsByOne(sorted);
    }
  }

  /** isSequentialAscending: fewer than three values always pass, unsorted; otherwise the
      values are sorted in place and pass iff each is one more than the one before, that
      is, iff they form a run. */
  method IsSequentialAscending(values: seq<Value>) returns (sequential: bool, sorted: seq<Value>)
    ensures |values| < 3 ==> sequential && sorted == values
    ensures |values| >= 3 ==> sorted == SortBy(values, Ident)
    ensures |sorted| == |values| && multiset(sorted) == multiset(values)
    ensures sequential <==> |values| < 3 || Consecutive(values)
  {
    if |values| < 3 {
      return true, values;
    }
    SortByFacts(values, Ident);
    sorted := SortBy(values, Ident);
    sequential := StepsUp(sorted);
    SortedStepsIffConsecutive(sorted, values);
  }

  /** The scan of isSequentialAscending over the sorted values: the first value is taken
      as the last one seen, and the scan stops at the first value that is not one more
      than the last one seen. */
  method StepsUp(sorted: seq<Value>) returns (sequential: bool)
    ensures sequential <==> StepsByOne(sorted)
  {
    sequential := true;
    var last: int := -1;
    var ix := 0;
    while ix < |sorted|
      invariant 0 <= ix <= |sorted|
      invariant ix == 0 <==> last == -1
      invariant ix > 0 ==> last == sorted[ix - 1]
      invariant sequential
      invariant forall k :: 1 <= k < ix ==> sorted[k] as int == sorted[k - 1] as int + 1
    {
      if last == -1 {
        last := sorted[ix];
        ix := ix + 1;
        continue;
      }
      var next: int := sorted[ix];
      if last != next - 1 {
        sequential := false;
        break;
      }
      last := next;
      ix := ix + 1;
    }
    if !sequential {
      assert sorted[ix] as int != sorted[ix - 1] as int + 1;
    }
  }

  /** The last k values. */
  function Tail(vs: seq<int>, k: nat): seq<int>
    requires k <= |vs|
  {
    vs[|vs| - k..]
  }

  /** The longest tail of length at least 3 and at most m whose values form a run, or 0. */
  function LongestTail(vs: seq<int>, m: nat): (k: nat)
    requires m <= |vs|
    ensures k == 0 || (3 <= k <= m && Consecutive(Tail(vs, k)))
    ensures forall j :: 3 <= j <= m && k < j ==> !Consecutive(Tail(vs, j))
  {
    if m < 3 then 0
    else if Consecutive(Tail(vs, m)) then m
    else LongestTail(vs, m - 1)
  }

  /** The longest length k' <= k whose tail passes isSequentialAscending (lengths below 3
      always pass), or 0 when k is 0. */
  function LongestPassing(vs: seq<int>, k: nat): nat
    requires k <= |vs|
  {
    if LongestTail(vs, k) > 0 then LongestTail(vs, k) else if k < 2 then k else 2
  }

  lemma LongestPassingStep(vs: seq<int>, k: nat)
    requires k < |vs|
    ensures LongestPassing(vs, k + 1)
            == if k + 1 < 3 || Consecutive(Tail(vs, k + 1)) then k + 1 else LongestPassing(vs, k)
  {
  }

  lemma TailGrowth(vs: seq<int>, k: nat, before: seq<int>, after: seq<int>, x: int)
    requires k < |vs| && x == vs[|vs| - 1 - k]
    requires multiset(before) == multiset(Tail(vs, k))
    requires multiset(after) == multiset(before + [x])
    ensures multiset(after) == multiset(Tail(vs, k + 1))
    ensures Consecutive(before + [x]) <==> Consecutive(Tail(vs, k + 1))
  {
    assert Tail(vs, k + 1) == [x] + Tail(vs, k);
    ConsecutivePermutation(before + [x], Tail(vs, k + 1));
  }

  /** The run score of a play sequence: the longest run at its end. */
  function RunScore(vs: seq<int>): (k: nat)
  {
    LongestTail(vs, |vs|)
  }

  /** How many of the values at the end of `vs` equal x, counting back to the first
      mismatch. */
  function MatchesBack(vs: seq<int>, x: int): (m: nat)
    ensures m <= |vs|
    ensures forall j :: |vs| - m <= j < |vs| ==> vs[j] == x
    ensures m < |vs| ==> vs[|vs| - 1 - m] != x
  {
    if vs == [] || vs[|vs| - 1] != x then 0 else 1 + MatchesBack(vs[..|vs| - 1], x)
  }

  lemma MatchesBackStep(vs: seq<int>, i: nat, x: int)
    requires i < |vs|
    ensures MatchesBack(vs[..i + 1], x) == if vs[i] == x then 1 + MatchesBack(vs[..i], x) else 0
  {
    assert vs[..i + 1][..i] == vs[..i];
  }

  /** Points for m cards matching the last one: every pair among the m + 1 equal cards
      is worth 2, up to four of a kind; any other count is worth nothing. */
  function OfAKindPoints(m: nat): (p: nat)
    ensures 1 <= m <= 3 ==> p == (m + 1) * m
    ensures m == 0 || m > 3 ==> p == 0
  {
    if m == 1 then 2 else if m == 2 then 6 else if m == 3 then 12 else 0
  }

  /** The of-a-kind score of a non-empty play sequence. */
  function OfAKindScore(vs: seq<int>): nat
    requires vs != []
  {
    OfAKindPoints(MatchesBack(vs[..|vs| - 1], vs[|vs| - 1]))
  }

  /** What a play sequence scores after its last card. */
  function SequencePoints(cards: seq<Card>): nat
    requires cards != []
  {
    RunScore(Values(cards)) + OfAKindScore(Values(cards))
  }

  datatype SequenceError = CardAlreadyInSequence

  /** The cards played since the count last went back to zero. */
  class Sequence {
    var cards: seq<Card>

    constructor()
      ensures cards == []
    {
      cards := [];
    }

    /** length */
    function Length(): nat
      reads this
    {
      |cards|
    }

    /** addCard: a card already in the sequence throws; otherwise it is appended and the
        new sequence is scored. */
    method AddCard(card: Card) returns (r: Result<nat, SequenceError>)
      modifies this
      ensures card in old(cards) ==> r == Failure(CardAlreadyInSequence) && cards == old(cards)
      ensures card !in old(cards) ==> cards == old(cards) + [card] && r == Success(SequencePoints(cards))
    {
      var index := LinearSearch(cards, card);
      if index != -1 {
        return Failure(CardAlreadyInSequence);
      }
      cards := cards + [card];
      var points := CountPoints();
      return Success(points);
    }

    /** countPoints: the run score plus the of-a-kind score. */
    method CountPoints() returns (points: nat)
      requires cards != []
      ensures points == SequencePoints(cards)
    {
      var run := FindLongestReverseSequence();
      var kind := CountOfAKind();
      points := run + kind;
    }

    /** removeAll */
    method RemoveAll()
      modifies this
      ensures cards == []
    {
      cards := [];
    }

    /** equalsOther: same length and equal cards position by position. */
    method EqualsOther(other: Sequence) returns (equals: bool)
      ensures equals <==> cards == other.cards
    {
      if |cards| != |other.cards| {
        return false;
      }
      equals := true;
      var ix := 0;
      while ix < |cards|
        invariant 0 <= ix <= |cards|
        invariant cards[..ix] == other.cards[..ix]
      {
        if !Cards.EqualsOther(cards[ix], Some(other.cards[ix])) {
          equals := false;
          assert cards[ix] != other.cards[ix];
          return;
        }
        assert cards[..ix + 1] == cards[..ix] + [cards[ix]];
        assert other.cards[..ix + 1] == other.cards[..ix] + [other.cards[ix]];
        ix := ix + 1;
      }
      assert cards[..ix] == cards && other.cards[..ix] == other.cards;
    }

    /** findLongestReverseSequence: grow the values of the last cards one at a time (the
        check sorts them in place) and remember the longest length that passed. */
    method FindLongestReverseSequence() returns (longestRun: nat)
      ensures longestRun == RunScore(Values(cards))
    {
      var numItems := |cards|;
      if numItems < 3 {
        return 0;
      }
      ghost var vs := Values(cards);
      var values: seq<Value> := [];
      var longest := 0;
      var ix := numItems - 1;
      while ix >= 0
        invariant -1 <= ix < numItems
        invariant |values| == numItems - 1 - ix
        invariant multiset(values) == multiset(Tail(vs, |values|))
        invariant longest == LongestPassing(vs, |values|)
      {
        ghost var k := |values|;
        ghost var before := values;
        values := values + [cards[ix].value];
        var sequential;
        sequential, values := IsSequentialAscending(values);
        TailGrowth(vs, k, before, values, cards[ix].value);
        LongestPassingStep(vs, k);
        if sequential {
          longest := |values|;
        }
        ix := ix - 1;
      }
      longestRun := if longest >= 3 then longest else 0;
    }

    /** countOfAKind: count the cards before the last that share its value, stopping at
        the first that does not. */
    method CountOfAKind() returns (points: nat)
      requires cards != []
      ensures points == OfAKindScore(Values(cards))
    {
      ghost var vs := Values(cards);
      var matches := 0;
      var index := |cards| - 1;
      var last := cards[index];
      index := index - 1;
      while index >= 0
        invariant -1 <= index <= |cards| - 2
        invariant MatchesBack(vs[..|vs| - 1], last.value) == matches + MatchesBack(vs[..index + 1], last.value)
      {
        MatchesBackStep(vs, index, last.value);
        if cards[index].value == last.value {
          matches := matches + 1;
        } else {
          break;
        }
        index := index - 1;
      }
      points := OfAKindPoints(matches);
    }
  }

  lemma RepeatNotConsecutive(s: seq<int>, i: nat, j: nat)
    requires i < j < |s| && s[i] == s[j]
    ensures !Consecutive(s)
  {
    RepeatCounted(s, i, j);
  }

  lemma ValuesOfFive(a: Card, b: Card, c: Card, d: Card, e: Card)
    ensures Values([a, b, c, d, e]) == [a.value as int, b.value as int, c.value as int, d.value as int, e.value as int]
  {
  }

  lemma ValuesOfThree(a: Card, b: Card, c: Card)
    ensures Values([a, b, c]) == [a.value as int, b.value as int, c.value as int]
  {
  }

  /** Pegging examples: a run of three made out of order, and of-a-kind points that need
      the matching cards to be adjacent at the end. */
  lemma RunOutOfOrderScoresThree()
    ensures SequencePoints([Card(Spades, 7), Card(Hearts, 5), Card(Diamonds, 6),
                            Card(Spades, 5), Card(Hearts, 7)]) == 3
  {
    ValuesOfFive(Card(Spades, 7), Card(Hearts, 5), Card(Diamonds, 6), Card(Spades, 5), Card(Hearts, 7));
    RunOfThreeAtEnd();
    NoMatchAtEnd();
  }

  lemma NoMatchAtEnd()
    ensures OfAKindScore([7, 5, 6, 5, 7]) == 0
  {
    var vs: seq<int> := [7, 5, 6, 5, 7];
    assert vs[..4][3] == 5;
  }

  lemma RunOfThreeAtEnd()
    ensures RunScore([7, 5, 6, 5, 7]) == 3
  {
    var vs: seq<int> := [7, 5, 6, 5, 7];
    RepeatNotConsecutive(Tail(vs, 5), 0, 4);
    RepeatNotConsecutive(Tail(vs, 4), 0, 2);
    assert Tail(vs, 3) == [6, 5, 7];
    SixFiveSevenIsARun();
  }

  lemma SixFiveSevenIsARun()
    ensures Consecutive([6, 5, 7])
  {
    var vs: seq<int> := [6, 5, 7];
    var m := multiset(vs);
    assert m == multiset{5, 6, 7} by {
      assert vs == [6] + [5] + [7];
    }
    assert forall x :: x in vs <==> x == 5 || x == 6 || x == 7;
  }


  lemma PairOnlyCountsWhenAdjacent()
    ensures SequencePoints([Card(Hearts, 6), Card(Hearts, 5), Card(Spades, 5)]) == 2
    ensures SequencePoints([Card(Hearts, 5), Card(Spades, 5), Card(Hearts, 6)]) == 0
  {
    var a: seq<int> := [6, 5, 5];
    var b: seq<int> := [5, 5, 6];
    ValuesOfThree(Card(Hearts, 6), Card(Hearts, 5), Card(Spades, 5));
    ValuesOfThree(Card(Hearts, 5), Card(Spades, 5), Card(Hearts, 6));
    RepeatNotConsecutive(Tail(a, 3), 1, 2);
    RepeatNotConsecutive(Tail(b, 3), 0, 1);
    assert a[..2] == [6, 5] && b[..2] == [5, 5];
    assert [6, 5][..1] == [6];
  }

  lemma FourOfAKindScoresTwelve()
    ensures SequencePoints([Card(Hearts, 9), Card(Spades, 9), Card(Diamonds, 9), Card(Clubs, 9)]) == 12
  {
    var vs: seq<int> := [9, 9, 9, 9];
    assert Values([Card(Hearts, 9), Card(Spades, 9), Card(Diamonds, 9), Card(Clubs, 9)]) == vs;
    RepeatNotConsecutive(Tail(vs, 3), 0, 1);
    RepeatNotConsecutive(Tail(vs, 4), 0, 1);
    assert vs[..3] == [9, 9, 9] && [9, 9, 9][..2] == [9, 9] && [9, 9][..1] == [9];
  }
}
