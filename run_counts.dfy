/** The value-level specification of the cribbage scorer's run count: the run its search
    settles on among the distinct values of a hand, the multiplier it folds out of the
    duplicate values, and the facts that the run is a longest one and that, for a
    five-card hand, the multiplier is the number of distinct runs. */
module RunCounts {
  import opened Cards
  import opened CardGame
  import opened HandCounts

  /** The length of the longest prefix of `u` that steps by one. */
  function RunLen(u: seq<int>): (n: nat)
    ensures |u| > 0 ==> 1 <= n <= |u|
    ensures |u| == 0 ==> n == 0
  {
    if |u| <= 1 then |u|
    else if u[1] == u[0] + 1 then 1 + RunLen(u[1..])
    else 1
  }

  lemma StepsByOneCons(s: seq<int>)
    requires |s| >= 2
    ensures StepsByOne(s) <==> s[1] == s[0] + 1 && StepsByOne(s[1..])
  {
    if s[1] == s[0] + 1 && StepsByOne(s[1..]) {
      forall k | 1 <= k < |s| ensures s[k] == s[k - 1] + 1 {
        if k >= 2 {
          assert s[1..][k - 1] == s[k] && s[1..][k - 2] == s[k - 1];
        }
      }
    }
    if StepsByOne(s) {
      forall k | 1 <= k < |s| - 1 ensures s[1..][k] == s[1..][k - 1] + 1 {
        assert s[k + 1] == s[k] + 1;
      }
    }
  }

  /** A prefix of `u` steps by one exactly when it is no longer than RunLen(u). */
  lemma {:induction false} PrefixStepsIff(u: seq<int>, k: nat)
    requires 1 <= k <= |u|
    ensures StepsByOne(u[..k]) <==> k <= RunLen(u)
  {
    if k >= 2 {
      assert u[..k][1..] == u[1..][..k - 1];
      StepsByOneCons(u[..k]);
      if u[1] == u[0] + 1 {
        PrefixStepsIff(u[1..], k - 1);
      }
    }
  }

  /** The search of countRuns (findLongestRun) over the distinct values `u`, ascending: for
      each start with at least three values left, the run that starts there replaces the
      best so far when it has three values or more and is strictly longer. */
  function RunFrom(u: seq<int>, best: seq<int>): seq<int>
    decreases |u|
  {
    if |u| < 3 then best else RunFrom(u[1..], Better(u, best))
  }

  /** The best run so far after looking at the run that starts at the front of `u`. */
  function Better(u: seq<int>, best: seq<int>): seq<int>
  {
    var n := RunLen(u);
    if n >= 3 && n > |best| then u[..n] else best
  }

  /** The run countRuns finds among the distinct values `u`; empty when there is none. */
  function BestRun(u: seq<int>): seq<int>
  {
    RunFrom(u, [])
  }

  /** A window of `u` of three values or more that steps by one: a run of the hand. */
  predicate IsRunWindow(u: seq<int>, i: int, j: int)
  {
    0 <= i && i + 3 <= j <= |u| && StepsByOne(u[i..j])
  }

  /** `r` sits in `u` at position i. */
  predicate WindowAt(u: seq<int>, r: seq<int>, i: int)
  {
    0 <= i && i + |r| <= |u| && r == u[i..i + |r|]
  }

  /** The search keeps or replaces `best` with a run that is a window of `u`, never gets
      shorter, and ends no shorter than any run of `u`. */
  lemma {:induction false} RunFromIsLongest(u: seq<int>, best: seq<int>)
    ensures var r := RunFrom(u, best);
      && |r| >= |best|
      && (r == best || (|r| >= 3 && StepsByOne(r) && exists i :: WindowAt(u, r, i)))
      && (forall i, j :: IsRunWindow(u, i, j) ==> j - i <= |r|)
    decreases |u|
  {
    var r := RunFrom(u, best);
    if |u| >= 3 {
      var n := RunLen(u);
      var best' := if n >= 3 && n > |best| then u[..n] else best;
      RunFromIsLongest(u[1..], best');
      assert r == RunFrom(u[1..], best');
      if best' != best {
        PrefixStepsIff(u, n);
      }
      if r != best && r != best' {
        var i :| WindowAt(u[1..], r, i);
        assert r == u[i + 1..i + 1 + |r|];
        assert WindowAt(u, r, i + 1);
      }
      if r != best && r == best' {
        assert r == u[0..0 + |r|];
        assert WindowAt(u, r, 0);
      }
      forall i, j | IsRunWindow(u, i, j) ensures j - i <= |r| {
        if i == 0 {
          PrefixStepsIff(u, j);
          assert u[0..j] == u[..j];
        } else {
          assert u[i..j] == u[1..][i - 1..j - 1];
          assert IsRunWindow(u[1..], i - 1, j - 1);
        }
      }
    }
  }

  /** The run countRuns finds is a run of the hand, and no run of the hand is longer. */
  lemma BestRunIsLongest(u: seq<int>)
    ensures var r := BestRun(u);
      && (r == [] || (|r| >= 3 && StepsByOne(r) && exists i :: WindowAt(u, r, i)))
      && (forall i, j :: IsRunWindow(u, i, j) ==> j - i <= |r|)
  {
    RunFromIsLongest(u, []);
  }

  // ---------------------------------------------------------------------------------
  // The run multiplier

  /** One duplicate value `d` against the run, run values taken in order: for each run value
      equal to `d`, one more run when the previous duplicate had the same value, twice as
      many otherwise. */
  function StepOver(run: seq<int>, d: int, same: bool, n: nat): nat
  {
    if run == [] then n
    else
      var m := StepOver(run[..|run| - 1], d, same, n);
      if run[|run| - 1] == d then (if same then m + 1 else 2 * m) else m
  }

  /** The multiplier countRuns folds out of the duplicate values, in order, starting from
      one run and no previous duplicate. */
  function RunsFold(dups: seq<int>, run: seq<int>): nat
  {
    if dups == [] then 1
    else
      var init, d := dups[..|dups| - 1], dups[|dups| - 1];
      StepOver(run, d, |init| > 0 && init[|init| - 1] == d, RunsFold(init, run))
  }

  /** Against a run without repeated values, a duplicate multiplies the count by two or adds
      one, and only when its value is in the run. */
  lemma {:induction false} StepOverDistinct(run: seq<int>, d: int, same: bool, n: nat)
    requires forall i, j :: 0 <= i < j < |run| ==> run[i] < run[j]
    ensures StepOver(run, d, same, n) == if d in run then (if same then n + 1 else 2 * n) else n
  {
    if run != [] {
      var init := run[..|run| - 1];
      StepOverDistinct(init, d, same, n);
      assert run == init + [run[|run| - 1]];
      if run[|run| - 1] == d {
        assert d !in init by {
          forall k | 0 <= k < |init| ensures init[k] != d {
            assert init[k] == run[k];
          }
        }
      }
    }
  }

  /** The number of ways to pick one card of each value of the run from a hand whose values
      are counted by `m`: the number of distinct runs. */
  function RunWays(run: seq<int>, m: multiset<int>): nat
  {
    if run == [] then 1 else m[run[0]] * RunWays(run[1..], m)
  }

  /** With every count 1 except possibly at `a` and at `b`, the number of ways is the product
      of those two counts, for the ones that are in the run. */
  lemma {:induction false} RunWaysTwo(run: seq<int>, m: multiset<int>, a: int, b: int)
    requires a != b
    requires forall i, j :: 0 <= i < j < |run| ==> run[i] < run[j]
    requires forall x :: x in run && x != a && x != b ==> m[x] == 1
    ensures RunWays(run, m) == (if a in run then m[a] else 1) * (if b in run then m[b] else 1)
  {
    if run != [] {
      var rest := run[1..];
      assert forall k :: 0 <= k < |rest| ==> rest[k] == run[k + 1];
      assert run[0] !in rest;
      RunWaysTwo(rest, m, a, b);
      var A, B := (if a in rest then m[a] else 1), (if b in rest then m[b] else 1);
      assert RunWays(run, m) == m[run[0]] * (A * B);
      if run[0] == a {
        assert b in run <==> b in rest;
        assert m[a] * (A * B) == m[a] * B;
      } else if run[0] == b {
        assert a in run <==> a in rest;
        assert m[b] * (A * B) == A * m[b];
      } else {
        assert a in run <==> a in rest;
        assert b in run <==> b in rest;
      }
    }
  }

  /** Every value of the run occurs in the hand once plus its extra copies. */
  lemma RunValueCounts(cards: seq<Card>, r: seq<int>)
    requires forall x :: x in r ==> x in Present(cards, 1)
    ensures forall x :: x in r ==>
      multiset(Values(cards))[x] == 1 + multiset(DupValues(cards, 1))[x]
    ensures 0 !in r
  {
    forall x | x in r ensures multiset(Values(cards))[x] == 1 + multiset(DupValues(cards, 1))[x] {
      var P := Present(cards, 1);
      var k :| 0 <= k < |P| && P[k] == x;
      assert 1 <= x <= 13 && CountValue(cards, x) > 0;
      CountValueOfValues(cards, x);
      DupValuesMultiset(cards, 1, x);
    }
  }

  /** A run found by the search has distinct values, all present in the hand, and fits among
      the distinct values. */
  lemma FoundRunFacts(u: seq<int>, r: seq<int>)
    requires |r| >= 3 && StepsByOne(r) && exists i :: WindowAt(u, r, i)
    ensures |r| <= |u|
    ensures forall x :: x in r ==> x in u
    ensures forall i, j :: 0 <= i < j < |r| ==> r[i] < r[j]
  {
    var i :| WindowAt(u, r, i);
    forall x | x in r ensures x in u {
      var k :| 0 <= k < |r| && r[k] == x;
      assert u[i + k] == x;
    }
    forall a, b | 0 <= a < b < |r| ensures r[a] < r[b] {
      StepsByOneOffsets(r, a);
      StepsByOneOffsets(r, b);
    }
  }

  /** The multiplier for at most two duplicate values: each of them in the run doubles the
      count, except that a second copy of the same value adds one. */
  lemma FoldOfTwo(dups: seq<int>, r: seq<int>)
    requires |dups| <= 2
    requires forall i, j :: 0 <= i < j < |r| ==> r[i] < r[j]
    ensures |dups| == 0 ==> RunsFold(dups, r) == 1
    ensures |dups| == 1 ==> RunsFold(dups, r) == if dups[0] in r then 2 else 1
    ensures |dups| == 2 && dups[0] == dups[1] ==> RunsFold(dups, r) == if dups[0] in r then 3 else 1
    ensures |dups| == 2 && dups[0] != dups[1] ==>
      RunsFold(dups, r) == (if dups[0] in r then 2 else 1) * (if dups[1] in r then 2 else 1)
  {
    if |dups| >= 1 {
      assert dups[..1] == [dups[0]];
      assert [dups[0]][..0] == [];
      StepOverDistinct(r, dups[0], false, 1);
      if |dups| == 2 {
        var n1 := RunsFold([dups[0]], r);
        assert dups[..|dups| - 1] == [dups[0]];
        StepOverDistinct(r, dups[1], dups[0] == dups[1], n1);
      }
    }
  }

  /** With at most two duplicate values, the fold gives the number of ways to pick one card
      per run value. */
  lemma FoldIsWays(D: seq<int>, r: seq<int>, m: multiset<int>)
    requires |D| <= 2 && (forall i :: 0 <= i < |D| ==> D[i] >= 1) && 0 !in r
    requires forall i, j :: 0 <= i < j < |r| ==> r[i] < r[j]
    requires forall x :: x in r ==> m[x] == 1 + multiset(D)[x]
    ensures RunsFold(D, r) == RunWays(r, m)
  {
    FoldOfTwo(D, r);
    if |D| == 0 {
      RunWaysTwo(r, m, 0, -1);
    } else if |D| == 1 {
      assert D == [D[0]];
      RunWaysTwo(r, m, D[0], 0);
    } else if D[0] == D[1] {
      assert D == [D[0]] + [D[1]];
      assert multiset(D) == multiset{D[0], D[0]};
      RunWaysTwo(r, m, D[0], 0);
    } else {
      assert D == [D[0]] + [D[1]];
      assert multiset(D) == multiset{D[0], D[1]};
      RunWaysTwo(r, m, D[0], D[1]);
    }
  }

  /** A five-card hand with a run has at most two duplicate values. */
  lemma RunLeavesTwoDuplicates(cards: seq<Card>)
    requires |cards| == 5 && |BestRun(Present(cards, 1))| >= 3
    ensures |DupValues(cards, 1)| <= 2
  {
    var u := Present(cards, 1);
    var r := BestRun(u);
    BestRunIsLongest(u);
    FoundRunFacts(u, r);
    PresentPlusDuplicates(cards, 1);
    SumCountsIsSize(cards);
  }

  /** In a five-card hand (four cards and the cut), the multiplier countRuns computes is the
      number of distinct runs: the product over the run's values of how many cards have that
      value. */
  lemma FiveCardRunMultiplier(cards: seq<Card>)
    requires |cards| == 5
    ensures var r := BestRun(Present(cards, 1));
      |r| >= 3 ==> RunsFold(DupValues(cards, 1), r) == RunWays(r, multiset(Values(cards)))
  {
    var u := Present(cards, 1);
    var r := BestRun(u);
    var D := DupValues(cards, 1);
    if |r| >= 3 {
      RunLeavesTwoDuplicates(cards);
      assert forall i, j :: 0 <= i < j < |r| ==> r[i] < r[j] by {
        BestRunIsLongest(u);
        FoundRunFacts(u, r);
      }
      assert forall x :: x in r ==> x in u by {
        BestRunIsLongest(u);
        FoundRunFacts(u, r);
      }
      RunValueCounts(cards, r);
      FoldIsWays(D, r, multiset(Values(cards)));
    }
  }
}
