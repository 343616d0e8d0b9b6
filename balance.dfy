/**
 * Automatic mode: `auto_balance`, the brute-force search over every way of
 * choosing five players as team A, and the "Generate Teams" action that
 * shows its result.
 */
module Balance {
  import opened Roster
  import opened Enumeration
  import opened Teams

  /** Players per team. */
  const TeamSize: nat := 5

  /** Players the form collects. */
  const RosterSize: nat := 10

  /**
   * The candidates for team A, in the order `itertools.combinations(players, 5)`
   * yields them, each given by the positions of its players.
   */
  function Candidates(n: nat): (cs: seq<seq<nat>>)
    ensures forall j :: 0 <= j < |cs| ==> IsCombination(cs[j], 0, n, TeamSize)
  {
    Combinations(0, n, TeamSize)
  }

  /** There are C(n, 5) candidates. */
  lemma CandidatesCount(n: nat)
    ensures |Candidates(n)| == Binomial(n, TeamSize)
  {
    CombinationsCount(0, n, TeamSize);
  }

  /** A full roster of ten gives 252 candidates. */
  lemma FullRosterCandidates(n: nat)
    requires n == RosterSize
    ensures |Candidates(n)| == 252
  {
    CandidatesCount(n);
    TenChooseFive();
  }

  /** There is a candidate exactly when there are at least five players. */
  lemma CandidatesExist(n: nat)
    ensures |Candidates(n)| > 0 <==> n >= TeamSize
  {
    CandidatesCount(n);
    BinomialPositive(n, TeamSize);
  }

  /** The balance metric of the j-th candidate split. */
  function CandidateDiff(players: seq<Player>, j: nat): real
    requires j < |Candidates(|players|)|
  {
    SplitDiff(players, Candidates(|players|)[j])
  }

  /** The balance metrics of the candidates, in the order they are tried. */
  function Diffs(players: seq<Player>): (ds: seq<real>)
    ensures |ds| == |Candidates(|players|)|
    ensures forall j :: 0 <= j < |ds| ==> ds[j] == CandidateDiff(players, j)
  {
    seq(|Candidates(|players|)|, j requires 0 <= j < |Candidates(|players|)| => CandidateDiff(players, j))
  }

  /**
   * Among the first i values, position k is where the minimum is first
   * reached: no value does better, and every earlier one does strictly worse.
   */
  predicate FirstMinimum(ds: seq<real>, i: nat, k: nat)
    requires i <= |ds|
  {
    k < i &&
    (forall j :: 0 <= j < i ==> ds[k] <= ds[j]) &&
    (forall j :: 0 <= j < k ==> ds[k] < ds[j])
  }

  /** Candidate k is where the minimum over all candidates is first reached. */
  predicate IsFirstMinimum(players: seq<Player>, k: nat) {
    var ds := Diffs(players);
    FirstMinimum(ds, |ds|, k)
  }

  /** One more value: it takes over exactly when it is strictly below the minimum so far. */
  lemma FirstMinimumStep(ds: seq<real>, i: nat, k: nat)
    requires i < |ds|
    requires i == 0 || FirstMinimum(ds, i, k)
    ensures i == 0 || ds[i] < ds[k] ==> FirstMinimum(ds, i + 1, i)
    ensures 0 < i && ds[k] <= ds[i] ==> FirstMinimum(ds, i + 1, k)
  {
    if i == 0 || ds[i] < ds[k] {
      forall j | 0 <= j < i
        ensures ds[i] < ds[j]
      {
        assert ds[k] <= ds[j];
      }
    }
  }

  /** A value that does as well as the first minimum cannot come before it. */
  lemma FirstMinimumNotAfter(ds: seq<real>, k: nat, j: nat)
    requires FirstMinimum(ds, |ds|, k)
    requires j < |ds| && ds[j] <= ds[k]
    ensures k <= j
  {
  }

  /** `float("inf")` or a finite difference: the search's best-so-far. */
  datatype Bound = Infinity | Finite(value: real)

  /** `diff < best_diff`: every difference is below infinity, and below a finite bound iff smaller. */
  predicate Below(x: real, b: Bound): (r: bool)
    ensures b.Infinity? ==> r
    ensures b.Finite? ==> (r <==> x < b.value)
  {
    b.Infinity? || x < b.value
  }

  /**
   * `auto_balance`: tries every candidate for team A in turn, team B being
   * everyone else, and keeps the first split with the strictly smallest
   * difference. With fewer than five players there is no candidate and the
   * result stays `(None, inf)`. Otherwise the split is the candidate where
   * the minimum is first reached (ghost k is its place in the enumeration),
   * and the difference is that split's metric.
   */
  method AutoBalance(players: seq<Player>) returns (bestSplit: Option<Split>, bestDiff: Bound, ghost k: nat)
    ensures bestSplit.None? <==> |players| < TeamSize
    ensures bestDiff.Infinity? <==> bestSplit.None?
    ensures bestSplit.Some? ==>
      IsFirstMinimum(players, k) &&
      bestSplit.value == SplitAt(players, Candidates(|players|)[k]) &&
      bestDiff.value == Difference(bestSplit.value.teamA, bestSplit.value.teamB)
  {
    var candidates := Candidates(|players|);
    ghost var diffs := Diffs(players);
    CandidatesExist(|players|);
    bestDiff := Infinity;
    bestSplit := None;
    k := 0;
    for i := 0 to |candidates|
      invariant bestSplit.None? <==> i == 0
      invariant bestDiff.Infinity? <==> i == 0
      invariant 0 < i ==> FirstMinimum(diffs, i, k)
      invariant 0 < i ==> bestSplit == Some(SplitAt(players, candidates[k]))
      invariant 0 < i ==> bestDiff == Finite(CandidateDiff(players, k))
    {
      var teamA := Pick(players, candidates[i]);
      var teamB := Rest(players, candidates[i]);
      var totalA := Total(teamA);
      var totalB := Total(teamB);
      var diff := Abs(totalA - totalB);
      assert Split(teamA, teamB) == SplitAt(players, candidates[i]);
      assert diff == diffs[i];
      FirstMinimumStep(diffs, i, k);
      if Below(diff, bestDiff) {
        bestDiff := Finite(diff);
        bestSplit := Some(Split(teamA, teamB));
        k := i;
      }
    }
  }

  /** No candidate does better than the first minimum. */
  lemma FirstMinimumIsLowest(players: seq<Player>, k: nat)
    requires IsFirstMinimum(players, k)
    ensures k < |Candidates(|players|)|
    ensures forall j :: 0 <= j < |Candidates(|players|)| ==> CandidateDiff(players, k) <= CandidateDiff(players, j)
  {
    var ds := Diffs(players);
    forall j | 0 <= j < |Candidates(|players|)|
      ensures CandidateDiff(players, k) <= CandidateDiff(players, j)
    {
      assert ds[k] <= ds[j];
    }
  }

  /** Only one candidate can be where the minimum is first reached. */
  lemma FirstMinimumUnique(players: seq<Player>, k1: nat, k2: nat)
    requires IsFirstMinimum(players, k1) && IsFirstMinimum(players, k2)
    ensures k1 == k2
  {
    var ds := Diffs(players);
    FirstMinimumNotAfter(ds, k1, k2);
    FirstMinimumNotAfter(ds, k2, k1);
  }

  /**
   * On a roster without equal entries, every candidate split is the one the
   * code as written builds: team B by value equals team B by position, and
   * so does the difference.
   */
  lemma CandidateAsWritten(players: seq<Player>, j: nat)
    requires j < |Candidates(|players|)| && Distinct(players)
    ensures var s := SplitAt(players, Candidates(|players|)[j]);
      s.teamB == OthersByValue(players, s.teamA) &&
      CandidateDiff(players, j) == Difference(s.teamA, OthersByValue(players, s.teamA))
  {
    var c := Candidates(|players|)[j];
    OthersByValueOnDistinct(players, c);
    assert SplitAt(players, c).teamB == Rest(players, c);
  }

  /**
   * The chosen split is optimal over every choice of five players, not only
   * over the ones enumerated, and among the optimal ones it takes the
   * lexicographically smallest.
   */
  lemma FirstMinimumIsBest(players: seq<Player>, k: nat, c: seq<nat>)
    requires IsFirstMinimum(players, k)
    requires IsCombination(c, 0, |players|, TeamSize)
    ensures CandidateDiff(players, k) <= SplitDiff(players, c)
    ensures SplitDiff(players, c) == CandidateDiff(players, k) ==>
      c == Candidates(|players|)[k] || LexLess(Candidates(|players|)[k], c)
  {
    var cs := Candidates(|players|);
    CombinationsComplete(c, 0, |players|, TeamSize);
    var j :| 0 <= j < |cs| && cs[j] == c;
    assert CandidateDiff(players, j) == SplitDiff(players, c);
    if SplitDiff(players, c) == CandidateDiff(players, k) && j != k {
      assert k < j;
      CombinationsSorted(0, |players|, TeamSize);
    }
  }

  /** With everyone rated alike, every 5/5 split has difference 0. */
  lemma AlikeSplitBalanced(players: seq<Player>, c: seq<nat>, v: real)
    requires |players| == RosterSize && IsCombination(c, 0, |players|, TeamSize)
    requires forall i :: 0 <= i < |players| ==> Overall(players[i]) == v
    ensures SplitDiff(players, c) == 0.0
  {
    var s := SplitAt(players, c);
    assert forall x :: 0 <= x < |s.teamA| ==> s.teamA[x] == players[c[x]];
    forall x | 0 <= x < |s.teamB|
      ensures Overall(s.teamB[x]) == v
    {
      assert s.teamB[x] in multiset(s.teamB);
      assert s.teamB[x] in multiset(players);
    }
    EqualPlayersBalance(s.teamA, s.teamB, v);
  }

  /**
   * When every player has the same overall score, every split is perfectly
   * balanced, so the very first candidate (players 1-5 against 6-10) wins
   * with difference 0.
   */
  lemma AllAlikeBalanceToZero(players: seq<Player>, v: real)
    requires |players| == RosterSize
    requires forall i :: 0 <= i < |players| ==> Overall(players[i]) == v
    ensures IsFirstMinimum(players, 0) && CandidateDiff(players, 0) == 0.0
  {
    var cs := Candidates(|players|);
    CandidatesExist(|players|);
    forall j | 0 <= j < |cs|
      ensures CandidateDiff(players, j) == 0.0
    {
      AlikeSplitBalanced(players, cs[j], v);
    }
  }

  /** The shape of a "Generate Teams" press: teams and their difference, or a warning. */
  datatype Outcome = Generated(teamA: seq<Player>, teamB: seq<Player>, diff: real) | NeedTenPlayers

  /**
   * The "Generate Teams" action: with ten players, it calls `auto_balance`
   * once for the teams and once more for the difference it shows. Both calls
   * settle on the same candidate, so the difference shown is that of the
   * teams shown, and no other 5/5 split does better. Otherwise it warns.
   */
  method GenerateTeams(players: seq<Player>) returns (r: Outcome)
    ensures r.Generated? <==> |players| == RosterSize
    ensures r.Generated? ==>
      |r.teamA| == TeamSize && |r.teamB| == TeamSize &&
      multiset(r.teamA) + multiset(r.teamB) == multiset(players) &&
      r.diff == Difference(r.teamA, r.teamB) &&
      forall j :: 0 <= j < |Candidates(|players|)| ==> r.diff <= CandidateDiff(players, j)
  {
    if |players| == RosterSize {
      var split: Option<Split>, unused: Bound;
      ghost var k1: nat;
      split, unused, k1 := AutoBalance(players);
      var again: Option<Split>, diff: Bound;
      ghost var k2: nat;
      again, diff, k2 := AutoBalance(players);
      FirstMinimumUnique(players, k1, k2);
      FirstMinimumIsLowest(players, k1);
      r := Generated(split.value.teamA, split.value.teamB, diff.value);
    } else {
      r := NeedTenPlayers;
    }
  }

  /** Counts the players rated 10 overall. */
  function TopRated(team: seq<Player>): nat {
    if team == [] then 0
    else (if Overall(team[0]) == 10.0 then 1 else 0) + TopRated(team[1..])
  }

  lemma {:induction false} TopRatedAppend(a: seq<Player>, b: seq<Player>)
    ensures TopRated(a + b) == TopRated(a) + TopRated(b)
  {
    if a == [] {
      assert a + b == b;
    } else {
      assert (a + b)[1..] == a[1..] + b;
      TopRatedAppend(a[1..], b);
    }
  }

  /** A team of players rated 0 or 10 is worth 10 per top-rated player. */
  lemma {:induction false} TotalOfTopOrBottom(team: seq<Player>)
    requires forall i :: 0 <= i < |team| ==> Overall(team[i]) == 0.0 || Overall(team[i]) == 10.0
    ensures Total(team) == 10.0 * TopRated(team) as real
  {
    if team != [] {
      TotalOfTopOrBottom(team[1..]);
    }
  }

  /** A team all rated 10 has every player top-rated; a team rated below 10 none. */
  lemma {:induction false} TopRatedAllOrNone(team: seq<Player>)
    ensures (forall i :: 0 <= i < |team| ==> Overall(team[i]) == 10.0) ==> TopRated(team) == |team|
    ensures (forall i :: 0 <= i < |team| ==> Overall(team[i]) < 10.0) ==> TopRated(team) == 0
  {
    if team != [] {
      TopRatedAllOrNone(team[1..]);
      assert forall i :: 1 <= i < |team| ==> team[1..][i - 1] == team[i];
    }
  }

  /** Five players rated 10 followed by five rated 0. */
  predicate TopThenBottom(players: seq<Player>) {
    |players| == RosterSize &&
    (forall i :: 0 <= i < 5 ==> Overall(players[i]) == 10.0) &&
    (forall i :: 5 <= i < 10 ==> Overall(players[i]) == 0.0)
  }

  lemma TopThenBottomTotal(players: seq<Player>)
    requires TopThenBottom(players)
    ensures Total(players) == 50.0
  {
    TotalOfTopOrBottom(players);
    assert players == players[..5] + players[5..];
    TopRatedAppend(players[..5], players[5..]);
    TopRatedAllOrNone(players[..5]);
    TopRatedAllOrNone(players[5..]);
  }

  /** A candidate's metric is 20 per top player in team A, measured from 50. */
  lemma TopThenBottomDiff(players: seq<Player>, c: seq<nat>)
    requires TopThenBottom(players) && IsCombination(c, 0, |players|, TeamSize)
    ensures SplitDiff(players, c) == Abs(20.0 * TopRated(Pick(players, c)) as real - 50.0)
  {
    TopThenBottomTotal(players);
    SplitDiffFromTeamA(players, c);
    TotalOfTopOrBottom(Pick(players, c));
  }

  /** Team A cannot hold 2.5 top players, so no split does better than 10. */
  lemma TopThenBottomAtLeastTen(players: seq<Player>, c: seq<nat>)
    requires TopThenBottom(players) && IsCombination(c, 0, |players|, TeamSize)
    ensures SplitDiff(players, c) >= 10.0
  {
    TopThenBottomDiff(players, c);
    var m := TopRated(Pick(players, c));
    if m <= 2 {
      assert 20.0 * m as real <= 40.0;
    } else {
      assert 20.0 * m as real >= 60.0;
    }
  }

  lemma {:induction false} TopRatedAtMostSize(team: seq<Player>)
    ensures TopRated(team) <= |team|
  {
    if team != [] {
      TopRatedAtMostSize(team[1..]);
    }
  }

  /** Team A holds at most five top players, so no split gets above 50. */
  lemma TopThenBottomAtMostFifty(players: seq<Player>, c: seq<nat>)
    requires TopThenBottom(players) && IsCombination(c, 0, |players|, TeamSize)
    ensures SplitDiff(players, c) <= 50.0
  {
    TopThenBottomDiff(players, c);
    TopRatedAtMostSize(Pick(players, c));
    var m := TopRated(Pick(players, c));
    assert m <= 5;
    assert -50.0 <= 20.0 * m as real - 50.0 <= 50.0;
  }

  lemma ThreeTopPlayersAgainstTwo(players: seq<Player>)
    requires TopThenBottom(players)
    ensures IsCombination([0, 1, 2, 5, 6], 0, |players|, TeamSize)
    ensures SplitDiff(players, [0, 1, 2, 5, 6]) == 10.0
  {
    var c := [0, 1, 2, 5, 6];
    assert IsCombination(c, 0, |players|, TeamSize);
    assert TopRated(Pick(players, c)) == 3 by {
      assert Pick(players, c) == players[..3] + players[5..7];
      TopRatedAppend(players[..3], players[5..7]);
      TopRatedAllOrNone(players[..3]);
      TopRatedAllOrNone(players[5..7]);
    }
    TopThenBottomDiff(players, c);
  }

  lemma FiveTopPlayersTogether(players: seq<Player>)
    requires TopThenBottom(players)
    ensures SplitDiff(players, [0, 1, 2, 3, 4]) == 50.0
  {
    var c := [0, 1, 2, 3, 4];
    assert IsCombination(c, 0, |players|, TeamSize);
    assert TopRated(Pick(players, c)) == 5 by {
      assert Pick(players, c) == players[..5];
      TopRatedAllOrNone(players[..5]);
    }
    TopThenBottomDiff(players, c);
  }

  /**
   * Five players rated 10 and five rated 0: every split lies between 10
   * and 50; the best keeps the difference at 10 (three top players against
   * two), while putting all five top players together reaches the worst, 50.
   */
  lemma TopFiveAgainstBottomFive(players: seq<Player>)
    requires TopThenBottom(players)
    ensures forall c :: IsCombination(c, 0, |players|, TeamSize) ==>
      10.0 <= SplitDiff(players, c) <= 50.0
    ensures IsCombination([0, 1, 2, 5, 6], 0, |players|, TeamSize)
    ensures SplitDiff(players, [0, 1, 2, 5, 6]) == 10.0
    ensures SplitDiff(players, [0, 1, 2, 3, 4]) == 50.0
  {
    forall c | IsCombination(c, 0, |players|, TeamSize)
      ensures 10.0 <= SplitDiff(players, c) <= 50.0
    {
      TopThenBottomAtLeastTen(players, c);
      TopThenBottomAtMostFifty(players, c);
    }
    ThreeTopPlayersAgainstTwo(players);
    FiveTopPlayersTogether(players);
  }
}
