/**
 * Manual mode: the user picks team A by name, team B is everyone else, and
 * the balance metric is shown only for a 5/5 split.
 */
module Manual {
  import opened Roster
  import opened Enumeration
  import opened Teams
  import opened Balance

  /**
   * The players from position i on whose name is among the selected names
   * (inA) or is not (!inA), in roster order.
   */
  function ByName(players: seq<Player>, selected: seq<string>, i: nat, inA: bool): (team: seq<Player>)
    requires i <= |players|
    ensures |team| <= |players| - i
    ensures forall x :: 0 <= x < |team| ==> (team[x].name in selected) == inA
    decreases |players| - i
  {
    if i == |players| then []
    else
      var rest := ByName(players, selected, i + 1, inA);
      if (players[i].name in selected) == inA then [players[i]] + rest else rest
  }

  /**
   * The teams of manual mode: team A holds the players whose name is
   * selected, team B the others; between them they hold every player once.
   */
  function ManualTeams(players: seq<Player>, selected: seq<string>): (s: Split)
    ensures multiset(s.teamA) + multiset(s.teamB) == multiset(players)
    ensures forall x :: 0 <= x < |s.teamA| ==> s.teamA[x].name in selected
    ensures forall x :: 0 <= x < |s.teamB| ==> s.teamB[x].name !in selected
  {
    var c := SelectedPositions(players, selected, 0);
    ByNameIsSide(players, selected, c, 0);
    SidesPartition(players, c, 0);
    assert players[0..] == players;
    Split(ByName(players, selected, 0, true), ByName(players, selected, 0, false))
  }

  /**
   * The balance check of manual mode: the difference when both teams have
   * five players, otherwise nothing (the UI asks for exactly five in team A).
   */
  function ManualDifference(players: seq<Player>, selected: seq<string>): (r: Option<real>)
    ensures var s := ManualTeams(players, selected);
      r.Some? <==> |s.teamA| == TeamSize && |s.teamB| == TeamSize
    ensures r.Some? ==> |players| == RosterSize && 0.0 <= r.value
  {
    var s := ManualTeams(players, selected);
    if |s.teamA| == TeamSize && |s.teamB| == TeamSize then
      assert |multiset(players)| == |multiset(s.teamA) + multiset(s.teamB)|;
      Some(Difference(s.teamA, s.teamB))
    else
      None
  }

  /** The positions from i on whose name is selected, in increasing order. */
  function SelectedPositions(players: seq<Player>, selected: seq<string>, i: nat): (c: seq<nat>)
    requires i <= |players|
    ensures IsCombination(c, i, |players|, |c|)
    ensures forall j :: i <= j < |players| ==> (j in c <==> players[j].name in selected)
    ensures forall j :: j in c ==> i <= j < |players|
    decreases |players| - i
  {
    if i == |players| then []
    else
      var rest := SelectedPositions(players, selected, i + 1);
      if players[i].name in selected then [i] + rest else rest
  }

  /** Choosing by name is choosing the selected positions. */
  lemma {:induction false} ByNameIsSide(players: seq<Player>, selected: seq<string>, c: seq<nat>, i: nat)
    requires i <= |players|
    requires forall j :: i <= j < |players| ==> (j in c <==> players[j].name in selected)
    ensures ByName(players, selected, i, true) == Side(players, c, i, true)
    ensures ByName(players, selected, i, false) == Side(players, c, i, false)
    decreases |players| - i
  {
    if i < |players| {
      ByNameIsSide(players, selected, c, i + 1);
    }
  }

  /** Read by position, the manual teams are the split of the selected positions. */
  lemma ManualTeamsBySelection(players: seq<Player>, selected: seq<string>)
    ensures var c := SelectedPositions(players, selected, 0);
      ManualTeams(players, selected) == Split(Pick(players, c), Rest(players, c))
  {
    var c := SelectedPositions(players, selected, 0);
    ByNameIsSide(players, selected, c, 0);
    PickIsSide(players, c, 0, 0);
    assert c[0..] == c;
  }

  /** A manual 5/5 split selects exactly five positions. */
  lemma ManualSelectionSize(players: seq<Player>, selected: seq<string>)
    requires ManualDifference(players, selected).Some?
    ensures |SelectedPositions(players, selected, 0)| == TeamSize
  {
    var c := SelectedPositions(players, selected, 0);
    ManualTeamsBySelection(players, selected);
    assert |ManualTeams(players, selected).teamA| == TeamSize;
  }

  /**
   * A manual 5/5 split is one of the candidates `auto_balance` tries, with
   * the same teams and the same difference.
   */
  lemma ManualSplitIsCandidate(players: seq<Player>, selected: seq<string>)
    requires ManualDifference(players, selected).Some?
    ensures var c := SelectedPositions(players, selected, 0);
      IsCombination(c, 0, |players|, TeamSize) &&
      c in Candidates(|players|) &&
      SplitAt(players, c) == ManualTeams(players, selected) &&
      SplitDiff(players, c) == ManualDifference(players, selected).value
  {
    var c := SelectedPositions(players, selected, 0);
    ManualSelectionSize(players, selected);
    assert c in Candidates(|players|) by {
      CombinationsComplete(c, 0, |players|, TeamSize);
    }
    var s := ManualTeams(players, selected);
    assert SplitAt(players, c) == s by {
      ManualTeamsBySelection(players, selected);
    }
    assert ManualDifference(players, selected).value == Difference(s.teamA, s.teamB);
  }

  /** No manual 5/5 split beats the automatic one. */
  lemma AutoNoWorseThanManual(players: seq<Player>, selected: seq<string>, k: nat)
    requires IsFirstMinimum(players, k)
    requires ManualDifference(players, selected).Some?
    ensures CandidateDiff(players, k) <= ManualDifference(players, selected).value
  {
    ManualSplitIsCandidate(players, selected);
    FirstMinimumIsBest(players, k, SelectedPositions(players, selected, 0));
  }
}
