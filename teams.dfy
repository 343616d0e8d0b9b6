/**
 * Teams drawn from the roster, their strength totals and the balance metric
 * |total(A) - total(B)| shared by the automatic and the manual mode.
 */
module Teams {
  import opened Roster
  import opened Enumeration

  datatype Option<T> = None | Some(value: T)

  /** A division of the roster into (team_a, team_b). */
  datatype Split = Split(teamA: seq<Player>, teamB: seq<Player>)

  /**
   * The strength of a team: the sum of its players' overall scores. With
   * slider ratings, each player adds between 0 and 10.
   */
  function Total(team: seq<Player>): real {
    if team == [] then 0.0 else Overall(team[0]) + Total(team[1..])
  }

  function Abs(x: real): (r: real)
    ensures 0.0 <= r && (r == x || r == -x)
  {
    if x < 0.0 then -x else x
  }

  /** The balance metric: how far apart the two teams' strengths are, whichever is stronger. */
  function Difference(a: seq<Player>, b: seq<Player>): (d: real)
    ensures 0.0 <= d
    ensures Total(b) <= Total(a) ==> d == Total(a) - Total(b)
    ensures Total(a) <= Total(b) ==> d == Total(b) - Total(a)
  {
    Abs(Total(a) - Total(b))
  }

  /** The metric is non-negative and does not depend on which team is named first. */
  lemma DifferenceSymmetric(a: seq<Player>, b: seq<Player>)
    ensures 0.0 <= Difference(a, b) == Difference(b, a)
  {
  }

  lemma {:induction false} TotalAppend(a: seq<Player>, b: seq<Player>)
    ensures Total(a + b) == Total(a) + Total(b)
  {
    if a == [] {
      assert a + b == b;
    } else {
      assert (a + b)[1..] == a[1..] + b;
      TotalAppend(a[1..], b);
    }
  }

  /** With slider ratings, each player adds between 0 and 10 to a team's strength. */
  lemma {:induction false} TotalInRange(team: seq<Player>)
    requires forall i :: 0 <= i < |team| ==> RatingsInRange(team[i])
    ensures 0.0 <= Total(team) <= 10.0 * |team| as real
  {
    if team != [] {
      assert forall i :: 1 <= i < |team| ==> team[1..][i - 1] == team[i];
      TotalInRange(team[1..]);
      OverallInRange(team[0]);
    }
  }

  /** Two teams of the same size, everyone rated alike, are equally strong. */
  lemma {:induction false} EqualPlayersEqualTotals(a: seq<Player>, b: seq<Player>, v: real)
    requires |a| == |b|
    requires forall i :: 0 <= i < |a| ==> Overall(a[i]) == v
    requires forall i :: 0 <= i < |b| ==> Overall(b[i]) == v
    ensures Total(a) == Total(b)
  {
    if a != [] {
      EqualPlayersEqualTotals(a[1..], b[1..], v);
      assert Overall(a[0]) == Overall(b[0]);
    }
  }

  /** Two teams of the same size, everyone rated alike, are perfectly balanced. */
  lemma EqualPlayersBalance(a: seq<Player>, b: seq<Player>, v: real)
    requires |a| == |b|
    requires forall i :: 0 <= i < |a| ==> Overall(a[i]) == v
    requires forall i :: 0 <= i < |b| ==> Overall(b[i]) == v
    ensures Difference(a, b) == 0.0
  {
    EqualPlayersEqualTotals(a, b, v);
  }

  /** `list(combo)`: the players at the positions of c, in that order. */
  function Pick(players: seq<Player>, c: seq<nat>): (team: seq<Player>)
    requires forall j :: 0 <= j < |c| ==> c[j] < |players|
    ensures |team| == |c|
    ensures forall x :: x in team ==> x in players
  {
    seq(|c|, j requires 0 <= j < |c| => players[c[j]])
  }

  /**
   * The players from position i on whose position is in c (inA) or is not
   * in c (!inA), in roster order.
   */
  function Side(players: seq<Player>, c: seq<nat>, i: nat, inA: bool): seq<Player>
    requires i <= |players|
    decreases |players| - i
  {
    if i == |players| then []
    else (if (i in c) == inA then [players[i]] else []) + Side(players, c, i + 1, inA)
  }

  /**
   * Team B of a candidate: everyone whose position is not in c, in roster
   * order. Membership is decided by position, so every player is told apart.
   */
  function Rest(players: seq<Player>, c: seq<nat>): (team: seq<Player>)
    ensures multiset(team) <= multiset(players)
    ensures forall j :: 0 <= j < |players| && j !in c ==> players[j] in team
  {
    SideHolds(players, c, 0, false);
    SidesPartition(players, c, 0);
    assert players[0..] == players;
    Side(players, c, 0, false)
  }

  /** A side holds every player from position i on that belongs to it. */
  lemma {:induction false} SideHolds(players: seq<Player>, c: seq<nat>, i: nat, inA: bool)
    requires i <= |players|
    ensures forall j :: i <= j < |players| && (j in c) == inA ==> players[j] in Side(players, c, i, inA)
    decreases |players| - i
  {
    if i < |players| {
      SideHolds(players, c, i + 1, inA);
    }
  }

  /** The sizes of the two sides of c add up to the number of players from position i on. */
  lemma {:induction false} SidesSize(players: seq<Player>, c: seq<nat>, i: nat)
    requires i <= |players|
    ensures |Side(players, c, i, true)| + |Side(players, c, i, false)| == |players| - i
    decreases |players| - i
  {
    if i < |players| {
      SidesSize(players, c, i + 1);
    }
  }

  /** The two sides of c share out the players from position i on. */
  lemma {:induction false} SidesPartition(players: seq<Player>, c: seq<nat>, i: nat)
    requires i <= |players|
    ensures multiset(Side(players, c, i, true)) + multiset(Side(players, c, i, false))
         == multiset(players[i..])
    decreases |players| - i
  {
    if i < |players| {
      SidesPartition(players, c, i + 1);
      SuffixMultiset(players, i);
      var yes, no := Side(players, c, i + 1, true), Side(players, c, i + 1, false);
      if i in c {
        assert Side(players, c, i, true) == [players[i]] + yes;
        assert Side(players, c, i, false) == [] + no;
      } else {
        assert Side(players, c, i, true) == [] + yes;
        assert Side(players, c, i, false) == [players[i]] + no;
      }
    }
  }

  lemma SuffixMultiset(s: seq<Player>, i: nat)
    requires i < |s|
    ensures multiset(s[i..]) == multiset{s[i]} + multiset(s[i + 1..])
  {
    assert s[i..] == [s[i]] + s[i + 1..];
  }

  /** The strengths of the two sides of c add up to that of the players from position i on. */
  lemma {:induction false} SidesTotal(players: seq<Player>, c: seq<nat>, i: nat)
    requires i <= |players|
    ensures Total(Side(players, c, i, true)) + Total(Side(players, c, i, false))
         == Total(players[i..])
    decreases |players| - i
  {
    if i < |players| {
      SidesTotal(players, c, i + 1);
      var x := players[i];
      assert players[i..] == [x] + players[i + 1..];
      assert Total(players[i..]) == Overall(x) + Total(players[i + 1..]);
      var yes, no := Side(players, c, i + 1, true), Side(players, c, i + 1, false);
      if i in c {
        assert Side(players, c, i, true) == [x] + yes;
        assert Side(players, c, i, false) == [] + no == no;
        assert ([x] + yes)[1..] == yes;
      } else {
        assert Side(players, c, i, true) == [] + yes == yes;
        assert Side(players, c, i, false) == [x] + no;
        assert ([x] + no)[1..] == no;
      }
    }
  }

  /**
   * For an increasing c, the positions in c listed in roster order are the
   * positions of c in c's order. Here c[..m] lies below i and c[m..] from i on.
   */
  lemma {:induction false} PickIsSide(players: seq<Player>, c: seq<nat>, m: nat, i: nat)
    requires IsCombination(c, 0, |players|, |c|)
    requires i <= |players| && m <= |c|
    requires forall j :: 0 <= j < m ==> c[j] < i
    requires forall j :: m <= j < |c| ==> i <= c[j]
    ensures Side(players, c, i, true) == Pick(players, c[m..])
    decreases |players| - i
  {
    if i == |players| {
      assert m == |c|;
    } else if m < |c| && c[m] == i {
      PickIsSide(players, c, m + 1, i + 1);
      assert i in c;
      assert Pick(players, c[m..]) == [players[i]] + Pick(players, c[m + 1..]);
    } else {
      assert forall j :: 0 <= j < |c| ==> c[j] != i by {
        forall j | 0 <= j < |c|
          ensures c[j] != i
        {
          if m <= j && m < |c| {
            assert c[m] <= c[j];
          }
        }
      }
      assert i !in c;
      PickIsSide(players, c, m, i + 1);
    }
  }

  /**
   * The candidate split for combination c: team A the chosen players, team B
   * everyone else. The two teams share out the roster: |A| = |c|,
   * |B| = |players| - |c|, every player in exactly one team, and their
   * strengths add up to the roster's.
   */
  function SplitAt(players: seq<Player>, c: seq<nat>): (s: Split)
    requires IsCombination(c, 0, |players|, |c|)
    ensures s.teamA == Pick(players, c)
    ensures |s.teamB| == |players| - |c|
    ensures multiset(s.teamA) + multiset(s.teamB) == multiset(players)
    ensures Total(s.teamA) + Total(s.teamB) == Total(players)
  {
    PickIsSide(players, c, 0, 0);
    SidesPartition(players, c, 0);
    SidesSize(players, c, 0);
    SidesTotal(players, c, 0);
    assert players[0..] == players && c[0..] == c;
    Split(Pick(players, c), Rest(players, c))
  }

  /** The metric of the candidate split for c. */
  function SplitDiff(players: seq<Player>, c: seq<nat>): real
    requires IsCombination(c, 0, |players|, |c|)
  {
    var s := SplitAt(players, c);
    Difference(s.teamA, s.teamB)
  }

  /** The candidate's metric is how far team A is from half of the roster's strength. */
  lemma SplitDiffFromTeamA(players: seq<Player>, c: seq<nat>)
    requires IsCombination(c, 0, |players|, |c|)
    ensures SplitDiff(players, c) == Abs(2.0 * Total(Pick(players, c)) - Total(players))
  {
    var s := SplitAt(players, c);
    var a, b, t := Total(s.teamA), Total(s.teamB), Total(players);
    assert a + b == t;
    assert SplitDiff(players, c) == Abs(a - b);
    assert Total(Pick(players, c)) == a;
    AbsOfShift(a, b, t);
  }

  lemma AbsOfShift(a: real, b: real, t: real)
    requires a + b == t
    ensures Abs(a - b) == Abs(2.0 * a - t)
  {
  }

  /**
   * `[p for p in players if p not in team_a]` as written: membership is
   * decided by value, so an entry equal to a member of team A is left out of
   * team B too.
   */
  function OthersByValue(players: seq<Player>, teamA: seq<Player>): (b: seq<Player>)
    ensures |b| <= |players|
    ensures forall x :: x in b ==> x in players && x !in teamA
  {
    if players == [] then []
    else (if players[0] in teamA then [] else [players[0]]) + OthersByValue(players[1..], teamA)
  }

  /** No two roster entries are equal, field for field. */
  predicate Distinct(players: seq<Player>) {
    forall x, y :: 0 <= x < y < |players| ==> players[x] != players[y]
  }

  /** With distinct entries, a player equals a member of team A exactly when chosen by position. */
  lemma PickHasExactly(players: seq<Player>, c: seq<nat>, i: nat)
    requires IsCombination(c, 0, |players|, |c|) && Distinct(players) && i < |players|
    ensures players[i] in Pick(players, c) <==> i in c
  {
    var teamA := Pick(players, c);
    if i in c {
      var j :| 0 <= j < |c| && c[j] == i;
      assert teamA[j] == players[i];
    }
    if players[i] in teamA {
      var j :| 0 <= j < |teamA| && teamA[j] == players[i];
      assert players[c[j]] == players[i];
    }
  }

  lemma {:induction false} OthersByValueFrom(players: seq<Player>, c: seq<nat>, i: nat)
    requires IsCombination(c, 0, |players|, |c|) && Distinct(players) && i <= |players|
    ensures OthersByValue(players[i..], Pick(players, c)) == Side(players, c, i, false)
    decreases |players| - i
  {
    if i < |players| {
      OthersByValueFrom(players, c, i + 1);
      PickHasExactly(players, c, i);
      assert players[i..][0] == players[i];
      assert players[i..][1..] == players[i + 1..];
    }
  }

  /**
   * When no two entries are equal, the as-written comprehension builds the
   * same team B as the choice by position.
   */
  lemma OthersByValueOnDistinct(players: seq<Player>, c: seq<nat>)
    requires IsCombination(c, 0, |players|, |c|) && Distinct(players)
    ensures OthersByValue(players, Pick(players, c)) == Rest(players, c)
  {
    OthersByValueFrom(players, c, 0);
    assert players[0..] == players;
  }

  /** Ten entries where the first two are the same person twice over. */
  function TwinRoster(): seq<Player> {
    [Player("Sam", GK, 0, 0, 0, 0, 0), Player("Sam", GK, 0, 0, 0, 0, 0),
     Player("Ann", MID, 1, 5, 5, 5, 5), Player("Ben", MID, 2, 5, 5, 5, 5),
     Player("Cat", MID, 3, 5, 5, 5, 5), Player("Dan", MID, 4, 5, 5, 5, 5),
     Player("Eve", MID, 5, 5, 5, 5, 5), Player("Fay", MID, 6, 5, 5, 5, 5),
     Player("Gus", MID, 7, 5, 5, 5, 5), Player("Hal", MID, 8, 5, 5, 5, 5)]
  }

  /** Team A of the candidate {0, 2, 3, 4, 5} of the twin roster. */
  function TwinTeamA(): seq<Player> {
    var roster := TwinRoster();
    [roster[0], roster[2], roster[3], roster[4], roster[5]]
  }

  /** The as-written comprehension filters a concatenation piece by piece. */
  lemma {:induction false} OthersByValueAppend(a: seq<Player>, b: seq<Player>, teamA: seq<Player>)
    ensures OthersByValue(a + b, teamA) == OthersByValue(a, teamA) + OthersByValue(b, teamA)
  {
    if a == [] {
      assert a + b == b;
    } else {
      assert (a + b)[1..] == a[1..] + b;
      OthersByValueAppend(a[1..], b, teamA);
    }
  }

  /** Entries equal to a member of team A are all dropped; the others all kept. */
  lemma {:induction false} OthersByValueKeeps(s: seq<Player>, teamA: seq<Player>)
    ensures (forall i :: 0 <= i < |s| ==> s[i] in teamA) ==> OthersByValue(s, teamA) == []
    ensures (forall i :: 0 <= i < |s| ==> s[i] !in teamA) ==> OthersByValue(s, teamA) == s
  {
    if s != [] {
      OthersByValueKeeps(s[1..], teamA);
      assert forall i :: 1 <= i < |s| ==> s[1..][i - 1] == s[i];
      assert s == [s[0]] + s[1..];
    }
  }

  /** The comprehension on the twin roster: the first six entries all match team A. */
  lemma TwinOthers()
    ensures OthersByValue(TwinRoster(), TwinTeamA()) == TwinRoster()[6..]
  {
    var roster, teamA := TwinRoster(), TwinTeamA();
    var front, back := roster[..6], roster[6..];
    assert roster == front + back;
    assert OthersByValue(front, teamA) == [] by {
      assert forall i :: 0 <= i < |front| ==> front[i] in teamA;
      OthersByValueKeeps(front, teamA);
    }
    assert OthersByValue(back, teamA) == back by {
      assert forall i :: 0 <= i < |back| ==> back[i] !in teamA;
      OthersByValueKeeps(back, teamA);
    }
    OthersByValueAppend(front, back, teamA);
  }

  /**
   * With two identical entries, the candidate that puts one of them in team A
   * builds, as written, a team B of four: one entry of the roster is lost, so
   * the nine players shown are not the roster.
   */
  lemma TwinDroppedFromTeamB()
    ensures var roster := TwinRoster();
      var teamA := Pick(roster, [0, 2, 3, 4, 5]);
      |teamA| == 5 && |OthersByValue(roster, teamA)| == 4 &&
      multiset(teamA) + multiset(OthersByValue(roster, teamA)) != multiset(roster)
  {
    var roster := TwinRoster();
    assert Pick(roster, [0, 2, 3, 4, 5]) == TwinTeamA();
    TwinOthers();
    var lost := multiset(TwinTeamA()) + multiset(roster[6..]);
    assert |lost| == 9;
  }

  /** Read by position, the same candidate keeps all ten: team B has five, the second twin among them. */
  lemma TwinKeptByPosition()
    ensures var roster, c := TwinRoster(), [0, 2, 3, 4, 5];
      IsCombination(c, 0, |roster|, |c|) &&
      |Rest(roster, c)| == 5 &&
      multiset(Pick(roster, c)) + multiset(Rest(roster, c)) == multiset(roster)
  {
    var roster, c := TwinRoster(), [0, 2, 3, 4, 5];
    assert IsCombination(c, 0, |roster|, |c|);
    var s := SplitAt(roster, c);
  }
}
