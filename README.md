# 5-a-side team picker: the balancing core

A Dafny model of the team-balancing logic of a Streamlit app (`app.py`).
The app collects ten players. Each player has a name, a position and five
slider ratings from 0 to 10. It then splits the players into two teams of
five, in one of two ways:

- **Auto Balance**: `auto_balance` tries every choice of five players as
  team A, with team B being everyone else. It keeps the first split whose
  strength difference `|sum overall(A) - sum overall(B)|` is strictly
  smallest.
- **Manual Pick**: the user selects team A by name, and team B is everyone
  else. The difference is shown only for a 5/5 split.

Each player's card is coloured gold, silver or bronze from their
`overall` score.

The model has five modules, one per file:

- `roster.dfy` (`Roster`): the player entry, the `overall` score, default
  names and `card_color`.
- `combinations.dfy` (`Enumeration`): `itertools.combinations` written
  out as a recursive enumeration of index lists in lexicographic order.
  It is proved sound, complete, strictly sorted and of size C(n, k).
- `teams.dfy` (`Teams`): team totals, the difference metric, and the
  candidate split for a combination. It also holds the as-written
  value-based team B filter and the input that shows where it goes wrong.
- `balance.dfy` (`Balance`): `auto_balance` as an imperative loop with
  its best-so-far invariant, and the "Generate Teams" action that calls
  it twice. It also proves optimality, lexicographic tie-breaking and
  determinism, plus two rating scenarios.
- `manual.dfy` (`Manual`): the manual split by name and its balance
  check. It also proves that a manual 5/5 split is one of the automatic
  candidates, so it can never beat the automatic result.

Players are identified by their position in the roster. A candidate is the
increasing list of the positions it puts in team A. Scores are exact
`real`s: `overall` is the rating sum divided by 5.

One might expect five players rated 10 against five rated 0 to be best
split 50 to 0. In the code, the minimum is 10: three top players with two
bottom ones against the rest. Every split lies between 10 and 50, and
putting all five top players together reaches the worst, 50.
`Balance.TopFiveAgainstBottomFive` proves all three.

The manual balance check looks only at the two team sizes (`app.py:133`).
It does not also check that the teams cover the roster without overlap.
That check would be redundant: the name filter makes the two teams a
partition by construction, and `Manual.ManualTeams` proves that.

## Model

| member | source | states |
|---|---|---|
| Roster.Overall | app.py:47 | the overall score is the exact mean of the five sub-ratings, so it lies between the lowest and the highest of them |
| Roster.OverallInRange | app.py:42-47 | with every slider rating in 0..10, the overall score lies in [0, 10] |
| Roster.Decimal | app.py:49 | `f"{i+1}"` writes a number as a non-empty string of decimal digits, one digit exactly for numbers below 10 |
| Roster.DecimalInjective | app.py:49 | two different numbers never print the same |
| Roster.DisplayName | app.py:49 | a typed name is kept; a blank one becomes "Player " followed by the 1-based index, so no roster name is blank |
| Roster.DefaultNamesDistinct | app.py:49 | two blank entries at different places of the form get different default names |
| Roster.MakePlayer | app.py:48-57 | the entry for an expander stores the display name, the chosen position and each of the five ratings as given; its overall is their mean, and with slider ratings it is in range |
| Roster.CardColor | app.py:60-63 | gold iff overall >= 8, silver iff 5 <= overall < 8, bronze iff overall < 5; exactly one applies |
| Roster.CardColorByRatingSum | app.py:60-63 | the same classification read on the integer rating sum: gold iff sum >= 40, silver iff 25 <= sum < 40, bronze iff sum < 25 |
| Roster.CardColorMonotone | app.py:60-63 | a higher overall score never gets a lower card |
| Enumeration.Combinations | app.py:95 | every list enumerated picks k distinct positions from the range, in increasing order |
| Enumeration.CombinationsComplete | app.py:95 | every k-combination of the range is enumerated |
| Enumeration.CombinationsSorted | app.py:95 | the enumeration is strictly increasing in lexicographic order, as `itertools.combinations` yields them, so nothing is listed twice |
| Enumeration.LexLessIrreflexive | app.py:95 | lexicographic order is strict |
| Enumeration.CombinationsDistinct | app.py:95 | being strictly sorted, the enumeration lists no combination twice |
| Enumeration.CombinationsCount | app.py:95 | the enumeration has C(hi - lo, k) entries |
| Enumeration.BinomialPositive | app.py:95 | there is a k-combination of n positions iff k <= n |
| Enumeration.BinomialDiagonal | app.py:95 | there is exactly one way to take all n positions |
| Enumeration.TenChooseFive | app.py:95 | C(10, 5) = 252 |
| Balance.Candidates | app.py:95 | each candidate for team A is five increasing positions among the players |
| Balance.CandidatesCount | app.py:95 | there are C(n, 5) candidates for n players |
| Balance.FullRosterCandidates | app.py:95 | ten players give 252 candidate splits |
| Balance.CandidatesExist | app.py:95 | there is a candidate iff there are at least five players |
| Teams.DifferenceSymmetric | app.py:100 | the difference is non-negative and does not depend on which team is named first |
| Teams.TotalAppend | app.py:98-99 | the total of two groups put together is the sum of their totals |
| Teams.TotalInRange | app.py:98-99 | with slider ratings, a team's total lies between 0 and 10 per player |
| Teams.Difference | app.py:100 | the metric is non-negative and is the stronger team's total minus the weaker one's |
| Teams.Pick | app.py:96 | `list(combo)` has one player per chosen position, all from the roster |
| Teams.Rest | app.py:97 | team B holds only roster players and holds every player whose position was not chosen |
| Teams.SideHolds | app.py:97 | a side holds every player from position i on that belongs to it |
| Teams.SidesSize | app.py:96-97 | the sizes of the two sides add up to the number of players |
| Teams.EqualPlayersEqualTotals | app.py:98-99 | two teams of the same size, everyone rated alike, have equal totals |
| Teams.EqualPlayersBalance | app.py:98-100 | two teams of the same size, everyone rated alike, have difference 0 |
| Teams.SidesPartition | app.py:96-97 | the players in and out of a candidate share out the roster: every player in exactly one side, the sizes adding up |
| Teams.SidesTotal | app.py:97-99 | the totals of the two sides add up to the roster's total |
| Teams.PickIsSide | app.py:96-97 | for an increasing candidate, its players in candidate order are its players in roster order |
| Teams.SplitAt | app.py:96-99 | team A is the candidate's players in order, team B has the other n - 5 players, every player is in exactly one team, and the two totals add up to the roster's |
| Teams.SplitDiffFromTeamA | app.py:98-100 | a candidate's difference is the distance of twice team A's total from the roster's total |
| Teams.OthersByValue | app.py:97 | the as-written comprehension keeps only roster entries, none of them equal to a member of team A, and at most as many as the roster |
| Teams.PickHasExactly | app.py:96-97 | with no two entries equal, a player equals a member of team A exactly when its position was chosen |
| Teams.OthersByValueFrom | app.py:97 | with no two entries equal, the as-written filter over the players from position i on is the positional side |
| Teams.OthersByValueOnDistinct | app.py:97 | with no two entries equal, the as-written team B is exactly team B by position |
| Teams.OthersByValueAppend | app.py:97 | the as-written filter works piece by piece over a concatenation |
| Teams.OthersByValueKeeps | app.py:97 | the as-written filter drops every entry equal to a member of team A and keeps all the others |
| Teams.TwinOthers | app.py:97 | on the twin roster, the as-written filter keeps only the last four entries |
| Teams.TwinDroppedFromTeamB | app.py:97 | as written, two identical entries and the candidate {0, 2, 3, 4, 5} give a team B of four, and the two teams no longer hold the roster |
| Teams.TwinKeptByPosition | app.py:97 | read by position, the same candidate leaves five players in team B, the second twin among them, and the teams hold the roster |
| Balance.FirstMinimumStep | app.py:101-103 | one more candidate takes over as best-so-far exactly when its difference is strictly below the current best; otherwise the earlier best stays the first minimum |
| Balance.FirstMinimumNotAfter | app.py:101 | a candidate doing as well as the first minimum cannot come before it |
| Balance.Below | app.py:101 | every difference is below `inf`, and below a finite best iff strictly smaller |
| Balance.CandidateAsWritten | app.py:95-100 | with no two entries equal, each candidate's team B and difference are those the code as written computes |
| Balance.AutoBalance | app.py:92-104 | no split and `inf` iff fewer than five players; otherwise the split is the first candidate in enumeration order reaching the minimum difference, and the returned difference is that split's metric |
| Balance.FirstMinimumIsLowest | app.py:95-103 | no candidate has a smaller difference than the one chosen |
| Balance.FirstMinimumUnique | app.py:101 | only one candidate can be where the minimum is first reached, so the search's answer is determined by its input |
| Balance.FirstMinimumIsBest | app.py:95-103 | the chosen split is optimal over every choice of five players, and among the optimal ones it is the lexicographically first |
| Balance.AlikeSplitBalanced | app.py:98-100 | with everyone rated alike, every 5/5 split has difference 0 |
| Balance.AllAlikeBalanceToZero | app.py:98-103 | with everyone rated alike, the first candidate (players 1-5 against 6-10) is chosen with difference 0 |
| Balance.GenerateTeams | app.py:107-121 | with ten players, the two calls to `auto_balance` agree, so the shown difference is that of the shown 5/5 teams, which hold the roster and which no candidate beats; otherwise the warning |
| Balance.TopRatedAppend | app.py:98 | counting top-rated players works piece by piece over a concatenation |
| Balance.TotalOfTopOrBottom | app.py:98-99 | a team of players rated 0 or 10 is worth 10 per top-rated player |
| Balance.TopRatedAllOrNone | app.py:98-99 | a team all rated 10 is all top-rated; a team all rated below 10 has none |
| Balance.TopThenBottomTotal | app.py:98-99 | five players rated 10 and five rated 0 are worth 50 together |
| Balance.TopThenBottomDiff | app.py:98-100 | in that roster, a candidate's difference is 20 per top player in team A, measured from 50 |
| Balance.TopThenBottomAtLeastTen | app.py:95-103 | in that roster, no split gets below 10 |
| Balance.TopRatedAtMostSize | app.py:98 | a team has no more top-rated players than players |
| Balance.TopThenBottomAtMostFifty | app.py:95-103 | in that roster, no split gets above 50 |
| Balance.ThreeTopPlayersAgainstTwo | app.py:95-103 | in that roster, three top players with two bottom ones make a difference of 10 |
| Balance.FiveTopPlayersTogether | app.py:95-103 | in that roster, the five top players together make a difference of 50 |
| Balance.TopFiveAgainstBottomFive | app.py:92-104 | in that roster, every split lies between 10 and 50, the minimum 10 is reached by candidate {0, 1, 2, 5, 6}, and the 5-against-0 split reaches the maximum 50 |
| Manual.ByName | app.py:125-126 | a name filter keeps only players whose name is selected (or only those whose name is not) |
| Manual.ManualTeams | app.py:125-126 | team A holds exactly the players whose name is selected, team B the rest, each player in exactly one of them |
| Manual.ManualDifference | app.py:133-138 | a difference is produced iff both teams have five players, and then the roster has ten and the difference is non-negative |
| Manual.SelectedPositions | app.py:125 | the positions of the selected players, increasing, exactly those whose name is selected |
| Manual.ByNameIsSide | app.py:125-126 | filtering by name is splitting at the selected positions |
| Manual.ManualTeamsBySelection | app.py:125-126 | the manual teams are the split at the selected positions |
| Manual.ManualSelectionSize | app.py:133 | a manual 5/5 split selects exactly five positions |
| Manual.ManualSplitIsCandidate | app.py:124-134 | a manual 5/5 split is one of the automatic candidates, with the same teams and the same difference |
| Manual.AutoNoWorseThanManual | app.py:133-134 | no manual 5/5 split has a smaller difference than the automatic one |

## Left out

- The Streamlit interface is not modelled: page setup, CSS, sidebar widgets, buttons, columns, `render_card`, `render_pitch` and the pitch image (app.py:4-46, 65-89 and the display parts of 107-138). It is input and output only. `Roster.MakePlayer` stands in for one sidebar expander.
- Roster.Overall: scores are exact reals, not IEEE doubles. The rounding of `/ 5` and of `sum` is not modelled, so neither is a tie that rounding might create or break. `round(..., 1)` is used only for display and is left out too.
- Balance.AutoBalance: team B is built by position, not by the value comparison `p not in team_a` at app.py:97. `Balance.CandidateAsWritten` proves the two give the same teams and differences on every roster without equal entries. On a roster with equal entries they differ, as the finding below shows.
- Balance.GenerateTeams: its input is the roster the form builds, so the warning branch covers only roster sizes other than ten. The form always supplies ten players.
- Positions are carried on each player but play no part in balancing, as in the source.
- When two players share a name, manual mode puts both in the same team. `Manual.ManualTeams` models this exactly, and the model does not try to prevent it.

## Findings

| source | as written | input that shows it | evidently intended | confidence | as-written member | corrected member |
|---|---|---|---|---|---|---|
| app.py:97 | team B keeps every entry not equal, field for field, to a member of team A, so a duplicate of a team A player is dropped from team B too | two identical entries (same name, position and ratings) at positions 0 and 1, candidate {0, 2, 3, 4, 5}: team B gets four players and the second twin is in neither team | team B is every player not chosen for team A: five of ten, together the whole roster | not executed | Teams.TwinDroppedFromTeamB | Teams.SplitAt |
