/** `api/get_rankings.php`: the JSON rankings of a competition, optionally
    restricted to one category (and then ranked again within it), with the
    team name added to every row whose team resolves. */
module RankingsApi {
  import opened Collections
  import opened Ranking
  import opened Sorting
  import opened Records
  import opened Standings
  import opened Store

  datatype Response = Error(message: string) | Rows(rankings: seq<Standing>)

  const MissingCompetitionId := "Competition ID is required."
  const UnknownCompetition := "Competition not found."

  /** The row test of the category filter. */
  function InCategory(categoryId: Id): Standing -> bool
  {
    (r: Standing) => categoryId in r.categoryIds
  }

  /** The team-name loop for one row: the name is added only when the row has
      a truthy team id that resolves. */
  function WithTeamName(row: Standing, ts: seq<Team>): (r: Standing)
    ensures r.(teamName := row.teamName) == row
    ensures r.teamName != row.teamName ==>
      row.teamId.Some? && !Falsy(row.teamId.value) && Lookup(ts, TeamId, row.teamId.value).Some?
    ensures row.teamId.Some? && !Falsy(row.teamId.value) && Lookup(ts, TeamId, row.teamId.value).Some? ==>
      r.teamName == Some(Lookup(ts, TeamId, row.teamId.value).value.name)
  {
    if row.teamId.Some? && !Falsy(row.teamId.value) then
      match Lookup(ts, TeamId, row.teamId.value)
      case None => row
      case Some(t) => row.(teamName := Some(t.name))
    else row
  }

  function WithTeamNames(rows: seq<Standing>, ts: seq<Team>): (r: seq<Standing>)
    ensures |r| == |rows| && forall i :: 0 <= i < |rows| ==> r[i] == WithTeamName(rows[i], ts)
  {
    if rows == [] then [] else [WithTeamName(rows[0], ts)] + WithTeamNames(rows[1..], ts)
  }

  /** The rows of the response before team names are added. */
  function RankedRows(cs: seq<Competition>, ps: seq<Participant>, ss: seq<Score>, cid: Id, categoryId: string)
    : (rows: seq<Standing>)
    ensures |rows| <= |Rankings(cs, ps, ss, cid)|
    ensures !Falsy(categoryId) ==> forall i :: 0 <= i < |rows| ==> categoryId in rows[i].categoryIds
    ensures forall i, j :: 0 <= i < j < |rows| ==> rows[i].totalPoints >= rows[j].totalPoints
  {
    var r := Rankings(cs, ps, ss, cid);
    if Falsy(categoryId) then r
    else
      var sel := Select(r, InCategory(categoryId), true);
      FilterSorted(r, InCategory(categoryId));
      RankedSorted(sel);
      assert forall i :: 0 <= i < |sel| ==> categoryId in sel[i].categoryIds;
      RankedInOrder(sel)
  }

  /** The response of the endpoint for the query parameters (absent is ""). */
  function RankingsResponse(cs: seq<Competition>, ps: seq<Participant>, ss: seq<Score>, ts: seq<Team>,
                             competitionId: string, categoryId: string): (resp: Response)
    ensures Falsy(competitionId) ==> resp == Error(MissingCompetitionId)
    ensures !Falsy(competitionId) && Lookup(cs, CompetitionId, competitionId).None? ==>
      resp == Error(UnknownCompetition)
    ensures resp.Rows? <==> !Falsy(competitionId) && Lookup(cs, CompetitionId, competitionId).Some?
  {
    if Falsy(competitionId) then Error(MissingCompetitionId)
    else if Lookup(cs, CompetitionId, competitionId).None? then Error(UnknownCompetition)
    else Rows(WithTeamNames(RankedRows(cs, ps, ss, competitionId, categoryId), ts))
  }

  /** The endpoint: the guards, `calculateRankings`, the filter loop, the
      rank loop again over the filtered rows, and the team-name loop. */
  method GetRankings(db: Database, competitionId: string, categoryId: string) returns (resp: Response)
    ensures resp == RankingsResponse(db.competitions, db.participants, db.scores, db.teams,
                                     competitionId, categoryId)
  {
    if Falsy(competitionId) {
      return Error(MissingCompetitionId);
    }
    var competition := db.GetCompetition(competitionId);
    if competition.None? {
      return Error(UnknownCompetition);
    }
    var rankings := db.CalculateRankings(competitionId);
    if !Falsy(categoryId) {
      var filtered := FilterLoop(rankings, categoryId);
      rankings := RankAgain(filtered);
    }
    var named := TeamLoop(db, rankings);
    resp := Rows(named);
  }

  /** The loop keeping the rows whose `category_ids` hold the category. */
  method FilterLoop(rankings: seq<Standing>, categoryId: Id) returns (filtered: seq<Standing>)
    ensures filtered == Select(rankings, InCategory(categoryId), true)
  {
    filtered := [];
    for i := 0 to |rankings|
      invariant filtered == Select(rankings[..i], InCategory(categoryId), true)
    {
      assert rankings[..i + 1] == rankings[..i] + [rankings[i]];
      SelectConcat(rankings[..i], [rankings[i]], InCategory(categoryId), true);
      SelectSingle(rankings[i], InCategory(categoryId), true);
      if categoryId in rankings[i].categoryIds {
        filtered := filtered + [rankings[i]];
      }
    }
    assert rankings[..|rankings|] == rankings;
  }

  /** The rank loop of `calculateRankings` repeated over the filtered rows. */
  method RankAgain(filtered: seq<Standing>) returns (ranked: seq<Standing>)
    ensures ranked == RankedInOrder(filtered)
  {
    var ranks := RankLoop(Totals(filtered));
    ranked := WithRanks(filtered, ranks);
  }

  /** The loop adding `team_name` to each row whose team resolves. */
  method TeamLoop(db: Database, rankings: seq<Standing>) returns (named: seq<Standing>)
    ensures named == WithTeamNames(rankings, db.teams)
  {
    named := rankings;
    for i := 0 to |named|
      invariant |named| == |rankings|
      invariant forall j :: 0 <= j < i ==> named[j] == WithTeamName(rankings[j], db.teams)
      invariant forall j :: i <= j < |named| ==> named[j] == rankings[j]
    {
      var row := named[i];
      if row.teamId.Some? && !Falsy(row.teamId.value) {
        var team := db.GetTeam(row.teamId.value);
        if team.Some? {
          named := named[i := row.(teamName := Some(team.value.name))];
        }
      }
    }
  }

  /** Without a category the response carries the rows of
      `calculateRankings` unchanged but for team names: same rows, same order,
      same totals and ranks. */
  lemma {:induction false} UnfilteredRows(cs: seq<Competition>, ps: seq<Participant>, ss: seq<Score>, ts: seq<Team>,
                       cid: string, i: nat)
    requires RankingsResponse(cs, ps, ss, ts, cid, "").Rows?
    ensures var rows := RankingsResponse(cs, ps, ss, ts, cid, "").rankings;
      |rows| == |Rankings(cs, ps, ss, cid)|
      && (i < |rows| ==> rows[i].(teamName := Rankings(cs, ps, ss, cid)[i].teamName) == Rankings(cs, ps, ss, cid)[i])
  {
  }

  /** Filtering rows sorted by total keeps them sorted. */
  lemma {:induction false} FilterSorted(all: seq<Standing>, keep: Standing -> bool)
    requires forall i, j :: 0 <= i < j < |all| ==> all[i].totalPoints >= all[j].totalPoints
    ensures var sel := Select(all, keep, true);
      forall m, n :: 0 <= m < n < |sel| ==> sel[m].totalPoints >= sel[n].totalPoints
    ensures SortedDesc(Select(all, keep, true), StandingTotal)
  {
    var sel := Select(all, keep, true);
    var ix := MatchIndices(all, keep, true);
    SelectIsSubsequence(all, keep, true);
    forall m, n | 0 <= m < n < |sel|
      ensures sel[m].totalPoints >= sel[n].totalPoints && StandingTotal(sel[m]) >= StandingTotal(sel[n])
    {
      assert sel[m] == all[ix[m]] && sel[n] == all[ix[n]];
      assert ix[m] < ix[n];
    }
  }

  /** Ranking rows sorted by total gives each one more than the number of
      rows with a greater total. */
  lemma {:induction false} RankSorted(rows: seq<Standing>)
    requires forall i, j :: 0 <= i < j < |rows| ==> rows[i].totalPoints >= rows[j].totalPoints
    ensures var r := RankedInOrder(rows);
      forall m :: 0 <= m < |r| ==> r[m].rank == 1 + CountAbove(Totals(r), r[m].totalPoints)
  {
    var r := RankedInOrder(rows);
    assert Totals(r) == Totals(rows);
    assert NonIncreasing(Totals(rows));
    forall m | 0 <= m < |r| ensures r[m].rank == 1 + CountAbove(Totals(r), r[m].totalPoints) {
      RankCountsHigher(Totals(rows), m);
    }
  }

  /** The filtered, re-ranked and named rows of a list sorted by total. */
  lemma {:induction false} FilteredRows(all: seq<Standing>, ts: seq<Team>, categoryId: Id)
    requires forall i, j :: 0 <= i < j < |all| ==> all[i].totalPoints >= all[j].totalPoints
    ensures var rows := WithTeamNames(RankedInOrder(Select(all, InCategory(categoryId), true)), ts);
      var ix := MatchIndices(all, InCategory(categoryId), true);
      |rows| == |ix|
      && (forall m :: 0 <= m < |rows| ==>
            rows[m].(rank := all[ix[m]].rank, teamName := all[ix[m]].teamName) == all[ix[m]])
      && (forall m :: 0 <= m < |rows| ==> categoryId in rows[m].categoryIds)
      && (forall m, n :: 0 <= m < n < |rows| ==> rows[m].totalPoints >= rows[n].totalPoints)
      && (forall m :: 0 <= m < |rows| ==> rows[m].rank == 1 + CountAbove(Totals(rows), rows[m].totalPoints))
  {
    var sel := Select(all, InCategory(categoryId), true);
    var ranked := RankedInOrder(sel);
    var rows := WithTeamNames(ranked, ts);
    SelectIsSubsequence(all, InCategory(categoryId), true);
    FilterSorted(all, InCategory(categoryId));
    RankSorted(sel);
    assert Totals(rows) == Totals(ranked);
    forall m | 0 <= m < |rows| ensures categoryId in rows[m].categoryIds {
      assert InCategory(categoryId)(sel[m]);
    }
  }

  /** With a category: exactly the rows of `calculateRankings` whose
      categories contain it, in their order (the positions `ix`), totals
      non-increasing, and ranked from 1 within the filtered list, each rank
      one more than the number of filtered rows with a greater total. */
  lemma {:induction false} CategoryRows(cs: seq<Competition>, ps: seq<Participant>, ss: seq<Score>, ts: seq<Team>,
                     cid: string, categoryId: string)
    requires !Falsy(categoryId)
    requires RankingsResponse(cs, ps, ss, ts, cid, categoryId).Rows?
    ensures var all := Rankings(cs, ps, ss, cid);
      var rows := RankingsResponse(cs, ps, ss, ts, cid, categoryId).rankings;
      var ix := MatchIndices(all, InCategory(categoryId), true);
      |rows| == |ix|
      && (forall m :: 0 <= m < |rows| ==>
            rows[m].(rank := all[ix[m]].rank, teamName := all[ix[m]].teamName) == all[ix[m]])
      && (forall m :: 0 <= m < |rows| ==> categoryId in rows[m].categoryIds)
      && (forall m, n :: 0 <= m < n < |rows| ==> rows[m].totalPoints >= rows[n].totalPoints)
      && (forall m :: 0 <= m < |rows| ==> rows[m].rank == 1 + CountAbove(Totals(rows), rows[m].totalPoints))
  {
    RankingsShape(cs, ps, ss, cid);
    FilteredRows(Rankings(cs, ps, ss, cid), ts, categoryId);
  }

  /** Team names are added only where the team resolves; nothing is dropped
      or reordered. */
  lemma {:induction false} TeamNamesOnly(rows: seq<Standing>, ts: seq<Team>, i: nat)
    requires i < |rows|
    ensures |WithTeamNames(rows, ts)| == |rows|
    ensures WithTeamNames(rows, ts)[i].(teamName := rows[i].teamName) == rows[i]
    ensures WithTeamNames(rows, ts)[i].teamName != rows[i].teamName ==>
      rows[i].teamId.Some? && Lookup(ts, TeamId, rows[i].teamId.value).Some?
  {
  }
}
