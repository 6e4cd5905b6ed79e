/** `event.php`: the results of one event of a competition, participants
    sorted by their points in it (a missing score counts 0), ranked with the
    scoreboard's counter loop, and a rank badge for every positive score. */
module EventPage {
  import opened Collections
  import opened Sorting
  import opened Ranking
  import opened Records
  import opened Store
  import ScoresApi

  /** One table row: 1-based position, the participant, the points shown,
      the rank, the badge (None is the "-" badge), and the team name (None
      is "-"). */
  datatype Row = Row(
    position: nat,
    participant: Participant,
    points: int,
    rank: int,
    badge: Option<int>,
    teamName: Option<string>)

  /** Either a redirect (with the flash message set before it) or the page. */
  datatype Page =
    | Redirect(location: string, flash: Option<string>)
    | Results(competition: Competition, event: Event, showRank: bool, rows: seq<Row>)

  const CompetitionsPage := "competitions.php"

  function CompetitionPage(cid: Id): string { "competition.php?id=" + cid }

  /** The points a participant has in the event, 0 without a score. */
  function PointsIn(byParticipant: map<Id, Score>): Participant -> int
  {
    (p: Participant) => if p.id in byParticipant then byParticipant[p.id].points else 0
  }

  /** The team column: the team's name when the participant has a truthy
      team id that resolves. */
  function TeamNameOf(p: Participant, ts: seq<Team>): (r: Option<string>)
    ensures r.Some? <==> p.teamId.Some? && !Falsy(p.teamId.value) && Lookup(ts, TeamId, p.teamId.value).Some?
  {
    if p.teamId.Some? && !Falsy(p.teamId.value) then
      match Lookup(ts, TeamId, p.teamId.value)
      case None => None
      case Some(t) => Some(t.name)
    else None
  }

  /** The rank badge shows the rank for a positive score and "-" otherwise. */
  function Badge(points: int, rank: int): (b: Option<int>)
    ensures b.Some? <==> points > 0
    ensures b.Some? ==> b.value == rank
  {
    if points > 0 then Some(rank) else None
  }

  function PointsOf(sorted: seq<Participant>, byParticipant: map<Id, Score>): (v: seq<int>)
    ensures |v| == |sorted| && forall i :: 0 <= i < |sorted| ==> v[i] == PointsIn(byParticipant)(sorted[i])
  {
    seq(|sorted|, i requires 0 <= i < |sorted| => PointsIn(byParticipant)(sorted[i]))
  }

  /** Row `i` of the table for participants in display order. */
  function RowAt(sorted: seq<Participant>, byParticipant: map<Id, Score>, ts: seq<Team>, i: nat): Row
    requires i < |sorted|
  {
    var v := PointsOf(sorted, byParticipant);
    Row(i + 1, sorted[i], v[i], RankAt(v, i), Badge(v[i], RankAt(v, i)), TeamNameOf(sorted[i], ts))
  }

  function RowsOf(sorted: seq<Participant>, byParticipant: map<Id, Score>, ts: seq<Team>): (rows: seq<Row>)
    ensures |rows| == |sorted|
    ensures forall i :: 0 <= i < |sorted| ==> rows[i] == RowAt(sorted, byParticipant, ts, i)
  {
    seq(|sorted|, i requires 0 <= i < |sorted| => RowAt(sorted, byParticipant, ts, i))
  }

  /** The points column of rows. */
  function PointsColumn(rows: seq<Row>): (v: seq<int>)
    ensures |v| == |rows| && forall i :: 0 <= i < |rows| ==> v[i] == rows[i].points
  {
    seq(|rows|, i requires 0 <= i < |rows| => rows[i].points)
  }

  /** The participant column of rows. */
  function ParticipantColumn(rows: seq<Row>): (v: seq<Participant>)
    ensures |v| == |rows| && forall i :: 0 <= i < |rows| ==> v[i] == rows[i].participant
  {
    seq(|rows|, i requires 0 <= i < |rows| => rows[i].participant)
  }

  /** Rows built from participants sorted by points are in display order,
      show each participant's points, rank them by the number of rows with
      more points, and badge exactly the positive scores. */
  lemma {:induction false} RowsInOrder(sorted: seq<Participant>, byParticipant: map<Id, Score>, ts: seq<Team>)
    requires SortedDesc(sorted, PointsIn(byParticipant))
    ensures var rows := RowsOf(sorted, byParticipant, ts);
      ParticipantColumn(rows) == sorted
      && (forall i :: 0 <= i < |rows| ==> rows[i].position == i + 1)
      && (forall i :: 0 <= i < |rows| ==> rows[i].points == PointsIn(byParticipant)(sorted[i]))
      && (forall i, k :: 0 <= i < k < |rows| ==> rows[i].points >= rows[k].points)
      && (forall i :: 0 <= i < |rows| ==> rows[i].rank == 1 + CountAbove(PointsColumn(rows), rows[i].points))
      && (forall i :: 0 <= i < |rows| ==> (rows[i].badge.Some? <==> rows[i].points > 0))
  {
    var rows := RowsOf(sorted, byParticipant, ts);
    var v := PointsOf(sorted, byParticipant);
    assert PointsColumn(rows) == v;
    assert NonIncreasing(v);
    forall i | 0 <= i < |rows|
      ensures rows[i].rank == 1 + CountAbove(v, rows[i].points)
    {
      RankCountsHigher(v, i);
    }
  }

  /** The page for the query parameters (absent is ""). */
  function EventPageOf(cs: seq<Competition>, es: seq<Event>, ps: seq<Participant>, ss: seq<Score>,
                       ts: seq<Team>, cid: string, eid: string): (page: Page)
    ensures Falsy(cid) || Falsy(eid) ==> page == Redirect(CompetitionsPage, None)
    ensures !Falsy(cid) && !Falsy(eid) && Lookup(cs, CompetitionId, cid).None? ==>
      page == Redirect(CompetitionsPage, Some("Competition not found."))
    ensures !Falsy(cid) && !Falsy(eid) && Lookup(cs, CompetitionId, cid).Some? && Lookup(es, EventId, eid).None? ==>
      page == Redirect(CompetitionPage(cid), Some("Event not found."))
    ensures page.Results? <==>
      !Falsy(cid) && !Falsy(eid) && Lookup(cs, CompetitionId, cid).Some? && Lookup(es, EventId, eid).Some?
      && eid in Lookup(cs, CompetitionId, cid).value.eventIds
  {
    if Falsy(cid) || Falsy(eid) then Redirect(CompetitionsPage, None)
    else match Lookup(cs, CompetitionId, cid)
      case None => Redirect(CompetitionsPage, Some("Competition not found."))
      case Some(c) =>
        match Lookup(es, EventId, eid)
        case None => Redirect(CompetitionPage(cid), Some("Event not found."))
        case Some(e) =>
          if eid !in c.eventIds then
            Redirect(CompetitionPage(cid), Some("Event is not part of this competition."))
          else
            var parts := ResolveAll(c.participantIds, ps, ParticipantId);
            var byParticipant := KeyBy(Select(ss, ScoreCompetitionEvent, (cid, eid)), ScoreParticipant);
            var sorted := SortDesc(parts, PointsIn(byParticipant));
            Results(c, e, c.status == Completed || c.status == Active, RowsOf(sorted, byParticipant, ts))
  }

  /** The page: guards, the participant loop, the score map loop, `usort`,
      and the row loop with its rank counter. */
  method RenderEvent(db: Database, cid: string, eid: string) returns (page: Page)
    ensures page == EventPageOf(db.competitions, db.events, db.participants, db.scores, db.teams, cid, eid)
  {
    if Falsy(cid) || Falsy(eid) {
      return Redirect(CompetitionsPage, None);
    }
    var competition := db.GetCompetition(cid);
    if competition.None? {
      return Redirect(CompetitionsPage, Some("Competition not found."));
    }
    var event := db.GetEvent(eid);
    if event.None? {
      return Redirect(CompetitionPage(cid), Some("Event not found."));
    }
    var c := competition.value;
    if eid !in c.eventIds {
      return Redirect(CompetitionPage(cid), Some("Event is not part of this competition."));
    }
    var parts := ResolveLoop(c.participantIds, db.participants, ParticipantId);
    var byParticipant := ScoresApi.KeyByLoop(db.EventScores(cid, eid));
    var sorted := SortDesc(parts, PointsIn(byParticipant));
    var rows := RowLoop(sorted, byParticipant, db);
    page := Results(c, event.value, c.status == Completed || c.status == Active, rows);
  }

  /** The table loop with the rank counter. */
  method RowLoop(sorted: seq<Participant>, byParticipant: map<Id, Score>, db: Database) returns (rows: seq<Row>)
    ensures rows == RowsOf(sorted, byParticipant, db.teams)
  {
    var v := PointsOf(sorted, byParticipant);
    var ranks := RankLoop(v);
    rows := [];
    for i := 0 to |sorted|
      invariant |rows| == i
      invariant forall j :: 0 <= j < i ==> rows[j] == RowAt(sorted, byParticipant, db.teams, j)
    {
      var score := if sorted[i].id in byParticipant then byParticipant[sorted[i].id].points else 0;
      var team := None;
      if sorted[i].teamId.Some? && !Falsy(sorted[i].teamId.value) {
        var t := db.GetTeam(sorted[i].teamId.value);
        if t.Some? {
          team := Some(t.value.name);
        }
      }
      assert score == v[i];
      var row := Row(i + 1, sorted[i], score, ranks[i], Badge(score, ranks[i]), team);
      assert row == RowAt(sorted, byParticipant, db.teams, i);
      RowsExtend(sorted, byParticipant, db.teams, rows, row);
      rows := rows + [row];
    }
  }

  /** One more row of the loop, the one for the next participant. */
  lemma RowsExtend(sorted: seq<Participant>, byParticipant: map<Id, Score>, ts: seq<Team>, rows: seq<Row>, row: Row)
    requires |rows| < |sorted|
    requires forall j :: 0 <= j < |rows| ==> rows[j] == RowAt(sorted, byParticipant, ts, j)
    requires row == RowAt(sorted, byParticipant, ts, |rows|)
    ensures forall j :: 0 <= j <= |rows| ==> (rows + [row])[j] == RowAt(sorted, byParticipant, ts, j)
  {
  }

  /** What the table shows: the participants of the competition that
      resolve, each once per listing, best points first; the points are the
      latest score of the participant in the event or 0; ranks are one more
      than the number of rows with more points; a badge exactly for positive
      points; the rank column only for active and completed competitions. */
  lemma {:induction false} EventRows(cs: seq<Competition>, es: seq<Event>, ps: seq<Participant>, ss: seq<Score>,
                  ts: seq<Team>, cid: string, eid: string)
    requires EventPageOf(cs, es, ps, ss, ts, cid, eid).Results?
    ensures var page := EventPageOf(cs, es, ps, ss, ts, cid, eid);
      var c := Lookup(cs, CompetitionId, cid).value;
      var ess := Select(ss, ScoreCompetitionEvent, (cid, eid));
      var rows := page.rows;
      page.showRank == (c.status == Completed || c.status == Active)
      && multiset(ParticipantColumn(rows)) == multiset(ResolveAll(c.participantIds, ps, ParticipantId))
      && (forall i :: 0 <= i < |rows| ==> rows[i].position == i + 1)
      && (forall i :: 0 <= i < |rows| ==>
            var j := LastIndexOf(ess, ScoreParticipant, rows[i].participant.id);
            rows[i].points == if j >= 0 then ess[j].points else 0)
      && (forall i, k :: 0 <= i < k < |rows| ==> rows[i].points >= rows[k].points)
      && (forall i :: 0 <= i < |rows| ==> rows[i].rank == 1 + CountAbove(PointsColumn(rows), rows[i].points))
      && (forall i :: 0 <= i < |rows| ==> (rows[i].badge.Some? <==> rows[i].points > 0))
  {
    var c := Lookup(cs, CompetitionId, cid).value;
    var ess := Select(ss, ScoreCompetitionEvent, (cid, eid));
    var byParticipant := KeyBy(ess, ScoreParticipant);
    var parts := ResolveAll(c.participantIds, ps, ParticipantId);
    var sorted := SortDesc(parts, PointsIn(byParticipant));
    RowsInOrder(sorted, byParticipant, ts);
  }

  /** Participants with equal points keep the order of the competition's
      participant list (`usort` is stable). */
  lemma {:induction false} EventTies(cs: seq<Competition>, es: seq<Event>, ps: seq<Participant>, ss: seq<Score>,
                  ts: seq<Team>, cid: string, eid: string, points: int)
    requires EventPageOf(cs, es, ps, ss, ts, cid, eid).Results?
    ensures var c := Lookup(cs, CompetitionId, cid).value;
      var byParticipant := KeyBy(Select(ss, ScoreCompetitionEvent, (cid, eid)), ScoreParticipant);
      Select(ParticipantColumn(EventPageOf(cs, es, ps, ss, ts, cid, eid).rows), PointsIn(byParticipant), points)
      == Select(ResolveAll(c.participantIds, ps, ParticipantId), PointsIn(byParticipant), points)
  {
    var c := Lookup(cs, CompetitionId, cid).value;
    var byParticipant := KeyBy(Select(ss, ScoreCompetitionEvent, (cid, eid)), ScoreParticipant);
    var parts := ResolveAll(c.participantIds, ps, ParticipantId);
    var sorted := SortDesc(parts, PointsIn(byParticipant));
    RowsInOrder(sorted, byParticipant, ts);
    SortDescStable(parts, PointsIn(byParticipant), points);
  }
}
