/** The storage layer of the scoreboard: the six JSON data files, each an
    ordered list of records held in memory by one `Database` object, and the
    functions that read and rewrite them. Every `update*` and `delete*`
    scans for the first record with the id, as the PHP `foreach` does; an
    `add*` appends. Writes are taken to succeed. */
module Store {
  import opened Collections
  import opened Sorting
  import opened Ranking
  import opened Records
  import opened ParticipantStats
  import opened Standings

  class Database {
    var participants: seq<Participant>
    var events: seq<Event>
    var competitions: seq<Competition>
    var scores: seq<Score>
    var categories: seq<Category>
    var teams: seq<Team>

    /** The data files as they are first created: every collection empty. */
    constructor ()
      ensures participants == [] && events == [] && competitions == []
      ensures scores == [] && categories == [] && teams == []
    {
      participants := [];
      events := [];
      competitions := [];
      scores := [];
      categories := [];
      teams := [];
    }

    // Getters: the first record with the id, or nothing.

    function GetParticipant(id: Id): (r: Option<Participant>)
      reads this
      ensures r.None? <==> forall j :: 0 <= j < |participants| ==> participants[j].id != id
      ensures r.Some? ==> r.value == participants[FirstIndexOf(participants, ParticipantId, id)] && r.value.id == id
    {
      Lookup(participants, ParticipantId, id)
    }

    function GetEvent(id: Id): (r: Option<Event>)
      reads this
      ensures r.None? <==> forall j :: 0 <= j < |events| ==> events[j].id != id
      ensures r.Some? ==> r.value == events[FirstIndexOf(events, EventId, id)] && r.value.id == id
    {
      Lookup(events, EventId, id)
    }

    function GetCompetition(id: Id): (r: Option<Competition>)
      reads this
      ensures r.None? <==> forall j :: 0 <= j < |competitions| ==> competitions[j].id != id
      ensures r.Some? ==> r.value == competitions[FirstIndexOf(competitions, CompetitionId, id)] && r.value.id == id
    {
      Lookup(competitions, CompetitionId, id)
    }

    function GetCategory(id: Id): (r: Option<Category>)
      reads this
      ensures r.None? <==> forall j :: 0 <= j < |categories| ==> categories[j].id != id
      ensures r.Some? ==> r.value == categories[FirstIndexOf(categories, CategoryId, id)] && r.value.id == id
    {
      Lookup(categories, CategoryId, id)
    }

    function GetTeam(id: Id): (r: Option<Team>)
      reads this
      ensures r.None? <==> forall j :: 0 <= j < |teams| ==> teams[j].id != id
      ensures r.Some? ==> r.value == teams[FirstIndexOf(teams, TeamId, id)] && r.value.id == id
    {
      Lookup(teams, TeamId, id)
    }

    // Score filters: exactly the stored scores that match, in stored order.

    function CompetitionScores(cid: Id): (r: seq<Score>)
      reads this
      ensures var ix := MatchIndices(scores, ScoreCompetition, cid);
        |r| == |ix| && forall m :: 0 <= m < |r| ==> r[m] == scores[ix[m]]
      ensures forall m :: 0 <= m < |r| ==> r[m].competitionId == cid
    {
      SelectIsSubsequence(scores, ScoreCompetition, cid);
      Select(scores, ScoreCompetition, cid)
    }

    function EventScores(cid: Id, eid: Id): (r: seq<Score>)
      reads this
      ensures var ix := MatchIndices(scores, ScoreCompetitionEvent, (cid, eid));
        |r| == |ix| && forall m :: 0 <= m < |r| ==> r[m] == scores[ix[m]]
      ensures forall m :: 0 <= m < |r| ==> r[m].competitionId == cid && r[m].eventId == eid
    {
      SelectIsSubsequence(scores, ScoreCompetitionEvent, (cid, eid));
      Select(scores, ScoreCompetitionEvent, (cid, eid))
    }

    function ParticipantScores(cid: Id, pid: Id): (r: seq<Score>)
      reads this
      ensures var ix := MatchIndices(scores, ScoreCompetitionParticipant, (cid, pid));
        |r| == |ix| && forall m :: 0 <= m < |r| ==> r[m] == scores[ix[m]]
      ensures forall m :: 0 <= m < |r| ==> r[m].competitionId == cid && r[m].participantId == pid
    {
      SelectIsSubsequence(scores, ScoreCompetitionParticipant, (cid, pid));
      Select(scores, ScoreCompetitionParticipant, (cid, pid))
    }

    /** `getParticipantsByCategory`: the participants whose category list
        holds the category, in stored order. */
    function ParticipantsByCategory(categoryId: Id): (r: seq<Participant>)
      reads this
      ensures var ix := MatchIndices(participants, HasCategory(categoryId), true);
        |r| == |ix| && forall m :: 0 <= m < |r| ==> r[m] == participants[ix[m]]
      ensures forall m :: 0 <= m < |r| ==> categoryId in r[m].categoryIds
    {
      SelectIsSubsequence(participants, HasCategory(categoryId), true);
      Select(participants, HasCategory(categoryId), true)
    }

    /** `getParticipantsByTeam`: the participants with that team, in stored
        order; a participant without a team is never included. */
    function ParticipantsByTeam(teamId: Id): (r: seq<Participant>)
      reads this
      ensures var ix := MatchIndices(participants, ParticipantTeam, Some(teamId));
        |r| == |ix| && forall m :: 0 <= m < |r| ==> r[m] == participants[ix[m]]
      ensures forall m :: 0 <= m < |r| ==> r[m].teamId == Some(teamId)
    {
      SelectIsSubsequence(participants, ParticipantTeam, Some(teamId));
      Select(participants, ParticipantTeam, Some(teamId))
    }

    // Participants.

    method AddParticipant(d: ParticipantDraft, freshId: Id, now: int)
      modifies this`participants
      ensures participants == old(participants) + [d.Complete(freshId, now)]
    {
      participants := participants + [d.Complete(freshId, now)];
    }

    method UpdateParticipant(id: Id, updated: Participant) returns (ok: bool)
      modifies this`participants
      ensures var i := FirstIndexOf(old(participants), ParticipantId, id);
        ok == (i >= 0)
        && participants == if i < 0 then old(participants)
                           else old(participants)[i := KeepParticipantIdentity(old(participants)[i], id, updated)]
    {
      var i := FindFirst(participants, ParticipantId, id);
      if i < 0 {
        return false;
      }
      participants := participants[i := KeepParticipantIdentity(participants[i], id, updated)];
      ok := true;
    }

    method DeleteParticipant(id: Id) returns (ok: bool)
      modifies this`participants
      ensures var i := FirstIndexOf(old(participants), ParticipantId, id);
        ok == (i >= 0) && participants == if i < 0 then old(participants) else RemoveAt(old(participants), i)
    {
      var i := FindFirst(participants, ParticipantId, id);
      if i < 0 {
        return false;
      }
      participants := RemoveAt(participants, i);
      ok := true;
    }

    // Events.

    method AddEvent(d: EventDraft, freshId: Id, now: int)
      modifies this`events
      ensures events == old(events) + [d.Complete(freshId, now)]
    {
      events := events + [d.Complete(freshId, now)];
    }

    method UpdateEvent(id: Id, updated: Event) returns (ok: bool)
      modifies this`events
      ensures var i := FirstIndexOf(old(events), EventId, id);
        ok == (i >= 0)
        && events == if i < 0 then old(events)
                     else old(events)[i := KeepEventIdentity(old(events)[i], id, updated)]
    {
      var i := FindFirst(events, EventId, id);
      if i < 0 {
        return false;
      }
      events := events[i := KeepEventIdentity(events[i], id, updated)];
      ok := true;
    }

    method DeleteEvent(id: Id) returns (ok: bool)
      modifies this`events
      ensures var i := FirstIndexOf(old(events), EventId, id);
        ok == (i >= 0) && events == if i < 0 then old(events) else RemoveAt(old(events), i)
    {
      var i := FindFirst(events, EventId, id);
      if i < 0 {
        return false;
      }
      events := RemoveAt(events, i);
      ok := true;
    }

    // Competitions.

    method AddCompetition(d: CompetitionDraft, freshId: Id, now: int)
      modifies this`competitions
      ensures competitions == old(competitions) + [d.Complete(freshId, now)]
    {
      competitions := competitions + [d.Complete(freshId, now)];
    }

    method UpdateCompetition(id: Id, updated: Competition) returns (ok: bool)
      modifies this`competitions
      ensures var i := FirstIndexOf(old(competitions), CompetitionId, id);
        ok == (i >= 0)
        && competitions == if i < 0 then old(competitions)
                           else old(competitions)[i := KeepCompetitionIdentity(old(competitions)[i], id, updated)]
    {
      var i := FindFirst(competitions, CompetitionId, id);
      if i < 0 {
        return false;
      }
      competitions := competitions[i := KeepCompetitionIdentity(competitions[i], id, updated)];
      ok := true;
    }

    method DeleteCompetition(id: Id) returns (ok: bool)
      modifies this`competitions
      ensures var i := FirstIndexOf(old(competitions), CompetitionId, id);
        ok == (i >= 0) && competitions == if i < 0 then old(competitions) else RemoveAt(old(competitions), i)
    {
      var i := FindFirst(competitions, CompetitionId, id);
      if i < 0 {
        return false;
      }
      competitions := RemoveAt(competitions, i);
      ok := true;
    }

    // Categories and teams: an update keeps only the id.

    method AddCategory(d: CategoryDraft, freshId: Id)
      modifies this`categories
      ensures categories == old(categories) + [d.Complete(freshId)]
    {
      categories := categories + [d.Complete(freshId)];
    }

    method UpdateCategory(id: Id, updated: Category) returns (ok: bool)
      modifies this`categories
      ensures var i := FirstIndexOf(old(categories), CategoryId, id);
        ok == (i >= 0) && categories == if i < 0 then old(categories) else old(categories)[i := updated.(id := id)]
    {
      var i := FindFirst(categories, CategoryId, id);
      if i < 0 {
        return false;
      }
      categories := categories[i := updated.(id := id)];
      ok := true;
    }

    method DeleteCategory(id: Id) returns (ok: bool)
      modifies this`categories
      ensures var i := FirstIndexOf(old(categories), CategoryId, id);
        ok == (i >= 0) && categories == if i < 0 then old(categories) else RemoveAt(old(categories), i)
    {
      var i := FindFirst(categories, CategoryId, id);
      if i < 0 {
        return false;
      }
      categories := RemoveAt(categories, i);
      ok := true;
    }

    method AddTeam(d: TeamDraft, freshId: Id)
      modifies this`teams
      ensures teams == old(teams) + [d.Complete(freshId)]
    {
      teams := teams + [d.Complete(freshId)];
    }

    method UpdateTeam(id: Id, updated: Team) returns (ok: bool)
      modifies this`teams
      ensures var i := FirstIndexOf(old(teams), TeamId, id);
        ok == (i >= 0) && teams == if i < 0 then old(teams) else old(teams)[i := updated.(id := id)]
    {
      var i := FindFirst(teams, TeamId, id);
      if i < 0 {
        return false;
      }
      teams := teams[i := updated.(id := id)];
      ok := true;
    }

    method DeleteTeam(id: Id) returns (ok: bool)
      modifies this`teams
      ensures var i := FirstIndexOf(old(teams), TeamId, id);
        ok == (i >= 0) && teams == if i < 0 then old(teams) else RemoveAt(old(teams), i)
    {
      var i := FindFirst(teams, TeamId, id);
      if i < 0 {
        return false;
      }
      teams := RemoveAt(teams, i);
      ok := true;
    }

    // Scores.

    /** The record gets its id and timestamp first; then the first stored
        score with the same (competition, event, participant) is overwritten
        by the whole new record, or the record is appended. At most one score
        per key before means at most one after, and it is the new record. */
    method AddScore(d: ScoreDraft, freshId: Id, now: int) returns (ok: bool)
      modifies this`scores
      ensures ok
      ensures scores == Upsert(old(scores), ScoreKey, d.Complete(freshId, now))
      ensures old(UniqueKeys(scores, ScoreKey)) ==>
        UniqueKeys(scores, ScoreKey)
        && Select(scores, ScoreKey, ScoreKey(d.Complete(freshId, now))) == [d.Complete(freshId, now)]
    {
      var score := d.Complete(freshId, now);
      var i := FindFirst(scores, ScoreKey, ScoreKey(score));
      if UniqueKeys(scores, ScoreKey) {
        UpsertUnique(scores, ScoreKey, score);
      }
      if i >= 0 {
        scores := scores[i := score];
      } else {
        scores := scores + [score];
      }
      ok := true;
    }

    /** The first score with the id is replaced by the new data, keeping the
        id and stamping the current time. */
    method UpdateScore(id: Id, updated: Score, now: int) returns (ok: bool)
      modifies this`scores
      ensures var i := FirstIndexOf(old(scores), ScoreId, id);
        ok == (i >= 0)
        && scores == if i < 0 then old(scores) else old(scores)[i := updated.(id := id, recordedAt := now)]
    {
      var i := FindFirst(scores, ScoreId, id);
      if i < 0 {
        return false;
      }
      scores := scores[i := updated.(id := id, recordedAt := now)];
      ok := true;
    }

    method DeleteScore(id: Id) returns (ok: bool)
      modifies this`scores
      ensures var i := FirstIndexOf(old(scores), ScoreId, id);
        ok == (i >= 0) && scores == if i < 0 then old(scores) else RemoveAt(old(scores), i)
    {
      var i := FindFirst(scores, ScoreId, id);
      if i < 0 {
        return false;
      }
      scores := RemoveAt(scores, i);
      ok := true;
    }

    // Rankings.

    /** `calculateRankings`: the seed loop, the accumulation loop, the sort
        by total (largest first) and the rank loop. */
    method CalculateRankings(cid: Id) returns (rankings: seq<Standing>)
      ensures rankings == Rankings(competitions, participants, scores, cid)
    {
      var competition := GetCompetition(cid);
      if competition.None? {
        return [];
      }
      var seed := SeedLoop(competition.value.participantIds, participants);
      var rows := AccumulateLoop(seed, CompetitionScores(cid));
      var sorted := SortDesc(rows, StandingTotal);
      var ranks := RankLoop(Totals(sorted));
      rankings := WithRanks(sorted, ranks);
    }

    // Participant statistics.

    /** `updateParticipantStats`: merge the competition's scores of the
        participant into the bests, replace or append the history entry,
        sort the history newest first and write the participant back. */
    method UpdateParticipantStats(pid: Id, cid: Id) returns (ok: bool)
      modifies this`participants
      ensures (ok, participants) == RefreshStats(old(participants), competitions, scores, pid, cid)
    {
      var participant := GetParticipant(pid);
      if participant.None? {
        return false;
      }
      var competition := GetCompetition(cid);
      if competition.None? {
        return false;
      }
      var mine := ParticipantScores(cid, pid);
      if mine == [] {
        return true;
      }
      var p := participant.value;
      var c := competition.value;
      var bests := BestsLoop(p.stats.personalBests, mine);
      var history := HistoryStep(p.stats.competitionHistory, cid, c, mine);
      ghost var i := FirstIndexOf(participants, ParticipantId, pid);
      assert p == participants[i];
      assert p.(stats := Stats(bests, history)) == Refreshed(p, cid, c, mine);
      ok := UpdateParticipant(pid, p.(stats := Stats(bests, history)));
    }

    // Competition status.

    /** `isCompetitionComplete`: a completed competition, or one with at
        least as many matching scores as events times participants. */
    method IsCompetitionComplete(cid: Id) returns (complete: bool)
      ensures complete == CompleteByCount(competitions, scores, cid)
    {
      var competition := GetCompetition(cid);
      if competition.None? {
        return false;
      }
      var c := competition.value;
      if c.status == Completed {
        return true;
      }
      var scoreCount := CountLoop(CompetitionScores(cid), c.eventIds, c.participantIds);
      var requiredScores := |c.eventIds| * |c.participantIds|;
      complete := scoreCount >= requiredScores;
    }

    /** Competitions with status "active", in stored order. */
    function ActiveCompetitions(): (r: seq<Competition>)
      reads this
      ensures var ix := MatchIndices(competitions, CompetitionStatus, Active);
        |r| == |ix| && forall m :: 0 <= m < |r| ==> r[m] == competitions[ix[m]]
    {
      SelectIsSubsequence(competitions, CompetitionStatus, Active);
      Select(competitions, CompetitionStatus, Active)
    }

    /** Competitions with status "upcoming", soonest first. */
    function UpcomingCompetitions(): (r: seq<Competition>)
      reads this
      ensures multiset(r) == multiset(Select(competitions, CompetitionStatus, Upcoming))
      ensures forall m :: 0 <= m < |r| ==> r[m].status == Upcoming
      ensures forall m, n :: 0 <= m < n < |r| ==> r[m].date <= r[n].date
    {
      var r := SortDesc(Select(competitions, CompetitionStatus, Upcoming), CompetitionEarliness);
      forall m | 0 <= m < |r| ensures r[m].status == Upcoming {
        assert r[m] in multiset(Select(competitions, CompetitionStatus, Upcoming));
      }
      r
    }

    /** Competitions with status "completed", most recent first. */
    function CompletedCompetitions(): (r: seq<Competition>)
      reads this
      ensures multiset(r) == multiset(Select(competitions, CompetitionStatus, Completed))
      ensures forall m :: 0 <= m < |r| ==> r[m].status == Completed
      ensures forall m, n :: 0 <= m < n < |r| ==> r[m].date >= r[n].date
    {
      var r := SortDesc(Select(competitions, CompetitionStatus, Completed), CompetitionDate);
      forall m | 0 <= m < |r| ensures r[m].status == Completed {
        assert r[m] in multiset(Select(competitions, CompetitionStatus, Completed));
      }
      r
    }
  }

  /** The seed loop of `calculateRankings`. */
  method SeedLoop(pids: seq<Id>, participants: seq<Participant>) returns (seed: seq<Standing>)
    ensures seed == Seed(pids, participants)
  {
    seed := [];
    for i := 0 to |pids|
      invariant seed == Seed(pids[..i], participants)
    {
      assert pids[..i + 1][..i] == pids[..i];
      var participant := Lookup(participants, ParticipantId, pids[i]);
      if participant.Some? {
        var entry := SeedEntry(pids[i], participant.value);
        var k := FindFirst(seed, StandingId, pids[i]);
        if k >= 0 {
          seed := seed[k := entry];
        } else {
          seed := seed + [entry];
        }
      }
    }
    assert pids[..|pids|] == pids;
  }

  /** The accumulation loop of `calculateRankings`: each score is added to
      the row of its participant, when there is one. */
  method AccumulateLoop(seed: seq<Standing>, css: seq<Score>) returns (rows: seq<Standing>)
    ensures rows == Accumulate(seed, css)
  {
    rows := seed;
    for i := 0 to |css|
      invariant rows == Accumulate(seed, css[..i])
    {
      assert css[..i + 1][..i] == css[..i];
      var k := FindFirst(rows, StandingId, css[i].participantId);
      if k >= 0 {
        rows := rows[k := Credit(rows[k], css[i])];
      }
    }
    assert css[..|css|] == css;
  }

  /** The personal-bests loop of `updateParticipantStats`. */
  method BestsLoop(personalBests: map<Id, int>, mine: seq<Score>) returns (bests: map<Id, int>)
    ensures bests == MergeBests(personalBests, mine)
  {
    bests := personalBests;
    for i := 0 to |mine|
      invariant bests == MergeBests(personalBests, mine[..i])
    {
      MergeBestsStep(personalBests, mine, i);
      var eventId := mine[i].eventId;
      var points := mine[i].points;
      if eventId !in bests || points > bests[eventId] {
        bests := bests[eventId := points];
      }
    }
    assert mine[..|mine|] == mine;
  }

  /** The history step of `updateParticipantStats`: the loop with the
      `$competitionExists` flag, then the newest-first sort. */
  method HistoryStep(competitionHistory: seq<HistoryEntry>, cid: Id, c: Competition, mine: seq<Score>)
    returns (history: seq<HistoryEntry>)
    ensures history == MergeHistory(competitionHistory, EntryFor(cid, c, mine))
  {
    history := competitionHistory;
    var entry := HistoryEntry(cid, c.name, c.date, mine, SumPoints(mine));
    var k := FindFirst(history, EntryCompetition, cid);
    var competitionExists := k >= 0;
    if competitionExists {
      history := history[k := entry];
    } else {
      history := history + [entry];
    }
    history := SortDesc(history, EntryDate);
  }

  /** The counting loop of `isCompetitionComplete`. */
  method CountLoop(css: seq<Score>, eventIds: seq<Id>, participantIds: seq<Id>) returns (scoreCount: nat)
    ensures scoreCount == CountCovered(css, eventIds, participantIds)
  {
    scoreCount := 0;
    for i := 0 to |css|
      invariant scoreCount == CountCovered(css[..i], eventIds, participantIds)
    {
      assert css[..i + 1][..i] == css[..i];
      if css[i].eventId in eventIds && css[i].participantId in participantIds {
        scoreCount := scoreCount + 1;
      }
    }
    assert css[..|css|] == css;
  }

  /** Scores whose event and participant are both listed by the competition. */
  function CountCovered(css: seq<Score>, eventIds: seq<Id>, participantIds: seq<Id>): (n: nat)
    ensures n <= |css|
    ensures n == |css| <==>
      forall i :: 0 <= i < |css| ==> css[i].eventId in eventIds && css[i].participantId in participantIds
  {
    if css == [] then 0
    else
      var init := css[..|css| - 1];
      var s := css[|css| - 1];
      CountCovered(init, eventIds, participantIds)
      + (if s.eventId in eventIds && s.participantId in participantIds then 1 else 0)
  }

  /** The verdict of `isCompetitionComplete` on the stored collections. */
  function CompleteByCount(cs: seq<Competition>, ss: seq<Score>, cid: Id): (complete: bool)
    ensures Lookup(cs, CompetitionId, cid).None? ==> !complete
    ensures Lookup(cs, CompetitionId, cid).Some? && Lookup(cs, CompetitionId, cid).value.status == Completed ==> complete
    ensures var css := Select(ss, ScoreCompetition, cid);
      complete && Lookup(cs, CompetitionId, cid).value.status != Completed ==>
        |Lookup(cs, CompetitionId, cid).value.eventIds| * |Lookup(cs, CompetitionId, cid).value.participantIds| <= |css|
  {
    match Lookup(cs, CompetitionId, cid)
    case None => false
    case Some(c) =>
      c.status == Completed
      || CountCovered(Select(ss, ScoreCompetition, cid), c.eventIds, c.participantIds)
         >= |c.eventIds| * |c.participantIds|
  }
}
