/** `admin/scores.php`: the score-entry page. It chooses the competition to
    show, lists its events, participants and scores, and handles the
    `add_score` and `delete_score` form posts. Recording a score also
    refreshes the participant's statistics; deleting one does not. */
module AdminScores {
  import opened Collections
  import opened Records
  import opened Store
  import opened ParticipantStats
  import PhpInt

  /** The flash message set by a post, and where the post redirects. */
  datatype Outcome = Outcome(kind: string, message: string, redirect: Option<string>)

  const InvalidSubmission := Outcome("error", "Invalid form submission. Please try again.", None)
  const MissingFields := Outcome("error", "Competition, event, and participant are required.", None)
  const MissingScoreId := Outcome("error", "Score ID is required.", None)
  const DeleteFailed := Outcome("error", "Failed to delete score. Please try again.", None)

  function BackToScores(cid: Id, eid: Id): string
  {
    "scores.php?competition_id=" + cid + "&event_id=" + eid
  }

  /** The fields of the `add_score` form; an absent field is "" (None for
      `points`, which then counts 0). */
  datatype AddScoreForm = AddScoreForm(
    competitionId: string,
    eventId: string,
    participantId: string,
    points: Option<string>,
    notes: string)

  function FormPoints(points: Option<string>): (n: int)
    ensures points.None? ==> n == 0
    ensures PhpInt.IntMin <= n <= PhpInt.IntMax
  {
    if points.Some? then PhpInt.IntVal(points.value) else 0
  }

  /** `empty()` on any of the three ids rejects the form. */
  predicate Complete(f: AddScoreForm): (ok: bool)
    ensures ok ==> f.competitionId != "" && f.eventId != "" && f.participantId != ""
    ensures ok ==> f.competitionId != "0" && f.eventId != "0" && f.participantId != "0"
  {
    !Falsy(f.competitionId) && !Falsy(f.eventId) && !Falsy(f.participantId)
  }

  /** The score `add_score` hands to `addScore`: no id (so a fresh one), and
      `recorded_at` is now. */
  function DraftOf(f: AddScoreForm, now: int): (d: ScoreDraft)
    ensures d.id.None? && d.recordedAt == Some(now)
    ensures d.points == (if f.points.None? then 0 else PhpInt.IntVal(f.points.value))
  {
    ScoreDraft(None, f.competitionId, f.eventId, f.participantId, FormPoints(f.points), f.notes, Some(now))
  }

  /** The competition shown: the requested one, or the first active one when
      none is requested and there is one. */
  function SelectedCompetition(cs: seq<Competition>, requested: string): (id: string)
    ensures !Falsy(requested) ==> id == requested
    ensures var first := FirstIndexOf(cs, CompetitionStatus, Active);
      Falsy(requested) ==> id == (if first >= 0 then cs[first].id else requested)
  {
    var active := Select(cs, CompetitionStatus, Active);
    var first := FirstIndexOf(cs, CompetitionStatus, Active);
    assert (first >= 0 ==> active != [] && active[0] == cs[first]) && (first < 0 ==> active == []) by {
      if first >= 0 {
        SelectHeadIsFirst(cs, CompetitionStatus, Active);
      } else {
        SelectNone(cs, CompetitionStatus, Active);
      }
    }
    if Falsy(requested) && active != [] then active[0].id else requested
  }

  /** What the page lists. */
  datatype ScoresView = ScoresView(
    competitionId: string,
    competition: Option<Competition>,
    events: seq<Event>,
    participants: seq<Participant>,
    scores: seq<Score>)

  function ScoresViewOf(cs: seq<Competition>, es: seq<Event>, ps: seq<Participant>, ss: seq<Score>,
                        requested: string, eventId: string): (v: ScoresView)
    ensures v.competitionId == SelectedCompetition(cs, requested)
    ensures Falsy(v.competitionId) ==> v.competition.None? && v.scores == []
    ensures !Falsy(v.competitionId) ==> v.competition == Lookup(cs, CompetitionId, v.competitionId)
    ensures v.competition.None? ==> v.events == [] && v.participants == []
  {
    var cid := SelectedCompetition(cs, requested);
    var competition := if Falsy(cid) then None else Lookup(cs, CompetitionId, cid);
    var events := if competition.Some? then ResolveAll(competition.value.eventIds, es, EventId) else [];
    var participants :=
      if competition.Some? then ResolveAll(competition.value.participantIds, ps, ParticipantId) else [];
    var scores :=
      if Falsy(cid) then []
      else if !Falsy(eventId) then Select(ss, ScoreCompetitionEvent, (cid, eventId))
      else Select(ss, ScoreCompetition, cid);
    ScoresView(cid, competition, events, participants, scores)
  }

  /** The page's reads, in the order the script does them. */
  method LoadScoresView(db: Database, requested: string, eventId: string) returns (v: ScoresView)
    ensures v == ScoresViewOf(db.competitions, db.events, db.participants, db.scores, requested, eventId)
  {
    var active := db.ActiveCompetitions();
    var cid := requested;
    if Falsy(cid) && active != [] {
      cid := active[0].id;
    }
    var competition := None;
    var events := [];
    var participants := [];
    if !Falsy(cid) {
      competition := db.GetCompetition(cid);
      if competition.Some? {
        events := ResolveLoop(competition.value.eventIds, db.events, EventId);
        participants := ResolveLoop(competition.value.participantIds, db.participants, ParticipantId);
      }
    }
    var scores := [];
    if !Falsy(cid) {
      if !Falsy(eventId) {
        scores := db.EventScores(cid, eventId);
      } else {
        scores := db.CompetitionScores(cid);
      }
    }
    v := ScoresView(cid, competition, events, participants, scores);
  }

  /** Without a requested competition the page shows the first active
      competition in stored order; its events and participants are the ones
      its id lists name that resolve, and every listed score belongs to it. */
  lemma {:induction false} ViewContents(cs: seq<Competition>, es: seq<Event>, ps: seq<Participant>, ss: seq<Score>,
                     requested: string, eventId: string)
    ensures var v := ScoresViewOf(cs, es, ps, ss, requested, eventId);
      var first := FirstIndexOf(cs, CompetitionStatus, Active);
      (Falsy(requested) && first >= 0 ==> v.competitionId == cs[first].id)
      && (!Falsy(requested) ==> v.competitionId == requested)
      && (v.competition.Some? ==>
            (forall m :: 0 <= m < |v.events| ==> v.events[m] in es && v.events[m].id in v.competition.value.eventIds)
            && (forall m :: 0 <= m < |v.participants| ==>
                  v.participants[m] in ps && v.participants[m].id in v.competition.value.participantIds))
      && (forall m :: 0 <= m < |v.scores| ==>
            v.scores[m] in ss && v.scores[m].competitionId == v.competitionId
            && (!Falsy(eventId) ==> v.scores[m].eventId == eventId))
  {
    var v := ScoresViewOf(cs, es, ps, ss, requested, eventId);
    if v.competition.Some? {
      ResolveAllMembers(v.competition.value.eventIds, es, EventId);
      ResolveAllMembers(v.competition.value.participantIds, ps, ParticipantId);
    }
    if !Falsy(v.competitionId) {
      ListedScores(ss, v.competitionId, eventId);
    }
  }

  /** The scores the page lists for a chosen competition. */
  lemma {:induction false} ListedScores(ss: seq<Score>, cid: Id, eventId: string)
    ensures var scores := if !Falsy(eventId) then Select(ss, ScoreCompetitionEvent, (cid, eventId))
                          else Select(ss, ScoreCompetition, cid);
      forall m :: 0 <= m < |scores| ==>
        scores[m] in ss && scores[m].competitionId == cid && (!Falsy(eventId) ==> scores[m].eventId == eventId)
  {
    var scores := if !Falsy(eventId) then Select(ss, ScoreCompetitionEvent, (cid, eventId))
                  else Select(ss, ScoreCompetition, cid);
    if !Falsy(eventId) {
      SelectMultiset(ss, ScoreCompetitionEvent, (cid, eventId));
    } else {
      SelectMultiset(ss, ScoreCompetition, cid);
    }
    forall m | 0 <= m < |scores| ensures scores[m] in ss {
      assert multiset(scores)[scores[m]] > 0;
    }
  }

  /** `add_score`: with a valid request and all three ids set, the score is
      upserted by (competition, event, participant) with a fresh id and the
      current time, then the participant's statistics for the competition
      are refreshed. Otherwise nothing changes. */
  method HandleAddScore(db: Database, csrfOk: bool, f: AddScoreForm, freshId: Id, now: int)
    returns (outcome: Outcome)
    modifies db
    ensures db.competitions == old(db.competitions) && db.events == old(db.events)
    ensures db.categories == old(db.categories) && db.teams == old(db.teams)
    ensures !csrfOk ==> outcome == InvalidSubmission && unchanged(db)
    ensures csrfOk && !Complete(f) ==> outcome == MissingFields && unchanged(db)
    ensures csrfOk && Complete(f) ==>
      var score := Score(freshId, f.competitionId, f.eventId, f.participantId, FormPoints(f.points), f.notes, now);
      db.scores == Upsert(old(db.scores), ScoreKey, score)
      && db.participants == RefreshStats(old(db.participants), db.competitions, db.scores,
                                         f.participantId, f.competitionId).1
      && outcome == Outcome("success", "Score recorded successfully.",
                            Some(BackToScores(f.competitionId, f.eventId)))
  {
    if !csrfOk {
      return InvalidSubmission;
    }
    if !Complete(f) {
      return MissingFields;
    }
    var written := db.AddScore(DraftOf(f, now), freshId, now);
    var refreshed := db.UpdateParticipantStats(f.participantId, f.competitionId);
    outcome := Outcome("success", "Score recorded successfully.", Some(BackToScores(f.competitionId, f.eventId)));
  }

  /** `delete_score`: the first score with the id is removed; participant
      statistics are left as they were. */
  method HandleDeleteScore(db: Database, csrfOk: bool, scoreId: string, cid: string, eid: string)
    returns (outcome: Outcome)
    modifies db`scores
    ensures !csrfOk ==> outcome == InvalidSubmission && db.scores == old(db.scores)
    ensures csrfOk && Falsy(scoreId) ==> outcome == MissingScoreId && db.scores == old(db.scores)
    ensures csrfOk && !Falsy(scoreId) ==>
      var i := FirstIndexOf(old(db.scores), ScoreId, scoreId);
      (i < 0 ==> outcome == DeleteFailed && db.scores == old(db.scores))
      && (i >= 0 ==> db.scores == RemoveAt(old(db.scores), i)
                     && outcome == Outcome("success", "Score deleted successfully.", Some(BackToScores(cid, eid))))
  {
    if !csrfOk {
      return InvalidSubmission;
    }
    if Falsy(scoreId) {
      return MissingScoreId;
    }
    var ok := db.DeleteScore(scoreId);
    if ok {
      outcome := Outcome("success", "Score deleted successfully.", Some(BackToScores(cid, eid)));
    } else {
      outcome := DeleteFailed;
    }
  }

  /** After a recorded score, the store holds exactly one score for the
      (competition, event, participant) triple, the new one; when the
      participant and the competition exist, the participant's history holds
      exactly one entry for the competition, built from the participant's
      scores in it, the new one among them. */
  lemma {:induction false} RecordedScore(ss: seq<Score>, ps: seq<Participant>, cs: seq<Competition>, f: AddScoreForm,
                      freshId: Id, now: int)
    requires Complete(f)
    requires UniqueKeys(ss, ScoreKey)
    requires HistoriesUnique(ps)
    ensures var score := Score(freshId, f.competitionId, f.eventId, f.participantId, FormPoints(f.points), f.notes, now);
      var ss' := Upsert(ss, ScoreKey, score);
      var ps' := RefreshStats(ps, cs, ss', f.participantId, f.competitionId).1;
      var i := FirstIndexOf(ps, ParticipantId, f.participantId);
      var mine := Select(ss', ScoreCompetitionParticipant, (f.competitionId, f.participantId));
      Select(ss', ScoreKey, ScoreKey(score)) == [score]
      && HistoriesUnique(ps')
      && |ps'| == |ps|
      && (i >= 0 && Lookup(cs, CompetitionId, f.competitionId).Some? ==>
            score in mine
            && Select(ps'[i].stats.competitionHistory, EntryCompetition, f.competitionId)
               == [EntryFor(f.competitionId, Lookup(cs, CompetitionId, f.competitionId).value, mine)])
  {
    var score := Score(freshId, f.competitionId, f.eventId, f.participantId, FormPoints(f.points), f.notes, now);
    var ss' := Upsert(ss, ScoreKey, score);
    var mine := Select(ss', ScoreCompetitionParticipant, (f.competitionId, f.participantId));
    UpsertUnique(ss, ScoreKey, score);
    SelectMultiset(ss', ScoreKey, ScoreKey(score));
    assert score in Select(ss', ScoreKey, ScoreKey(score));
    assert score in ss';
    SelectMultiset(ss', ScoreCompetitionParticipant, (f.competitionId, f.participantId));
    assert multiset(mine)[score] > 0;
    RefreshStatsHistory(ps, cs, ss', f.participantId, f.competitionId);
  }
}
