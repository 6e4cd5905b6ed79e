/** `admin/update_competition_status.php`: sets a competition's status to
    one of "upcoming", "active" and "completed" from any status, and, when
    the new status is "completed", refreshes the statistics of every
    participant of the competition in the order of its participant list. */
module StatusApi {
  import opened Collections
  import opened Records
  import opened Store
  import opened ParticipantStats

  datatype Response =
    | Failure(message: string)
    | Success(message: string, id: Id, name: string, status: string)

  const InvalidMethod := "Invalid request method."
  const InvalidToken := "Invalid CSRF token."
  const MissingCompetitionId := "Competition ID is required."
  const InvalidStatus := "Valid status is required."
  const UnknownCompetition := "Competition not found."
  const Updated := "Competition status updated successfully."

  /** The JSON the endpoint answers with. */
  function StatusResponse(cs: seq<Competition>, isPost: bool, csrfOk: bool, cid: string, status: string)
    : (resp: Response)
    ensures !isPost ==> resp == Failure(InvalidMethod)
    ensures isPost && !csrfOk ==> resp == Failure(InvalidToken)
    ensures isPost && csrfOk && Falsy(cid) ==> resp == Failure(MissingCompetitionId)
    ensures isPost && csrfOk && !Falsy(cid) && !ValidStatus(status) ==> resp == Failure(InvalidStatus)
    ensures resp.Success? <==>
      isPost && csrfOk && !Falsy(cid) && ValidStatus(status) && Lookup(cs, CompetitionId, cid).Some?
    ensures resp.Success? ==>
      resp.id == cid && resp.status == status && resp.name == Lookup(cs, CompetitionId, cid).value.name
  {
    if !isPost then Failure(InvalidMethod)
    else if !csrfOk then Failure(InvalidToken)
    else if Falsy(cid) then Failure(MissingCompetitionId)
    else if !ValidStatus(status) then Failure(InvalidStatus)
    else match Lookup(cs, CompetitionId, cid)
      case None => Failure(UnknownCompetition)
      case Some(c) => Success(Updated, cid, c.name, status)
  }

  /** The endpoint. On success the competition is stored with the new
      status and nothing else changed; on completion every listed
      participant's statistics are refreshed in turn. */
  method UpdateCompetitionStatus(db: Database, isPost: bool, csrfOk: bool, cid: string, status: string)
    returns (resp: Response)
    modifies db`competitions, db`participants
    ensures resp == StatusResponse(old(db.competitions), isPost, csrfOk, cid, status)
    ensures resp.Failure? ==> db.competitions == old(db.competitions) && db.participants == old(db.participants)
    ensures resp.Success? ==>
      var i := FirstIndexOf(old(db.competitions), CompetitionId, cid);
      0 <= i && db.competitions == old(db.competitions)[i := old(db.competitions)[i].(status := status)]
    ensures resp.Success? && status == Completed ==>
      var c := Lookup(old(db.competitions), CompetitionId, cid).value;
      db.participants == RefreshAll(old(db.participants), db.competitions, db.scores, c.participantIds, cid)
    ensures !(resp.Success? && status == Completed) ==> db.participants == old(db.participants)
  {
    if !isPost {
      return Failure(InvalidMethod);
    }
    if !csrfOk {
      return Failure(InvalidToken);
    }
    if Falsy(cid) {
      return Failure(MissingCompetitionId);
    }
    if !ValidStatus(status) {
      return Failure(InvalidStatus);
    }
    var competition := db.GetCompetition(cid);
    if competition.None? {
      return Failure(UnknownCompetition);
    }
    var c := competition.value.(status := status);
    ghost var i := FirstIndexOf(db.competitions, CompetitionId, cid);
    assert db.competitions[i] == competition.value;
    var written := db.UpdateCompetition(cid, c);
    if status == Completed {
      RefreshParticipants(db, c.participantIds, cid);
    }
    resp := Success(Updated, cid, c.name, status);
  }

  /** `foreach ($competition['participant_ids'] as $participantId)
      updateParticipantStats($participantId, $competitionId)`. */
  method RefreshParticipants(db: Database, pids: seq<Id>, cid: Id)
    modifies db`participants
    ensures db.participants == RefreshAll(old(db.participants), db.competitions, db.scores, pids, cid)
  {
    for k := 0 to |pids|
      invariant db.participants == RefreshAll(old(db.participants), db.competitions, db.scores, pids[..k], cid)
    {
      assert pids[..k + 1][..k] == pids[..k];
      var refreshed := db.UpdateParticipantStats(pids[k], cid);
    }
    assert pids[..|pids|] == pids;
  }

  /** The status can be set from any status to any of the three. */
  lemma {:induction false} AnyTransition(cs: seq<Competition>, cid: string, status: string)
    requires !Falsy(cid) && Lookup(cs, CompetitionId, cid).Some?
    requires ValidStatus(status)
    ensures StatusResponse(cs, true, true, cid, status).Success?
  {
  }

  /** The fold over the participant list keeps every history free of
      duplicate competitions. */
  lemma {:induction false} RefreshAllUnique(ps: seq<Participant>, cs: seq<Competition>, ss: seq<Score>,
                                            pids: seq<Id>, cid: Id)
    requires HistoriesUnique(ps)
    ensures HistoriesUnique(RefreshAll(ps, cs, ss, pids, cid))
  {
    if pids != [] {
      var init := pids[..|pids| - 1];
      RefreshAllUnique(ps, cs, ss, init, cid);
      RefreshStatsHistory(RefreshAll(ps, cs, ss, init, cid), cs, ss, pids[|pids| - 1], cid);
    }
  }

  /** After completion, every listed participant (the first record with its
      id) who has scores in the competition has exactly one history entry
      for it, built from those scores. */
  lemma {:induction false} RefreshAllEntry(ps: seq<Participant>, cs: seq<Competition>, ss: seq<Score>,
                                           pids: seq<Id>, cid: Id, j: nat)
    requires HistoriesUnique(ps)
    requires j < |ps| && ps[j].id in pids && FirstIndexOf(ps, ParticipantId, ps[j].id) == j
    requires Lookup(cs, CompetitionId, cid).Some?
    requires Select(ss, ScoreCompetitionParticipant, (cid, ps[j].id)) != []
    ensures Select(RefreshAll(ps, cs, ss, pids, cid)[j].stats.competitionHistory, EntryCompetition, cid)
         == [EntryFor(cid, Lookup(cs, CompetitionId, cid).value, Select(ss, ScoreCompetitionParticipant, (cid, ps[j].id)))]
  {
    var init := pids[..|pids| - 1];
    if pids[|pids| - 1] == ps[j].id {
      EntryWhenLast(ps, cs, ss, pids, cid, j);
    } else {
      assert pids == init + [pids[|pids| - 1]];
      assert ps[j].id in init;
      RefreshAllEntry(ps, cs, ss, init, cid, j);
      EntryWhenEarlier(ps, cs, ss, pids, cid, j);
    }
  }

  /** The last id of the loop is the participant's: its refresh builds the entry. */
  lemma {:induction false} EntryWhenLast(ps: seq<Participant>, cs: seq<Competition>, ss: seq<Score>,
                      pids: seq<Id>, cid: Id, j: nat)
    requires HistoriesUnique(ps)
    requires pids != [] && j < |ps| && pids[|pids| - 1] == ps[j].id
    requires FirstIndexOf(ps, ParticipantId, ps[j].id) == j
    requires Lookup(cs, CompetitionId, cid).Some?
    requires Select(ss, ScoreCompetitionParticipant, (cid, ps[j].id)) != []
    ensures Select(RefreshAll(ps, cs, ss, pids, cid)[j].stats.competitionHistory, EntryCompetition, cid)
         == [EntryFor(cid, Lookup(cs, CompetitionId, cid).value, Select(ss, ScoreCompetitionParticipant, (cid, ps[j].id)))]
  {
    var init := pids[..|pids| - 1];
    var prev := RefreshAll(ps, cs, ss, init, cid);
    RefreshAllStep(ps, cs, ss, pids, cid);
    RefreshAllUnique(ps, cs, ss, init, cid);
    RefreshAllFirstIndex(ps, cs, ss, init, cid, ps[j].id);
    LastRefreshed(prev, cs, ss, ps[j].id, cid, j);
  }

  /** The fold keeps the ids, so the first record with an id stays where it was. */
  lemma {:induction false} RefreshAllFirstIndex(ps: seq<Participant>, cs: seq<Competition>, ss: seq<Score>,
                             pids: seq<Id>, cid: Id, k: Id)
    ensures FirstIndexOf(RefreshAll(ps, cs, ss, pids, cid), ParticipantId, k) == FirstIndexOf(ps, ParticipantId, k)
  {
    var r := RefreshAll(ps, cs, ss, pids, cid);
    assert forall m :: 0 <= m < |r| ==> ParticipantId(r[m]) == ParticipantId(ps[m]) by {
      forall m | 0 <= m < |r| ensures ParticipantId(r[m]) == ParticipantId(ps[m]) {
        assert r[m].(stats := ps[m].stats) == ps[m];
      }
    }
    FirstIndexOfSameKeys(r, ps, ParticipantId, k);
  }

  /** The stats fold for the participant at `j` builds its entry. */
  lemma {:induction false} LastRefreshed(prev: seq<Participant>, cs: seq<Competition>, ss: seq<Score>, p: Id, cid: Id, j: nat)
    requires HistoriesUnique(prev)
    requires j < |prev| && FirstIndexOf(prev, ParticipantId, p) == j
    requires Lookup(cs, CompetitionId, cid).Some?
    requires Select(ss, ScoreCompetitionParticipant, (cid, p)) != []
    ensures Select(RefreshStats(prev, cs, ss, p, cid).1[j].stats.competitionHistory, EntryCompetition, cid)
         == [EntryFor(cid, Lookup(cs, CompetitionId, cid).value, Select(ss, ScoreCompetitionParticipant, (cid, p)))]
  {
    RefreshStatsHistory(prev, cs, ss, p, cid);
  }

  /** The last id of the loop is another participant's: the entry is kept. */
  lemma {:induction false} EntryWhenEarlier(ps: seq<Participant>, cs: seq<Competition>, ss: seq<Score>,
                         pids: seq<Id>, cid: Id, j: nat)
    requires pids != [] && j < |ps| && pids[|pids| - 1] != ps[j].id
    ensures RefreshAll(ps, cs, ss, pids, cid)[j] == RefreshAll(ps, cs, ss, pids[..|pids| - 1], cid)[j]
  {
    RefreshAllStep(ps, cs, ss, pids, cid);
  }

  /** One more id of the loop is one more stats fold. */
  lemma {:induction false} RefreshAllStep(ps: seq<Participant>, cs: seq<Competition>, ss: seq<Score>, pids: seq<Id>, cid: Id)
    requires pids != []
    ensures var prev := RefreshAll(ps, cs, ss, pids[..|pids| - 1], cid);
      RefreshAll(ps, cs, ss, pids, cid) == RefreshStats(prev, cs, ss, pids[|pids| - 1], cid).1
  {
  }
}
