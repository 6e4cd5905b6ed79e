/** `api/get_scores.php`: the scores of a competition as JSON, grouped by
    event id and then by participant id, or those of one event only. */
module ScoresApi {
  import opened Collections
  import opened Records
  import opened Store

  /** `scores[eventId][participantId]`. */
  type Grouping = map<Id, map<Id, Score>>

  datatype Response = Error(message: string) | Grouped(scores: Grouping)

  const MissingCompetitionId := "Competition ID is required."
  const UnknownCompetition := "Competition not found."

  /** The loop over the competition's scores: each goes under its event and
      participant, a later score for the same pair replacing an earlier one. */
  function GroupByEvent(css: seq<Score>): (g: Grouping)
    ensures forall e :: GroupsEvent(css, g, e)
  {
    if css == [] then map[]
    else
      var init := css[..|css| - 1];
      var last := css[|css| - 1];
      var g0 := GroupByEvent(init);
      assert css == init + [last];
      forall e ensures GroupsEvent(css, FileScore(g0, last), e) {
        GroupStep(init, last, g0, e);
      }
      FileScore(g0, last)
  }

  /** One iteration: the score goes under its event (created empty when
      absent) and its participant. */
  function FileScore(g: Grouping, s: Score): (r: Grouping)
    ensures s.eventId in r && s.participantId in r[s.eventId] && r[s.eventId][s.participantId] == s
    ensures s.eventId in g ==> forall p :: p != s.participantId ==>
      (p in r[s.eventId] <==> p in g[s.eventId]) && (p in g[s.eventId] ==> r[s.eventId][p] == g[s.eventId][p])
    ensures s.eventId !in g ==> r[s.eventId].Keys == {s.participantId}
    ensures forall e :: e != s.eventId ==> (e in r <==> e in g) && (e in g ==> r[e] == g[e])
  {
    var inner := if s.eventId in g then g[s.eventId] else map[];
    g[s.eventId := inner[s.participantId := s]]
  }

  /** `g` holds event `e` exactly when `css` has a score for it, and then
      the scores of `e` keyed by participant. */
  ghost predicate GroupsEvent(css: seq<Score>, g: Grouping, e: Id)
  {
    (e in g <==> Select(css, ScoreEvent, e) != [])
    && (e in g ==> g[e] == KeyBy(Select(css, ScoreEvent, e), ScoreParticipant))
  }

  /** Filing one more score keeps the grouping right for every event. */
  lemma {:induction false} GroupStep(init: seq<Score>, last: Score, g0: Grouping, e: Id)
    requires GroupsEvent(init, g0, e)
    ensures GroupsEvent(init + [last], FileScore(g0, last), e)
  {
    var css := init + [last];
    var g := FileScore(g0, last);
    SelectConcat(init, [last], ScoreEvent, e);
    SelectSingle(last, ScoreEvent, e);
    var sel0 := Select(init, ScoreEvent, e);
    if e == last.eventId {
      var sel := sel0 + [last];
      assert Select(css, ScoreEvent, e) == sel;
      assert sel[..|sel| - 1] == sel0;
      assert KeyBy(sel, ScoreParticipant) == KeyBy(sel0, ScoreParticipant)[last.participantId := last];
    } else {
      assert Select(css, ScoreEvent, e) == sel0;
    }
  }

  /** The loop over one event's scores, keyed by participant. */
  function EventGrouping(ess: seq<Score>, eventId: Id): (g: Grouping)
    ensures g.Keys == {eventId}
    ensures forall pid :: pid in g[eventId] <==> LastIndexOf(ess, ScoreParticipant, pid) >= 0
  {
    map[eventId := KeyBy(ess, ScoreParticipant)]
  }

  /** The response for the query parameters (absent is ""). */
  function ScoresResponse(cs: seq<Competition>, ss: seq<Score>, competitionId: string, eventId: string)
    : (resp: Response)
    ensures Falsy(competitionId) ==> resp == Error(MissingCompetitionId)
    ensures !Falsy(competitionId) && Lookup(cs, CompetitionId, competitionId).None? ==>
      resp == Error(UnknownCompetition)
    ensures resp.Grouped? <==> !Falsy(competitionId) && Lookup(cs, CompetitionId, competitionId).Some?
  {
    if Falsy(competitionId) then Error(MissingCompetitionId)
    else if Lookup(cs, CompetitionId, competitionId).None? then Error(UnknownCompetition)
    else if !Falsy(eventId) then
      Grouped(EventGrouping(Select(ss, ScoreCompetitionEvent, (competitionId, eventId)), eventId))
    else Grouped(GroupByEvent(Select(ss, ScoreCompetition, competitionId)))
  }

  /** The endpoint, with its two grouping loops. */
  method GetScores(db: Database, competitionId: string, eventId: string) returns (resp: Response)
    ensures resp == ScoresResponse(db.competitions, db.scores, competitionId, eventId)
  {
    if Falsy(competitionId) {
      return Error(MissingCompetitionId);
    }
    var competition := db.GetCompetition(competitionId);
    if competition.None? {
      return Error(UnknownCompetition);
    }
    if !Falsy(eventId) {
      var byParticipant := KeyByLoop(db.EventScores(competitionId, eventId));
      resp := Grouped(map[eventId := byParticipant]);
    } else {
      var grouped := GroupLoop(db.CompetitionScores(competitionId));
      resp := Grouped(grouped);
    }
  }

  /** `$scores[$eventId][$score['participant_id']] = $score` over one event. */
  method KeyByLoop(ess: seq<Score>) returns (m: map<Id, Score>)
    ensures m == KeyBy(ess, ScoreParticipant)
  {
    m := map[];
    for i := 0 to |ess|
      invariant m == KeyBy(ess[..i], ScoreParticipant)
    {
      assert ess[..i + 1][..i] == ess[..i];
      m := m[ess[i].participantId := ess[i]];
    }
    assert ess[..|ess|] == ess;
  }

  /** The loop over all of the competition's scores. */
  method GroupLoop(css: seq<Score>) returns (g: Grouping)
    ensures g == GroupByEvent(css)
  {
    g := map[];
    for i := 0 to |css|
      invariant g == GroupByEvent(css[..i])
    {
      assert css[..i + 1][..i] == css[..i];
      var score := css[i];
      ghost var g0 := g;
      if score.eventId !in g {
        g := g[score.eventId := map[]];
      }
      g := g[score.eventId := g[score.eventId][score.participantId := score]];
      assert g == FileScore(g0, score);
    }
    assert css[..|css|] == css;
  }

  /** Every score of the competition is reachable under its event and
      participant unless a later score for the same pair replaced it, and
      every grouped score belongs to the competition, event and participant
      it is filed under. */
  lemma {:induction false} GroupedScores(cs: seq<Competition>, ss: seq<Score>, cid: string, e: Id, pid: Id)
    requires ScoresResponse(cs, ss, cid, "").Grouped?
    ensures var g := ScoresResponse(cs, ss, cid, "").scores;
      var css := Select(ss, ScoreCompetition, cid);
      (e in g && pid in g[e] <==> exists s :: s in css && s.eventId == e && s.participantId == pid)
      && (e in g && pid in g[e] ==>
            g[e][pid] in css && g[e][pid].competitionId == cid
            && g[e][pid].eventId == e && g[e][pid].participantId == pid)
  {
    var css := Select(ss, ScoreCompetition, cid);
    var g := GroupByEvent(css);
    var sel := Select(css, ScoreEvent, e);
    assert GroupsEvent(css, g, e);
    SelectMultiset(css, ScoreEvent, e);
    if exists s :: s in css && s.eventId == e && s.participantId == pid {
      var s :| s in css && s.eventId == e && s.participantId == pid;
      assert multiset(sel)[s] > 0;
      assert s in sel;
    }
    if e in g && pid in g[e] {
      var x := g[e][pid];
      var j := LastIndexOf(sel, ScoreParticipant, pid);
      assert x == sel[j];
      assert multiset(sel)[x] > 0;
      assert x in css;
    }
  }

  /** Selecting a competition's scores and then an event's is selecting by
      the pair. */
  lemma {:induction false} SelectCompetitionEvent(ss: seq<Score>, cid: Id, eid: Id)
    ensures Select(Select(ss, ScoreCompetition, cid), ScoreEvent, eid)
         == Select(ss, ScoreCompetitionEvent, (cid, eid))
  {
    if ss != [] {
      SelectCompetitionEvent(ss[1..], cid, eid);
      var head := if ss[0].competitionId == cid then [ss[0]] else [];
      SelectConcat(head, Select(ss[1..], ScoreCompetition, cid), ScoreEvent, eid);
      if ss[0].competitionId == cid {
        SelectSingle(ss[0], ScoreEvent, eid);
      } else {
        assert Select(head, ScoreEvent, eid) == [];
      }
    }
  }

  /** The one-event view files the same scores as the full view does under
      that event, and is empty when the full view has no entry for it. */
  lemma {:induction false} EventViewAgrees(cs: seq<Competition>, ss: seq<Score>, cid: string, eid: string)
    requires !Falsy(eid)
    requires ScoresResponse(cs, ss, cid, "").Grouped?
    ensures var one := ScoresResponse(cs, ss, cid, eid).scores[eid];
      var all := ScoresResponse(cs, ss, cid, "").scores;
      (eid in all ==> all[eid] == one) && (eid !in all ==> one == map[])
  {
    var css := Select(ss, ScoreCompetition, cid);
    assert GroupsEvent(css, GroupByEvent(css), eid);
    SelectCompetitionEvent(ss, cid, eid);
  }
}
