/** What `updateParticipantStats` does to the participant collection, as
    functions of the collections it reads: the per-event maximum merged into
    `personal_bests`, the insert-or-replace of the competition's entry in
    `competition_history`, the newest-first re-sort, and the write back
    through `updateParticipant`. The store method that runs the loops is
    proved equal to `RefreshStats`. */
module ParticipantStats {
  import opened Collections
  import opened Sorting
  import opened Records

  /** The personal-bests loop: an event's best is set when absent and raised
      when a score beats it. */
  function MergeBests(bests: map<Id, int>, scores: seq<Score>): (m: map<Id, int>)
    ensures forall e :: e in bests ==> e in m && m[e] >= bests[e]
    ensures forall i :: 0 <= i < |scores| ==> scores[i].eventId in m && m[scores[i].eventId] >= scores[i].points
  {
    if scores == [] then bests
    else
      var prev := MergeBests(bests, scores[..|scores| - 1]);
      var s := scores[|scores| - 1];
      if s.eventId !in prev || s.points > prev[s.eventId] then prev[s.eventId := s.points] else prev
  }

  /** For every event the merged best is the maximum of the old best and the
      points of the event's scores: present exactly when one of them exists,
      at least each of them, and equal to one of them; an event without new
      scores keeps its best. */
  lemma {:induction false} MergeBestsAt(bests: map<Id, int>, scores: seq<Score>, e: Id)
    ensures var m := MergeBests(bests, scores);
      (e in m <==> e in bests || exists i :: 0 <= i < |scores| && scores[i].eventId == e)
      && (e in bests ==> m[e] >= bests[e])
      && (forall i :: 0 <= i < |scores| && scores[i].eventId == e ==> m[e] >= scores[i].points)
      && (e in m ==>
            (e in bests && m[e] == bests[e])
            || exists i :: 0 <= i < |scores| && scores[i].eventId == e && m[e] == scores[i].points)
      && (e in bests && (forall i :: 0 <= i < |scores| ==> scores[i].eventId != e) ==> m[e] == bests[e])
  {
    if scores != [] {
      var init := scores[..|scores| - 1];
      var n := |scores| - 1;
      var s := scores[n];
      MergeBestsAt(bests, init, e);
      assert forall i :: 0 <= i < n ==> init[i] == scores[i];
      var m0 := MergeBests(bests, init);
      var m := MergeBests(bests, scores);
      if e in m && !(e in bests && m[e] == bests[e]) {
        if s.eventId == e && m[e] == s.points {
          assert scores[n].eventId == e && m[e] == scores[n].points;
        } else {
          var i :| 0 <= i < n && init[i].eventId == e && m0[e] == init[i].points;
          assert scores[i].eventId == e && m[e] == scores[i].points;
        }
      }
    }
  }

  /** One more iteration of the personal-bests loop. */
  lemma {:induction false} MergeBestsStep(bests: map<Id, int>, scores: seq<Score>, n: nat)
    requires n < |scores|
    ensures var m := MergeBests(bests, scores[..n]);
      MergeBests(bests, scores[..n + 1])
      == if scores[n].eventId !in m || scores[n].points > m[scores[n].eventId]
         then m[scores[n].eventId := scores[n].points] else m
  {
    assert scores[..n + 1][..n] == scores[..n];
  }

  /** Merging scores that no best is below changes nothing. */
  lemma {:induction false} MergeBestsCovered(bests: map<Id, int>, scores: seq<Score>)
    requires forall i :: 0 <= i < |scores| ==>
      scores[i].eventId in bests && bests[scores[i].eventId] >= scores[i].points
    ensures MergeBests(bests, scores) == bests
  {
    if scores != [] {
      var init := scores[..|scores| - 1];
      assert forall i :: 0 <= i < |init| ==> init[i] == scores[i];
      MergeBestsCovered(bests, init);
    }
  }

  /** Merging the same scores a second time changes nothing. */
  lemma {:induction false} MergeBestsIdempotent(bests: map<Id, int>, scores: seq<Score>)
    ensures MergeBests(MergeBests(bests, scores), scores) == MergeBests(bests, scores)
  {
    var m := MergeBests(bests, scores);
    forall i | 0 <= i < |scores| ensures scores[i].eventId in m && m[scores[i].eventId] >= scores[i].points {
      MergeBestsAt(bests, scores, scores[i].eventId);
    }
    MergeBestsCovered(m, scores);
  }

  /** The history entry written for a competition. */
  function EntryFor(cid: Id, c: Competition, scores: seq<Score>): (h: HistoryEntry)
    ensures h.competitionId == cid && h.scores == scores
    ensures h.competitionName == c.name && h.date == c.date
    ensures h.totalPoints == SumPoints(scores)
  {
    HistoryEntry(cid, c.name, c.date, scores, SumPoints(scores))
  }

  /** The first entry for the same competition is replaced (the loop with
      the `$competitionExists` flag and `break`), otherwise the entry is
      appended; then the history is sorted newest first. */
  function MergeHistory(history: seq<HistoryEntry>, entry: HistoryEntry): (r: seq<HistoryEntry>)
    ensures SortedDesc(r, EntryDate)
    ensures multiset(r) == multiset(Upsert(history, EntryCompetition, entry))
  {
    SortDesc(Upsert(history, EntryCompetition, entry), EntryDate)
  }

  /** With at most one entry per competition before, the same holds after;
      the competition's entry is exactly the new one, and the entries of
      every other competition are those from before. */
  lemma {:induction false} MergeHistoryUnique(history: seq<HistoryEntry>, entry: HistoryEntry, k: Id)
    requires UniqueKeys(history, EntryCompetition)
    ensures UniqueKeys(MergeHistory(history, entry), EntryCompetition)
    ensures Select(MergeHistory(history, entry), EntryCompetition, entry.competitionId) == [entry]
    ensures k != entry.competitionId ==>
      multiset(Select(MergeHistory(history, entry), EntryCompetition, k))
      == multiset(Select(history, EntryCompetition, k))
  {
    var u := Upsert(history, EntryCompetition, entry);
    var r := MergeHistory(history, entry);
    UpsertUnique(history, EntryCompetition, entry);
    assert UniqueKeys(r, EntryCompetition) by {
      UniqueKeysPermutation(u, r, EntryCompetition);
    }
    assert Select(r, EntryCompetition, entry.competitionId) == [entry] by {
      SelectPermutation(u, r, EntryCompetition, entry.competitionId);
      SingletonMultiset(Select(r, EntryCompetition, entry.competitionId), entry);
    }
    if k != entry.competitionId {
      UpsertOtherKeys(history, EntryCompetition, entry, k);
      SelectPermutation(u, r, EntryCompetition, k);
    }
  }

  /** Merging the same entry twice is the same as merging it once. */
  lemma {:induction false} MergeHistoryIdempotent(history: seq<HistoryEntry>, entry: HistoryEntry)
    requires UniqueKeys(history, EntryCompetition)
    ensures MergeHistory(MergeHistory(history, entry), entry) == MergeHistory(history, entry)
  {
    var r := MergeHistory(history, entry);
    MergeHistoryUnique(history, entry, entry.competitionId);
    UpsertPresent(r, EntryCompetition, entry);
    SortDescOfSorted(r, EntryDate);
  }

  /** The participant after the stats fold: only `stats` differs. */
  function Refreshed(p: Participant, cid: Id, c: Competition, scores: seq<Score>): (q: Participant)
    ensures q.(stats := p.stats) == p
    ensures q.stats.personalBests == MergeBests(p.stats.personalBests, scores)
    ensures q.stats.competitionHistory
         == MergeHistory(p.stats.competitionHistory, EntryFor(cid, c, scores))
  {
    p.(stats := Stats(MergeBests(p.stats.personalBests, scores),
                      MergeHistory(p.stats.competitionHistory, EntryFor(cid, c, scores))))
  }

  lemma {:induction false} RefreshedIdempotent(p: Participant, cid: Id, c: Competition, scores: seq<Score>)
    requires UniqueKeys(p.stats.competitionHistory, EntryCompetition)
    ensures Refreshed(Refreshed(p, cid, c, scores), cid, c, scores) == Refreshed(p, cid, c, scores)
  {
    MergeBestsIdempotent(p.stats.personalBests, scores);
    MergeHistoryIdempotent(p.stats.competitionHistory, EntryFor(cid, c, scores));
  }

  /** Every participant's history holds at most one entry per competition. */
  ghost predicate HistoriesUnique(ps: seq<Participant>)
  {
    forall j :: 0 <= j < |ps| ==> UniqueKeys(ps[j].stats.competitionHistory, EntryCompetition)
  }

  /** `updateParticipantStats(pid, cid)` on the collections: the flag it
      returns and the participant collection it leaves. */
  function RefreshStats(ps: seq<Participant>, cs: seq<Competition>, ss: seq<Score>, pid: Id, cid: Id)
    : (r: (bool, seq<Participant>))
    ensures FirstIndexOf(ps, ParticipantId, pid) < 0 ==> r == (false, ps)
    ensures Lookup(cs, CompetitionId, cid).None? ==> r == (false, ps)
    ensures FirstIndexOf(ps, ParticipantId, pid) >= 0 && Lookup(cs, CompetitionId, cid).Some? ==> r.0
    ensures Select(ss, ScoreCompetitionParticipant, (cid, pid)) == [] ==> r.1 == ps
    ensures |r.1| == |ps|
    ensures forall j :: 0 <= j < |ps| && ps[j].id != pid ==> r.1[j] == ps[j]
    ensures forall j :: 0 <= j < |ps| ==> r.1[j].(stats := ps[j].stats) == ps[j]
  {
    var i := FirstIndexOf(ps, ParticipantId, pid);
    if i < 0 then (false, ps)
    else
      match Lookup(cs, CompetitionId, cid)
      case None => (false, ps)
      case Some(c) =>
        var mine := Select(ss, ScoreCompetitionParticipant, (cid, pid));
        if mine == [] then (true, ps)
        else (true, ps[i := KeepParticipantIdentity(ps[i], pid, Refreshed(ps[i], cid, c, mine))])
  }

  /** When the fold changes a participant, its history afterwards holds
      exactly one entry for the competition, carrying the sum of the
      participant's points there; every history stays free of duplicates. */
  lemma {:induction false} RefreshStatsHistory(ps: seq<Participant>, cs: seq<Competition>, ss: seq<Score>, pid: Id, cid: Id)
    requires HistoriesUnique(ps)
    ensures HistoriesUnique(RefreshStats(ps, cs, ss, pid, cid).1)
    ensures var i := FirstIndexOf(ps, ParticipantId, pid);
            var mine := Select(ss, ScoreCompetitionParticipant, (cid, pid));
            var ps' := RefreshStats(ps, cs, ss, pid, cid).1;
            i >= 0 && Lookup(cs, CompetitionId, cid).Some? && mine != [] ==>
              Select(ps'[i].stats.competitionHistory, EntryCompetition, cid)
              == [EntryFor(cid, Lookup(cs, CompetitionId, cid).value, mine)]
  {
    var i := FirstIndexOf(ps, ParticipantId, pid);
    var mine := Select(ss, ScoreCompetitionParticipant, (cid, pid));
    if i >= 0 && Lookup(cs, CompetitionId, cid).Some? && mine != [] {
      var c := Lookup(cs, CompetitionId, cid).value;
      var q := KeepParticipantIdentity(ps[i], pid, Refreshed(ps[i], cid, c, mine));
      assert RefreshStats(ps, cs, ss, pid, cid).1 == ps[i := q];
      MergeHistoryUnique(ps[i].stats.competitionHistory, EntryFor(cid, c, mine), cid);
      HistoriesUniqueUpdate(ps, i, q);
    }
  }

  /** Replacing one participant by one whose history is free of duplicates
      keeps every history free of them. */
  lemma HistoriesUniqueUpdate(ps: seq<Participant>, i: nat, q: Participant)
    requires HistoriesUnique(ps) && i < |ps|
    requires UniqueKeys(q.stats.competitionHistory, EntryCompetition)
    ensures HistoriesUnique(ps[i := q])
  {
    var r := ps[i := q];
    forall j | 0 <= j < |r| ensures UniqueKeys(r[j].stats.competitionHistory, EntryCompetition) {
      if j != i {
        assert r[j] == ps[j];
      }
    }
  }

  /** Refreshing the same participant for the same competition twice leaves
      what one refresh leaves. */
  lemma {:induction false} RefreshStatsIdempotent(ps: seq<Participant>, cs: seq<Competition>, ss: seq<Score>, pid: Id, cid: Id)
    requires HistoriesUnique(ps)
    ensures RefreshStats(RefreshStats(ps, cs, ss, pid, cid).1, cs, ss, pid, cid)
         == RefreshStats(ps, cs, ss, pid, cid)
  {
    var i := FirstIndexOf(ps, ParticipantId, pid);
    var mine := Select(ss, ScoreCompetitionParticipant, (cid, pid));
    if i >= 0 && Lookup(cs, CompetitionId, cid).Some? && mine != [] {
      var c := Lookup(cs, CompetitionId, cid).value;
      var q := Refreshed(ps[i], cid, c, mine);
      RefreshStatsChanges(ps, cs, ss, pid, cid);
      FirstIndexOfUpdate(ps, ParticipantId, pid, q);
      RefreshStatsChanges(ps[i := q], cs, ss, pid, cid);
      RefreshedIdempotent(ps[i], cid, c, mine);
      UpdateSame(ps[i := q], i, Refreshed(q, cid, c, mine));
    }
  }

  /** When the participant, the competition and scores are all there, the
      fold replaces the participant by its refreshed record. */
  lemma RefreshStatsChanges(ps: seq<Participant>, cs: seq<Competition>, ss: seq<Score>, pid: Id, cid: Id)
    ensures var i := FirstIndexOf(ps, ParticipantId, pid);
      var mine := Select(ss, ScoreCompetitionParticipant, (cid, pid));
      i >= 0 && Lookup(cs, CompetitionId, cid).Some? && mine != [] ==>
        RefreshStats(ps, cs, ss, pid, cid)
        == (true, ps[i := Refreshed(ps[i], cid, Lookup(cs, CompetitionId, cid).value, mine)])
  {
  }

  /** The stats fold for each id of `pids` in turn, as the status endpoint
      runs it when a competition is completed. */
  function RefreshAll(ps: seq<Participant>, cs: seq<Competition>, ss: seq<Score>, pids: seq<Id>, cid: Id)
    : (r: seq<Participant>)
    ensures |r| == |ps|
    ensures forall j :: 0 <= j < |ps| ==> r[j].(stats := ps[j].stats) == ps[j]
    ensures forall j :: 0 <= j < |ps| && ps[j].id !in pids ==> r[j] == ps[j]
  {
    if pids == [] then ps
    else
      var init := pids[..|pids| - 1];
      var prev := RefreshAll(ps, cs, ss, init, cid);
      var r := RefreshStats(prev, cs, ss, pids[|pids| - 1], cid).1;
      assert forall j :: 0 <= j < |ps| ==> prev[j].id == ps[j].id;
      assert forall j :: 0 <= j < |ps| && ps[j].id !in pids ==> ps[j].id !in init;
      r
  }
}
