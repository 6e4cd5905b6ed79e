/** What the score count of `isCompetitionComplete` means. The function
    counts the competition's scores whose event and participant the
    competition lists and compares the count with events times participants.
    When no two scores share an (competition, event, participant) key and
    neither id list repeats an id, reaching the count is the same as every
    listed event having a score for every listed participant. */
module Completion {
  import opened Collections
  import opened Records
  import opened Store
  import opened Standings

  function ScorePair(s: Score): (Id, Id) { (s.eventId, s.participantId) }

  /** The (event, participant) pairs filled by the counted scores. */
  function CoveredPairs(css: seq<Score>, eventIds: seq<Id>, participantIds: seq<Id>): (r: set<(Id, Id)>)
    ensures forall x :: x in r ==> x.0 in eventIds && x.1 in participantIds
  {
    if css == [] then {}
    else
      var s := css[|css| - 1];
      CoveredPairs(css[..|css| - 1], eventIds, participantIds)
      + (if s.eventId in eventIds && s.participantId in participantIds then {ScorePair(s)} else {})
  }

  lemma {:induction false} CoveredPairsMembers(css: seq<Score>, eventIds: seq<Id>, participantIds: seq<Id>, e: Id, p: Id)
    ensures (e, p) in CoveredPairs(css, eventIds, participantIds) <==>
      e in eventIds && p in participantIds && exists s :: s in css && ScorePair(s) == (e, p)
  {
    if css != [] {
      var init := css[..|css| - 1];
      var s := css[|css| - 1];
      CoveredPairsMembers(init, eventIds, participantIds, e, p);
      assert css == init + [s];
      if exists t :: t in css && ScorePair(t) == (e, p) {
        var t :| t in css && ScorePair(t) == (e, p);
        if t != s {
          assert t in init;
        }
      }
    }
  }

  /** With no two scores on the same pair, the count is the number of
      pairs filled. */
  lemma {:induction false} CountIsPairs(css: seq<Score>, eventIds: seq<Id>, participantIds: seq<Id>)
    requires DistinctKeys(css, ScorePair)
    ensures CountCovered(css, eventIds, participantIds) == |CoveredPairs(css, eventIds, participantIds)|
  {
    if css != [] {
      var init := css[..|css| - 1];
      var s := css[|css| - 1];
      assert DistinctKeys(init, ScorePair);
      CountIsPairs(init, eventIds, participantIds);
      CoveredPairsMembers(init, eventIds, participantIds, s.eventId, s.participantId);
      forall t | t in init ensures ScorePair(t) != ScorePair(s) {
        var j :| 0 <= j < |init| && init[j] == t;
        assert css[j] == t;
      }
    }
  }

  /** All pairs of one event with the listed participants. */
  function Row(e: Id, participantIds: seq<Id>): (r: set<(Id, Id)>)
    ensures forall x :: x in r <==> x.0 == e && x.1 in participantIds
  {
    if participantIds == [] then {}
    else {(e, participantIds[0])} + Row(e, participantIds[1..])
  }

  lemma {:induction false} RowSize(e: Id, participantIds: seq<Id>)
    requires NoRepeats(participantIds)
    ensures |Row(e, participantIds)| == |participantIds|
  {
    if participantIds != [] {
      var rest := participantIds[1..];
      assert NoRepeats(rest);
      RowSize(e, rest);
      assert (e, participantIds[0]) !in Row(e, rest);
    }
  }

  /** All pairs of a listed event with a listed participant. */
  function Grid(eventIds: seq<Id>, participantIds: seq<Id>): (r: set<(Id, Id)>)
    ensures forall x :: x in r <==> x.0 in eventIds && x.1 in participantIds
  {
    if eventIds == [] then {}
    else Row(eventIds[0], participantIds) + Grid(eventIds[1..], participantIds)
  }

  lemma {:induction false} GridSize(eventIds: seq<Id>, participantIds: seq<Id>)
    requires NoRepeats(eventIds) && NoRepeats(participantIds)
    ensures |Grid(eventIds, participantIds)| == |eventIds| * |participantIds|
  {
    if eventIds != [] {
      var rest := eventIds[1..];
      assert NoRepeats(rest);
      GridSize(rest, participantIds);
      RowSize(eventIds[0], participantIds);
      RowOutsideGrid(eventIds[0], rest, participantIds);
      DisjointUnionSize(Row(eventIds[0], participantIds), Grid(rest, participantIds));
      MulStep(|rest|, |participantIds|);
    }
  }

  lemma {:induction false} RowOutsideGrid(e: Id, rest: seq<Id>, participantIds: seq<Id>)
    requires e !in rest
    ensures Row(e, participantIds) * Grid(rest, participantIds) == {}
  {
    forall x | x in Row(e, participantIds) ensures x !in Grid(rest, participantIds) {
      assert x.0 == e;
    }
  }

  lemma {:induction false} DisjointUnionSize<T>(a: set<T>, b: set<T>)
    requires a * b == {}
    ensures |a + b| == |a| + |b|
  {
  }

  lemma {:induction false} MulStep(n: nat, m: nat)
    ensures (n + 1) * m == m + n * m
  {
  }

  /** A subset at least as large as its superset is all of it. */
  lemma {:induction false} SubsetFull<T>(a: set<T>, b: set<T>)
    requires a <= b && |a| >= |b|
    ensures a == b
  {
    if a != b {
      var x :| x in b && x !in a;
      assert a <= b - {x};
      assert |b - {x}| == |b| - 1;
      SubsetSize(a, b - {x});
      assert false;
    }
  }

  lemma {:induction false} SubsetSize<T>(a: set<T>, b: set<T>)
    requires a <= b
    ensures |a| <= |b|
  {
    assert b == a + (b - a);
    assert a * (b - a) == {};
  }

  /** Unique score keys make the pairs of one competition's scores distinct. */
  lemma {:induction false} CompetitionPairsDistinct(ss: seq<Score>, cid: Id)
    requires UniqueKeys(ss, ScoreKey)
    ensures DistinctKeys(Select(ss, ScoreCompetition, cid), ScorePair)
  {
    var css := Select(ss, ScoreCompetition, cid);
    var ix := MatchIndices(ss, ScoreCompetition, cid);
    SelectIsSubsequence(ss, ScoreCompetition, cid);
    forall a, b | 0 <= a < b < |css| ensures ScorePair(css[a]) != ScorePair(css[b]) {
      if ScorePair(css[a]) == ScorePair(css[b]) {
        assert css[a] == ss[ix[a]] && css[b] == ss[ix[b]] && ix[a] < ix[b];
        assert ScoreKey(ss[ix[a]]) == ScoreKey(ss[ix[b]]);
        TwoWithKey(ss, ScoreKey, ix[a], ix[b]);
        assert false;
      }
    }
  }

  /** Every listed event has a score in competition `cid` for every listed
      participant. */
  ghost predicate AllScored(ss: seq<Score>, cid: Id, eventIds: seq<Id>, participantIds: seq<Id>)
  {
    forall e, p :: e in eventIds && p in participantIds ==>
      exists s :: s in ss && ScoreKey(s) == (cid, e, p)
  }

  /** The same, over scores already restricted to the competition. */
  ghost predicate AllPaired(css: seq<Score>, eventIds: seq<Id>, participantIds: seq<Id>)
  {
    forall e, p :: e in eventIds && p in participantIds ==>
      exists s :: s in css && ScorePair(s) == (e, p)
  }

  /** The count reaches events times participants exactly when every pair
      of the grid is filled. */
  lemma {:induction false} CountFull(css: seq<Score>, eventIds: seq<Id>, participantIds: seq<Id>)
    requires DistinctKeys(css, ScorePair)
    requires NoRepeats(eventIds) && NoRepeats(participantIds)
    ensures CountCovered(css, eventIds, participantIds) >= |eventIds| * |participantIds|
        <==> CoveredPairs(css, eventIds, participantIds) == Grid(eventIds, participantIds)
  {
    var covered := CoveredPairs(css, eventIds, participantIds);
    var grid := Grid(eventIds, participantIds);
    CountIsPairs(css, eventIds, participantIds);
    GridSize(eventIds, participantIds);
    assert covered <= grid;
    if |covered| >= |grid| {
      SubsetFull(covered, grid);
    }
  }

  lemma {:induction false} GridFilled(css: seq<Score>, eventIds: seq<Id>, participantIds: seq<Id>)
    ensures CoveredPairs(css, eventIds, participantIds) == Grid(eventIds, participantIds)
        <==> AllPaired(css, eventIds, participantIds)
  {
    var covered := CoveredPairs(css, eventIds, participantIds);
    var grid := Grid(eventIds, participantIds);
    if covered == grid {
      forall e, p | e in eventIds && p in participantIds
        ensures exists s :: s in css && ScorePair(s) == (e, p)
      {
        assert (e, p) in grid;
        CoveredPairsMembers(css, eventIds, participantIds, e, p);
      }
    }
    if AllPaired(css, eventIds, participantIds) {
      forall x | x in grid ensures x in covered {
        CoveredPairsMembers(css, eventIds, participantIds, x.0, x.1);
      }
    }
  }

  lemma {:induction false} PairedInCompetition(ss: seq<Score>, cid: Id, eventIds: seq<Id>, participantIds: seq<Id>)
    ensures AllPaired(Select(ss, ScoreCompetition, cid), eventIds, participantIds)
        <==> AllScored(ss, cid, eventIds, participantIds)
  {
    var css := Select(ss, ScoreCompetition, cid);
    if AllPaired(css, eventIds, participantIds) {
      forall e, p | e in eventIds && p in participantIds
        ensures exists s :: s in ss && ScoreKey(s) == (cid, e, p)
      {
        var s :| s in css && ScorePair(s) == (e, p);
        InCompetition(ss, cid, s);
      }
    }
    if AllScored(ss, cid, eventIds, participantIds) {
      forall e, p | e in eventIds && p in participantIds
        ensures exists s :: s in css && ScorePair(s) == (e, p)
      {
        var s :| s in ss && ScoreKey(s) == (cid, e, p);
        InCompetition(ss, cid, s);
      }
    }
  }

  lemma {:induction false} InCompetition(ss: seq<Score>, cid: Id, s: Score)
    ensures s in Select(ss, ScoreCompetition, cid) <==> s in ss && s.competitionId == cid
  {
    var css := Select(ss, ScoreCompetition, cid);
    SelectMultiset(ss, ScoreCompetition, cid);
    assert s in css <==> multiset(css)[s] > 0;
    assert s in ss <==> multiset(ss)[s] > 0;
  }

  /** The count test of `isCompetitionComplete` holds exactly when every
      listed event has a score for every listed participant (so always when
      either list is empty). */
  lemma {:induction false} CompleteMeansAllScored(cs: seq<Competition>, ss: seq<Score>, cid: Id)
    requires Lookup(cs, CompetitionId, cid).Some?
    requires UniqueKeys(ss, ScoreKey)
    requires NoRepeats(Lookup(cs, CompetitionId, cid).value.eventIds)
    requires NoRepeats(Lookup(cs, CompetitionId, cid).value.participantIds)
    ensures var c := Lookup(cs, CompetitionId, cid).value;
      CompleteByCount(cs, ss, cid) <==>
        c.status == Completed || AllScored(ss, cid, c.eventIds, c.participantIds)
  {
    var c := Lookup(cs, CompetitionId, cid).value;
    var css := Select(ss, ScoreCompetition, cid);
    CompetitionPairsDistinct(ss, cid);
    CountFull(css, c.eventIds, c.participantIds);
    GridFilled(css, c.eventIds, c.participantIds);
    PairedInCompetition(ss, cid, c.eventIds, c.participantIds);
  }
}
