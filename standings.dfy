/** The result of `calculateRankings`, as functions of the stored
    collections: the seed entries, the accumulation of the competition's
    scores into them, the sort by total and the rank numbers. The store
    method that runs the loops is proved equal to `Rankings`. */
module Standings {
  import opened Collections
  import opened Sorting
  import opened Ranking
  import opened Records

  /** One row of the rankings. `rank` is 0 until the rank loop has run;
      `teamName` is only set by the rankings endpoint. */
  datatype Standing = Standing(
    id: Id,
    name: string,
    teamId: Option<Id>,
    categoryIds: seq<Id>,
    totalPoints: int,
    eventPoints: map<Id, int>,
    rank: int,
    teamName: Option<string>)

  function StandingId(s: Standing): Id { s.id }
  function StandingTotal(s: Standing): int { s.totalPoints }

  /** The row seeded for a resolvable participant id. */
  function SeedEntry(pid: Id, p: Participant): Standing
  {
    Standing(pid, p.name, p.teamId, p.categoryIds, 0, map[], 0, None)
  }

  /** The seed loop: one row per participant id that resolves, keyed by the
      id; a repeated id writes its row again at its first position, as an
      assignment to an existing key of a PHP array does. */
  function Seed(pids: seq<Id>, ps: seq<Participant>): (r: seq<Standing>)
    ensures DistinctKeys(r, StandingId)
  {
    if pids == [] then []
    else
      var prev := Seed(pids[..|pids| - 1], ps);
      match Lookup(ps, ParticipantId, pids[|pids| - 1])
      case None => prev
      case Some(p) =>
        UpsertDistinct(prev, StandingId, SeedEntry(pids[|pids| - 1], p));
        Upsert(prev, StandingId, SeedEntry(pids[|pids| - 1], p))
  }

  /** Every seed row belongs to an id of the list that resolves, and is the
      row seeded from the participant it resolves to. */
  lemma {:induction false} SeedRow(pids: seq<Id>, ps: seq<Participant>, j: nat)
    requires j < |Seed(pids, ps)|
    ensures var r := Seed(pids, ps)[j];
      r.id in pids && Lookup(ps, ParticipantId, r.id).Some?
      && r == SeedEntry(r.id, Lookup(ps, ParticipantId, r.id).value)
  {
    var init := pids[..|pids| - 1];
    var last := pids[|pids| - 1];
    var prev := Seed(init, ps);
    var r := Seed(pids, ps);
    match Lookup(ps, ParticipantId, last)
    case None =>
      SeedRow(init, ps, j);
      assert r[j].id in init;
    case Some(p) =>
      var x := SeedEntry(last, p);
      UpsertShape(prev, StandingId, x);
      if r[j] != x {
        SeedRow(init, ps, j);
        assert r[j].id in init;
      }
  }

  /** Every id of the list that resolves has a seed row. */
  lemma {:induction false} SeedCovers(pids: seq<Id>, ps: seq<Participant>, m: nat)
    requires m < |pids| && Lookup(ps, ParticipantId, pids[m]).Some?
    ensures FirstIndexOf(Seed(pids, ps), StandingId, pids[m]) >= 0
  {
    var init := pids[..|pids| - 1];
    var last := pids[|pids| - 1];
    var prev := Seed(init, ps);
    if m < |pids| - 1 {
      assert init[m] == pids[m];
      SeedCovers(init, ps, m);
    }
    match Lookup(ps, ParticipantId, last)
    case None =>
    case Some(p) =>
      UpsertFinds(prev, StandingId, SeedEntry(last, p), pids[m]);
  }

  ghost predicate NoRepeats(ids: seq<Id>)
  {
    forall a, b :: 0 <= a < b < |ids| ==> ids[a] != ids[b]
  }

  function SeedEntries(ps: seq<Participant>): (r: seq<Standing>)
    ensures |r| == |ps| && forall j :: 0 <= j < |ps| ==> r[j] == SeedEntry(ps[j].id, ps[j])
  {
    seq(|ps|, j requires 0 <= j < |ps| => SeedEntry(ps[j].id, ps[j]))
  }

  /** Without repeated ids the seed is one row per resolvable id, in the
      order of the ids. */
  lemma {:induction false} SeedInOrder(pids: seq<Id>, ps: seq<Participant>)
    requires NoRepeats(pids)
    ensures Seed(pids, ps) == SeedEntries(ResolveAll(pids, ps, ParticipantId))
  {
    if pids != [] {
      var init := pids[..|pids| - 1];
      var last := pids[|pids| - 1];
      assert NoRepeats(init);
      SeedInOrder(init, ps);
      var prev := Seed(init, ps);
      var rs := ResolveAll(init, ps, ParticipantId);
      match Lookup(ps, ParticipantId, last)
      case None =>
      case Some(p) =>
        forall j | 0 <= j < |prev| ensures prev[j].id != last {
          SeedRow(init, ps, j);
        }
        assert FirstIndexOf(prev, StandingId, last) < 0;
        assert ResolveAll(pids, ps, ParticipantId) == rs + [p];
        assert SeedEntries(rs + [p]) == SeedEntries(rs) + [SeedEntry(last, p)];
    }
  }

  /** The accumulation step for one score into one row. */
  function Credit(st: Standing, s: Score): Standing
  {
    st.(totalPoints := st.totalPoints + s.points, eventPoints := st.eventPoints[s.eventId := s.points])
  }

  /** A row after crediting it with scores in turn: the total grows by their
      sum and only the total and the event points change. */
  function CreditAll(st: Standing, xs: seq<Score>): (r: Standing)
    ensures r.totalPoints == st.totalPoints + SumPoints(xs)
    ensures r.(totalPoints := st.totalPoints, eventPoints := st.eventPoints) == st
  {
    if xs == [] then st
    else
      var init := xs[..|xs| - 1];
      assert xs == init + [xs[|xs| - 1]];
      SumPointsConcat(init, [xs[|xs| - 1]]);
      Credit(CreditAll(st, init), xs[|xs| - 1])
  }

  /** Each event's points after crediting: those of its last score, or
      what the row held when no score is for it. */
  lemma {:induction false} CreditAllAt(st: Standing, xs: seq<Score>, e: Id)
    ensures var r := CreditAll(st, xs);
      (e in r.eventPoints <==> e in st.eventPoints || LastIndexOf(xs, ScoreEvent, e) >= 0)
      && (LastIndexOf(xs, ScoreEvent, e) >= 0 ==> r.eventPoints[e] == xs[LastIndexOf(xs, ScoreEvent, e)].points)
      && (e in st.eventPoints && LastIndexOf(xs, ScoreEvent, e) < 0 ==> r.eventPoints[e] == st.eventPoints[e])
  {
    if xs != [] {
      CreditAllAt(st, xs[..|xs| - 1], e);
    }
  }

  /** `$participants[$pid]['total_points'] += ...` for one score: only the
      row of the score's participant changes, and only when it exists. */
  function AddScoreTo(rows: seq<Standing>, s: Score): (r: seq<Standing>)
    ensures |r| == |rows|
  {
    var i := FirstIndexOf(rows, StandingId, s.participantId);
    if i < 0 then rows else rows[i := Credit(rows[i], s)]
  }

  /** The accumulation loop over the competition's scores. */
  function Accumulate(rows: seq<Standing>, scores: seq<Score>): (r: seq<Standing>)
    ensures |r| == |rows|
    ensures forall j :: 0 <= j < |rows| ==>
      r[j].(totalPoints := rows[j].totalPoints, eventPoints := rows[j].eventPoints) == rows[j]
  {
    if scores == [] then rows
    else AddScoreTo(Accumulate(rows, scores[..|scores| - 1]), scores[|scores| - 1])
  }

  /** With distinct ids, each row ends up credited with exactly its own
      participant's scores, in stored order. */
  lemma {:induction false} AccumulateRow(rows: seq<Standing>, scores: seq<Score>, j: nat)
    requires DistinctKeys(rows, StandingId) && j < |rows|
    ensures Accumulate(rows, scores)[j] == CreditAll(rows[j], Select(scores, ScoreParticipant, rows[j].id))
  {
    if scores != [] {
      var init := scores[..|scores| - 1];
      var s := scores[|scores| - 1];
      var prev := Accumulate(rows, init);
      AccumulateRow(rows, init, j);
      assert scores == init + [s];
      assert Accumulate(rows, scores) == AddScoreTo(prev, s);
      var sel := Select(init, ScoreParticipant, rows[j].id);
      SelectLast(init, s, ScoreParticipant, rows[j].id);
      if s.participantId == rows[j].id {
        assert DistinctKeys(prev, StandingId) by {
          assert forall a :: 0 <= a < |rows| ==> StandingId(rows[a]) == StandingId(prev[a]);
          DistinctKeysSameKeys(rows, prev, StandingId);
        }
        AddScoreToOwn(prev, s, j);
        CreditAllLast(rows[j], sel, s);
      } else {
        assert StandingId(prev[j]) == StandingId(rows[j]);
        AddScoreToOther(prev, s, j);
        assert sel + [] == sel;
      }
    }
  }

  /** The rows of other participants are left alone. */
  lemma AddScoreToOther(rows: seq<Standing>, s: Score, j: nat)
    requires j < |rows| && rows[j].id != s.participantId
    ensures AddScoreTo(rows, s)[j] == rows[j]
  {
  }

  /** The score goes to the row of its participant. */
  lemma AddScoreToOwn(rows: seq<Standing>, s: Score, j: nat)
    requires DistinctKeys(rows, StandingId) && j < |rows| && rows[j].id == s.participantId
    ensures AddScoreTo(rows, s)[j] == Credit(rows[j], s)
  {
    DistinctKeysFirst(rows, StandingId, j);
  }

  lemma CreditAllLast(st: Standing, xs: seq<Score>, x: Score)
    ensures CreditAll(st, xs + [x]) == Credit(CreditAll(st, xs), x)
  {
    assert (xs + [x])[..|xs|] == xs;
  }

  /** What every row of the accumulation holds: the sum of its participant's
      points in the competition, and per event the points of the last score. */
  lemma {:induction false} AccumulatedRow(rows: seq<Standing>, scores: seq<Score>, j: nat)
    requires DistinctKeys(rows, StandingId) && j < |rows|
    ensures var r := Accumulate(rows, scores)[j];
      var mine := Select(scores, ScoreParticipant, rows[j].id);
      r.totalPoints == rows[j].totalPoints + SumPoints(mine)
      && (forall e :: e in r.eventPoints <==> e in rows[j].eventPoints || LastIndexOf(mine, ScoreEvent, e) >= 0)
      && (forall e :: LastIndexOf(mine, ScoreEvent, e) >= 0 ==>
            r.eventPoints[e] == mine[LastIndexOf(mine, ScoreEvent, e)].points)
  {
    AccumulateRow(rows, scores, j);
    var mine := Select(scores, ScoreParticipant, rows[j].id);
    forall e ensures var r := CreditAll(rows[j], mine);
      (e in r.eventPoints <==> e in rows[j].eventPoints || LastIndexOf(mine, ScoreEvent, e) >= 0)
      && (LastIndexOf(mine, ScoreEvent, e) >= 0 ==> r.eventPoints[e] == mine[LastIndexOf(mine, ScoreEvent, e)].points)
    {
      CreditAllAt(rows[j], mine, e);
    }
  }

  function Totals(rows: seq<Standing>): (v: seq<int>)
    ensures |v| == |rows| && forall i :: 0 <= i < |rows| ==> v[i] == rows[i].totalPoints
  {
    if rows == [] then [] else [rows[0].totalPoints] + Totals(rows[1..])
  }

  /** `$rankings[$key]['rank'] = $rank` for every row. */
  function WithRanks(rows: seq<Standing>, ranks: seq<int>): (r: seq<Standing>)
    requires |ranks| == |rows|
    ensures |r| == |rows| && forall i :: 0 <= i < |rows| ==> r[i] == rows[i].(rank := ranks[i])
  {
    if rows == [] then [] else [rows[0].(rank := ranks[0])] + WithRanks(rows[1..], ranks[1..])
  }

  /** The rank loop run over rows in their current order. */
  function RankedInOrder(rows: seq<Standing>): (r: seq<Standing>)
    ensures |r| == |rows|
    ensures forall i :: 0 <= i < |rows| ==> r[i] == rows[i].(rank := RankAt(Totals(rows), i))
  {
    WithRanks(rows, seq(|rows|, i requires 0 <= i < |rows| => RankAt(Totals(rows), i)))
  }

  /** `calculateRankings($competitionId)`. */
  function Rankings(cs: seq<Competition>, ps: seq<Participant>, ss: seq<Score>, cid: Id): (r: seq<Standing>)
    ensures Lookup(cs, CompetitionId, cid).None? ==> r == []
    ensures forall i, j :: 0 <= i < j < |r| ==> r[i].totalPoints >= r[j].totalPoints
  {
    match Lookup(cs, CompetitionId, cid)
    case None => []
    case Some(c) =>
      var rows := Accumulate(Seed(c.participantIds, ps), Select(ss, ScoreCompetition, cid));
      var sorted := SortDesc(rows, StandingTotal);
      RankedSorted(sorted);
      RankedInOrder(sorted)
  }

  /** The rank loop keeps a list sorted by total sorted. */
  lemma RankedSorted(rows: seq<Standing>)
    requires SortedDesc(rows, StandingTotal)
    ensures var r := RankedInOrder(rows);
      forall i, j :: 0 <= i < j < |r| ==> r[i].totalPoints >= r[j].totalPoints
  {
    var r := RankedInOrder(rows);
    forall i, j | 0 <= i < j < |r| ensures r[i].totalPoints >= r[j].totalPoints {
      assert StandingTotal(rows[i]) >= StandingTotal(rows[j]);
    }
  }

  /** A row with its rank cleared, to compare rankings with their rows. */
  function Unranked(rows: seq<Standing>): (r: seq<Standing>)
    ensures |r| == |rows| && forall i :: 0 <= i < |rows| ==> r[i] == rows[i].(rank := 0)
  {
    if rows == [] then [] else [rows[0].(rank := 0)] + Unranked(rows[1..])
  }

  lemma {:induction false} UnrankedRanked(rows: seq<Standing>)
    requires forall i :: 0 <= i < |rows| ==> rows[i].rank == 0
    ensures Unranked(RankedInOrder(rows)) == rows
  {
    assert forall i :: 0 <= i < |rows| ==> Unranked(RankedInOrder(rows))[i] == rows[i];
  }

  /** Seed rows, and so accumulated rows, carry no rank yet. */
  lemma {:induction false} UnrankedRows(pids: seq<Id>, ps: seq<Participant>, css: seq<Score>)
    ensures forall j :: 0 <= j < |Accumulate(Seed(pids, ps), css)| ==>
      Accumulate(Seed(pids, ps), css)[j].rank == 0
  {
    var seed := Seed(pids, ps);
    forall j | 0 <= j < |seed| ensures seed[j].rank == 0 {
      SeedRow(pids, ps, j);
    }
  }

  /** Sorting rows without ranks and running the rank loop over them yields
      the same rows, reordered by non-increasing total, each ranked one more
      than the number of rows with a greater total. */
  lemma {:induction false} SortedRanking(rows: seq<Standing>)
    requires forall j :: 0 <= j < |rows| ==> rows[j].rank == 0
    ensures var r := RankedInOrder(SortDesc(rows, StandingTotal));
      multiset(Unranked(r)) == multiset(rows)
      && (forall i, j :: 0 <= i < j < |r| ==> r[i].totalPoints >= r[j].totalPoints)
      && (forall i :: 0 <= i < |r| ==> r[i].rank == 1 + CountAbove(Totals(r), r[i].totalPoints))
  {
    var sorted := SortDesc(rows, StandingTotal);
    var r := RankedInOrder(sorted);
    forall i | 0 <= i < |sorted| ensures sorted[i].rank == 0 {
      assert sorted[i] in multiset(rows);
    }
    UnrankedRanked(sorted);
    assert Totals(r) == Totals(sorted);
    forall i | 0 <= i < |r| ensures r[i].rank == 1 + CountAbove(Totals(r), r[i].totalPoints) {
      RankCountsHigher(Totals(sorted), i);
    }
  }

  /** The competition does not resolve: no rankings. Otherwise the rankings
      are the accumulated seed rows, reordered, with totals non-increasing
      and every rank one more than the number of rows with a greater total. */
  lemma {:induction false} RankingsShape(cs: seq<Competition>, ps: seq<Participant>, ss: seq<Score>, cid: Id)
    ensures Lookup(cs, CompetitionId, cid).None? ==> Rankings(cs, ps, ss, cid) == []
    ensures Lookup(cs, CompetitionId, cid).Some? ==>
      var c := Lookup(cs, CompetitionId, cid).value;
      var rows := Accumulate(Seed(c.participantIds, ps), Select(ss, ScoreCompetition, cid));
      var r := Rankings(cs, ps, ss, cid);
      multiset(Unranked(r)) == multiset(rows)
      && (forall i, j :: 0 <= i < j < |r| ==> r[i].totalPoints >= r[j].totalPoints)
      && (forall i :: 0 <= i < |r| ==> r[i].rank == 1 + CountAbove(Totals(r), r[i].totalPoints))
  {
    if Lookup(cs, CompetitionId, cid).Some? {
      var c := Lookup(cs, CompetitionId, cid).value;
      UnrankedRows(c.participantIds, ps, Select(ss, ScoreCompetition, cid));
      SortedRanking(Accumulate(Seed(c.participantIds, ps), Select(ss, ScoreCompetition, cid)));
    }
  }

  /** Rows with equal totals keep the order the seed step gave them, since
      the sort is stable. */
  lemma {:induction false} RankingsTieOrder(cs: seq<Competition>, ps: seq<Participant>, ss: seq<Score>, cid: Id, v: int)
    requires Lookup(cs, CompetitionId, cid).Some?
    ensures var c := Lookup(cs, CompetitionId, cid).value;
      Select(Unranked(Rankings(cs, ps, ss, cid)), StandingTotal, v)
      == Select(Accumulate(Seed(c.participantIds, ps), Select(ss, ScoreCompetition, cid)), StandingTotal, v)
  {
    var c := Lookup(cs, CompetitionId, cid).value;
    var rows := Accumulate(Seed(c.participantIds, ps), Select(ss, ScoreCompetition, cid));
    var sorted := SortDesc(rows, StandingTotal);
    UnrankedRows(c.participantIds, ps, Select(ss, ScoreCompetition, cid));
    forall i | 0 <= i < |sorted| ensures sorted[i].rank == 0 {
      assert sorted[i] in multiset(rows);
    }
    UnrankedRanked(sorted);
    SortDescStable(rows, StandingTotal, v);
  }

  /** The row of a participant in the rankings: it belongs to an id of the
      list that resolves, carries that participant's name, team and
      categories, the sum of the points of that participant's scores, and
      per event the points of the last such score. */
  ghost predicate RowOf(r: Standing, pids: seq<Id>, ps: seq<Participant>, css: seq<Score>)
  {
    var mine := Select(css, ScoreParticipant, r.id);
    r.id in pids && Lookup(ps, ParticipantId, r.id).Some?
    && r.name == Lookup(ps, ParticipantId, r.id).value.name
    && r.teamId == Lookup(ps, ParticipantId, r.id).value.teamId
    && r.categoryIds == Lookup(ps, ParticipantId, r.id).value.categoryIds
    && r.totalPoints == SumPoints(mine)
    && (forall e :: e in r.eventPoints <==> LastIndexOf(mine, ScoreEvent, e) >= 0)
    && (forall e :: e in r.eventPoints ==> r.eventPoints[e] == mine[LastIndexOf(mine, ScoreEvent, e)].points)
  }

  lemma {:induction false} AccumulatedRowOf(pids: seq<Id>, ps: seq<Participant>, css: seq<Score>, j: nat)
    requires j < |Accumulate(Seed(pids, ps), css)|
    ensures RowOf(Accumulate(Seed(pids, ps), css)[j], pids, ps, css)
  {
    var seed := Seed(pids, ps);
    AccumulatedRow(seed, css, j);
    SeedRow(pids, ps, j);
  }

  lemma {:induction false} RowOfAnyRank(r: Standing, pids: seq<Id>, ps: seq<Participant>, css: seq<Score>, n: int)
    requires RowOf(r, pids, ps, css)
    ensures RowOf(r.(rank := n), pids, ps, css)
  {
  }

  /** Every row of the rankings is the row of a resolvable participant id
      of the competition, totalled over the competition's scores. */
  lemma {:induction false} RankingsRows(cs: seq<Competition>, ps: seq<Participant>, ss: seq<Score>, cid: Id, i: nat)
    requires Lookup(cs, CompetitionId, cid).Some?
    requires i < |Rankings(cs, ps, ss, cid)|
    ensures RowOf(Rankings(cs, ps, ss, cid)[i], Lookup(cs, CompetitionId, cid).value.participantIds,
                  ps, Select(ss, ScoreCompetition, cid))
  {
    var c := Lookup(cs, CompetitionId, cid).value;
    var css := Select(ss, ScoreCompetition, cid);
    var rows := Accumulate(Seed(c.participantIds, ps), css);
    var sorted := SortDesc(rows, StandingTotal);
    assert Rankings(cs, ps, ss, cid)[i] == sorted[i].(rank := RankAt(Totals(sorted), i));
    assert sorted[i] in multiset(rows);
    var j :| 0 <= j < |rows| && rows[j] == sorted[i];
    AccumulatedRowOf(c.participantIds, ps, css, j);
    RowOfAnyRank(sorted[i], c.participantIds, ps, css, RankAt(Totals(sorted), i));
  }

  /** Every resolvable participant id of the competition has a row in the
      rankings, and no id has two. */
  lemma {:induction false} RankingsCoverIds(cs: seq<Competition>, ps: seq<Participant>, ss: seq<Score>, cid: Id, m: nat)
    requires Lookup(cs, CompetitionId, cid).Some?
    ensures DistinctKeys(Rankings(cs, ps, ss, cid), StandingId)
    ensures var pids := Lookup(cs, CompetitionId, cid).value.participantIds;
      m < |pids| && Lookup(ps, ParticipantId, pids[m]).Some? ==>
        FirstIndexOf(Rankings(cs, ps, ss, cid), StandingId, pids[m]) >= 0
  {
    var c := Lookup(cs, CompetitionId, cid).value;
    var seed := Seed(c.participantIds, ps);
    var rows := Accumulate(seed, Select(ss, ScoreCompetition, cid));
    var sorted := SortDesc(rows, StandingTotal);
    var r := Rankings(cs, ps, ss, cid);
    assert r == RankedInOrder(sorted);
    assert forall a :: 0 <= a < |rows| ==> StandingId(seed[a]) == StandingId(rows[a]);
    assert forall a :: 0 <= a < |r| ==> StandingId(sorted[a]) == StandingId(r[a]);
    var pid := if m < |c.participantIds| then c.participantIds[m] else "";
    if m < |c.participantIds| && Lookup(ps, ParticipantId, pid).Some? {
      SeedCovers(c.participantIds, ps, m);
    }
    KeysThroughSort(seed, rows, sorted, r, StandingId, pid);
  }

  /** Keys kept pointwise, then permuted, then kept pointwise again: the keys
      stay distinct and every key found before is found after. */
  lemma KeysThroughSort<T(!new), K>(seed: seq<T>, rows: seq<T>, sorted: seq<T>, r: seq<T>, key: T -> K, k: K)
    requires DistinctKeys(seed, key)
    requires |rows| == |seed| && forall a :: 0 <= a < |rows| ==> key(seed[a]) == key(rows[a])
    requires multiset(rows) == multiset(sorted)
    requires |r| == |sorted| && forall a :: 0 <= a < |r| ==> key(sorted[a]) == key(r[a])
    ensures DistinctKeys(r, key)
    ensures FirstIndexOf(seed, key, k) >= 0 ==> FirstIndexOf(r, key, k) >= 0
  {
    DistinctKeysSameKeys(seed, rows, key);
    DistinctKeysPermutation(rows, sorted, key);
    DistinctKeysSameKeys(sorted, r, key);
    var a := FirstIndexOf(seed, key, k);
    if a >= 0 {
      assert rows[a] in multiset(sorted);
      var i :| 0 <= i < |sorted| && sorted[i] == rows[a];
      assert key(r[i]) == k;
    }
  }
}
