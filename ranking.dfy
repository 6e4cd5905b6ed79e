/** Competition ranking ("1, 1, 3"), as computed by the counter loop that the
    scoreboard runs over a list already sorted best first: in
    `calculateRankings`, again over the category-filtered rankings, and once
    more per row of the event page. The loop keeps `$rank`, the previous value
    and `$sameRankCount`; this module states what it computes and proves that,
    on a non-increasing list, the rank of an entry is one more than the number
    of entries with a strictly greater value. */
module Ranking {

  ghost predicate NonIncreasing(v: seq<int>)
  {
    forall i, j :: 0 <= i < j < |v| ==> v[i] >= v[j]
  }

  /** Length of the run of equal values that ends at index `i`: the value of
      `$sameRankCount` once index `i` has been processed. */
  function RunLength(v: seq<int>, i: nat): (n: nat)
    requires i < |v|
    ensures 1 <= n <= i + 1
    ensures forall j :: i + 1 - n <= j <= i ==> v[j] == v[i]
    ensures i + 1 - n > 0 ==> v[i - n] != v[i]
  {
    if i == 0 then 1
    else if v[i] == v[i - 1] then RunLength(v, i - 1) + 1
    else 1
  }

  /** The rank the loop gives index `i`: 1 for the first entry; unchanged
      when the value does not drop; advanced by the size of the preceding
      run of equal values when it drops. */
  function RankAt(v: seq<int>, i: nat): (r: int)
    requires i < |v|
    ensures 1 <= r
  {
    if i == 0 then 1
    else if v[i] < v[i - 1] then RankAt(v, i - 1) + RunLength(v, i - 1)
    else RankAt(v, i - 1)
  }

  /** A rank never passes the position: together with the run of equal
      values ending there it fits in the first `i + 1` entries, so the rank
      is at most `i + 1`. */
  lemma {:induction false} RankAtBound(v: seq<int>, i: nat)
    requires i < |v|
    ensures RankAt(v, i) + RunLength(v, i) <= i + 2
    ensures RankAt(v, i) <= i + 1
  {
    if i > 0 {
      RankAtBound(v, i - 1);
    }
  }

  /** Number of values strictly greater than `x`. */
  function CountAbove(v: seq<int>, x: int): (n: nat)
    ensures n <= |v|
  {
    if v == [] then 0 else (if v[0] > x then 1 else 0) + CountAbove(v[1..], x)
  }

  /** Number of values equal to `x`. */
  function CountEqual(v: seq<int>, x: int): (n: nat)
    ensures n <= |v|
  {
    if v == [] then 0 else (if v[0] == x then 1 else 0) + CountEqual(v[1..], x)
  }

  /** The loop of the source, over the values of the entries in list order.
      The PHP keeps `$prevPoints` as null before the first entry. */
  method RankLoop(values: seq<int>) returns (ranks: seq<int>)
    ensures |ranks| == |values|
    ensures forall i :: 0 <= i < |values| ==> ranks[i] == RankAt(values, i)
    ensures NonIncreasing(values) ==>
      forall i :: 0 <= i < |values| ==> ranks[i] == 1 + CountAbove(values, values[i])
  {
    var rank := 1;
    var prev: int := 0;
    var started := false;
    var sameRankCount := 0;
    ranks := [];
    for i := 0 to |values|
      invariant |ranks| == i
      invariant forall j :: 0 <= j < i ==> ranks[j] == RankAt(values, j)
      invariant started <==> i > 0
      invariant i > 0 ==> prev == values[i - 1] && rank == RankAt(values, i - 1)
                          && sameRankCount == RunLength(values, i - 1)
      invariant i == 0 ==> rank == 1
    {
      var points := values[i];
      if started && points < prev {
        rank := rank + sameRankCount;
        sameRankCount := 1;
      } else if started && points == prev {
        sameRankCount := sameRankCount + 1;
      } else {
        sameRankCount := 1;
      }
      assert rank == RankAt(values, i) && sameRankCount == RunLength(values, i);
      RanksExtend(values, ranks, rank);
      ranks := ranks + [rank];
      prev := points;
      started := true;
    }
    RanksCountHigher(values, ranks);
  }

  /** One more rank of the loop, the one for the next index. */
  lemma RanksExtend(values: seq<int>, ranks: seq<int>, rank: int)
    requires |ranks| < |values|
    requires forall j :: 0 <= j < |ranks| ==> ranks[j] == RankAt(values, j)
    requires rank == RankAt(values, |ranks|)
    ensures forall j :: 0 <= j <= |ranks| ==> (ranks + [rank])[j] == RankAt(values, j)
  {
  }

  lemma {:induction false} RanksCountHigher(values: seq<int>, ranks: seq<int>)
    requires |ranks| == |values|
    requires forall i :: 0 <= i < |values| ==> ranks[i] == RankAt(values, i)
    ensures NonIncreasing(values) ==>
      forall i :: 0 <= i < |values| ==> ranks[i] == 1 + CountAbove(values, values[i])
  {
    if NonIncreasing(values) {
      forall i | 0 <= i < |values| ensures ranks[i] == 1 + CountAbove(values, values[i]) {
        RankCountsHigher(values, i);
      }
    }
  }

  /** On a non-increasing list the rank is one more than the index where the
      run of equal values containing `i` starts. */
  lemma {:induction false} RankAtStartOfRun(v: seq<int>, i: nat)
    requires NonIncreasing(v)
    requires i < |v|
    ensures RankAt(v, i) == i + 2 - RunLength(v, i)
  {
    if i > 0 {
      RankAtStartOfRun(v, i - 1);
    }
  }

  lemma {:induction false} CountAboveConcat(a: seq<int>, b: seq<int>, x: int)
    ensures CountAbove(a + b, x) == CountAbove(a, x) + CountAbove(b, x)
  {
    if a == [] {
      assert a + b == b;
    } else {
      assert (a + b)[1..] == a[1..] + b;
      CountAboveConcat(a[1..], b, x);
    }
  }

  lemma {:induction false} CountAboveAll(v: seq<int>, x: int)
    requires forall j :: 0 <= j < |v| ==> v[j] > x
    ensures CountAbove(v, x) == |v|
  {
    if v != [] {
      CountAboveAll(v[1..], x);
    }
  }

  lemma {:induction false} CountAboveNone(v: seq<int>, x: int)
    requires forall j :: 0 <= j < |v| ==> v[j] <= x
    ensures CountAbove(v, x) == 0
  {
    if v != [] {
      CountAboveNone(v[1..], x);
    }
  }

  lemma {:induction false} CountEqualConcat(a: seq<int>, b: seq<int>, x: int)
    ensures CountEqual(a + b, x) == CountEqual(a, x) + CountEqual(b, x)
  {
    if a == [] {
      assert a + b == b;
    } else {
      assert (a + b)[1..] == a[1..] + b;
      CountEqualConcat(a[1..], b, x);
    }
  }

  lemma {:induction false} CountEqualAll(v: seq<int>, x: int)
    requires forall j :: 0 <= j < |v| ==> v[j] == x
    ensures CountEqual(v, x) == |v|
  {
    if v != [] {
      CountEqualAll(v[1..], x);
    }
  }

  lemma {:induction false} CountEqualNone(v: seq<int>, x: int)
    requires forall j :: 0 <= j < |v| ==> v[j] != x
    ensures CountEqual(v, x) == 0
  {
    if v != [] {
      CountEqualNone(v[1..], x);
    }
  }

  /** The values before the run containing `i` are greater than `v[i]`. */
  lemma {:induction false} BeforeRunGreater(v: seq<int>, i: nat)
    requires NonIncreasing(v)
    requires i < |v|
    ensures forall j :: 0 <= j < i + 1 - RunLength(v, i) ==> v[j] > v[i]
  {
    var start := i + 1 - RunLength(v, i);
    if start > 0 {
      assert v[start - 1] != v[i] && v[start - 1] >= v[i];
      forall j | 0 <= j < start ensures v[j] > v[i] {
        assert v[j] >= v[start - 1];
      }
    }
  }

  /** The values from the start of the run containing `i` on are not greater
      than `v[i]`. */
  lemma {:induction false} FromRunNotGreater(v: seq<int>, i: nat)
    requires NonIncreasing(v)
    requires i < |v|
    ensures forall j :: i + 1 - RunLength(v, i) <= j < |v| ==> v[j] <= v[i]
  {
    forall j | i + 1 - RunLength(v, i) <= j < |v| ensures v[j] <= v[i] {
      if j > i {
        assert v[i] >= v[j];
      }
    }
  }

  /** A list whose first `k` values exceed `x` and whose others do not has
      `k` values above `x`. */
  lemma {:induction false} CountAboveSplit(v: seq<int>, x: int, k: nat)
    requires k <= |v|
    requires forall j :: 0 <= j < k ==> v[j] > x
    requires forall j :: k <= j < |v| ==> v[j] <= x
    ensures CountAbove(v, x) == k
  {
    if v != [] {
      if k == 0 {
        CountAboveNone(v, x);
      } else {
        CountAboveSplit(v[1..], x, k - 1);
      }
    }
  }

  /** The number of values greater than `v[i]` is the index where its run
      starts. */
  lemma {:induction false} CountAboveIsStartOfRun(v: seq<int>, i: nat)
    requires NonIncreasing(v)
    requires i < |v|
    ensures CountAbove(v, v[i]) == i + 1 - RunLength(v, i)
  {
    BeforeRunGreater(v, i);
    FromRunNotGreater(v, i);
    CountAboveSplit(v, v[i], i + 1 - RunLength(v, i));
  }

  /** The rank the loop assigns to an entry of a non-increasing list is one
      more than the number of entries with a strictly greater value. */
  lemma {:induction false} RankCountsHigher(v: seq<int>, i: nat)
    requires NonIncreasing(v)
    requires i < |v|
    ensures RankAt(v, i) == 1 + CountAbove(v, v[i])
  {
    RankAtStartOfRun(v, i);
    CountAboveIsStartOfRun(v, i);
  }

  /** Where the value drops, the rank advances by the size of the whole group
      of entries that tie with the previous entry. */
  lemma {:induction false} TieGroupSize(v: seq<int>, i: nat)
    requires NonIncreasing(v)
    requires 0 < i < |v| && v[i] < v[i - 1]
    ensures RankAt(v, i) == RankAt(v, i - 1) + CountEqual(v, v[i - 1])
  {
    var start := i - RunLength(v, i - 1);
    var x := v[i - 1];
    BeforeRunGreater(v, i - 1);
    forall j | i <= j < |v| ensures v[j] != x {
      assert v[i] >= v[j];
    }
    CountEqualRun(v, x, start, i);
  }

  /** A list holding `x` exactly at the indices `lo` to `hi - 1` holds it
      `hi - lo` times. */
  lemma {:induction false} CountEqualRun(v: seq<int>, x: int, lo: nat, hi: nat)
    requires lo <= hi <= |v|
    requires forall j :: 0 <= j < lo ==> v[j] != x
    requires forall j :: lo <= j < hi ==> v[j] == x
    requires forall j :: hi <= j < |v| ==> v[j] != x
    ensures CountEqual(v, x) == hi - lo
  {
    if v != [] {
      if lo > 0 {
        CountEqualRun(v[1..], x, lo - 1, hi - 1);
      } else if hi > 0 {
        CountEqualRun(v[1..], x, 0, hi - 1);
      } else {
        CountEqualNone(v, x);
      }
    }
  }

  /** Ties share a rank, and a strictly greater value has a strictly better
      (smaller) rank. */
  lemma {:induction false} RanksFollowValues(v: seq<int>, i: nat, j: nat)
    requires NonIncreasing(v)
    requires i < |v| && j < |v|
    ensures v[i] == v[j] ==> RankAt(v, i) == RankAt(v, j)
    ensures v[i] > v[j] ==> RankAt(v, i) < RankAt(v, j)
  {
    RankCountsHigher(v, i);
    RankCountsHigher(v, j);
    RankAtStartOfRun(v, i);
    RankAtStartOfRun(v, j);
    if v[i] > v[j] {
      assert i < j;
      var start := j + 1 - RunLength(v, j);
      assert start > i;
    }
  }
}
