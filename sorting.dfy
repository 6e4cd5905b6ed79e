/** PHP 8's `usort` is a stable sort; every `usort` of the core compares one
    integer key (`$b['total_points'] - $a['total_points']`, a date, an event's
    points). It is modelled here as a stable insertion sort, largest key first.
    An ascending sort is the same sort on the negated key. */
module Sorting {
  import opened Collections

  /** Non-increasing order of `key`. */
  ghost predicate SortedDesc<T>(s: seq<T>, key: T -> int)
  {
    forall i, j :: 0 <= i < j < |s| ==> key(s[i]) >= key(s[j])
  }

  /** Puts `x` in front of the first element whose key is not greater than
      its own, so that `x` precedes the elements it ties with. */
  function Insert<T>(x: T, s: seq<T>, key: T -> int): (r: seq<T>)
    ensures multiset(r) == multiset{x} + multiset(s)
    ensures |r| == |s| + 1
  {
    if s == [] then [x]
    else if key(x) >= key(s[0]) then [x] + s
    else
      assert s == [s[0]] + s[1..];
      [s[0]] + Insert(x, s[1..], key)
  }

  lemma {:induction false} InsertSorted<T>(x: T, s: seq<T>, key: T -> int)
    requires SortedDesc(s, key)
    ensures SortedDesc(Insert(x, s, key), key)
  {
    if s != [] && key(x) < key(s[0]) {
      var t := Insert(x, s[1..], key);
      InsertSorted(x, s[1..], key);
      assert forall j :: 0 <= j < |t| ==> key(t[j]) <= key(s[0]) by {
        forall j | 0 <= j < |t| ensures key(t[j]) <= key(s[0]) {
          assert t[j] in multiset(t);
          if t[j] != x {
            assert t[j] in multiset(s[1..]);
            var m :| 0 <= m < |s[1..]| && s[1..][m] == t[j];
            assert s[m + 1] == t[j];
          }
        }
      }
      ConsSorted(s[0], t, key);
    }
  }

  /** A head with a key at least every key of a sorted tail keeps it sorted. */
  lemma ConsSorted<T>(h: T, t: seq<T>, key: T -> int)
    requires SortedDesc(t, key)
    requires forall j :: 0 <= j < |t| ==> key(t[j]) <= key(h)
    ensures SortedDesc([h] + t, key)
  {
    var r := [h] + t;
    forall i, j | 0 <= i < j < |r| ensures key(r[i]) >= key(r[j]) {
      assert r[j] == t[j - 1];
      if i > 0 {
        assert r[i] == t[i - 1];
      }
    }
  }

  lemma MultisetCons<T>(s: seq<T>)
    requires s != []
    ensures multiset(s) == multiset{s[0]} + multiset(s[1..])
  {
    assert s == [s[0]] + s[1..];
  }

  /** The stable sort, largest key first. */
  function SortDesc<T>(s: seq<T>, key: T -> int): (r: seq<T>)
    ensures SortedDesc(r, key)
    ensures multiset(r) == multiset(s)
    ensures |r| == |s|
  {
    if s == [] then []
    else
      var t := SortDesc(s[1..], key);
      InsertSorted(s[0], t, key);
      MultisetCons(s);
      Insert(s[0], t, key)
  }

  /** Inserting an element adds it to the elements of its own key, in front. */
  lemma {:induction false} InsertStable<T>(x: T, s: seq<T>, key: T -> int, v: int)
    ensures Select(Insert(x, s, key), key, v)
         == (if key(x) == v then [x] else []) + Select(s, key, v)
  {
    SelectSingle(x, key, v);
    if s == [] {
    } else if key(x) >= key(s[0]) {
      SelectConcat([x], s, key, v);
    } else {
      InsertStable(x, s[1..], key, v);
      InsertBehind(x, s, key, v);
    }
  }

  /** The step of InsertStable where `x` goes behind the head of `s`. */
  lemma {:induction false} InsertBehind<T>(x: T, s: seq<T>, key: T -> int, v: int)
    requires s != [] && key(x) < key(s[0])
    requires Select(Insert(x, s[1..], key), key, v)
          == (if key(x) == v then [x] else []) + Select(s[1..], key, v)
    ensures Select(Insert(x, s, key), key, v)
         == (if key(x) == v then [x] else []) + Select(s, key, v)
  {
    var t := Insert(x, s[1..], key);
    var r := [s[0]] + t;
    assert Insert(x, s, key) == r;
    assert r[0] == s[0] && r[1..] == t;
    assert Select(r, key, v) == (if key(s[0]) == v then [s[0]] else []) + Select(t, key, v);
    assert Select(s, key, v) == (if key(s[0]) == v then [s[0]] else []) + Select(s[1..], key, v);
    var rest := Select(s[1..], key, v);
    if key(s[0]) == v {
      assert Select(t, key, v) == rest;
      assert Select(r, key, v) == [s[0]] + rest;
      assert Select(s, key, v) == [s[0]] + rest;
      assert (if key(x) == v then [x] else []) == [];
    } else if key(x) == v {
      assert Select(r, key, v) == [x] + rest;
      assert Select(s, key, v) == rest;
    } else {
      assert Select(r, key, v) == rest;
      assert Select(s, key, v) == rest;
    }
  }

  /** Stability: for every key value, the elements carrying it appear in the
      sorted sequence in exactly their original order. */
  lemma {:induction false} SortDescStable<T>(s: seq<T>, key: T -> int, v: int)
    ensures Select(SortDesc(s, key), key, v) == Select(s, key, v)
  {
    if s != [] {
      SortDescStable(s[1..], key, v);
      InsertStable(s[0], SortDesc(s[1..], key), key, v);
    }
  }

  /** Sorting a sequence that is already sorted changes nothing. */
  lemma {:induction false} SortDescOfSorted<T>(s: seq<T>, key: T -> int)
    requires SortedDesc(s, key)
    ensures SortDesc(s, key) == s
  {
    if s != [] {
      assert SortedDesc(s[1..], key);
      SortDescOfSorted(s[1..], key);
      assert s == [s[0]] + s[1..];
    }
  }
}
