/** Sequence helpers shared by the record store, the ranking engine and the
    statistics updater. Every collection of the application is an ordered list
    of flat records; these functions look records up by a key, filter them by a
    key, group them last-wins by a key and insert-or-replace them by a key.
    The key is always passed as a named function, so that two uses of the same
    key are the same function value. */
module Collections {

  datatype Option<T> = None | Some(value: T)

  /** PHP treats "" and "0" as false in `!$x` and `empty($x)`; a request
      parameter that is absent is modelled as "". */
  predicate Falsy(s: string)
  {
    s == "" || s == "0"
  }

  /** Index of the first element whose key is `k`, or -1 when there is none. */
  function FirstIndexOf<T, K(==)>(s: seq<T>, key: T -> K, k: K): (i: int)
    ensures -1 <= i < |s|
    ensures i == -1 <==> forall j :: 0 <= j < |s| ==> key(s[j]) != k
    ensures 0 <= i ==> key(s[i]) == k && forall j :: 0 <= j < i ==> key(s[j]) != k
  {
    if s == [] then -1
    else if key(s[0]) == k then 0
    else
      var i := FirstIndexOf(s[1..], key, k);
      if i == -1 then -1 else i + 1
  }

  /** The `foreach ... if (match) { ...; return }` scan of the storage layer. */
  method FindFirst<T, K(==)>(s: seq<T>, key: T -> K, k: K) returns (i: int)
    ensures i == FirstIndexOf(s, key, k)
    ensures 0 <= i ==> key(s[i]) == k
  {
    i := 0;
    while i < |s|
      invariant 0 <= i <= |s|
      invariant forall j :: 0 <= j < i ==> key(s[j]) != k
    {
      if key(s[i]) == k {
        return;
      }
      i := i + 1;
    }
    i := -1;
  }

  /** The first index for a key depends only on the keys of the elements. */
  lemma {:induction false} FirstIndexOfSameKeys<T, K>(a: seq<T>, b: seq<T>, key: T -> K, k: K)
    requires |a| == |b| && forall j :: 0 <= j < |a| ==> key(a[j]) == key(b[j])
    ensures FirstIndexOf(a, key, k) == FirstIndexOf(b, key, k)
  {
    if a != [] && key(a[0]) != k {
      FirstIndexOfSameKeys(a[1..], b[1..], key, k);
    }
  }

  /** Index of the last element whose key is `k`, or -1 when there is none. */
  function LastIndexOf<T, K(==)>(s: seq<T>, key: T -> K, k: K): (i: int)
    ensures -1 <= i < |s|
    ensures i == -1 <==> forall j :: 0 <= j < |s| ==> key(s[j]) != k
    ensures 0 <= i ==> key(s[i]) == k && forall j :: i < j < |s| ==> key(s[j]) != k
  {
    if s == [] then -1
    else if key(s[|s| - 1]) == k then |s| - 1
    else LastIndexOf(s[..|s| - 1], key, k)
  }

  /** The first element whose key is `k` (the `get*($id)` getters). */
  function Lookup<T, K(==)>(s: seq<T>, key: T -> K, k: K): (r: Option<T>)
    ensures r.None? <==> forall j :: 0 <= j < |s| ==> key(s[j]) != k
    ensures r.Some? ==> key(r.value) == k
    ensures r.Some? ==> exists i :: 0 <= i < |s| && s[i] == r.value && forall j :: 0 <= j < i ==> key(s[j]) != k
  {
    var i := FirstIndexOf(s, key, k);
    if i < 0 then None else Some(s[i])
  }

  /** The elements whose key is `k`, in their original order. */
  function Select<T, K(==)>(s: seq<T>, key: T -> K, k: K): (r: seq<T>)
    ensures |r| <= |s|
    ensures forall i :: 0 <= i < |r| ==> key(r[i]) == k
  {
    if s == [] then []
    else (if key(s[0]) == k then [s[0]] else []) + Select(s[1..], key, k)
  }

  /** Select keeps every element with the key as often as it occurs, and no other. */
  lemma {:induction false} SelectMultiset<T, K>(s: seq<T>, key: T -> K, k: K)
    ensures forall x :: multiset(Select(s, key, k))[x] == if key(x) == k then multiset(s)[x] else 0
  {
    if s != [] {
      assert s == [s[0]] + s[1..];
      SelectMultiset(s[1..], key, k);
    }
  }

  /** Selecting distributes over concatenation: the selected elements keep
      their relative order. */
  lemma {:induction false} SelectConcat<T, K>(a: seq<T>, b: seq<T>, key: T -> K, k: K)
    ensures Select(a + b, key, k) == Select(a, key, k) + Select(b, key, k)
  {
    if a == [] {
      assert a + b == b;
    } else {
      assert (a + b)[1..] == a[1..] + b;
      SelectConcat(a[1..], b, key, k);
    }
  }

  /** Nothing is selected when no element carries the key. */
  lemma {:induction false} SelectNone<T, K>(s: seq<T>, key: T -> K, k: K)
    requires forall j :: 0 <= j < |s| ==> key(s[j]) != k
    ensures Select(s, key, k) == []
  {
    if s != [] {
      SelectNone(s[1..], key, k);
    }
  }

  lemma {:induction false} SelectSingle<T, K>(x: T, key: T -> K, k: K)
    ensures Select([x], key, k) == if key(x) == k then [x] else []
  {
    assert [x][1..] == [];
  }

  /** The first element selected for a key is the one the forward scan finds. */
  lemma {:induction false} SelectHeadIsFirst<T, K>(s: seq<T>, key: T -> K, k: K)
    requires FirstIndexOf(s, key, k) >= 0
    ensures Select(s, key, k) != []
    ensures Select(s, key, k)[0] == s[FirstIndexOf(s, key, k)]
  {
    var i := FirstIndexOf(s, key, k);
    SelectUpdate(s, i, s[i], key, k);
    SelectSingle(s[i], key, k);
    assert forall j :: 0 <= j < i ==> s[..i][j] == s[j];
    SelectNone(s[..i], key, k);
  }

  /** Replacing the first element of a key by another of the same key keeps
      it first. */
  lemma {:induction false} FirstIndexOfUpdate<T, K>(s: seq<T>, key: T -> K, k: K, x: T)
    requires FirstIndexOf(s, key, k) >= 0 && key(x) == k
    ensures FirstIndexOf(s[FirstIndexOf(s, key, k) := x], key, k) == FirstIndexOf(s, key, k)
  {
    var i := FirstIndexOf(s, key, k);
    var r := s[i := x];
    assert forall j :: 0 <= j < i ==> r[j] == s[j];
    assert key(r[i]) == k;
  }

  /** Some element carries every key that selects something. */
  lemma {:induction false} SelectSomeFound<T, K>(s: seq<T>, key: T -> K, k: K)
    requires Select(s, key, k) != []
    ensures FirstIndexOf(s, key, k) >= 0
  {
    if FirstIndexOf(s, key, k) < 0 {
      SelectNone(s, key, k);
      assert false;
    }
  }

  /** At most one element per key. */
  ghost predicate UniqueKeys<T, K>(s: seq<T>, key: T -> K)
  {
    forall i :: 0 <= i < |s| ==> |Select(s, key, key(s[i]))| <= 1
  }

  /** Two permutations of each other select the same elements for every key. */
  lemma {:induction false} SelectPermutation<T(!new), K>(a: seq<T>, b: seq<T>, key: T -> K, k: K)
    requires multiset(a) == multiset(b)
    ensures multiset(Select(a, key, k)) == multiset(Select(b, key, k))
    ensures |Select(a, key, k)| == |Select(b, key, k)|
  {
    var ra, rb := Select(a, key, k), Select(b, key, k);
    SelectMultiset(a, key, k);
    SelectMultiset(b, key, k);
    assert forall x :: multiset(ra)[x] == multiset(rb)[x];
    assert multiset(ra) == multiset(rb);
    assert |ra| == |multiset(ra)| == |multiset(rb)| == |rb|;
  }

  /** Key uniqueness does not depend on the order of the elements. */
  lemma {:induction false} UniqueKeysPermutation<T(!new), K>(a: seq<T>, b: seq<T>, key: T -> K)
    requires multiset(a) == multiset(b)
    requires UniqueKeys(a, key)
    ensures UniqueKeys(b, key)
  {
    forall i | 0 <= i < |b| ensures |Select(b, key, key(b[i]))| <= 1 {
      assert b[i] in multiset(a);
      var j :| 0 <= j < |a| && a[j] == b[i];
      SelectPermutation(a, b, key, key(b[i]));
    }
  }

  /** Insert-or-replace by key: the first element with the key of `x` is
      replaced by `x` at the same index; when there is none, `x` is appended. */
  function Upsert<T, K(==)>(s: seq<T>, key: T -> K, x: T): (r: seq<T>)
    ensures x in r
    ensures |r| == |s| <==> FirstIndexOf(s, key, key(x)) >= 0
    ensures |r| == |s| || |r| == |s| + 1
    ensures forall j :: 0 <= j < |s| && key(s[j]) != key(x) ==> r[j] == s[j]
  {
    var i := FirstIndexOf(s, key, key(x));
    if i < 0 then s + [x] else assert s[i := x][i] == x; s[i := x]
  }

  /** Replacing an element changes only what is selected for the old and the
      new element's keys. */
  lemma {:induction false} SelectUpdate<T, K>(s: seq<T>, i: nat, x: T, key: T -> K, k: K)
    requires i < |s|
    ensures Select(s[i := x], key, k)
         == Select(s[..i], key, k) + Select([x], key, k) + Select(s[i + 1..], key, k)
    ensures Select(s, key, k)
         == Select(s[..i], key, k) + Select([s[i]], key, k) + Select(s[i + 1..], key, k)
  {
    assert s[i := x] == s[..i] + [x] + s[i + 1..];
    assert s == s[..i] + [s[i]] + s[i + 1..];
    SelectConcat(s[..i] + [x], s[i + 1..], key, k);
    SelectConcat(s[..i], [x], key, k);
    SelectConcat(s[..i] + [s[i]], s[i + 1..], key, k);
    SelectConcat(s[..i], [s[i]], key, k);
  }

  /** Upsert leaves the elements of every other key untouched and in order. */
  lemma {:induction false} UpsertOtherKeys<T, K>(s: seq<T>, key: T -> K, x: T, k: K)
    requires k != key(x)
    ensures Select(Upsert(s, key, x), key, k) == Select(s, key, k)
  {
    var i := FirstIndexOf(s, key, key(x));
    SelectSingle(x, key, k);
    if i < 0 {
      SelectConcat(s, [x], key, k);
    } else {
      SelectUpdate(s, i, x, key, k);
      SelectSingle(s[i], key, k);
    }
  }

  /** If the key of `x` was held by at most one element, afterwards it is held
      by exactly one: `x` itself. */
  lemma {:induction false} UpsertOwnKey<T, K>(s: seq<T>, key: T -> K, x: T)
    requires |Select(s, key, key(x))| <= 1
    ensures Select(Upsert(s, key, x), key, key(x)) == [x]
  {
    var k := key(x);
    var i := FirstIndexOf(s, key, k);
    SelectSingle(x, key, k);
    if i < 0 {
      SelectConcat(s, [x], key, k);
      SelectNone(s, key, k);
    } else {
      SelectUpdate(s, i, x, key, k);
      SelectSingle(s[i], key, k);
      assert forall j :: 0 <= j < i ==> s[..i][j] == s[j];
      SelectNone(s[..i], key, k);
      assert |Select(s[i + 1..], key, k)| == 0;
    }
  }

  /** Upsert preserves "at most one element per key" and leaves exactly one
      element, `x`, with the key of `x`. */
  lemma {:induction false} UpsertUnique<T, K>(s: seq<T>, key: T -> K, x: T)
    requires UniqueKeys(s, key)
    ensures UniqueKeys(Upsert(s, key, x), key)
    ensures Select(Upsert(s, key, x), key, key(x)) == [x]
  {
    var r := Upsert(s, key, x);
    var i := FirstIndexOf(s, key, key(x));
    if i < 0 {
      SelectNone(s, key, key(x));
    }
    UpsertOwnKey(s, key, x);
    forall j | 0 <= j < |r| ensures |Select(r, key, key(r[j]))| <= 1 {
      if key(r[j]) != key(x) {
        UpsertOtherKeys(s, key, x, key(r[j]));
        assert r[j] == s[j];
      }
    }
  }

  /** Writing the same element twice is the same as writing it once. */
  lemma {:induction false} UpsertIdempotent<T, K>(s: seq<T>, key: T -> K, x: T)
    ensures Upsert(Upsert(s, key, x), key, x) == Upsert(s, key, x)
  {
    var i := FirstIndexOf(s, key, key(x));
    var r := Upsert(s, key, x);
    if i < 0 {
      assert r[|s|] == x;
      assert FirstIndexOf(r, key, key(x)) == |s|;
    } else {
      assert forall j :: 0 <= j < i ==> r[j] == s[j];
      assert r[i] == x;
    }
  }

  /** The only sequence holding exactly one `x` and nothing else is `[x]`. */
  lemma SingletonMultiset<T>(s: seq<T>, x: T)
    requires multiset(s) == multiset{x}
    ensures s == [x]
  {
    assert |s| == |multiset(s)| == 1;
    assert s[0] in multiset(s);
  }

  /** Writing an element where it already is changes nothing. */
  lemma UpdateSame<T>(s: seq<T>, i: nat, x: T)
    requires i < |s| && s[i] == x
    ensures s[i := x] == s
  {
  }

  /** Writing the one element already selected for its key changes nothing. */
  lemma {:induction false} UpsertPresent<T, K>(s: seq<T>, key: T -> K, x: T)
    requires Select(s, key, key(x)) == [x]
    ensures Upsert(s, key, x) == s
  {
    SelectSomeFound(s, key, key(x));
    SelectHeadIsFirst(s, key, key(x));
  }

  /** Map from each key to the LAST element carrying it: the PHP pattern
      `$m[$key] = $element` inside a loop, where later assignments win. */
  function KeyBy<T, K(==,!new)>(s: seq<T>, key: T -> K): (m: map<K, T>)
    ensures forall k :: k in m <==> LastIndexOf(s, key, k) >= 0
    ensures forall k :: k in m ==> m[k] == s[LastIndexOf(s, key, k)]
  {
    if s == [] then map[]
    else KeyBy(s[..|s| - 1], key)[key(s[|s| - 1]) := s[|s| - 1]]
  }

  /** No two elements share a key. */
  ghost predicate DistinctKeys<T, K>(s: seq<T>, key: T -> K)
  {
    forall a, b :: 0 <= a < b < |s| ==> key(s[a]) != key(s[b])
  }

  /** Distinct keys depend only on the keys of the elements. */
  lemma DistinctKeysSameKeys<T, K>(a: seq<T>, b: seq<T>, key: T -> K)
    requires DistinctKeys(a, key)
    requires |a| == |b| && forall j :: 0 <= j < |a| ==> key(a[j]) == key(b[j])
    ensures DistinctKeys(b, key)
  {
  }

  /** With distinct keys, the element found for a key is the only one. */
  lemma {:induction false} DistinctKeysFirst<T, K>(s: seq<T>, key: T -> K, j: nat)
    requires DistinctKeys(s, key) && j < |s|
    ensures FirstIndexOf(s, key, key(s[j])) == j
  {
  }

  /** Every element after an upsert is `x` or the element that was there. */
  lemma {:induction false} UpsertShape<T, K>(s: seq<T>, key: T -> K, x: T)
    ensures |Upsert(s, key, x)| >= |s|
    ensures forall j :: 0 <= j < |Upsert(s, key, x)| ==>
      Upsert(s, key, x)[j] == x || (j < |s| && Upsert(s, key, x)[j] == s[j])
  {
  }

  /** A key that was present stays present after an upsert, and so is the
      key of the upserted element. */
  lemma {:induction false} UpsertFinds<T, K>(s: seq<T>, key: T -> K, x: T, k: K)
    requires FirstIndexOf(s, key, k) >= 0 || k == key(x)
    ensures FirstIndexOf(Upsert(s, key, x), key, k) >= 0
  {
    var r := Upsert(s, key, x);
    if k == key(x) {
      var i := FirstIndexOf(s, key, key(x));
      if i < 0 {
        assert key(r[|s|]) == k;
      } else {
        assert key(r[i]) == k;
      }
    } else {
      var i := FirstIndexOf(s, key, k);
      assert key(r[i]) == k;
    }
  }

  /** Upserting keeps keys distinct. */
  lemma {:induction false} UpsertDistinct<T, K>(s: seq<T>, key: T -> K, x: T)
    requires DistinctKeys(s, key)
    ensures DistinctKeys(Upsert(s, key, x), key)
  {
  }

  /** Two elements sharing a key are both selected for it. */
  lemma {:induction false} TwoWithKey<T, K>(s: seq<T>, key: T -> K, a: nat, b: nat)
    requires a < b < |s| && key(s[a]) == key(s[b])
    ensures |Select(s, key, key(s[b]))| >= 2
  {
    var k := key(s[b]);
    SplitAt(s, b, key, k);
    assert key(s[..b][a]) == k;
    SelectHeadIsFirst(s[..b], key, k);
  }

  /** With distinct keys no key selects more than one element. */
  lemma {:induction false} DistinctIsUnique<T, K>(s: seq<T>, key: T -> K, k: K)
    requires DistinctKeys(s, key)
    ensures |Select(s, key, k)| <= 1
  {
    if s != [] {
      assert DistinctKeys(s[1..], key);
      DistinctIsUnique(s[1..], key, k);
      if key(s[0]) == k {
        SelectNone(s[1..], key, k);
      }
    }
  }

  /** Distinct keys do not depend on the order of the elements. */
  lemma {:induction false} DistinctKeysPermutation<T(!new), K>(a: seq<T>, b: seq<T>, key: T -> K)
    requires multiset(a) == multiset(b)
    requires DistinctKeys(a, key)
    ensures DistinctKeys(b, key)
  {
    forall i, j | 0 <= i < j < |b| ensures key(b[i]) != key(b[j]) {
      if key(b[i]) == key(b[j]) {
        TwoWithKey(b, key, i, j);
        SelectPermutation(a, b, key, key(b[j]));
        DistinctIsUnique(a, key, key(b[j]));
        assert false;
      }
    }
  }

  /** The indices of the elements whose key is `k`, ascending. */
  function MatchIndices<T, K(==)>(s: seq<T>, key: T -> K, k: K): (ix: seq<int>)
    ensures forall m :: 0 <= m < |ix| ==> 0 <= ix[m] < |s| && key(s[ix[m]]) == k
    ensures forall m, n :: 0 <= m < n < |ix| ==> ix[m] < ix[n]
    ensures forall j :: 0 <= j < |s| && key(s[j]) == k ==> j in ix
  {
    if s == [] then []
    else
      var init := MatchIndices(s[..|s| - 1], key, k);
      init + (if key(s[|s| - 1]) == k then [|s| - 1] else [])
  }

  /** Select keeps exactly the elements at MatchIndices, in that order: the
      elements with the key, in their original order, and nothing else. */
  lemma {:induction false} SelectIsSubsequence<T, K>(s: seq<T>, key: T -> K, k: K)
    ensures |Select(s, key, k)| == |MatchIndices(s, key, k)|
    ensures forall m :: 0 <= m < |Select(s, key, k)| ==> Select(s, key, k)[m] == s[MatchIndices(s, key, k)[m]]
  {
    if s != [] {
      var init := s[..|s| - 1];
      var last := s[|s| - 1];
      var sel, ix := Select(s, key, k), MatchIndices(s, key, k);
      assert PicksAt(sel, s, ix) by {
        SelectIsSubsequence(init, key, k);
        assert s == init + [last];
        var sel0, ix0 := Select(init, key, k), MatchIndices(init, key, k);
        SelectLast(init, last, key, k);
        assert PicksAt(sel0, init, ix0);
        PicksAtExtend(sel0, init, ix0, last);
        if key(last) == k {
          assert ix == ix0 + [|init|] && sel == sel0 + [last];
        } else {
          assert ix == ix0 && sel == sel0;
        }
      }
    }
  }

  lemma SelectLast<T, K>(init: seq<T>, last: T, key: T -> K, k: K)
    ensures Select(init + [last], key, k) == Select(init, key, k) + (if key(last) == k then [last] else [])
  {
    SelectConcat(init, [last], key, k);
    SelectSingle(last, key, k);
  }

  /** `sel` is the elements of `s` at the indices `ix`. */
  ghost predicate PicksAt<T>(sel: seq<T>, s: seq<T>, ix: seq<int>)
  {
    |sel| == |ix| && forall m :: 0 <= m < |ix| ==> 0 <= ix[m] < |s| && sel[m] == s[ix[m]]
  }

  lemma PicksAtExtend<T>(sel: seq<T>, s: seq<T>, ix: seq<int>, x: T)
    requires PicksAt(sel, s, ix)
    ensures PicksAt(sel, s + [x], ix)
    ensures PicksAt(sel + [x], s + [x], ix + [|s|])
  {
  }

  /** `array_splice($s, $i, 1)`. */
  function RemoveAt<T>(s: seq<T>, i: nat): (r: seq<T>)
    requires i < |s|
    ensures |r| == |s| - 1
    ensures multiset(r) + multiset{s[i]} == multiset(s)
    ensures forall j :: 0 <= j < |r| ==> r[j] == if j < i then s[j] else s[j + 1]
  {
    assert s == s[..i] + [s[i]] + s[i + 1..];
    s[..i] + s[i + 1..]
  }

  /** Removing the first element of a key drops exactly that element from
      its key's selection and leaves every other key's selection as it was. */
  lemma {:induction false} RemoveFirstSelect<T, K>(s: seq<T>, key: T -> K, k: K, k': K)
    requires FirstIndexOf(s, key, k) >= 0
    ensures Select(s, key, k) != []
    ensures Select(RemoveAt(s, FirstIndexOf(s, key, k)), key, k')
         == if k' == k then Select(s, key, k)[1..] else Select(s, key, k')
  {
    var i := FirstIndexOf(s, key, k);
    SelectHeadIsFirst(s, key, k);
    var r := RemoveAt(s, i);
    assert r == s[..i] + s[i + 1..];
    SelectConcat(s[..i], s[i + 1..], key, k');
    SplitAt(s, i, key, k');
    if k' == k {
      assert forall j :: 0 <= j < i ==> s[..i][j] == s[j];
      SelectNone(s[..i], key, k);
    }
  }

  /** Replacing the first element of a key by another with the same key
      puts it at the head of its key's selection and leaves every other
      key's selection as it was. */
  lemma {:induction false} ReplaceFirstSelect<T, K>(s: seq<T>, key: T -> K, k: K, x: T, k': K)
    requires FirstIndexOf(s, key, k) >= 0 && key(x) == k
    ensures Select(s, key, k) != []
    ensures Select(s[FirstIndexOf(s, key, k) := x], key, k')
         == if k' == k then [x] + Select(s, key, k)[1..] else Select(s, key, k')
  {
    var i := FirstIndexOf(s, key, k);
    SelectHeadIsFirst(s, key, k);
    SelectUpdate(s, i, x, key, k');
    SelectSingle(s[i], key, k');
    SelectSingle(x, key, k');
    if k' == k {
      assert forall j :: 0 <= j < i ==> s[..i][j] == s[j];
      SelectNone(s[..i], key, k);
    }
  }

  /** The selection of `s` split around index `i`. */
  lemma {:induction false} SplitAt<T, K>(s: seq<T>, i: nat, key: T -> K, k: K)
    requires i < |s|
    ensures Select(s, key, k)
         == Select(s[..i], key, k) + (if key(s[i]) == k then [s[i]] else []) + Select(s[i + 1..], key, k)
  {
    SelectUpdate(s, i, s[i], key, k);
    SelectSingle(s[i], key, k);
  }

  /** The records the ids resolve to, in the order of the ids; an id that
      resolves to nothing is skipped and a repeated id is repeated (the
      `foreach ($ids as $id) { if ($x = get($id)) $list[] = $x; }` loops). */
  function ResolveAll<T, K(==)>(ids: seq<K>, s: seq<T>, key: T -> K): (r: seq<T>)
    ensures |r| <= |ids|
    ensures forall m :: 0 <= m < |r| ==> r[m] in s
  {
    if ids == [] then []
    else
      var init := ResolveAll(ids[..|ids| - 1], s, key);
      match Lookup(s, key, ids[|ids| - 1])
      case None => init
      case Some(x) => init + [x]
  }

  /** Every resolved record comes from an id of the list, and every id of
      the list that resolves contributes the record it resolves to. */
  lemma {:induction false} ResolveAllMembers<T, K>(ids: seq<K>, s: seq<T>, key: T -> K)
    ensures forall m :: 0 <= m < |ResolveAll(ids, s, key)| ==> key(ResolveAll(ids, s, key)[m]) in ids
    ensures forall k :: k in ids && Lookup(s, key, k).Some? ==> Lookup(s, key, k).value in ResolveAll(ids, s, key)
  {
    if ids != [] {
      var init := ids[..|ids| - 1];
      ResolveAllMembers(init, s, key);
      assert ids == init + [ids[|ids| - 1]];
    }
  }

  /** The resolving loop itself. */
  method ResolveLoop<T, K(==)>(ids: seq<K>, s: seq<T>, key: T -> K) returns (r: seq<T>)
    ensures r == ResolveAll(ids, s, key)
  {
    r := [];
    for i := 0 to |ids|
      invariant r == ResolveAll(ids[..i], s, key)
    {
      assert ids[..i + 1][..i] == ids[..i];
      var x := Lookup(s, key, ids[i]);
      if x.Some? {
        r := r + [x.value];
      }
    }
    assert ids[..|ids|] == ids;
  }

  /** Every id that resolves contributes its record, and only such ids do. */
  lemma {:induction false} ResolveAllCount<T, K>(ids: seq<K>, s: seq<T>, key: T -> K)
    ensures |ResolveAll(ids, s, key)| == |Select(ids, (k: K) => Lookup(s, key, k).Some?, true)|
  {
    if ids != [] {
      var init := ids[..|ids| - 1];
      ResolveAllCount(init, s, key);
      assert ids == init + [ids[|ids| - 1]];
      SelectConcat(init, [ids[|ids| - 1]], (k: K) => Lookup(s, key, k).Some?, true);
      SelectSingle(ids[|ids| - 1], (k: K) => Lookup(s, key, k).Some?, true);
    }
  }
}
