/**
 * The sequence operations of Rust's `Vec` and of the `itertools` crate that the
 * help popup relies on: a stable sort by key (`sort_by_key`, `sorted_by_key`),
 * removal of consecutive duplicates (`dedup_by_key`) and grouping of
 * consecutive elements with equal keys (`group_by`), with the properties
 * their documentation promises.
 */
module Sequences {
  import opened Orders

  /** The elements of `s` whose key is `k`, in their order in `s`. */
  function Filter<T, K(==)>(s: seq<T>, key: T -> K, k: K): (r: seq<T>)
    ensures |r| <= |s|
    ensures forall x :: x in r ==> x in s && key(x) == k
  {
    if s == [] then [] else (if key(s[0]) == k then [s[0]] else []) + Filter(s[1..], key, k)
  }

  /** The first element of `s` alone, or nothing when `s` is empty. */
  function FirstOnly<T>(s: seq<T>): (r: seq<T>)
    ensures |r| == if s == [] then 0 else 1
    ensures s != [] ==> r[0] == s[0]
  {
    if s == [] then [] else [s[0]]
  }

  function Flatten<T>(runs: seq<seq<T>>): seq<T> {
    if runs == [] then [] else runs[0] + Flatten(runs[1..])
  }

  lemma {:induction false} FilterAppend<T, K>(a: seq<T>, b: seq<T>, key: T -> K, k: K)
    ensures Filter(a + b, key, k) == Filter(a, key, k) + Filter(b, key, k)
    decreases |a|
  {
    if a == [] {
      assert a + b == b;
    } else {
      assert (a + b)[1..] == a[1..] + b;
      FilterAppend(a[1..], b, key, k);
    }
  }

  lemma {:induction false} FilterContains<T, K>(s: seq<T>, key: T -> K, x: T)
    requires x in s
    ensures x in Filter(s, key, key(x))
    decreases |s|
  {
    if s[0] != x {
      FilterContains(s[1..], key, x);
    }
  }

  /** An element whose key does not occur before it is the first of its key. */
  lemma {:induction false} FilterFirst<T, K>(s: seq<T>, key: T -> K, i: nat)
    requires i < |s|
    requires forall j :: 0 <= j < i ==> key(s[j]) != key(s[i])
    ensures Filter(s, key, key(s[i])) != [] && Filter(s, key, key(s[i]))[0] == s[i]
    decreases i
  {
    if i > 0 {
      FilterFirst(s[1..], key, i - 1);
    }
  }

  // ---------------------------------------------------------------------------
  // Stable sort by key
  // ---------------------------------------------------------------------------

  /** No element has a key below that of an element before it. */
  ghost predicate SortedBy<T, K>(s: seq<T>, key: T -> K, lt: (K, K) -> bool) {
    forall i, j :: 0 <= i < j < |s| ==> !lt(key(s[j]), key(s[i]))
  }

  /** Keys strictly increase along `s`. */
  ghost predicate StrictlySortedBy<T, K>(s: seq<T>, key: T -> K, lt: (K, K) -> bool) {
    forall i, j :: 0 <= i < j < |s| ==> lt(key(s[i]), key(s[j]))
  }

  /** Every element of `s` is `before` every later one. */
  ghost predicate Chained<T>(s: seq<T>, before: (T, T) -> bool) {
    forall i, j :: 0 <= i < j < |s| ==> before(s[i], s[j])
  }

  /** Sorted by key, and ties are in the order `before`. */
  ghost predicate LexSortedBy<T, K>(s: seq<T>, key: T -> K, lt: (K, K) -> bool, before: (T, T) -> bool) {
    forall i, j :: 0 <= i < j < |s| ==>
      lt(key(s[i]), key(s[j])) || (key(s[i]) == key(s[j]) && before(s[i], s[j]))
  }

  /** Places `x` in the sorted `s` in front of the first element whose key is not below its own. */
  function Insert<T, K>(x: T, s: seq<T>, key: T -> K, lt: (K, K) -> bool): (r: seq<T>)
    ensures multiset(r) == multiset(s) + multiset{x}
    ensures |r| == |s| + 1
  {
    if s == [] || !lt(key(s[0]), key(x)) then [x] + s
    else
      assert s == [s[0]] + s[1..];
      [s[0]] + Insert(x, s[1..], key, lt)
  }

  /** Stable insertion sort by `key`: Rust's `sort_by_key` and itertools' `sorted_by_key`. */
  function SortBy<T, K>(s: seq<T>, key: T -> K, lt: (K, K) -> bool): (r: seq<T>)
    ensures multiset(r) == multiset(s)
    ensures |r| == |s|
  {
    if s == [] then []
    else
      assert s == [s[0]] + s[1..];
      Insert(s[0], SortBy(s[1..], key, lt), key, lt)
  }

  lemma {:induction false} InsertSorted<T, K(!new)>(x: T, s: seq<T>, key: T -> K, lt: (K, K) -> bool)
    requires StrictTotalOrder(lt) && SortedBy(s, key, lt)
    ensures SortedBy(Insert(x, s, key, lt), key, lt)
    decreases |s|
  {
    var r := Insert(x, s, key, lt);
    if s == [] || !lt(key(s[0]), key(x)) {
      forall j | 0 < j < |r| ensures !lt(key(r[j]), key(x)) {
        assert r[j] == s[j - 1];
        assert key(s[0]) == key(x) || lt(key(x), key(s[0]));
        assert j - 1 == 0 || !lt(key(s[j - 1]), key(s[0]));
      }
    } else {
      var r' := Insert(x, s[1..], key, lt);
      InsertSorted(x, s[1..], key, lt);
      forall j | 0 <= j < |r'| ensures !lt(key(r'[j]), key(s[0])) {
        assert r'[j] in multiset(r');
        if r'[j] != x {
          var m :| 0 <= m < |s[1..]| && s[1..][m] == r'[j];
          assert s[m + 1] == r'[j];
        }
      }
      assert r == [s[0]] + r';
    }
  }

  /** Sorting keeps exactly the elements it is given. */
  lemma SortByMembers<T, K>(s: seq<T>, key: T -> K, lt: (K, K) -> bool, x: T)
    ensures x in SortBy(s, key, lt) <==> x in s
  {
    assert x in SortBy(s, key, lt) <==> x in multiset(SortBy(s, key, lt));
    assert x in s <==> x in multiset(s);
  }

  lemma {:induction false} SortBySorted<T, K(!new)>(s: seq<T>, key: T -> K, lt: (K, K) -> bool)
    requires StrictTotalOrder(lt)
    ensures SortedBy(SortBy(s, key, lt), key, lt)
    decreases |s|
  {
    if s != [] {
      SortBySorted(s[1..], key, lt);
      InsertSorted(s[0], SortBy(s[1..], key, lt), key, lt);
    }
  }

  lemma {:induction false} InsertStable<T, K(!new)>(x: T, s: seq<T>, key: T -> K, lt: (K, K) -> bool, k: K)
    requires StrictTotalOrder(lt)
    ensures Filter(Insert(x, s, key, lt), key, k) == Filter([x] + s, key, k)
    decreases |s|
  {
    if s != [] && lt(key(s[0]), key(x)) {
      InsertStable(x, s[1..], key, lt, k);
      var r' := Insert(x, s[1..], key, lt);
      assert Insert(x, s, key, lt) == [s[0]] + r';
      assert ([s[0]] + r')[1..] == r';
      assert ([x] + s)[1..] == s;
      assert ([x] + s[1..])[1..] == s[1..];
    }
  }

  /** Stability: for every key, the elements with that key keep their relative order. */
  lemma {:induction false} SortByStable<T, K(!new)>(s: seq<T>, key: T -> K, lt: (K, K) -> bool, k: K)
    requires StrictTotalOrder(lt)
    ensures Filter(SortBy(s, key, lt), key, k) == Filter(s, key, k)
    decreases |s|
  {
    if s != [] {
      SortByStable(s[1..], key, lt, k);
      InsertStable(s[0], SortBy(s[1..], key, lt), key, lt, k);
      assert ([s[0]] + SortBy(s[1..], key, lt))[1..] == SortBy(s[1..], key, lt);
    }
  }

  lemma {:induction false} InsertLex<T, K(!new)>(x: T, s: seq<T>, key: T -> K, lt: (K, K) -> bool, before: (T, T) -> bool)
    requires StrictTotalOrder(lt) && LexSortedBy(s, key, lt, before)
    requires forall y :: y in s ==> before(x, y)
    ensures LexSortedBy(Insert(x, s, key, lt), key, lt, before)
    decreases |s|
  {
    var r := Insert(x, s, key, lt);
    if s == [] || !lt(key(s[0]), key(x)) {
      forall j | 0 < j < |r| ensures lt(key(x), key(r[j])) || (key(x) == key(r[j]) && before(x, r[j])) {
        assert r[j] == s[j - 1];
        assert key(s[0]) == key(x) || lt(key(x), key(s[0]));
        assert j - 1 == 0 || lt(key(s[0]), key(s[j - 1])) || key(s[0]) == key(s[j - 1]);
      }
    } else {
      var r' := Insert(x, s[1..], key, lt);
      InsertLex(x, s[1..], key, lt, before);
      forall j | 0 <= j < |r'| ensures lt(key(s[0]), key(r'[j])) || (key(s[0]) == key(r'[j]) && before(s[0], r'[j])) {
        assert r'[j] in multiset(r');
        if r'[j] != x {
          var m :| 0 <= m < |s[1..]| && s[1..][m] == r'[j];
          assert s[m + 1] == r'[j];
        }
      }
      assert r == [s[0]] + r';
    }
  }

  /** A stable sort of a sequence already ordered by `before` breaks ties by `before`. */
  lemma {:induction false} SortByLex<T, K(!new)>(s: seq<T>, key: T -> K, lt: (K, K) -> bool, before: (T, T) -> bool)
    requires StrictTotalOrder(lt) && Chained(s, before)
    ensures LexSortedBy(SortBy(s, key, lt), key, lt, before)
    decreases |s|
  {
    if s != [] {
      var t := SortBy(s[1..], key, lt);
      SortByLex(s[1..], key, lt, before);
      forall y | y in t ensures before(s[0], y) {
        assert y in multiset(t);
        var m :| 0 <= m < |s[1..]| && s[1..][m] == y;
        assert s[m + 1] == y;
      }
      InsertLex(s[0], t, key, lt, before);
    }
  }

  // ---------------------------------------------------------------------------
  // Removal of consecutive duplicates, and grouping of consecutive equal keys
  // ---------------------------------------------------------------------------

  /** `s` without its leading elements whose key is `k`. */
  function DropLeading<T, K(==)>(s: seq<T>, key: T -> K, k: K): (r: seq<T>)
    ensures |r| <= |s|
    ensures r != [] ==> key(r[0]) != k
  {
    if s != [] && key(s[0]) == k then DropLeading(s[1..], key, k) else s
  }

  /** What `DropLeading` keeps is a suffix of its input. */
  lemma {:induction false} DropLeadingSuffix<T, K>(s: seq<T>, key: T -> K, k: K)
    ensures DropLeading(s, key, k) == s[|s| - |DropLeading(s, key, k)|..]
    decreases |s|
  {
    if s != [] && key(s[0]) == k {
      DropLeadingSuffix(s[1..], key, k);
    }
  }

  /** What `DropLeading` drops all has key `k`. */
  lemma {:induction false} DropLeadingPrefix<T, K>(s: seq<T>, key: T -> K, k: K, i: nat)
    requires i < |s| - |DropLeading(s, key, k)|
    ensures key(s[i]) == k
    decreases |s|
  {
    if i > 0 {
      DropLeadingPrefix(s[1..], key, k, i - 1);
    }
  }

  /** Rust's `dedup_by_key`: keeps the first of every run of consecutive elements with equal keys. */
  function DedupBy<T, K(==)>(s: seq<T>, key: T -> K): (r: seq<T>)
    ensures |r| <= |s|
    ensures forall x :: x in r ==> x in s
    ensures s != [] ==> r != [] && r[0] == s[0]
    decreases |s|
  {
    if s == [] then []
    else
      var rest := DropLeading(s[1..], key, key(s[0]));
      DropLeadingSuffix(s[1..], key, key(s[0]));
      [s[0]] + DedupBy(rest, key)
  }

  /** itertools' `group_by`: the maximal runs of consecutive elements with equal keys. */
  function GroupBy<T, K(==)>(s: seq<T>, key: T -> K): (runs: seq<seq<T>>)
    ensures forall j :: 0 <= j < |runs| ==> runs[j] != []
    ensures runs == [] <==> s == []
    ensures s != [] ==> runs[0][0] == s[0]
    decreases |s|
  {
    if s == [] then []
    else
      var rest := DropLeading(s[1..], key, key(s[0]));
      [s[..|s| - |rest|]] + GroupBy(rest, key)
  }

  lemma SortedSuffix<T, K>(s: seq<T>, key: T -> K, lt: (K, K) -> bool, d: nat)
    requires SortedBy(s, key, lt) && d <= |s|
    ensures SortedBy(s[d..], key, lt)
  {
    forall i, j | 0 <= i < j < |s[d..]| ensures !lt(key(s[d..][j]), key(s[d..][i])) {
      assert s[d..][j] == s[d + j] && s[d..][i] == s[d + i];
    }
  }

  lemma {:induction false} FilterEmpty<T, K>(s: seq<T>, key: T -> K, k: K)
    requires forall y :: y in s ==> key(y) != k
    ensures Filter(s, key, k) == []
    decreases |s|
  {
    if s != [] {
      assert s[0] in s;
      FilterEmpty(s[1..], key, k);
    }
  }

  /** What follows the leading run of the first key of a sorted sequence is sorted. */
  lemma DropLeadingSorted<T, K>(s: seq<T>, key: T -> K, lt: (K, K) -> bool)
    requires SortedBy(s, key, lt) && s != []
    ensures SortedBy(DropLeading(s[1..], key, key(s[0])), key, lt)
  {
    var rest := DropLeading(s[1..], key, key(s[0]));
    DropLeadingSuffix(s[1..], key, key(s[0]));
    assert rest == s[|s| - |rest|..];
    SortedSuffix(s, key, lt, |s| - |rest|);
  }

  /** In a sorted sequence, what follows the leading run of the first key lies strictly above that key. */
  lemma DropLeadingAbove<T, K(!new)>(s: seq<T>, key: T -> K, lt: (K, K) -> bool)
    requires StrictTotalOrder(lt) && SortedBy(s, key, lt) && s != []
    ensures forall y :: y in DropLeading(s[1..], key, key(s[0])) ==> lt(key(s[0]), key(y))
  {
    var rest := DropLeading(s[1..], key, key(s[0]));
    DropLeadingSuffix(s[1..], key, key(s[0]));
    var d := |s| - |rest|;
    assert rest == s[d..];
    forall m | 0 <= m < |rest| ensures lt(key(s[0]), key(rest[m])) {
      assert rest[m] == s[d + m] && rest[0] == s[d];
      AboveFirst(lt, key(s[0]), key(s[d]), key(s[d + m]));
    }
  }

  /** No key of what follows the leading run of a sorted sequence equals the first key. */
  lemma DropLeadingOther<T, K(!new)>(s: seq<T>, key: T -> K, lt: (K, K) -> bool)
    requires StrictTotalOrder(lt) && SortedBy(s, key, lt) && s != []
    ensures forall y :: y in DropLeading(s[1..], key, key(s[0])) ==> key(y) != key(s[0])
  {
    DropLeadingAbove(s, key, lt);
  }

  /** `k1` is not below `k0` and differs from it; a key not below either lies strictly above `k0`. */
  lemma AboveFirst<K(!new)>(lt: (K, K) -> bool, k0: K, k1: K, km: K)
    requires StrictTotalOrder(lt) && k1 != k0 && !lt(k1, k0)
    requires !lt(km, k0) && (km == k1 || !lt(km, k1))
    ensures lt(k0, km)
  {
    assert lt(k0, k1);
  }

  /** A first element below everything after it extends a strictly sorted sequence. */
  lemma StrictlySortedCons<T, K>(x: T, d: seq<T>, key: T -> K, lt: (K, K) -> bool)
    requires StrictlySortedBy(d, key, lt)
    requires forall y :: y in d ==> lt(key(x), key(y))
    ensures StrictlySortedBy([x] + d, key, lt)
  {
    forall i, j | 0 <= i < j < |[x] + d| ensures lt(key(([x] + d)[i]), key(([x] + d)[j])) {
      assert ([x] + d)[j] == d[j - 1];
      if i > 0 {
        assert ([x] + d)[i] == d[i - 1];
      }
    }
  }

  /** Deduplicating a sorted sequence leaves keys strictly increasing. */
  lemma {:induction false} DedupStrictlySorted<T, K(!new)>(s: seq<T>, key: T -> K, lt: (K, K) -> bool)
    requires StrictTotalOrder(lt) && SortedBy(s, key, lt)
    ensures StrictlySortedBy(DedupBy(s, key), key, lt)
    decreases |s|
  {
    if s != [] {
      var rest := DropLeading(s[1..], key, key(s[0]));
      DropLeadingSorted(s, key, lt);
      DedupStrictlySorted(rest, key, lt);
      var d := DedupBy(rest, key);
      assert forall y :: y in d ==> lt(key(s[0]), key(y)) by {
        DropLeadingAbove(s, key, lt);
      }
      StrictlySortedCons(s[0], d, key, lt);
    }
  }

  /** Deduplicating a sorted sequence keeps, for every key present, exactly its first element. */
  lemma {:induction false} DedupFirst<T, K(!new)>(s: seq<T>, key: T -> K, lt: (K, K) -> bool, k: K)
    requires StrictTotalOrder(lt) && SortedBy(s, key, lt)
    ensures Filter(DedupBy(s, key), key, k) == FirstOnly(Filter(s, key, k))
    decreases |s|
  {
    if s != [] {
      var rest := DropLeading(s[1..], key, key(s[0]));
      DropLeadingSorted(s, key, lt);
      DedupFirst(rest, key, lt, k);
      assert DedupBy(s, key) == [s[0]] + DedupBy(rest, key);
      assert ([s[0]] + DedupBy(rest, key))[1..] == DedupBy(rest, key);
      if key(s[0]) == k {
        DropLeadingOther(s, key, lt);
        FilterEmpty(rest, key, k);
      } else {
        DropLeadingFilter(s[1..], key, key(s[0]), k);
      }
    }
  }

  /** Dropping leading elements of another key does not change what a filter for `k` keeps. */
  lemma {:induction false} DropLeadingFilter<T, K>(s: seq<T>, key: T -> K, k0: K, k: K)
    requires k0 != k
    ensures Filter(DropLeading(s, key, k0), key, k) == Filter(s, key, k)
    decreases |s|
  {
    if s != [] && key(s[0]) == k0 {
      DropLeadingFilter(s[1..], key, k0, k);
    }
  }

  lemma {:induction false} FlattenAppend<T>(a: seq<seq<T>>, b: seq<seq<T>>)
    ensures Flatten(a + b) == Flatten(a) + Flatten(b)
    decreases |a|
  {
    if a == [] {
      assert a + b == b;
    } else {
      assert (a + b)[1..] == a[1..] + b;
      FlattenAppend(a[1..], b);
    }
  }

  /** Every run has a single key. */
  ghost predicate UniformRuns<T, K>(runs: seq<seq<T>>, key: T -> K) {
    forall j :: 0 <= j < |runs| ==> runs[j] != [] && forall i :: 0 <= i < |runs[j]| ==> key(runs[j][i]) == key(runs[j][0])
  }

  /** Neighbouring runs have different keys, so no run could be extended. */
  ghost predicate MaximalRuns<T, K>(runs: seq<seq<T>>, key: T -> K) {
    forall j :: 0 <= j < |runs| - 1 && runs[j] != [] && runs[j + 1] != [] ==> key(runs[j][0]) != key(runs[j + 1][0])
  }

  /** The runs of `group_by` put back together give the input. */
  lemma {:induction false} GroupByFlatten<T, K>(s: seq<T>, key: T -> K)
    ensures Flatten(GroupBy(s, key)) == s
    decreases |s|
  {
    if s != [] {
      var rest := DropLeading(s[1..], key, key(s[0]));
      var run := s[..|s| - |rest|];
      DropLeadingSuffix(s[1..], key, key(s[0]));
      GroupByFlatten(rest, key);
      assert s == run + rest;
      FlattenCons(run, GroupBy(rest, key), GroupBy(s, key), rest, s);
    }
  }

  /** Flattening a run put in front of runs that flatten to `rest`. */
  lemma FlattenCons<T>(run: seq<T>, tail: seq<seq<T>>, runs: seq<seq<T>>, rest: seq<T>, s: seq<T>)
    requires runs == [run] + tail && Flatten(tail) == rest && s == run + rest
    ensures Flatten(runs) == s
  {
    assert runs[1..] == tail;
  }

  /** Each run of `group_by` is non-empty and has one key. */
  lemma {:induction false} GroupByUniform<T, K>(s: seq<T>, key: T -> K)
    ensures UniformRuns(GroupBy(s, key), key)
    decreases |s|
  {
    if s != [] {
      var rest := DropLeading(s[1..], key, key(s[0]));
      var run := s[..|s| - |rest|];
      var tail := GroupBy(rest, key);
      var runs := GroupBy(s, key);
      GroupByUniform(rest, key);
      assert runs == [run] + tail;
      forall i | 0 < i < |run| ensures key(run[i]) == key(run[0]) {
        assert run[i] == s[1..][i - 1];
        DropLeadingPrefix(s[1..], key, key(s[0]), i - 1);
      }
      forall j | 0 < j < |runs| ensures runs[j] == tail[j - 1] { }
    }
  }

  /** A run whose key differs from the next run's extends maximal runs. */
  lemma MaximalRunsCons<T, K>(run: seq<T>, tail: seq<seq<T>>, key: T -> K)
    requires MaximalRuns(tail, key)
    requires run != [] && tail != [] && tail[0] != [] ==> key(run[0]) != key(tail[0][0])
    ensures MaximalRuns([run] + tail, key)
  {
    var runs := [run] + tail;
    forall j | 0 <= j < |runs| - 1 && runs[j] != [] && runs[j + 1] != []
      ensures key(runs[j][0]) != key(runs[j + 1][0])
    {
      if j == 0 {
        assert runs[1] == tail[0];
      } else {
        assert runs[j] == tail[j - 1] && runs[j + 1] == tail[j];
      }
    }
  }

  /** Neighbouring runs of `group_by` have different keys. */
  lemma {:induction false} GroupByMaximal<T, K>(s: seq<T>, key: T -> K)
    ensures MaximalRuns(GroupBy(s, key), key)
    decreases |s|
  {
    if s != [] {
      var rest := DropLeading(s[1..], key, key(s[0]));
      var run := s[..|s| - |rest|];
      GroupByMaximal(rest, key);
      assert run[0] == s[0];
      MaximalRunsCons(run, GroupBy(rest, key), key);
    }
  }

  // ---------------------------------------------------------------------------
  // Uniqueness of a sequence chained by a strict order
  // ---------------------------------------------------------------------------

  /** `before` is irreflexive and transitive. */
  ghost predicate StrictOrder<T(!new)>(before: (T, T) -> bool) {
    && (forall x :: !before(x, x))
    && (forall x, y, z :: before(x, y) && before(y, z) ==> before(x, z))
  }

  /** The first element of a non-empty sequence is one of its members. */
  lemma HeadIn<T>(b: seq<T>)
    requires b != []
    ensures b[0] in b
  {
  }

  /** Two sequences ordered by the same strict order and holding the same elements are equal. */
  lemma {:induction false} ChainedUnique<T(!new)>(a: seq<T>, b: seq<T>, before: (T, T) -> bool)
    requires StrictOrder(before) && Chained(a, before) && Chained(b, before)
    requires forall x :: x in a <==> x in b
    ensures a == b
    decreases |a|
  {
    if a == [] {
      if b != [] {
        HeadIn(b);
        assert false;
      }
    } else {
      assert a[0] in b;
      var j :| 0 <= j < |b| && b[j] == a[0];
      var a0, b0 := a[0], b[0];
      assert b0 in a;
      var i :| 0 <= i < |a| && a[i] == b0;
      assert i == 0;
      assert a == [a[0]] + a[1..] && b == [b[0]] + b[1..];
      forall x ensures x in a[1..] <==> x in b[1..] {
        if x in a[1..] {
          var i :| 0 <= i < |a[1..]| && a[1..][i] == x;
          assert before(a[0], a[i + 1]);
          assert x in a && x in b;
          var j :| 0 <= j < |b| && b[j] == x;
          assert j != 0;
          assert b[1..][j - 1] == x;
        }
        if x in b[1..] {
          var j :| 0 <= j < |b[1..]| && b[1..][j] == x;
          assert before(b[0], b[j + 1]);
          assert x in b && x in a;
          var i :| 0 <= i < |a| && a[i] == x;
          assert i != 0;
          assert a[1..][i - 1] == x;
        }
      }
      ChainedUnique(a[1..], b[1..], before);
      assert a == [a[0]] + a[1..] && b == [b[0]] + b[1..];
    }
  }
}
