/**
 * The table operations the pipeline is built from, stated once over rows of
 * any type: boolean-mask filtering, the sum of a column over the rows of one
 * group (missing values skipped, as `groupby(...).sum()` does), the count of
 * present values in a group, and the sorted list of distinct group keys that
 * `groupby` produces (rows whose key is missing form no group).
 */
module Tables {
  import opened Common

  // ---------------------------------------------------------------------------
  // Filtering

  /** `df[mask]`: the rows satisfying `p`, in their original order. */
  function Filter<T(!new)>(s: seq<T>, p: T -> bool): (r: seq<T>)
    ensures |r| <= |s|
    ensures forall x :: x in r <==> x in s && p(x)
  {
    if s == [] then [] else (if p(s[0]) then [s[0]] else []) + Filter(s[1..], p)
  }

  /** Filtering distributes over concatenation, so the kept rows keep their relative order. */
  lemma {:induction false} FilterAppend<T(!new)>(a: seq<T>, b: seq<T>, p: T -> bool)
    ensures Filter(a + b, p) == Filter(a, p) + Filter(b, p)
  {
    if a != [] {
      assert (a + b)[0] == a[0];
      assert (a + b)[1..] == a[1..] + b;
      FilterAppend(a[1..], b, p);
    } else {
      assert a + b == b;
    }
  }
  /** Extending a prefix by one element adds one kept element exactly when that element passes. */
  lemma FilterPrefixStep<T(!new)>(s: seq<T>, i: nat, p: T -> bool)
    requires i < |s|
    ensures |Filter(s[..i + 1], p)| == |Filter(s[..i], p)| + if p(s[i]) then 1 else 0
  {
    assert s[..i + 1] == s[..i] + [s[i]];
    FilterAppend(s[..i], [s[i]], p);
    assert [s[i]][1..] == [];
  }

  /** Filtering a sequence without repeats gives a sequence without repeats. */
  lemma {:induction false} FilterDistinct<T(!new)>(s: seq<T>, p: T -> bool)
    requires forall i, j :: 0 <= i < j < |s| ==> s[i] != s[j]
    ensures forall i, j :: 0 <= i < j < |Filter(s, p)| ==> Filter(s, p)[i] != Filter(s, p)[j]
  {
    if s != [] {
      var rest := s[1..];
      forall i, j | 0 <= i < j < |rest| ensures rest[i] != rest[j] {
        assert rest[i] == s[i + 1] && rest[j] == s[j + 1];
      }
      FilterDistinct(rest, p);
      var head, tail := if p(s[0]) then [s[0]] else [], Filter(rest, p);
      assert s[0] !in rest by {
        forall k | 0 <= k < |rest| ensures rest[k] != s[0] {
          assert rest[k] == s[k + 1];
        }
      }
      var d := head + tail;
      forall i, j | 0 <= i < j < |d| ensures d[i] != d[j] {
        assert d[j] == tail[j - |head|];
        if i < |head| {
          assert d[i] == s[0];
        } else {
          assert d[i] == tail[i - |head|];
        }
      }
    }
  }


  // ---------------------------------------------------------------------------
  // Grouped sums and counts

  /** What one row adds to the sum of group `k`: its value when it is in the group and present. */
  function Contribution<T, K(==)>(x: T, key: T -> Option<K>, val: T -> Option<real>, k: K): real {
    if key(x) == Some(k) && val(x).Some? then val(x).value else 0.0
  }

  /** `df.groupby(key)[val].sum()` for group `k`: missing values are skipped. */
  function GroupSum<T, K(==)>(s: seq<T>, key: T -> Option<K>, val: T -> Option<real>, k: K): real {
    if s == [] then 0.0 else Contribution(s[0], key, val, k) + GroupSum(s[1..], key, val, k)
  }

  /** The number of present values of `val` in group `k` (the divisor of `mean()`). */
  function GroupCount<T, K(==)>(s: seq<T>, key: T -> Option<K>, val: T -> Option<real>, k: K): nat {
    if s == [] then 0
    else (if key(s[0]) == Some(k) && val(s[0]).Some? then 1 else 0) + GroupCount(s[1..], key, val, k)
  }

  ghost predicate NonNegativeValues<T>(s: seq<T>, val: T -> Option<real>) {
    forall x :: x in s && val(x).Some? ==> val(x).value >= 0.0
  }

  lemma {:induction false} GroupSumAppend<T, K>(a: seq<T>, b: seq<T>, key: T -> Option<K>, val: T -> Option<real>, k: K)
    ensures GroupSum(a + b, key, val, k) == GroupSum(a, key, val, k) + GroupSum(b, key, val, k)
    ensures GroupCount(a + b, key, val, k) == GroupCount(a, key, val, k) + GroupCount(b, key, val, k)
  {
    if a != [] {
      assert (a + b)[0] == a[0];
      assert (a + b)[1..] == a[1..] + b;
      GroupSumAppend(a[1..], b, key, val, k);
    } else {
      assert a + b == b;
    }
  }

  /** Taking one row out of a table takes its contribution out of the group sum and count. */
  lemma {:induction false} GroupSumRemove<T, K>(b: seq<T>, j: nat, key: T -> Option<K>, val: T -> Option<real>, k: K)
    requires j < |b|
    ensures GroupSum(b, key, val, k) == Contribution(b[j], key, val, k) + GroupSum(b[..j] + b[j + 1..], key, val, k)
    ensures GroupCount(b, key, val, k) == GroupCount([b[j]], key, val, k) + GroupCount(b[..j] + b[j + 1..], key, val, k)
  {
    var left, right := b[..j], b[j + 1..];
    assert b == left + ([b[j]] + right);
    GroupSumAppend(left, [b[j]] + right, key, val, k);
    GroupSumAppend([b[j]], right, key, val, k);
    GroupSumAppend(left, right, key, val, k);
    assert [b[j]][1..] == [];
  }

  /** Sums and counts of a group do not depend on the order of the rows. */
  lemma {:induction false} GroupSumPermutation<T, K>(a: seq<T>, b: seq<T>, key: T -> Option<K>, val: T -> Option<real>, k: K)
    requires multiset(a) == multiset(b)
    ensures GroupSum(a, key, val, k) == GroupSum(b, key, val, k)
    ensures GroupCount(a, key, val, k) == GroupCount(b, key, val, k)
  {
    if a == [] {
      assert |b| == |multiset(b)| == 0;
      assert b == [];
    } else {
      assert a[0] in multiset(b);
      var j :| 0 <= j < |b| && b[j] == a[0];
      var rest := b[..j] + b[j + 1..];
      MultisetRemove(a, b, j);
      GroupSumPermutation(a[1..], rest, key, val, k);
      GroupSumRemove(b, j, key, val, k);
      assert [a[0]][1..] == [];
    }
  }

  lemma MultisetRemove<T>(a: seq<T>, b: seq<T>, j: nat)
    requires a != [] && j < |b| && b[j] == a[0]
    requires multiset(a) == multiset(b)
    ensures multiset(a[1..]) == multiset(b[..j] + b[j + 1..])
  {
    assert b == b[..j] + ([b[j]] + b[j + 1..]);
    assert multiset(b) == multiset(b[..j]) + multiset([b[j]]) + multiset(b[j + 1..]);
    assert a == [a[0]] + a[1..];
    assert multiset(a) == multiset([a[0]]) + multiset(a[1..]);
    assert multiset(b[..j] + b[j + 1..]) == multiset(b[..j]) + multiset(b[j + 1..]);
    assert multiset(a[1..]) == multiset(a) - multiset([a[0]]);
  }

  /** A group sum over non-negative values is non-negative. */
  lemma {:induction false} GroupSumNonNegative<T, K>(s: seq<T>, key: T -> Option<K>, val: T -> Option<real>, k: K)
    requires NonNegativeValues(s, val)
    ensures GroupSum(s, key, val, k) >= 0.0
  {
    if s != [] {
      assert s[0] in s;
      GroupSumNonNegative(s[1..], key, val, k);
    }
  }

  /** With non-negative values, keeping fewer rows never increases a group sum. */
  lemma {:induction false} GroupSumFilterBelow<T(!new), K>(s: seq<T>, p: T -> bool, key: T -> Option<K>, val: T -> Option<real>, k: K)
    requires NonNegativeValues(s, val)
    ensures 0.0 <= GroupSum(Filter(s, p), key, val, k) <= GroupSum(s, key, val, k)
  {
    if s != [] {
      assert s[0] in s;
      GroupSumFilterBelow(s[1..], p, key, val, k);
      UnfoldFilter(s, p, key, val, k);
    }
  }

  /**
   * When the rows kept by `p` are exactly those kept by `q` or by `r`, and no
   * row is kept by both, the sum over `p` is the sum over `q` plus the sum over `r`.
   */
  lemma {:induction false} GroupSumFilterSplit<T(!new), K>(s: seq<T>, p: T -> bool, q: T -> bool, r: T -> bool, key: T -> Option<K>, val: T -> Option<real>, k: K)
    requires forall x :: x in s ==> (p(x) <==> q(x) || r(x)) && !(q(x) && r(x))
    ensures GroupSum(Filter(s, p), key, val, k) == GroupSum(Filter(s, q), key, val, k) + GroupSum(Filter(s, r), key, val, k)
  {
    if s != [] {
      assert s[0] in s;
      GroupSumFilterSplit(s[1..], p, q, r, key, val, k);
      UnfoldFilter(s, p, key, val, k);
      UnfoldFilter(s, q, key, val, k);
      UnfoldFilter(s, r, key, val, k);
    }
  }

  /** One step of a group sum over a filtered table. */
  lemma UnfoldFilter<T(!new), K>(s: seq<T>, p: T -> bool, key: T -> Option<K>, val: T -> Option<real>, k: K)
    requires s != []
    ensures GroupSum(Filter(s, p), key, val, k) ==
      (if p(s[0]) then Contribution(s[0], key, val, k) else 0.0) + GroupSum(Filter(s[1..], p), key, val, k)
  {
    var rest := Filter(s[1..], p);
    if p(s[0]) {
      assert Filter(s, p) == [s[0]] + rest;
      assert ([s[0]] + rest)[0] == s[0];
      assert ([s[0]] + rest)[1..] == rest;
    } else {
      assert Filter(s, p) == rest;
    }
  }

  /**
   * When every present value of group `k` lies in [lo, hi], the group sum lies
   * between lo and hi times the group count: so their mean lies in [lo, hi].
   */
  lemma {:induction false} GroupSumBounds<T, K>(s: seq<T>, key: T -> Option<K>, val: T -> Option<real>, k: K, lo: real, hi: real)
    requires forall x :: x in s && key(x) == Some(k) && val(x).Some? ==> lo <= val(x).value <= hi
    ensures lo * GroupCount(s, key, val, k) as real <= GroupSum(s, key, val, k) <= hi * GroupCount(s, key, val, k) as real
  {
    if s != [] {
      assert s[0] in s;
      GroupSumBounds(s[1..], key, val, k, lo, hi);
    }
  }

  // ---------------------------------------------------------------------------
  // Group keys

  /** `lt` is a strict total order: irreflexive, transitive and connected. */
  ghost predicate StrictTotalOrder<K(!new)>(lt: (K, K) -> bool) {
    && (forall a :: !lt(a, a))
    && (forall a, b, c :: lt(a, b) && lt(b, c) ==> lt(a, c))
    && (forall a, b :: a != b ==> lt(a, b) || lt(b, a))
  }

  predicate StrictlySorted<K>(ks: seq<K>, lt: (K, K) -> bool) {
    forall i, j :: 0 <= i < j < |ks| ==> lt(ks[i], ks[j])
  }

  /** Inserting a key into a sorted list of distinct keys (no change when it is already there). */
  function InsertKey<K(==,!new)>(ks: seq<K>, k: K, lt: (K, K) -> bool): (r: seq<K>)
    requires StrictTotalOrder(lt) && StrictlySorted(ks, lt)
    ensures StrictlySorted(r, lt)
    ensures forall x :: x in r <==> x in ks || x == k
  {
    if ks == [] then [k]
    else if k == ks[0] then ks
    else if lt(k, ks[0]) then [k] + ks
    else
      var tail := InsertKey(ks[1..], k, lt);
      assert forall x :: x in tail ==> lt(ks[0], x) by {
        forall x | x in tail ensures lt(ks[0], x) {
          if x != k {
            var i :| 1 <= i < |ks| && ks[i] == x;
          }
        }
      }
      [ks[0]] + tail
  }

  /**
   * The keys of `groupby(key)` in the order it produces them: sorted by `lt`,
   * each once, exactly the keys some row has; rows whose key is missing form no group.
   */
  function SortedKeys<T(!new), K(==,!new)>(s: seq<T>, key: T -> Option<K>, lt: (K, K) -> bool): (ks: seq<K>)
    requires StrictTotalOrder(lt)
    ensures StrictlySorted(ks, lt)
    ensures forall k :: k in ks <==> exists x :: x in s && key(x) == Some(k)
  {
    if s == [] then []
    else
      var rest := SortedKeys(s[1..], key, lt);
      assert forall x :: x in s <==> x == s[0] || x in s[1..];
      match key(s[0])
      case None => rest
      case Some(k) => InsertKey(rest, k, lt)
  }

  /** Two strictly sorted lists holding the same keys are the same list. */
  lemma {:induction false} SortedUnique<K(!new)>(a: seq<K>, b: seq<K>, lt: (K, K) -> bool)
    requires StrictTotalOrder(lt)
    requires StrictlySorted(a, lt) && StrictlySorted(b, lt)
    requires forall x :: x in a <==> x in b
    ensures a == b
  {
    assert a == [] <==> b == [] by {
      assert a != [] ==> a[0] in b;
      assert b != [] ==> b[0] in a;
    }
    if a != [] && b != [] {
      assert a[0] in b && b[0] in a;
      var j :| 0 <= j < |b| && b[j] == a[0];
      var i :| 0 <= i < |a| && a[i] == b[0];
      assert a[0] == b[0];
      forall x ensures x in a[1..] <==> x in b[1..] {
        if x in a[1..] {
          var i :| 1 <= i < |a| && a[i] == x;
          assert x in b && x != b[0];
        }
        if x in b[1..] {
          var j :| 1 <= j < |b| && b[j] == x;
          assert x in a && x != a[0];
        }
      }
      SortedUnique(a[1..], b[1..], lt);
    }
  }

  /** The group keys do not depend on the order of the rows. */
  lemma SortedKeysPermutation<T(!new), K(!new)>(a: seq<T>, b: seq<T>, key: T -> Option<K>, lt: (K, K) -> bool)
    requires StrictTotalOrder(lt)
    requires multiset(a) == multiset(b)
    ensures SortedKeys(a, key, lt) == SortedKeys(b, key, lt)
  {
    forall x ensures x in a <==> x in b {
      assert x in a <==> x in multiset(a);
      assert x in b <==> x in multiset(b);
    }
    SortedUnique(SortedKeys(a, key, lt), SortedKeys(b, key, lt), lt);
  }

  // ---------------------------------------------------------------------------
  // Sums over all groups

  /** The sum of `val` over every row that has a key (the rows `groupby` keeps). */
  function KeyedSum<T, K>(s: seq<T>, key: T -> Option<K>, val: T -> Option<real>): real {
    if s == [] then 0.0
    else (if key(s[0]).Some? && val(s[0]).Some? then val(s[0]).value else 0.0) + KeyedSum(s[1..], key, val)
  }

  /** The group sums of `s` for the keys `ks`, added up. */
  function SumOverKeys<T, K(==)>(s: seq<T>, key: T -> Option<K>, val: T -> Option<real>, ks: seq<K>): real {
    if ks == [] then 0.0 else GroupSum(s, key, val, ks[0]) + SumOverKeys(s, key, val, ks[1..])
  }

  predicate Distinct<K(==)>(ks: seq<K>) {
    forall i, j :: 0 <= i < j < |ks| ==> ks[i] != ks[j]
  }

  /** Over distinct keys, the contributions of one row add up to its value if its key is listed, else 0. */
  lemma {:induction false} OneRowOverKeys<T, K>(x: T, key: T -> Option<K>, val: T -> Option<real>, ks: seq<K>)
    requires Distinct(ks)
    ensures SumOverKeys([x], key, val, ks) ==
      (if key(x).Some? && key(x).value in ks && val(x).Some? then val(x).value else 0.0)
  {
    if ks != [] {
      assert [x][1..] == [];
      assert GroupSum([x], key, val, ks[0]) == Contribution(x, key, val, ks[0]);
      assert forall y :: y in ks <==> y == ks[0] || y in ks[1..];
      OneRowOverKeys(x, key, val, ks[1..]);
      assert forall j :: 1 <= j < |ks| ==> ks[j] != ks[0];
      assert ks[0] !in ks[1..];
    }
  }

  lemma {:induction false} SumOverKeysAppend<T, K>(a: seq<T>, b: seq<T>, key: T -> Option<K>, val: T -> Option<real>, ks: seq<K>)
    ensures SumOverKeys(a + b, key, val, ks) == SumOverKeys(a, key, val, ks) + SumOverKeys(b, key, val, ks)
  {
    if ks != [] {
      GroupSumAppend(a, b, key, val, ks[0]);
      SumOverKeysAppend(a, b, key, val, ks[1..]);
    }
  }

  /**
   * Adding up the group sums over a list of distinct keys that contains every
   * key gives the sum over all keyed rows: grouping loses and duplicates nothing.
   */
  lemma {:induction false} SumOverKeysIsKeyedSum<T, K>(s: seq<T>, key: T -> Option<K>, val: T -> Option<real>, ks: seq<K>)
    requires Distinct(ks)
    requires forall x :: x in s && key(x).Some? ==> key(x).value in ks
    ensures SumOverKeys(s, key, val, ks) == KeyedSum(s, key, val)
  {
    if s == [] {
      SumOverKeysEmpty(key, val, ks);
    } else {
      assert s == [s[0]] + s[1..];
      assert s[0] in s;
      SumOverKeysAppend([s[0]], s[1..], key, val, ks);
      OneRowOverKeys(s[0], key, val, ks);
      SumOverKeysIsKeyedSum(s[1..], key, val, ks);
    }
  }

  lemma {:induction false} SumOverKeysEmpty<T, K>(key: T -> Option<K>, val: T -> Option<real>, ks: seq<K>)
    ensures SumOverKeys([], key, val, ks) == 0.0
  {
    if ks != [] {
      SumOverKeysEmpty(key, val, ks[1..]);
    }
  }

  lemma SortedIsDistinct<K>(ks: seq<K>, lt: (K, K) -> bool)
    requires StrictlySorted(ks, lt)
    requires forall a :: !lt(a, a)
    ensures Distinct(ks)
  {
  }

  // ---------------------------------------------------------------------------
  // Grouped tables and left merges

  /** One row of `groupby(key)[val].sum().reset_index()`. */
  datatype Aggregate<K> = Aggregate(key: K, value: real)

  /** `df.groupby(key)[val].sum().reset_index()`: one row per key, in key order. */
  function GroupedSums<T(!new), K(==,!new)>(s: seq<T>, key: T -> Option<K>, val: T -> Option<real>, lt: (K, K) -> bool): (g: seq<Aggregate<K>>)
    requires StrictTotalOrder(lt)
  {
    var ks := SortedKeys(s, key, lt);
    seq(|ks|, i requires 0 <= i < |ks| => Aggregate(ks[i], GroupSum(s, key, val, ks[i])))
  }

  /** The value a left merge on `k` picks up from a grouped table: its first row with that key. */
  function Lookup<K(==)>(g: seq<Aggregate<K>>, k: K): (r: Option<real>)
    ensures r.Some? <==> exists i :: 0 <= i < |g| && g[i].key == k
  {
    if g == [] then None
    else if g[0].key == k then Some(g[0].value)
    else
      var r := Lookup(g[1..], k);
      assert forall i :: 1 <= i < |g| ==> g[i] == g[1..][i - 1];
      r
  }

  /** A group no row belongs to sums to 0. */
  lemma {:induction false} GroupSumAbsent<T, K>(s: seq<T>, key: T -> Option<K>, val: T -> Option<real>, k: K)
    requires forall x :: x in s ==> key(x) != Some(k)
    ensures GroupSum(s, key, val, k) == 0.0
  {
    if s != [] {
      assert s[0] in s;
      GroupSumAbsent(s[1..], key, val, k);
    }
  }

  lemma {:induction false} LookupFirst<K>(g: seq<Aggregate<K>>, i: nat, k: K)
    requires i < |g| && g[i].key == k
    requires forall j :: 0 <= j < i ==> g[j].key != k
    ensures Lookup(g, k) == Some(g[i].value)
  {
    if i > 0 {
      LookupFirst(g[1..], i - 1, k);
    }
  }

  /**
   * A left merge of a grouped sum onto key `k`, with a missing match filled
   * with 0, yields exactly the group sum of `k`: 0 when no row has that key.
   */
  lemma LeftMergeFillZero<T(!new), K(!new)>(s: seq<T>, key: T -> Option<K>, val: T -> Option<real>, lt: (K, K) -> bool, k: K)
    requires StrictTotalOrder(lt)
    ensures Lookup(GroupedSums(s, key, val, lt), k).GetOr(0.0) == GroupSum(s, key, val, k)
    ensures Lookup(GroupedSums(s, key, val, lt), k).Some? <==> exists x :: x in s && key(x) == Some(k)
  {
    var g := GroupedSums(s, key, val, lt);
    var ks := SortedKeys(s, key, lt);
    if k in ks {
      var i :| 0 <= i < |ks| && ks[i] == k;
      assert forall j :: 0 <= j < i ==> g[j].key != k by {
        forall j | 0 <= j < i ensures g[j].key != k {
          assert lt(ks[j], ks[i]);
        }
      }
      LookupFirst(g, i, k);
    } else {
      GroupSumAbsent(s, key, val, k);
    }
  }

  // ---------------------------------------------------------------------------
  // Rewriting rows without changing what the aggregates read

  function Map<T>(s: seq<T>, f: T -> T): (r: seq<T>)
    ensures |r| == |s|
    ensures forall i :: 0 <= i < |s| ==> r[i] == f(s[i])
  {
    if s == [] then [] else [f(s[0])] + Map(s[1..], f)
  }

  lemma {:induction false} FilterMap<T(!new)>(s: seq<T>, f: T -> T, p: T -> bool)
    requires forall x :: p(f(x)) == p(x)
    ensures Filter(Map(s, f), p) == Map(Filter(s, p), f)
  {
    if s != [] {
      FilterMap(s[1..], f, p);
      assert Map(s, f)[1..] == Map(s[1..], f);
      if p(s[0]) {
        assert Filter(s, p) == [s[0]] + Filter(s[1..], p);
        assert Map([s[0]] + Filter(s[1..], p), f)[1..] == Map(Filter(s[1..], p), f);
      }
    }
  }

  lemma {:induction false} GroupSumMap<T, K>(s: seq<T>, f: T -> T, key: T -> Option<K>, val: T -> Option<real>, k: K)
    requires forall x :: key(f(x)) == key(x) && val(f(x)) == val(x)
    ensures GroupSum(Map(s, f), key, val, k) == GroupSum(s, key, val, k)
    ensures GroupCount(Map(s, f), key, val, k) == GroupCount(s, key, val, k)
  {
    if s != [] {
      assert Map(s, f)[1..] == Map(s[1..], f);
      GroupSumMap(s[1..], f, key, val, k);
    }
  }

  lemma SortedKeysMap<T(!new), K(!new)>(s: seq<T>, f: T -> T, key: T -> Option<K>, lt: (K, K) -> bool)
    requires StrictTotalOrder(lt)
    requires forall x :: key(f(x)) == key(x)
    ensures SortedKeys(Map(s, f), key, lt) == SortedKeys(s, key, lt)
  {
    var a, b := SortedKeys(Map(s, f), key, lt), SortedKeys(s, key, lt);
    forall k ensures k in a <==> k in b {
      if k in b {
        var x :| x in s && key(x) == Some(k);
        var i :| 0 <= i < |s| && s[i] == x;
        assert Map(s, f)[i] in Map(s, f);
      }
      if k in a {
        var y :| y in Map(s, f) && key(y) == Some(k);
        var i :| 0 <= i < |s| && Map(s, f)[i] == y;
        assert s[i] in s;
      }
    }
    SortedUnique(a, b, lt);
  }
  /** Row i of a grouped table is the i-th sorted key with its group's sum. */
  lemma GroupedSumsAt<T(!new), K(!new)>(s: seq<T>, key: T -> Option<K>, val: T -> Option<real>, lt: (K, K) -> bool, i: nat)
    requires StrictTotalOrder(lt)
    requires i < |SortedKeys(s, key, lt)|
    ensures |GroupedSums(s, key, val, lt)| == |SortedKeys(s, key, lt)|
    ensures GroupedSums(s, key, val, lt)[i] == Aggregate(SortedKeys(s, key, lt)[i], GroupSum(s, key, val, SortedKeys(s, key, lt)[i]))
  {
  }

  /** A row map that keeps every key and value leaves the grouped table as it was. */
  lemma GroupedSumsMap<T(!new), K(!new)>(s: seq<T>, f: T -> T, key: T -> Option<K>, val: T -> Option<real>, lt: (K, K) -> bool)
    requires StrictTotalOrder(lt)
    requires forall x :: key(f(x)) == key(x) && val(f(x)) == val(x)
    ensures GroupedSums(Map(s, f), key, val, lt) == GroupedSums(s, key, val, lt)
  {
    SortedKeysMap(s, f, key, lt);
    var ks := SortedKeys(s, key, lt);
    forall i | 0 <= i < |ks|
      ensures GroupedSums(Map(s, f), key, val, lt)[i] == GroupedSums(s, key, val, lt)[i]
    {
      GroupSumMap(s, f, key, val, ks[i]);
    }
  }

  // ---------------------------------------------------------------------------
  // Group means

  /** `df.groupby(key)[val].mean()` for group `k`: missing when the group has no present value. */
  function GroupMean<T, K(==)>(s: seq<T>, key: T -> Option<K>, val: T -> Option<real>, k: K): (m: Option<real>)
    ensures m.None? <==> GroupCount(s, key, val, k) == 0
  {
    var c := GroupCount(s, key, val, k);
    if c == 0 then None else Some(GroupSum(s, key, val, k) / c as real)
  }

  /** A group mean lies between any bounds of the group's present values (so between their minimum and maximum). */
  lemma GroupMeanBounds<T, K>(s: seq<T>, key: T -> Option<K>, val: T -> Option<real>, k: K, lo: real, hi: real)
    requires forall x :: x in s && key(x) == Some(k) && val(x).Some? ==> lo <= val(x).value <= hi
    requires GroupMean(s, key, val, k).Some?
    ensures lo <= GroupMean(s, key, val, k).value <= hi
  {
    GroupSumBounds(s, key, val, k, lo, hi);
    var c := GroupCount(s, key, val, k) as real;
    QuotientBounds(GroupSum(s, key, val, k), c, lo, hi);
  }

  lemma QuotientBounds(sum: real, c: real, lo: real, hi: real)
    requires c > 0.0 && lo * c <= sum <= hi * c
    ensures lo <= sum / c <= hi
  {
    assert sum / c * c == sum;
  }

  /** Group means do not depend on the order of the rows. */
  lemma GroupMeanPermutation<T, K>(a: seq<T>, b: seq<T>, key: T -> Option<K>, val: T -> Option<real>, k: K)
    requires multiset(a) == multiset(b)
    ensures GroupMean(a, key, val, k) == GroupMean(b, key, val, k)
  {
    GroupSumPermutation(a, b, key, val, k);
  }

  // ---------------------------------------------------------------------------
  // Weighted sums

  /**
   * The rows of group `k` carry a value `val`, a weight `wt` and their product
   * `prod`: a row with a weight has a value in [lo, hi], a non-negative weight
   * and the product of the two; a row without a weight has no product.
   */
  predicate WeightedRow<T>(x: T, val: T -> Option<real>, wt: T -> Option<real>, prod: T -> Option<real>, lo: real, hi: real) {
    match wt(x)
    case Some(w) => w >= 0.0 && val(x).Some? && lo <= val(x).value <= hi && prod(x).Some? && prod(x).value == val(x).value * w
    case None => prod(x).None?
  }

  ghost predicate WeightedGroup<T, K>(s: seq<T>, key: T -> Option<K>, val: T -> Option<real>, wt: T -> Option<real>,
                                      prod: T -> Option<real>, k: K, lo: real, hi: real) {
    forall i :: 0 <= i < |s| && key(s[i]) == Some(k) ==> WeightedRow(s[i], val, wt, prod, lo, hi)
  }

  /** A weighted sum lies between lo and hi times its total weight. */
  predicate WeightedBounds(lo: real, hi: real, total: real, weighted: real) {
    lo * total <= weighted <= hi * total
  }

  /** The weighted sum of a group lies between lo and hi times the group's total weight. */
  lemma {:induction false} WeightedSumBounds<T, K>(s: seq<T>, key: T -> Option<K>, val: T -> Option<real>, wt: T -> Option<real>,
                                                   prod: T -> Option<real>, k: K, lo: real, hi: real)
    requires WeightedGroup(s, key, val, wt, prod, k, lo, hi)
    ensures WeightedBounds(lo, hi, GroupSum(s, key, wt, k), GroupSum(s, key, prod, k))
  {
    if s != [] {
      WeightedGroupSplit(s, key, val, wt, prod, k, lo, hi);
      WeightedSumBounds(s[1..], key, val, wt, prod, k, lo, hi);
      ContributionBounds(s[0], key, val, wt, prod, k, lo, hi);
      SumBoundsStep(Contribution(s[0], key, wt, k), Contribution(s[0], key, prod, k),
                    GroupSum(s[1..], key, wt, k), GroupSum(s[1..], key, prod, k),
                    GroupSum(s, key, wt, k), GroupSum(s, key, prod, k), lo, hi);
    } else {
      SumBoundsStep(0.0, 0.0, 0.0, 0.0, 0.0, 0.0, lo, hi);
    }
  }

  lemma WeightedGroupSplit<T, K>(s: seq<T>, key: T -> Option<K>, val: T -> Option<real>, wt: T -> Option<real>,
                                 prod: T -> Option<real>, k: K, lo: real, hi: real)
    requires s != [] && WeightedGroup(s, key, val, wt, prod, k, lo, hi)
    ensures key(s[0]) == Some(k) ==> WeightedRow(s[0], val, wt, prod, lo, hi)
    ensures WeightedGroup(s[1..], key, val, wt, prod, k, lo, hi)
  {
    forall i | 0 <= i < |s[1..]| && key(s[1..][i]) == Some(k)
      ensures WeightedRow(s[1..][i], val, wt, prod, lo, hi)
    {
      assert s[1..][i] == s[i + 1];
    }
  }

  lemma ContributionBounds<T, K>(x: T, key: T -> Option<K>, val: T -> Option<real>, wt: T -> Option<real>,
                                 prod: T -> Option<real>, k: K, lo: real, hi: real)
    requires key(x) == Some(k) ==> WeightedRow(x, val, wt, prod, lo, hi)
    ensures WeightedBounds(lo, hi, Contribution(x, key, wt, k), Contribution(x, key, prod, k))
  {
    if key(x) == Some(k) && wt(x).Some? {
      ProductBounds(val(x).value, wt(x).value, lo, hi);
    }
  }

  lemma SumBoundsStep(w: real, p: real, ws: real, ps: real, total: real, weighted: real, lo: real, hi: real)
    requires WeightedBounds(lo, hi, w, p) && WeightedBounds(lo, hi, ws, ps)
    requires total == w + ws && weighted == p + ps
    ensures WeightedBounds(lo, hi, total, weighted)
  {
  }

  lemma ProductBounds(v: real, w: real, lo: real, hi: real)
    requires w >= 0.0 && lo <= v <= hi
    ensures lo * w <= v * w <= hi * w
  {
  }
}
