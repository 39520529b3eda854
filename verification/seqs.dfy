/** Column operations on a table held as a sequence of rows: boolean-mask
    selection, `sum`/`min`/`max`/`mean`, `unique()`, and the keys and groups of
    a `groupby`. Each dashboard builds its aggregates from these.
 */
module Seqs {
  import opened Orders

  predicate Distinct<K(==)>(s: seq<K>) {
    forall i, j :: 0 <= i < j < |s| ==> s[i] != s[j]
  }

  /** `df[mask]`: the rows satisfying `p`, in their original order. */
  function Filter<T(!new)>(s: seq<T>, p: T -> bool): (r: seq<T>)
    ensures |r| <= |s|
    ensures forall x :: x in r <==> x in s && p(x)
  {
    if s == [] then []
    else
      assert s == [s[0]] + s[1..];
      (if p(s[0]) then [s[0]] else []) + Filter(s[1..], p)
  }

  lemma {:induction false} FilterMultiset<T(!new)>(s: seq<T>, p: T -> bool)
    ensures forall x :: multiset(Filter(s, p))[x] == if p(x) then multiset(s)[x] else 0
  {
    if s != [] {
      FilterMultiset(s[1..], p);
      assert s == [s[0]] + s[1..];
    }
  }

  lemma FilterCons<T(!new)>(s: seq<T>, p: T -> bool)
    requires s != []
    ensures Filter(s, p) == (if p(s[0]) then [s[0]] else []) + Filter(s[1..], p)
  {
  }

  lemma FilterPrepend<T(!new)>(h: T, s: seq<T>, p: T -> bool)
    ensures Filter([h] + s, p) == (if p(h) then [h] + Filter(s, p) else Filter(s, p))
  {
    FilterCons([h] + s, p);
    assert ([h] + s)[1..] == s;
  }

  lemma {:induction false} FilterAgrees<T(!new)>(s: seq<T>, p: T -> bool, q: T -> bool)
    requires forall x :: p(x) == q(x)
    ensures Filter(s, p) == Filter(s, q)
  {
    if s != [] {
      FilterAgrees(s[1..], p, q);
      FilterCons(s, p);
      FilterCons(s, q);
    }
  }

  ghost predicate IsPrefix<T>(a: seq<T>, b: seq<T>) {
    |a| <= |b| && b[..|a|] == a
  }

  lemma PrefixCons<T>(h: seq<T>, a: seq<T>, b: seq<T>)
    requires IsPrefix(a, b)
    ensures IsPrefix(h + a, h + b)
  {
    assert (h + b)[..|h + a|] == h + b[..|a|];
  }

  /** Filtering a prefix gives a prefix of the filtered rows. */
  lemma {:induction false} FilterOfPrefix<T(!new)>(s: seq<T>, m: nat, p: T -> bool)
    requires m <= |s|
    ensures IsPrefix(Filter(s[..m], p), Filter(s, p))
  {
    if m == 0 {
      assert s[..m] == [];
    } else {
      FilterOfPrefix(s[1..], m - 1, p);
      FilterOfPrefixStep(s, m, p);
    }
  }

  lemma FilterOfPrefixStep<T(!new)>(s: seq<T>, m: nat, p: T -> bool)
    requires 0 < m <= |s|
    requires IsPrefix(Filter(s[1..][..m - 1], p), Filter(s[1..], p))
    ensures IsPrefix(Filter(s[..m], p), Filter(s, p))
  {
    PrefixSplit(s, m);
    FilterPrependKeepsPrefix(s[0], s[1..][..m - 1], s[1..], p);
  }

  lemma PrefixSplit<T>(s: seq<T>, m: nat)
    requires 0 < m <= |s|
    ensures s[..m] == [s[0]] + s[1..][..m - 1] && s == [s[0]] + s[1..]
  {
  }

  lemma FilterPrependKeepsPrefix<T(!new)>(h: T, a: seq<T>, b: seq<T>, p: T -> bool)
    requires IsPrefix(Filter(a, p), Filter(b, p))
    ensures IsPrefix(Filter([h] + a, p), Filter([h] + b, p))
  {
    FilterPrepend(h, a, p);
    FilterPrepend(h, b, p);
    if p(h) {
      PrefixCons([h], Filter(a, p), Filter(b, p));
    }
  }

  /** Two rows that `p` keeps stay in the same order in `Filter(s, p)`. */
  lemma {:induction false} FilterKeepsOrder<T(!new)>(s: seq<T>, p: T -> bool, i: nat, j: nat)
    requires i < j < |s| && p(s[i]) && p(s[j])
    ensures InOrder(Filter(s, p), s[i], s[j])
  {
    if i == 0 {
      FilterKeepsFirst(s, p, j);
    } else {
      FilterKeepsOrder(s[1..], p, i - 1, j - 1);
      FilterKeepsLater(s, p, i, j);
    }
  }

  /** `x` occurs in `s` at an earlier position than `y`. */
  ghost predicate InOrder<T>(s: seq<T>, x: T, y: T) {
    exists a, b :: 0 <= a < b < |s| && s[a] == x && s[b] == y
  }

  lemma HeadAndTail<T>(s: seq<T>)
    requires s != []
    ensures s == [s[0]] + s[1..]
  {
  }

  lemma HeadTail<T>(s: seq<T>, j: nat)
    requires 0 < j < |s|
    ensures s == [s[0]] + s[1..] && s[j] == s[1..][j - 1]
  {
  }

  lemma FilterKeepsFirst<T(!new)>(s: seq<T>, p: T -> bool, j: nat)
    requires 0 < j < |s| && p(s[0]) && p(s[j])
    ensures InOrder(Filter(s, p), s[0], s[j])
  {
    HeadTail(s, j);
    FilterPrepend(s[0], s[1..], p);
    var tail := Filter(s[1..], p);
    assert s[j] in tail;
    var b :| 0 <= b < |tail| && tail[b] == s[j];
    assert ([s[0]] + tail)[0] == s[0] && ([s[0]] + tail)[b + 1] == s[j];
  }

  lemma FilterKeepsLater<T(!new)>(s: seq<T>, p: T -> bool, i: nat, j: nat)
    requires 0 < i < j < |s|
    requires InOrder(Filter(s[1..], p), s[1..][i - 1], s[1..][j - 1])
    ensures InOrder(Filter(s, p), s[i], s[j])
  {
    assert s[i] == s[1..][i - 1] && s[j] == s[1..][j - 1];
    FilterCons(s, p);
    InOrderPrepend(if p(s[0]) then [s[0]] else [], Filter(s[1..], p), s[i], s[j]);
  }

  lemma InOrderPrepend<T>(h: seq<T>, t: seq<T>, x: T, y: T)
    requires InOrder(t, x, y)
    ensures InOrder(h + t, x, y)
  {
    var a, b :| 0 <= a < b < |t| && t[a] == x && t[b] == y;
    assert (h + t)[a + |h|] == x && (h + t)[b + |h|] == y;
  }

  lemma {:induction false} DistinctAtMostOnce<T>(s: seq<T>, x: T)
    requires Distinct(s)
    ensures multiset(s)[x] <= 1
  {
    if s != [] {
      assert s == [s[0]] + s[1..];
      assert Distinct(s[1..]) by {
        forall i, j | 0 <= i < j < |s[1..]| ensures s[1..][i] != s[1..][j] {
          assert s[i + 1] != s[j + 1];
        }
      }
      DistinctAtMostOnce(s[1..], x);
      if x == s[0] && x in s[1..] {
        assert false;
      }
    }
  }

  /** Filtering keeps distinct rows distinct (by induction on `s`). */
  lemma FilterDistinct<T(!new)>(s: seq<T>, p: T -> bool)
    requires Distinct(s)
    ensures Distinct(Filter(s, p))
  {
  }

  /** A column, `df[c]`, read through a projection. */
  function Map<T, U>(s: seq<T>, f: T -> U): (r: seq<U>)
    ensures |r| == |s|
    ensures forall i :: 0 <= i < |s| ==> r[i] == f(s[i])
  {
    seq(|s|, i requires 0 <= i < |s| => f(s[i]))
  }

  function Sum<T>(s: seq<T>, f: T -> int): int {
    if s == [] then 0 else f(s[0]) + Sum(s[1..], f)
  }

  function SumReal<T>(s: seq<T>, f: T -> real): real {
    if s == [] then 0.0 else f(s[0]) + SumReal(s[1..], f)
  }

  /** `.mean()` of an integer column of a non-empty selection. */
  function Mean<T>(s: seq<T>, f: T -> int): real
    requires |s| > 0
  {
    Sum(s, f) as real / |s| as real
  }

  /** `.mean()` of a float column of a non-empty selection. */
  function MeanReal<T>(s: seq<T>, f: T -> real): real
    requires |s| > 0
  {
    SumReal(s, f) / |s| as real
  }

  /** `.min()` of a non-empty selection. */
  function MinOf<T>(s: seq<T>, f: T -> int): (m: int)
    requires |s| > 0
    ensures forall x :: x in s ==> m <= f(x)
    ensures exists x :: x in s && f(x) == m
  {
    if |s| == 1 then f(s[0])
    else
      var rest := MinOf(s[1..], f);
      assert forall x :: x in s ==> x == s[0] || x in s[1..];
      if f(s[0]) <= rest then f(s[0]) else rest
  }

  /** `.max()` of a non-empty selection. */
  function MaxOf<T>(s: seq<T>, f: T -> int): (m: int)
    requires |s| > 0
    ensures forall x :: x in s ==> f(x) <= m
    ensures exists x :: x in s && f(x) == m
  {
    if |s| == 1 then f(s[0])
    else
      var rest := MaxOf(s[1..], f);
      assert forall x :: x in s ==> x == s[0] || x in s[1..];
      if f(s[0]) >= rest then f(s[0]) else rest
  }

  function MinReal<T>(s: seq<T>, f: T -> real): (m: real)
    requires |s| > 0
    ensures forall x :: x in s ==> m <= f(x)
    ensures exists x :: x in s && f(x) == m
  {
    if |s| == 1 then f(s[0])
    else
      var rest := MinReal(s[1..], f);
      assert forall x :: x in s ==> x == s[0] || x in s[1..];
      if f(s[0]) <= rest then f(s[0]) else rest
  }

  function MaxReal<T>(s: seq<T>, f: T -> real): (m: real)
    requires |s| > 0
    ensures forall x :: x in s ==> f(x) <= m
    ensures exists x :: x in s && f(x) == m
  {
    if |s| == 1 then f(s[0])
    else
      var rest := MaxReal(s[1..], f);
      assert forall x :: x in s ==> x == s[0] || x in s[1..];
      if f(s[0]) >= rest then f(s[0]) else rest
  }

  /** A column whose values are all at least `lo` sums to at least count times `lo`. */
  lemma {:induction false} SumAtLeast<T>(s: seq<T>, f: T -> int, lo: int)
    requires forall x :: x in s ==> lo <= f(x)
    ensures |s| * lo <= Sum(s, f)
  {
    if s != [] {
      assert forall x :: x in s[1..] ==> x in s;
      SumAtLeast(s[1..], f, lo);
      StepBound(lo, f(s[0]), |s[1..]|, |s|, Sum(s[1..], f), Sum(s, f));
    }
  }

  lemma {:induction false} SumAtMost<T>(s: seq<T>, f: T -> int, hi: int)
    requires forall x :: x in s ==> f(x) <= hi
    ensures Sum(s, f) <= |s| * hi
  {
    if s != [] {
      assert forall x :: x in s[1..] ==> x in s;
      SumAtMost(s[1..], f, hi);
      StepBoundUpper(hi, f(s[0]), |s[1..]|, |s|, Sum(s[1..], f), Sum(s, f));
    }
  }

  lemma SumRealAtLeast<T>(s: seq<T>, f: T -> real, lo: real)
    requires forall x :: x in s ==> lo <= f(x)
    ensures |s| as real * lo <= SumReal(s, f)
  {
    RepeatedLowerBound(s, f, lo);
    RepeatIsProduct(|s|, lo);
  }

  lemma SumRealAtMost<T>(s: seq<T>, f: T -> real, hi: real)
    requires forall x :: x in s ==> f(x) <= hi
    ensures SumReal(s, f) <= |s| as real * hi
  {
    RepeatedUpperBound(s, f, hi);
    RepeatIsProduct(|s|, hi);
  }

  /** `x` added to itself `n` times. */
  function Repeat(n: nat, x: real): real {
    if n == 0 then 0.0 else x + Repeat(n - 1, x)
  }

  lemma {:induction false} RepeatIsProduct(n: nat, x: real)
    ensures Repeat(n, x) == n as real * x
  {
    if n > 0 {
      RepeatIsProduct(n - 1, x);
      assert n as real * x == (n - 1) as real * x + x;
    }
  }

  lemma {:induction false} RepeatedLowerBound<T>(s: seq<T>, f: T -> real, lo: real)
    requires forall x :: x in s ==> lo <= f(x)
    ensures Repeat(|s|, lo) <= SumReal(s, f)
  {
    if s != [] {
      assert s[0] in s;
      assert forall x :: x in s[1..] ==> x in s;
      RepeatedLowerBound(s[1..], f, lo);
    }
  }

  lemma {:induction false} RepeatedUpperBound<T>(s: seq<T>, f: T -> real, hi: real)
    requires forall x :: x in s ==> f(x) <= hi
    ensures SumReal(s, f) <= Repeat(|s|, hi)
  {
    if s != [] {
      assert s[0] in s;
      assert forall x :: x in s[1..] ==> x in s;
      RepeatedUpperBound(s[1..], f, hi);
    }
  }

  lemma StepBound(lo: int, head: int, n: int, m: int, tail: int, total: int)
    requires lo <= head && n * lo <= tail && m == n + 1 && total == head + tail
    ensures m * lo <= total
  {
  }

  lemma StepBoundUpper(hi: int, head: int, n: int, m: int, tail: int, total: int)
    requires head <= hi && tail <= n * hi && m == n + 1 && total == head + tail
    ensures total <= m * hi
  {
  }

  /** A mean lies between the minimum and the maximum of what it averages. */
  lemma MeanBetween<T>(s: seq<T>, f: T -> int)
    requires |s| > 0
    ensures MinOf(s, f) as real <= Mean(s, f) <= MaxOf(s, f) as real
  {
    var lo, hi := MinOf(s, f), MaxOf(s, f);
    SumAtLeast(s, f, lo);
    SumAtMost(s, f, hi);
    DivideBoundsInt(Sum(s, f), |s|, lo, hi);
  }

  lemma MeanRealBetween<T>(s: seq<T>, f: T -> real)
    requires |s| > 0
    ensures MinReal(s, f) <= MeanReal(s, f) <= MaxReal(s, f)
  {
    MeanRealAtLeast(s, f, MinReal(s, f));
    MeanRealAtMost(s, f, MaxReal(s, f));
  }

  lemma MeanRealAtLeast<T>(s: seq<T>, f: T -> real, lo: real)
    requires |s| > 0
    requires forall x :: x in s ==> lo <= f(x)
    ensures lo <= MeanReal(s, f)
  {
    SumRealAtLeast(s, f, lo);
    DivideAtLeast(SumReal(s, f), |s| as real, lo);
  }

  lemma MeanRealAtMost<T>(s: seq<T>, f: T -> real, hi: real)
    requires |s| > 0
    requires forall x :: x in s ==> f(x) <= hi
    ensures MeanReal(s, f) <= hi
  {
    SumRealAtMost(s, f, hi);
    DivideAtMost(SumReal(s, f), |s| as real, hi);
  }

  lemma DivideBoundsInt(total: int, n: int, lo: int, hi: int)
    requires n > 0
    requires n * lo <= total <= n * hi
    ensures lo as real <= total as real / n as real <= hi as real
  {
    var q := total as real / n as real;
    assert q * n as real == total as real;
    assert (n * lo) as real == n as real * lo as real;
    assert (n * hi) as real == n as real * hi as real;
  }

  lemma DivideAtLeast(total: real, n: real, lo: real)
    requires n > 0.0 && n * lo <= total
    ensures lo <= total / n
  {
    var q := total / n;
    assert q * n == total;
  }

  lemma DivideAtMost(total: real, n: real, hi: real)
    requires n > 0.0 && total <= n * hi
    ensures total / n <= hi
  {
    var q := total / n;
    assert q * n == total;
  }

  /** `.unique()`: each value once, in order of first appearance. */
  function Unique<K(==,!new)>(s: seq<K>): (r: seq<K>)
    ensures Distinct(r)
    ensures forall x :: x in r <==> x in s
  {
    if s == [] then []
    else
      var init := Unique(s[..|s| - 1]);
      assert forall x :: x in s <==> x in s[..|s| - 1] || x == s[|s| - 1];
      if s[|s| - 1] in init then init else init + [s[|s| - 1]]
  }

  /** The position where `x` first occurs in `s`. */
  function FirstIndex<K(==)>(s: seq<K>, x: K): (i: nat)
    requires x in s
    ensures i < |s| && s[i] == x && x !in s[..i]
  {
    if s[0] == x then 0
    else
      assert s == [s[0]] + s[1..];
      var i := FirstIndex(s[1..], x);
      assert s[..i + 1] == [s[0]] + s[1..][..i];
      i + 1
  }

  lemma FirstIndexUnique<K>(s: seq<K>, x: K, i: nat, j: nat)
    requires i < |s| && s[i] == x && x !in s[..i]
    requires j < |s| && s[j] == x && x !in s[..j]
    ensures i == j
  {
  }

  /** Appending a value keeps the first positions of the values already there. */
  lemma FirstIndexAppend<K>(s: seq<K>, x: K)
    requires s != [] && x in s[..|s| - 1]
    ensures FirstIndex(s, x) == FirstIndex(s[..|s| - 1], x)
  {
    var init := s[..|s| - 1];
    var i := FirstIndex(init, x);
    assert s[..i] == init[..i];
    FirstIndexUnique(s, x, i, FirstIndex(s, x));
  }

  /** `unique()` lists the values in the order of their first appearance. */
  lemma {:induction false} UniqueInFirstAppearanceOrder<K(!new)>(s: seq<K>)
    ensures forall i, j :: 0 <= i < j < |Unique(s)| ==> FirstIndex(s, Unique(s)[i]) < FirstIndex(s, Unique(s)[j])
  {
    if s != [] {
      var init := s[..|s| - 1];
      var last := s[|s| - 1];
      var u := Unique(init);
      UniqueInFirstAppearanceOrder(init);
      assert forall a, b :: 0 <= a < b < |u| ==> FirstIndex(init, u[a]) < FirstIndex(init, u[b]);
      var r := Unique(s);
      assert r == if last in u then u else u + [last];
      forall i, j | 0 <= i < j < |r| ensures FirstIndex(s, r[i]) < FirstIndex(s, r[j]) {
        assert r[i] == u[i] && u[i] in init;
        FirstIndexAppend(s, r[i]);
        if j < |u| {
          assert r[j] == u[j] && u[j] in init;
          assert FirstIndex(init, u[i]) < FirstIndex(init, u[j]);
          FirstIndexAppend(s, r[j]);
        } else {
          assert r[j] == last && last !in init;
          FirstIndexUnique(s, last, |s| - 1, FirstIndex(s, last));
          assert FirstIndex(init, u[i]) < |init|;
        }
      }
    }
  }

  function InsertKey<K(==,!new)>(x: K, s: seq<K>, lt: (K, K) -> bool): (r: seq<K>)
    requires StrictTotalOrder(lt) && StrictlySorted(s, lt)
    ensures StrictlySorted(r, lt)
    ensures forall y :: y in r <==> y == x || y in s
  {
    if s == [] then [x]
    else if x == s[0] then s
    else if lt(x, s[0]) then [x] + s
    else
      var rest := InsertKey(x, s[1..], lt);
      assert forall y :: y in s[1..] ==> lt(s[0], y);
      assert lt(s[0], x);
      [s[0]] + rest
  }

  /** The keys of a `groupby`: each distinct value once, in ascending order. */
  function SortedKeys<K(==,!new)>(s: seq<K>, lt: (K, K) -> bool): (r: seq<K>)
    requires StrictTotalOrder(lt)
    ensures StrictlySorted(r, lt)
    ensures Distinct(r)
    ensures forall x :: x in r <==> x in s
  {
    if s == [] then []
    else
      assert forall x :: x in s <==> x in s[..|s| - 1] || x == s[|s| - 1];
      InsertKey(s[|s| - 1], SortedKeys(s[..|s| - 1], lt), lt)
  }

  /** The rows of one group: `df[key(row) == k]`. */
  function Group<T(!new), K(==)>(s: seq<T>, key: T -> K, k: K): (g: seq<T>)
    ensures |g| <= |s|
    ensures forall x :: x in g <==> x in s && key(x) == k
  {
    if s == [] then []
    else
      assert forall x :: x in s <==> x == s[0] || x in s[1..];
      (if key(s[0]) == k then [s[0]] else []) + Group(s[1..], key, k)
  }

  /** A key no row carries has an empty group. */
  lemma {:induction false} NoGroupWithoutRows<T(!new), K>(s: seq<T>, key: T -> K, k: K)
    requires forall x :: x in s ==> key(x) != k
    ensures Group(s, key, k) == []
  {
    if s != [] {
      assert s[0] in s;
      NoGroupWithoutRows(s[1..], key, k);
    }
  }

  /** The total size of the groups of the given keys. */
  function GroupSizes<T(!new), K(==)>(s: seq<T>, key: T -> K, keys: seq<K>): nat {
    if keys == [] then 0 else |Group(s, key, keys[0])| + GroupSizes(s, key, keys[1..])
  }

  /** One row per key, each counting its key's group: the counts add up to the
      groups' total size. */
  lemma {:induction false} CountsMatchGroupSizes<R, T(!new), K>(rows: seq<R>, count: R -> int,
                                                               s: seq<T>, key: T -> K, keys: seq<K>)
    requires |rows| == |keys|
    requires forall i :: 0 <= i < |keys| ==> count(rows[i]) == |Group(s, key, keys[i])|
    ensures Sum(rows, count) == GroupSizes(s, key, keys)
  {
    if keys != [] {
      assert count(rows[0]) == |Group(s, key, keys[0])|;
      CountsMatchGroupSizes(rows[1..], count, s, key, keys[1..]);
    }
  }

  function Occurrences<K(==)>(s: seq<K>, v: K): nat {
    if s == [] then 0 else (if s[0] == v then 1 else 0) + Occurrences(s[1..], v)
  }

  /** Grouping loses and duplicates nothing: when every row's key is listed once,
      the group sizes add up to the number of rows. */
  lemma {:induction false} GroupSizesPartition<T(!new), K>(s: seq<T>, key: T -> K, keys: seq<K>)
    requires Distinct(keys)
    requires forall x :: x in s ==> key(x) in keys
    ensures GroupSizes(s, key, keys) == |s|
  {
    if s == [] {
      GroupSizesOfEmpty(key, keys);
    } else {
      assert s == [s[0]] + s[1..];
      assert forall x :: x in s[1..] ==> x in s;
      GroupSizesPartition(s[1..], key, keys);
      GroupSizesCons(s[0], s[1..], key, keys);
      OccurrencesDistinct(keys, key(s[0]));
    }
  }

  lemma {:induction false} GroupSizesOfEmpty<T(!new), K>(key: T -> K, keys: seq<K>)
    ensures GroupSizes([], key, keys) == 0
  {
    if keys != [] {
      GroupSizesOfEmpty(key, keys[1..]);
    }
  }

  lemma {:induction false} GroupSizesCons<T(!new), K>(x: T, s: seq<T>, key: T -> K, keys: seq<K>)
    ensures GroupSizes([x] + s, key, keys) == Occurrences(keys, key(x)) + GroupSizes(s, key, keys)
  {
    if keys != [] {
      assert ([x] + s)[1..] == s;
      GroupSizesCons(x, s, key, keys[1..]);
    }
  }

  lemma {:induction false} OccurrencesDistinct<K>(s: seq<K>, v: K)
    requires Distinct(s)
    ensures Occurrences(s, v) == if v in s then 1 else 0
  {
    if s != [] {
      OccurrencesDistinct(s[1..], v);
      assert s[0] !in s[1..];
    }
  }

  /** A sequence whose rows have distinct keys holds each row at most once. */
  lemma {:induction false} DistinctKeysAtMostOnce<T, K>(s: seq<T>, key: T -> K, x: T)
    requires Distinct(Map(s, key))
    ensures multiset(s)[x] <= 1
  {
    if s != [] {
      assert s == [s[0]] + s[1..];
      assert Distinct(Map(s[1..], key)) by {
        forall i, j | 0 <= i < j < |s[1..]| ensures key(s[1..][i]) != key(s[1..][j]) {
          assert Map(s, key)[i + 1] != Map(s, key)[j + 1];
        }
      }
      DistinctKeysAtMostOnce(s[1..], key, x);
      if x == s[0] && x in s[1..] {
        assert false;
      }
    }
  }

  lemma TwoCopies<T>(s: seq<T>, i: nat, j: nat)
    requires i < j < |s| && s[i] == s[j]
    ensures multiset(s)[s[i]] >= 2
  {
    assert s == s[..j] + [s[j]] + s[j + 1..];
    assert s[i] in s[..j];
  }

  /** Reordering rows keeps their keys distinct. */
  lemma PermutationKeepsDistinctKeys<T, K>(s: seq<T>, r: seq<T>, key: T -> K)
    requires multiset(s) == multiset(r) && Distinct(Map(s, key))
    ensures Distinct(Map(r, key))
  {
    forall i, j | 0 <= i < j < |r| ensures key(r[i]) != key(r[j]) {
      if r[i] == r[j] {
        TwoCopies(r, i, j);
        DistinctKeysAtMostOnce(s, key, r[i]);
        assert false;
      } else {
        DistinctRowsDistinctKeys(s, key, r[i], r[j]);
      }
    }
  }

  lemma DistinctRowsDistinctKeys<T, K>(s: seq<T>, key: T -> K, x: T, y: T)
    requires Distinct(Map(s, key)) && x in multiset(s) && y in multiset(s) && x != y
    ensures key(x) != key(y)
  {
    var a :| 0 <= a < |s| && s[a] == x;
    var b :| 0 <= b < |s| && s[b] == y;
    assert Map(s, key)[a] == key(x) && Map(s, key)[b] == key(y);
  }

  /** Two row lists with distinct keys and no key in common concatenate to one with distinct keys. */
  lemma DistinctKeysConcat<T, K>(a: seq<T>, b: seq<T>, key: T -> K)
    requires Distinct(Map(a, key)) && Distinct(Map(b, key))
    requires forall x, y :: x in a && y in b ==> key(x) != key(y)
    ensures Distinct(Map(a + b, key))
  {
    var ab := a + b;
    forall i, j | 0 <= i < j < |ab| ensures key(ab[i]) != key(ab[j]) {
      if j < |a| {
        assert Map(a, key)[i] != Map(a, key)[j];
      } else if i >= |a| {
        assert Map(b, key)[i - |a|] != Map(b, key)[j - |a|];
      } else {
        assert ab[i] in a && ab[j] in b;
      }
    }
  }

  /** `.head(n)`. */
  function Take<T>(s: seq<T>, n: nat): (r: seq<T>)
    ensures |r| == if n < |s| then n else |s|
    ensures r == s[..|r|]
  {
    if n < |s| then s[..n] else s
  }
}
