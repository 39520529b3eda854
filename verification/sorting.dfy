/** `sort_values`, `nsmallest` and `nlargest` on a float column.

    The sort is an insertion sort that puts each row in front of the rows with
    an equal key, so rows with equal keys keep their input order. That is the
    order `nsmallest` and `nlargest` promise (`keep='first'`: of the tied rows,
    the earliest are kept, in input order). `sort_values` uses an unstable
    quicksort that promises no order among ties; the stable order is one of
    the orders it may produce. NaN sorts last in either direction.
 */
module Sorting {
  import opened ExtReal
  import opened Seqs

  ghost predicate SortedBy<T>(s: seq<T>, key: T -> Ext) {
    forall i, j :: 0 <= i < j < |s| ==> Le(key(s[i]), key(s[j]))
  }

  ghost predicate SortedDescBy<T>(s: seq<T>, key: T -> Ext) {
    forall i, j :: 0 <= i < j < |s| ==> DescLe(key(s[i]), key(s[j]))
  }

  function Insert<T>(x: T, s: seq<T>, key: T -> Ext): (r: seq<T>)
    requires SortedBy(s, key)
    ensures SortedBy(r, key)
    ensures multiset(r) == multiset(s) + multiset{x}
  {
    if s == [] then [x]
    else if Le(key(x), key(s[0])) then
      InsertFront(x, s, key);
      [x] + s
    else
      var rest := Insert(x, s[1..], key);
      InsertBehind(x, s, rest, key);
      [s[0]] + rest
  }

  lemma InsertFront<T>(x: T, s: seq<T>, key: T -> Ext)
    requires SortedBy(s, key) && s != [] && Le(key(x), key(s[0]))
    ensures SortedBy([x] + s, key)
  {
    forall y | y in s ensures Le(key(x), key(y)) {
      var j :| 0 <= j < |s| && s[j] == y;
      if j > 0 {
        LeTransitive(key(x), key(s[0]), key(s[j]));
      }
    }
    SortedConsBy(x, s, key);
  }

  lemma InsertBehind<T>(x: T, s: seq<T>, rest: seq<T>, key: T -> Ext)
    requires SortedBy(s, key) && s != [] && !Le(key(x), key(s[0]))
    requires SortedBy(rest, key) && multiset(rest) == multiset(s[1..]) + multiset{x}
    ensures SortedBy([s[0]] + rest, key)
    ensures multiset([s[0]] + rest) == multiset(s) + multiset{x}
  {
    LeTotal(key(x), key(s[0]));
    assert s == [s[0]] + s[1..];
    forall y | y in rest ensures Le(key(s[0]), key(y)) {
      assert y in multiset(rest);
      if y != x {
        var j :| 0 <= j < |s[1..]| && s[1..][j] == y;
        assert s[j + 1] == y;
      }
    }
    SortedConsBy(s[0], rest, key);
  }

  lemma SortedConsBy<T>(h: T, s: seq<T>, key: T -> Ext)
    requires SortedBy(s, key)
    requires forall y :: y in s ==> Le(key(h), key(y))
    ensures SortedBy([h] + s, key)
  {
    var r := [h] + s;
    forall i, j | 0 <= i < j < |r| ensures Le(key(r[i]), key(r[j])) {
      if i == 0 {
        assert r[j] == s[j - 1];
      } else {
        assert r[i] == s[i - 1] && r[j] == s[j - 1];
      }
    }
  }

  /** The rows whose key is `k`: one class of ties. */
  function KeyIs<T>(key: T -> Ext, k: Ext): T -> bool {
    x => key(x) == k
  }

  /** The key of the descending sort. */
  function Negated<T>(key: T -> Ext): T -> Ext {
    x => Neg(key(x))
  }

  /** Every class of ties appears in `r` in the order it has in `s`. */
  ghost predicate TiesInOrder<T(!new)>(r: seq<T>, s: seq<T>, key: T -> Ext) {
    forall k :: Filter(r, KeyIs(key, k)) == Filter(s, KeyIs(key, k))
  }

  /** Every class of ties in `r` is the first part of that class in `s`. */
  ghost predicate KeepsFirstTies<T(!new)>(r: seq<T>, s: seq<T>, key: T -> Ext) {
    forall k :: IsPrefix(Filter(r, KeyIs(key, k)), Filter(s, KeyIs(key, k)))
  }

  /** The inserted row comes first among the rows with its key. */
  lemma {:induction false} InsertTies<T(!new)>(x: T, s: seq<T>, key: T -> Ext, k: Ext)
    requires SortedBy(s, key)
    ensures Filter(Insert(x, s, key), KeyIs(key, k))
            == (if key(x) == k then [x] else []) + Filter(s, KeyIs(key, k))
  {
    InsertShape(x, s, key);
    if s == [] || Le(key(x), key(s[0])) {
      FilterPrepend(x, s, KeyIs(key, k));
    } else {
      InsertTies(x, s[1..], key, k);
      HeadAndTail(s);
      TiesBehind(x, s[0], Insert(x, s[1..], key), s[1..], KeyIs(key, k));
    }
  }

  lemma InsertShape<T>(x: T, s: seq<T>, key: T -> Ext)
    requires SortedBy(s, key)
    ensures s == [] || Le(key(x), key(s[0])) ==> Insert(x, s, key) == [x] + s
    ensures s != [] && !Le(key(x), key(s[0])) ==> Insert(x, s, key) == [s[0]] + Insert(x, s[1..], key)
  {
  }

  /** A row of another class placed in front of `x` leaves `x` first in its own. */
  lemma TiesBehind<T(!new)>(x: T, h: T, rest: seq<T>, tail: seq<T>, p: T -> bool)
    requires !(p(x) && p(h))
    requires Filter(rest, p) == (if p(x) then [x] else []) + Filter(tail, p)
    ensures Filter([h] + rest, p) == (if p(x) then [x] else []) + Filter([h] + tail, p)
  {
    FilterPrepend(h, rest, p);
    FilterPrepend(h, tail, p);
    if p(h) {
      assert Filter(rest, p) == Filter(tail, p);
    }
  }

  /** One step of the insertion sort: `s[0]` goes in front of its ties. */
  lemma SortAscStep<T(!new)>(s: seq<T>, rest: seq<T>, key: T -> Ext)
    requires s != [] && SortedBy(rest, key)
    requires multiset(rest) == multiset(s[1..]) && TiesInOrder(rest, s[1..], key)
    ensures var r := Insert(s[0], rest, key);
            multiset(r) == multiset(s) && |r| == |s| && TiesInOrder(r, s, key)
  {
    var r := Insert(s[0], rest, key);
    assert s == [s[0]] + s[1..];
    assert |r| == |multiset(r)|;
    forall k ensures Filter(r, KeyIs(key, k)) == Filter(s, KeyIs(key, k)) {
      InsertTies(s[0], rest, key, k);
      FilterCons(s, KeyIs(key, k));
    }
  }

  /** `sort_values(key, ascending=True)`. */
  function SortAsc<T(!new)>(s: seq<T>, key: T -> Ext): (r: seq<T>)
    ensures SortedBy(r, key)
    ensures multiset(r) == multiset(s)
    ensures |r| == |s|
    ensures TiesInOrder(r, s, key)
  {
    if s == [] then []
    else
      var rest := SortAsc(s[1..], key);
      SortAscStep(s, rest, key);
      Insert(s[0], rest, key)
  }

  /** `sort_values(key, ascending=False)`: largest first, NaN still last. */
  function SortDesc<T(!new)>(s: seq<T>, key: T -> Ext): (r: seq<T>)
    ensures SortedDescBy(r, key)
    ensures multiset(r) == multiset(s)
    ensures |r| == |s|
    ensures TiesInOrder(r, s, key)
  {
    var r := SortAsc(s, Negated(key));
    NegatedTiesInOrder(r, s, key);
    r
  }

  /** `nsmallest(n, key)`, `keep='first'`: the first `n` rows of the ascending
      sort; of rows with equal keys the earlier ones are kept. */
  function Smallest<T(!new)>(s: seq<T>, key: T -> Ext, n: nat): (r: seq<T>)
    ensures |r| == if n < |s| then n else |s|
    ensures SortedBy(r, key)
    ensures multiset(r) <= multiset(s)
    ensures forall x, y :: x in r && y in s && y !in r ==> Le(key(x), key(y))
    ensures KeepsFirstTies(r, s, key)
  {
    var sorted := SortAsc(s, key);
    var r := Take(sorted, n);
    PrefixBound(sorted, r, key);
    PrefixSubMultiset(sorted, r);
    forall y | y in s ensures y in sorted {
      assert y in multiset(s);
    }
    forall k ensures IsPrefix(Filter(r, KeyIs(key, k)), Filter(s, KeyIs(key, k))) {
      FilterOfPrefix(sorted, |r|, KeyIs(key, k));
    }
    r
  }

  /** `nlargest(n, key)`, `keep='first'`: the first `n` rows of the descending
      sort; of rows with equal keys the earlier ones are kept. */
  function Largest<T(!new)>(s: seq<T>, key: T -> Ext, n: nat): (r: seq<T>)
    ensures |r| == if n < |s| then n else |s|
    ensures SortedDescBy(r, key)
    ensures multiset(r) <= multiset(s)
    ensures forall x, y :: x in r && y in s && y !in r ==> DescLe(key(x), key(y))
    ensures KeepsFirstTies(r, s, key)
  {
    var r := Smallest(s, Negated(key), n);
    NegatedKeepsFirstTies(r, s, key);
    r
  }

  lemma NegatedTiesInOrder<T(!new)>(r: seq<T>, s: seq<T>, key: T -> Ext)
    requires TiesInOrder(r, s, Negated(key))
    ensures TiesInOrder(r, s, key)
  {
    forall k ensures Filter(r, KeyIs(key, k)) == Filter(s, KeyIs(key, k)) {
      NegatedTies(r, key, k);
      NegatedTies(s, key, k);
    }
  }

  lemma NegatedKeepsFirstTies<T(!new)>(r: seq<T>, s: seq<T>, key: T -> Ext)
    requires KeepsFirstTies(r, s, Negated(key))
    ensures KeepsFirstTies(r, s, key)
  {
    forall k ensures IsPrefix(Filter(r, KeyIs(key, k)), Filter(s, KeyIs(key, k))) {
      NegatedTies(r, key, k);
      NegatedTies(s, key, k);
    }
  }

  /** Negating the key keeps every class of ties. */
  lemma NegatedTies<T(!new)>(s: seq<T>, key: T -> Ext, k: Ext)
    ensures Filter(s, KeyIs(Negated(key), Neg(k))) == Filter(s, KeyIs(key, k))
  {
    forall x ensures KeyIs(Negated(key), Neg(k))(x) == KeyIs(key, k)(x) {
      NegInjective(key(x), k);
    }
    FilterAgrees(s, KeyIs(Negated(key), Neg(k)), KeyIs(key, k));
  }

  lemma NegInjective(a: Ext, b: Ext)
    ensures Neg(a) == Neg(b) <==> a == b
  {
  }

  /** When `r` keeps the first rows of each class of ties of a sequence of
      distinct rows, a row of `r` brings along every earlier row tied with it. */
  lemma EarlierTieKept<T(!new)>(r: seq<T>, s: seq<T>, key: T -> Ext, i: nat, j: nat)
    requires KeepsFirstTies(r, s, key) && Distinct(s)
    requires i < j < |s| && key(s[i]) == key(s[j]) && s[j] in r
    ensures s[i] in r
  {
    var p := KeyIs(key, key(s[j]));
    var f := Filter(s, p);
    var g := Filter(r, p);
    assert IsPrefix(g, f);
    assert s[j] in g;
    var m :| 0 <= m < |g| && g[m] == s[j];
    FilterKeepsOrder(s, p, i, j);
    var a, b :| 0 <= a < b < |f| && f[a] == s[i] && f[b] == s[j];
    FilterDistinct(s, p);
    assert f[m] == s[j];
    assert g[a] == s[i];
  }

  lemma PrefixBound<T>(sorted: seq<T>, prefix: seq<T>, key: T -> Ext)
    requires SortedBy(sorted, key)
    requires |prefix| <= |sorted| && prefix == sorted[..|prefix|]
    ensures forall x, y :: x in prefix && y in sorted && y !in prefix ==> Le(key(x), key(y))
  {
    forall x, y | x in prefix && y in sorted && y !in prefix
      ensures Le(key(x), key(y))
    {
      var i :| 0 <= i < |prefix| && prefix[i] == x;
      var j :| 0 <= j < |sorted| && sorted[j] == y;
      if j < |prefix| {
        assert false;
      }
    }
  }

  lemma PrefixSubMultiset<T>(s: seq<T>, prefix: seq<T>)
    requires |prefix| <= |s| && prefix == s[..|prefix|]
    ensures multiset(prefix) <= multiset(s)
  {
    assert s == prefix + s[|prefix|..];
  }
}
