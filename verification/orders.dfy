/** Orders on group keys.

    pandas' `groupby` emits one row per key in ascending key order. Keys are
    strings (collaborator, client, operation), calendar days, or pairs of those,
    so the model needs Python's order on `str`, the order on integers, and the
    lexicographic order on pairs.
 */
module Orders {

  ghost predicate StrictTotalOrder<K(!new)>(lt: (K, K) -> bool) {
    && (forall a :: !lt(a, a))
    && (forall a, b, c :: lt(a, b) && lt(b, c) ==> lt(a, c))
    && (forall a, b :: a != b ==> lt(a, b) || lt(b, a))
  }

  ghost predicate StrictlySorted<K>(s: seq<K>, lt: (K, K) -> bool) {
    forall i, j :: 0 <= i < j < |s| ==> lt(s[i], s[j])
  }

  predicate IntLt(a: int, b: int) {
    a < b
  }

  /** Python's `str` comparison: code point by code point, a proper prefix first. */
  predicate StrLt(a: string, b: string) {
    if |a| == 0 then |b| > 0
    else if |b| == 0 then false
    else if a[0] != b[0] then a[0] < b[0]
    else StrLt(a[1..], b[1..])
  }

  /** The lexicographic order on pairs, as Python compares tuples. */
  function Lex<A(==), B>(ltA: (A, A) -> bool, ltB: (B, B) -> bool): ((A, B), (A, B)) -> bool {
    (p: (A, B), q: (A, B)) => ltA(p.0, q.0) || (p.0 == q.0 && ltB(p.1, q.1))
  }

  lemma {:induction false} StrLtIrreflexive(a: string)
    ensures !StrLt(a, a)
  {
    if |a| > 0 {
      StrLtIrreflexive(a[1..]);
    }
  }

  lemma {:induction false} StrLtTransitive(a: string, b: string, c: string)
    requires StrLt(a, b) && StrLt(b, c)
    ensures StrLt(a, c)
  {
    if |a| > 0 && |b| > 0 && |c| > 0 && a[0] == b[0] && b[0] == c[0] {
      StrLtTransitive(a[1..], b[1..], c[1..]);
    }
  }

  lemma {:induction false} StrLtConnected(a: string, b: string)
    requires a != b
    ensures StrLt(a, b) || StrLt(b, a)
  {
    if |a| > 0 && |b| > 0 && a[0] == b[0] {
      assert a == [a[0]] + a[1..] && b == [b[0]] + b[1..];
      StrLtConnected(a[1..], b[1..]);
    }
  }

  lemma StrLtIsStrictTotalOrder()
    ensures StrictTotalOrder(StrLt)
  {
    forall a {
      StrLtIrreflexive(a);
    }
    forall a, b, c | StrLt(a, b) && StrLt(b, c) {
      StrLtTransitive(a, b, c);
    }
    forall a, b | a != b {
      StrLtConnected(a, b);
    }
  }

  lemma IntLtIsStrictTotalOrder()
    ensures StrictTotalOrder(IntLt)
  {
  }

  lemma LexIsStrictTotalOrder<A(!new), B(!new)>(ltA: (A, A) -> bool, ltB: (B, B) -> bool)
    requires StrictTotalOrder(ltA) && StrictTotalOrder(ltB)
    ensures StrictTotalOrder(Lex(ltA, ltB))
  {
    var lt := Lex(ltA, ltB);
    forall p: (A, B), q: (A, B) | p != q
      ensures lt(p, q) || lt(q, p)
    {
      if p.0 == q.0 {
        assert p.1 != q.1;
      }
    }
  }

  lemma SortedTail<K>(s: seq<K>, lt: (K, K) -> bool)
    requires s != [] && StrictlySorted(s, lt)
    ensures StrictlySorted(s[1..], lt)
    ensures forall k :: k in s[1..] ==> lt(s[0], k)
  {
    forall i, j | 0 <= i < j < |s[1..]| ensures lt(s[1..][i], s[1..][j]) {
      assert s[1..][i] == s[i + 1] && s[1..][j] == s[j + 1];
    }
    forall k | k in s[1..] ensures lt(s[0], k) {
      var j :| 0 <= j < |s[1..]| && s[1..][j] == k;
      assert s[j + 1] == k;
    }
  }

  lemma SortedCons<K>(h: K, s: seq<K>, lt: (K, K) -> bool)
    requires StrictlySorted(s, lt)
    requires forall k :: k in s ==> lt(h, k)
    ensures StrictlySorted([h] + s, lt)
  {
    var r := [h] + s;
    forall i, j | 0 <= i < j < |r| ensures lt(r[i], r[j]) {
      assert r[j] == s[j - 1];
      if i == 0 {
        assert s[j - 1] in s;
      } else {
        assert r[i] == s[i - 1];
      }
    }
  }
}
