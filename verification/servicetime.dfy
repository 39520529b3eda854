/** The service-time tab per client or operation
    (src/visualizacao/dashboards/operacoes_clientes/tempo_atend.py): the mean
    service time and ticket count of each group in either period, the inner
    join of the two periods with the variation of the mean, the split into
    improvements and worsenings, and the count-weighted overall means.
 */
module ServiceTimes {
  import opened ExtReal
  import opened Outcome
  import opened Orders
  import opened Seqs
  import opened Sorting
  import opened Tickets
  import opened SidebarFilters
  import opened Breakdown

  /** One row of `calcular_tempos_por_periodo`: `media` in minutes and `contagem`. */
  datatype TimeRow = TimeRow(key: string, mean: real, count: nat)

  function RowKey(r: TimeRow): string { r.key }
  function Count(r: TimeRow): int { r.count }

  /** The group's summed service time, in seconds. */
  function GroupTotal(sel: seq<Ticket>, g: Grouping, k: string): int {
    Sum(Group(sel, KeyOf(g), k), ServiceTime)
  }

  /** The row of one group: its size, and its mean service time in minutes. */
  function GroupRow(sel: seq<Ticket>, g: Grouping, k: string): (r: TimeRow)
    requires HasKey(sel, g, k)
    ensures r.key == k
    ensures r.count == |Group(sel, KeyOf(g), k)| >= 1
  {
    var grp := KeyGroup(sel, g, k);
    TimeRow(k, Mean(grp, ServiceTime) / 60.0, |grp|)
  }

  /** A mean in minutes, times the count it averages and scaled back to
      seconds, gives `total`. */
  predicate Reweighs(mean: real, count: nat, total: int) {
    mean * count as real * 60.0 == total as real
  }

  /** Minutes times count, scaled back to seconds, is the total again. */
  lemma MinutesTimesCount(mean: real, count: nat, t: int, total: real, n: real)
    requires n > 0.0 && mean == total / n / 60.0 && count as real == n && t as real == total
    ensures Reweighs(mean, count, t)
  {
    var q := total / n;
    assert q * n == total;
  }

  function Rows(sel: seq<Ticket>, g: Grouping, keys: seq<string>): (rows: seq<TimeRow>)
    requires forall k :: k in keys ==> HasKey(sel, g, k)
    ensures |rows| == |keys|
    ensures forall i :: 0 <= i < |keys| ==> rows[i] == GroupRow(sel, g, keys[i])
  {
    seq(|keys|, i requires 0 <= i < |keys| => GroupRow(sel, g, keys[i]))
  }

  lemma RowCounts(sel: seq<Ticket>, g: Grouping, keys: seq<string>)
    requires forall k :: k in keys ==> HasKey(sel, g, k)
    ensures Sum(Rows(sel, g, keys), Count) == GroupSizes(sel, KeyOf(g), keys)
  {
    var rows := Rows(sel, g, keys);
    forall i | 0 <= i < |keys| ensures Count(rows[i]) == |Group(sel, KeyOf(g), keys[i])| {
      assert keys[i] in keys;
    }
    CountsMatchGroupSizes(rows, Count, sel, KeyOf(g), keys);
  }

  /** `calcular_tempos_por_periodo`: one row per group of the selected
      period's tickets, in ascending key order, whose counts add up to the
      tickets selected. */
  function PeriodTimes(ts: seq<Ticket>, f: Filters, p: PeriodKey, g: Grouping): (rows: seq<TimeRow>)
    ensures var sel := Selection(ts, f, p, g);
            && StrictlySorted(Map(rows, RowKey), StrLt)
            && (forall k :: k in Map(rows, RowKey) <==> HasKey(sel, g, k))
            && (forall r :: r in rows ==> HasKey(sel, g, r.key) && r == GroupRow(sel, g, r.key))
            && Sum(rows, Count) == |sel|
  {
    var sel := Selection(ts, f, p, g);
    var keys := Keys(sel, g);
    var rows := Rows(sel, g, keys);
    RowCounts(sel, g, keys);
    assert Map(rows, RowKey) == keys;
    assert Sum(rows, Count) == |sel| by {
      KeysPartition(sel, g);
    }
    rows
  }

  // ---- The comparison of the two periods ----

  /** One row of `pd.merge(tempos_p1, tempos_p2, on=grupo)` with `variacao`. */
  datatype Comparison = Comparison(
    key: string,
    meanP1: real, countP1: nat,
    meanP2: real, countP2: nat,
    variation: Ext
  )

  function CompKey(c: Comparison): string { c.key }
  function Variation(c: Comparison): Ext { c.variation }

  /** `media_p1`/`media_p2` and `contagem_p1`/`contagem_p2` of a row. */
  function MeanIn(p: PeriodKey, c: Comparison): real {
    match p
    case Period1 => c.meanP1
    case Period2 => c.meanP2
  }

  function CountIn(p: PeriodKey, c: Comparison): nat {
    match p
    case Period1 => c.countP1
    case Period2 => c.countP2
  }

  /** The row of `rows` with key `k`, if any. */
  function Lookup(rows: seq<TimeRow>, k: string): (r: Option<TimeRow>)
    ensures r.Some? <==> k in Map(rows, RowKey)
    ensures r.Some? ==> r.value in rows && r.value.key == k
  {
    if rows == [] then None
    else if rows[0].key == k then Some(rows[0])
    else
      assert Map(rows, RowKey) == [rows[0].key] + Map(rows[1..], RowKey);
      Lookup(rows[1..], k)
  }

  /** `x` merges a row of `r1` with a row of `r2` that carry its key. */
  ghost predicate JoinedFrom(r1: seq<TimeRow>, r2: seq<TimeRow>, x: Comparison) {
    exists a, b :: a in r1 && b in r2 && a.key == x.key && b.key == x.key && x == Joined(a, b)
  }

  /** The inner join on the group key. Both sides come from a groupby, so each
      key occurs once on each side and the join pairs rows one to one; rows
      keep the left side's order. */
  function InnerJoin(r1: seq<TimeRow>, r2: seq<TimeRow>): (c: seq<Comparison>)
    ensures forall k :: k in Map(c, CompKey) <==> k in Map(r1, RowKey) && k in Map(r2, RowKey)
    ensures forall x :: x in c ==> JoinedFrom(r1, r2, x)
  {
    if r1 == [] then []
    else
      assert Map(r1, RowKey) == [r1[0].key] + Map(r1[1..], RowKey);
      var rest := InnerJoin(r1[1..], r2);
      JoinedFromWider(r1, r2, rest);
      match Lookup(r2, r1[0].key)
      case None => rest
      case Some(b) =>
        assert Map([Joined(r1[0], b)] + rest, CompKey) == [r1[0].key] + Map(rest, CompKey);
        assert JoinedFrom(r1, r2, Joined(r1[0], b)) by { assert r1[0] in r1; }
        [Joined(r1[0], b)] + rest
  }

  /** Rows joined from the tail of `r1` are joined from `r1`. */
  lemma JoinedFromWider(r1: seq<TimeRow>, r2: seq<TimeRow>, rest: seq<Comparison>)
    requires r1 != []
    requires forall x :: x in rest ==> JoinedFrom(r1[1..], r2, x)
    ensures forall x :: x in rest ==> JoinedFrom(r1, r2, x)
  {
    forall x | x in rest ensures JoinedFrom(r1, r2, x) {
      var a, b :| a in r1[1..] && b in r2 && a.key == x.key && b.key == x.key && x == Joined(a, b);
      assert a in r1;
    }
  }

  /** The merged row of a period-1 and a period-2 row, with
      `variacao = (media_p2 - media_p1) / media_p1 * 100`. */
  function Joined(a: TimeRow, b: TimeRow): Comparison {
    Comparison(a.key, a.mean, a.count, b.mean, b.count, PctChange(b.mean, a.mean))
  }

  /** The left side's key order survives the join. */
  lemma {:induction false} InnerJoinKeepsOrder(r1: seq<TimeRow>, r2: seq<TimeRow>)
    requires StrictlySorted(Map(r1, RowKey), StrLt)
    ensures StrictlySorted(Map(InnerJoin(r1, r2), CompKey), StrLt)
  {
    if r1 != [] {
      var m1 := Map(r1, RowKey);
      assert m1[1..] == Map(r1[1..], RowKey);
      SortedTail(m1, StrLt);
      InnerJoinKeepsOrder(r1[1..], r2);
      var rest := InnerJoin(r1[1..], r2);
      match Lookup(r2, r1[0].key)
      case None =>
      case Some(b) =>
        assert Map([Joined(r1[0], b)] + rest, CompKey) == [r1[0].key] + Map(rest, CompKey);
        SortedCons(r1[0].key, Map(rest, CompKey), StrLt);
    }
  }

  /** A joined row: both periods have the group, its means and counts are the
      groups' own, and the variation compares the means. */
  ghost predicate JoinedRow(sel1: seq<Ticket>, sel2: seq<Ticket>, g: Grouping, x: Comparison) {
    && HasKey(sel1, g, x.key) && HasKey(sel2, g, x.key)
    && x.meanP1 == GroupRow(sel1, g, x.key).mean && x.countP1 == GroupRow(sel1, g, x.key).count
    && x.meanP2 == GroupRow(sel2, g, x.key).mean && x.countP2 == GroupRow(sel2, g, x.key).count
    && x.variation == PctChange(x.meanP2, x.meanP1)
  }

  /** `df_comp`: the groups present in both periods, in ascending key order. */
  function Compare(ts: seq<Ticket>, f: Filters, g: Grouping): (c: seq<Comparison>)
    ensures var sel1 := Selection(ts, f, Period1, g);
            var sel2 := Selection(ts, f, Period2, g);
            && (forall k :: k in Map(c, CompKey) <==> HasKey(sel1, g, k) && HasKey(sel2, g, k))
            && StrictlySorted(Map(c, CompKey), StrLt)
            && (forall x :: x in c ==> JoinedRow(sel1, sel2, g, x))
  {
    var r1 := PeriodTimes(ts, f, Period1, g);
    var r2 := PeriodTimes(ts, f, Period2, g);
    InnerJoinKeepsOrder(r1, r2);
    InnerJoin(r1, r2)
  }

  /** The keys of a comparison are distinct. */
  lemma CompareKeysDistinct(ts: seq<Ticket>, f: Filters, g: Grouping)
    ensures Distinct(Map(Compare(ts, f, g), CompKey))
  {
    var m := Map(Compare(ts, f, g), CompKey);
    StrLtIsStrictTotalOrder();
    forall i, j | 0 <= i < j < |m| ensures m[i] != m[j] {
      assert StrLt(m[i], m[j]);
    }
  }

  // ---- Insights ----

  datatype Colour = Green | Red

  /** The annotation colour: green for a negative variation, red otherwise,
      NaN included. */
  function VariationColour(c: Comparison): Colour {
    if Less(c.variation, 0.0) then Green else Red
  }

  /** Service times are never negative, so a group's variation is green
      exactly when its mean went down; a zero period-1 mean is never green. */
  lemma {:induction false} GreenIffFaster(ts: seq<Ticket>, f: Filters, g: Grouping, x: Comparison)
    requires x in Compare(ts, f, g)
    ensures VariationColour(x) == Green <==> x.meanP2 < x.meanP1
  {
    var sel1 := Selection(ts, f, Period1, g);
    var sel2 := Selection(ts, f, Period2, g);
    assert JoinedRow(sel1, sel2, g, x);
    MeanNonNegative(sel1, g, x.key);
    MeanNonNegative(sel2, g, x.key);
    NegativeVariation(x.meanP2, x.meanP1);
  }

  lemma NegativeVariation(current: real, base: real)
    requires current >= 0.0 && base >= 0.0
    ensures Less(PctChange(current, base), 0.0) <==> current < base
  {
    if base > 0.0 {
      PctChangeSign(current, base);
    }
  }

  lemma MeanNonNegative(sel: seq<Ticket>, g: Grouping, k: string)
    requires HasKey(sel, g, k)
    ensures GroupRow(sel, g, k).mean >= 0.0
  {
    var grp := KeyGroup(sel, g, k);
    SumAtLeast(grp, ServiceTime, 0);
    DivideAtLeast(Sum(grp, ServiceTime) as real, |grp| as real, 0.0);
  }

  /** `melhorias`: the rows whose variation is below zero, most negative first. */
  function Improvements(c: seq<Comparison>): (r: seq<Comparison>)
    ensures forall x :: x in r <==> x in c && Less(x.variation, 0.0)
    ensures SortedBy(r, Variation)
    ensures multiset(r) == multiset(Filter(c, (x: Comparison) => Less(x.variation, 0.0)))
  {
    var f := Filter(c, (x: Comparison) => Less(x.variation, 0.0));
    var r := SortAsc(f, Variation);
    assert forall x :: x in r <==> x in multiset(r);
    assert forall x :: x in f <==> x in multiset(f);
    r
  }

  /** `pioras`: the rows whose variation is above zero, largest first. */
  function Worsenings(c: seq<Comparison>): (r: seq<Comparison>)
    ensures forall x :: x in r <==> x in c && Greater(x.variation, 0.0)
    ensures SortedDescBy(r, Variation)
    ensures multiset(r) == multiset(Filter(c, (x: Comparison) => Greater(x.variation, 0.0)))
  {
    var f := Filter(c, (x: Comparison) => Greater(x.variation, 0.0));
    var r := SortDesc(f, Variation);
    assert forall x :: x in r <==> x in multiset(r);
    assert forall x :: x in f <==> x in multiset(f);
    r
  }

  /** No row is both an improvement and a worsening; an unchanged non-zero
      mean, and a NaN variation, is in neither list. */
  lemma SplitIsStrict(c: seq<Comparison>, x: Comparison)
    ensures !(x in Improvements(c) && x in Worsenings(c))
    ensures x.meanP1 != 0.0 && x.meanP2 == x.meanP1 && x.variation == PctChange(x.meanP2, x.meanP1) ==>
              x !in Improvements(c) && x !in Worsenings(c)
    ensures x.variation == NaN ==> x !in Improvements(c) && x !in Worsenings(c)
  {
  }

  /** The first three of each list are what the insights show. */
  function TopImprovements(c: seq<Comparison>): (r: seq<Comparison>)
    ensures |r| == if |Improvements(c)| < 3 then |Improvements(c)| else 3
    ensures forall x :: x in r ==> x in c && Less(x.variation, 0.0)
    ensures forall x, y :: x in r && y in Improvements(c) && y !in r ==> Le(x.variation, y.variation)
  {
    var imp := Improvements(c);
    var r := Take(imp, 3);
    PrefixBound(imp, r, Variation);
    r
  }

  function TopWorsenings(c: seq<Comparison>): (r: seq<Comparison>)
    ensures |r| == if |Worsenings(c)| < 3 then |Worsenings(c)| else 3
    ensures forall x :: x in r ==> x in c && Greater(x.variation, 0.0)
    ensures forall x, y :: x in r && y in Worsenings(c) && y !in r ==> DescLe(x.variation, y.variation)
  {
    var wor := Worsenings(c);
    var r := Take(wor, 3);
    PrefixBound(wor, r, x => Neg(Variation(x)));
    r
  }

  // ---- The overall means ----

  /** `media * contagem` of a row, for one period. */
  function WeightIn(p: PeriodKey): Comparison -> real {
    x => MeanIn(p, x) * CountIn(p, x) as real
  }

  /** `(media * contagem).sum()` over the joined rows, for one period. */
  function WeightedSum(c: seq<Comparison>, p: PeriodKey): real {
    SumReal(c, WeightIn(p))
  }

  /** `contagem.sum()` over the joined rows, for one period. */
  function CountSum(c: seq<Comparison>, p: PeriodKey): nat {
    if c == [] then 0 else CountIn(p, c[0]) + CountSum(c[1..], p)
  }

  /** `media_geral_p1`, `media_geral_p2`: the count-weighted mean of the
      groups' means, NaN when the join is empty. */
  function OverallMean(c: seq<Comparison>, p: PeriodKey): (m: Ext)
    ensures c == [] ==> m == NaN
  {
    Quotient(WeightedSum(c, p), CountSum(c, p) as real)
  }

  /** `var_media`: the variation of the overall mean; NaN for an empty join. */
  function OverallVariation(c: seq<Comparison>): (v: Ext)
    ensures c == [] ==> v == NaN
  {
    var m1 := OverallMean(c, Period1);
    var m2 := OverallMean(c, Period2);
    if m1.Finite? && m2.Finite? then PctChange(m2.v, m1.v) else NaN
  }

  /** Summed over the joined groups: the groups' total service time. */
  function JoinedTotal(sel: seq<Ticket>, g: Grouping, keys: seq<string>): int {
    Sum(keys, TotalOf(sel, g))
  }

  function TotalOf(sel: seq<Ticket>, g: Grouping): string -> int {
    k => GroupTotal(sel, g, k)
  }

  /** Weighting each mean by its count undoes the averaging: the overall mean
      is the joined groups' total service time over their ticket count, in
      minutes. Groups present in one period only do not contribute. */
  lemma {:induction false} OverallMeanIsTotalOverCount(ts: seq<Ticket>, f: Filters, g: Grouping, p: PeriodKey)
    requires Compare(ts, f, g) != []
    ensures var c := Compare(ts, f, g);
            var sel := Selection(ts, f, p, g);
            var keys := Map(c, CompKey);
            && GroupSizes(sel, KeyOf(g), keys) > 0
            && OverallMean(c, p) == Finite(JoinedTotal(sel, g, keys) as real / 60.0
                                           / GroupSizes(sel, KeyOf(g), keys) as real)
  {
    var c := Compare(ts, f, g);
    var sel1 := Selection(ts, f, Period1, g);
    var sel2 := Selection(ts, f, Period2, g);
    var sel := Selection(ts, f, p, g);
    var keys := Map(c, CompKey);
    forall x | x in c
      ensures HasKey(sel, g, x.key)
      ensures MeanIn(p, x) == GroupRow(sel, g, x.key).mean && CountIn(p, x) == GroupRow(sel, g, x.key).count
    {
      assert JoinedRow(sel1, sel2, g, x);
    }
    WeightedSums(c, sel, g, p);
    WeightedQuotient(WeightedSum(c, p), JoinedTotal(sel, g, keys) as real,
                     GroupSizes(sel, KeyOf(g), keys) as real);
  }

  lemma WeightedQuotient(w: real, total: real, n: real)
    requires n > 0.0 && w * 60.0 == total
    ensures Quotient(w, n) == Finite(total / 60.0 / n)
  {
  }

  lemma {:induction false} WeightedSums(c: seq<Comparison>, sel: seq<Ticket>, g: Grouping, p: PeriodKey)
    requires forall x :: x in c ==> HasKey(sel, g, x.key)
    requires forall x :: x in c ==> MeanIn(p, x) == GroupRow(sel, g, x.key).mean
                                    && CountIn(p, x) == GroupRow(sel, g, x.key).count
    ensures WeightedSum(c, p) * 60.0 == JoinedTotal(sel, g, Map(c, CompKey)) as real
    ensures CountSum(c, p) == GroupSizes(sel, KeyOf(g), Map(c, CompKey))
    ensures c != [] ==> GroupSizes(sel, KeyOf(g), Map(c, CompKey)) > 0
  {
    RowProducts(c, sel, g, p);
    RowWeights(c, p, TotalOf(sel, g));
    SumOfWeights(c, WeightIn(p), TotalOf(sel, g));
    SumOfCounts(c, sel, g, p);
  }

  lemma {:induction false} RowProducts(c: seq<Comparison>, sel: seq<Ticket>, g: Grouping, p: PeriodKey)
    requires forall x :: x in c ==> HasKey(sel, g, x.key)
    requires forall x :: x in c ==> MeanIn(p, x) == GroupRow(sel, g, x.key).mean
                                    && CountIn(p, x) == GroupRow(sel, g, x.key).count
    ensures forall x :: x in c ==> Reweighs(MeanIn(p, x), CountIn(p, x), GroupTotal(sel, g, x.key))
    ensures forall x :: x in c ==> CountIn(p, x) == |Group(sel, KeyOf(g), x.key)| >= 1
  {
    forall x | x in c
      ensures Reweighs(MeanIn(p, x), CountIn(p, x), GroupTotal(sel, g, x.key))
      ensures CountIn(p, x) == |Group(sel, KeyOf(g), x.key)| >= 1
    {
      MeanTimesCount(sel, g, x.key, MeanIn(p, x), CountIn(p, x));
    }
  }

  lemma {:induction false} RowWeights(c: seq<Comparison>, p: PeriodKey, total: string -> int)
    requires forall x :: x in c ==> Reweighs(MeanIn(p, x), CountIn(p, x), total(x.key))
    ensures forall x :: x in c ==> WeightIn(p)(x) * 60.0 == total(x.key) as real
  {
    forall x | x in c ensures WeightIn(p)(x) * 60.0 == total(x.key) as real {
      WeightFromProduct(p, x, total(x.key));
    }
  }

  lemma {:induction false} SumOfWeights(c: seq<Comparison>, weight: Comparison -> real, total: string -> int)
    requires forall x :: x in c ==> weight(x) * 60.0 == total(x.key) as real
    ensures SumReal(c, weight) * 60.0 == Sum(Map(c, CompKey), total) as real
  {
    if c != [] {
      assert forall x :: x in c[1..] ==> x in c;
      SumOfWeights(c[1..], weight, total);
      assert Map(c, CompKey)[1..] == Map(c[1..], CompKey);
      assert c[0] in c;
    }
  }

  lemma {:induction false} SumOfCounts(c: seq<Comparison>, sel: seq<Ticket>, g: Grouping, p: PeriodKey)
    requires forall x :: x in c ==> CountIn(p, x) == |Group(sel, KeyOf(g), x.key)| >= 1
    ensures CountSum(c, p) == GroupSizes(sel, KeyOf(g), Map(c, CompKey))
    ensures c != [] ==> GroupSizes(sel, KeyOf(g), Map(c, CompKey)) > 0
  {
    if c != [] {
      assert c[0] in c;
      assert forall x :: x in c[1..] ==> x in c;
      SumOfCounts(c[1..], sel, g, p);
      assert Map(c, CompKey)[1..] == Map(c[1..], CompKey);
    }
  }

  /** `media * contagem` is the product of the row's two columns. */
  lemma WeightFromProduct(p: PeriodKey, x: Comparison, total: int)
    requires Reweighs(MeanIn(p, x), CountIn(p, x), total)
    ensures WeightIn(p)(x) * 60.0 == total as real
  {
  }

  /** A group's mean in minutes times its count, back in seconds, is the
      group's total service time. */
  lemma {:induction false} MeanTimesCount(sel: seq<Ticket>, g: Grouping, k: string, mean: real, count: nat)
    requires HasKey(sel, g, k)
    requires mean == GroupRow(sel, g, k).mean && count == GroupRow(sel, g, k).count
    ensures Reweighs(mean, count, GroupTotal(sel, g, k))
    ensures count == |Group(sel, KeyOf(g), k)| >= 1
  {
    var total, n := GroupFacts(sel, g, k);
    MinutesTimesCount(mean, count, GroupTotal(sel, g, k), total, n);
  }

  lemma {:induction false} GroupFacts(sel: seq<Ticket>, g: Grouping, k: string) returns (total: real, n: real)
    requires HasKey(sel, g, k)
    ensures n > 0.0 && GroupRow(sel, g, k).count as real == n
    ensures GroupTotal(sel, g, k) as real == total
    ensures GroupRow(sel, g, k).mean == total / n / 60.0
  {
    var grp := KeyGroup(sel, g, k);
    total, n := Sum(grp, ServiceTime) as real, |grp| as real;
  }
}
