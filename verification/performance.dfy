/** Per-collaborator performance: `calcular_metricas_colaborador` (identical in
    src/visualizacao/dashboards/desenvolvimento_pessoas/performance.py and
    backup/performance.py), the two top-10 lists of the tab, and the two-period
    ranking `calcular_metricas_periodos` of backup/performance.py.
 */
module CollaboratorPerformance {
  import opened ExtReal
  import opened Outcome
  import opened Orders
  import opened Seqs
  import opened Sorting
  import opened Tickets
  import opened Shifts
  import opened SidebarFilters

  /** One row of `calcular_metricas_colaborador`; times in minutes. */
  datatype Metrics = Metrics(
    collaborator: string,  // `colaborador`
    services: nat,         // `atendimentos`
    meanService: real,     // `tempo_medio`
    meanWait: real,        // `tempo_espera`
    variation: Ext         // `variacao_media`, percent against the mean of `tempo_medio`
  )

  function Collaborator(m: Metrics): string { m.collaborator }
  function Services(m: Metrics): int { m.services }
  function MeanService(m: Metrics): real { m.meanService }
  function ServicesKey(m: Metrics): Ext { Finite(m.services as real) }
  function MeanServiceKey(m: Metrics): Ext { Finite(m.meanService) }

  /** The finite variations, NaN and infinities counting as 0. */
  function FiniteVariation(m: Metrics): real {
    if m.variation.Finite? then m.variation.v else 0.0
  }

  ghost predicate HasUser(sel: seq<Ticket>, u: string) {
    exists t :: t in sel && t.user == u
  }

  /** The tickets the metrics are computed from: the base period, then the shift. */
  function Selected(ts: seq<Ticket>, f: Filters, shift: Option<string>): seq<Ticket> {
    SelectShift(SelectPeriod(ts, f.period2), shift)
  }

  /** The group keys of `groupby('usuário')`: each collaborator once, ascending. */
  function Users(sel: seq<Ticket>): (keys: seq<string>)
    ensures StrictlySorted(keys, StrLt) && Distinct(keys)
    ensures forall u :: u in keys <==> HasUser(sel, u)
  {
    StrLtIsStrictTotalOrder();
    SortedKeys(Map(sel, User), StrLt)
  }

  function UserGroup(sel: seq<Ticket>, u: string): (g: seq<Ticket>)
    requires HasUser(sel, u)
    ensures |g| > 0
  {
    var g := Group(sel, User, u);
    var t :| t in sel && t.user == u;
    assert t in g;
    g
  }

  /** `tempo_medio`: the mean service time of the collaborator's tickets, in minutes. */
  function ServiceMinutes(sel: seq<Ticket>, u: string): real
    requires HasUser(sel, u)
  {
    Mean(UserGroup(sel, u), ServiceTime) / 60.0
  }

  function SumOfMeans(sel: seq<Ticket>, keys: seq<string>): real
    requires forall k :: k in keys ==> HasUser(sel, k)
  {
    if keys == [] then 0.0 else ServiceMinutes(sel, keys[0]) + SumOfMeans(sel, keys[1..])
  }

  function Rows(sel: seq<Ticket>, keys: seq<string>, overall: real): (rows: seq<Metrics>)
    requires forall k :: k in keys ==> HasUser(sel, k)
    ensures |rows| == |keys|
    ensures forall i :: 0 <= i < |keys| ==>
              && rows[i].collaborator == keys[i]
              && rows[i].services == |Group(sel, User, keys[i])|
              && rows[i].meanService == ServiceMinutes(sel, keys[i])
              && rows[i].meanWait == Mean(UserGroup(sel, keys[i]), WaitTime) / 60.0
              && rows[i].variation == PctChange(rows[i].meanService, overall)
    ensures Sum(rows, Services) == GroupSizes(sel, User, keys)
    ensures SumReal(rows, MeanService) == SumOfMeans(sel, keys)
  {
    if keys == [] then []
    else
      var g := UserGroup(sel, keys[0]);
      var t := ServiceMinutes(sel, keys[0]);
      [Metrics(keys[0], |g|, t, Mean(g, WaitTime) / 60.0, PctChange(t, overall))]
        + Rows(sel, keys[1..], overall)
  }

  /** The aggregation step of `calcular_metricas_colaborador`, on the filtered
      tickets: one row per collaborator in `sel`, in ascending collaborator
      order, holding the collaborator's ticket count, mean service and wait
      times in minutes, and the percent deviation of the mean service time
      from the mean of all rows' means. */
  function MetricsOf(sel: seq<Ticket>): (rows: seq<Metrics>)
    ensures StrictlySorted(Map(rows, Collaborator), StrLt)
    ensures forall u :: u in Map(rows, Collaborator) <==> HasUser(sel, u)
    ensures forall i :: 0 <= i < |rows| ==> rows[i].services == |Group(sel, User, rows[i].collaborator)| >= 1
    ensures forall i :: 0 <= i < |rows| ==>
              && HasUser(sel, rows[i].collaborator)
              && rows[i].meanService == ServiceMinutes(sel, rows[i].collaborator)
              && rows[i].meanWait == Mean(UserGroup(sel, rows[i].collaborator), WaitTime) / 60.0
              && rows[i].variation == PctChange(rows[i].meanService, MeanReal(rows, MeanService))
    ensures Sum(rows, Services) == |sel|
  {
    var keys := Users(sel);
    var rows := Rows(sel, keys, OverallMean(sel, keys));
    assert Map(rows, Collaborator) == keys;
    RowsAgainstTheirMean(sel, keys);
    assert forall i :: 0 <= i < |rows| ==> rows[i].services >= 1 by {
      forall i | 0 <= i < |rows| ensures rows[i].services >= 1 {
        assert |UserGroup(sel, keys[i])| > 0;
      }
    }
    assert Sum(rows, Services) == |sel| by {
      GroupSizesPartition(sel, User, keys);
    }
    rows
  }

  /** The overall mean the rows are built with is the mean of their means. */
  lemma RowsAgainstTheirMean(sel: seq<Ticket>, keys: seq<string>)
    requires forall k :: k in keys ==> HasUser(sel, k)
    ensures var rows := Rows(sel, keys, OverallMean(sel, keys));
            forall i :: 0 <= i < |rows| ==>
              && HasUser(sel, rows[i].collaborator)
              && rows[i].variation == PctChange(rows[i].meanService, MeanReal(rows, MeanService))
  {
    var rows := Rows(sel, keys, OverallMean(sel, keys));
    if keys != [] {
      assert MeanReal(rows, MeanService) == OverallMean(sel, keys);
    }
    forall i | 0 <= i < |rows| ensures HasUser(sel, rows[i].collaborator) {
      assert rows[i].collaborator == keys[i] && keys[i] in keys;
    }
  }

  /** `media_geral`: the unweighted mean of the per-collaborator means. */
  function OverallMean(sel: seq<Ticket>, keys: seq<string>): real
    requires forall k :: k in keys ==> HasUser(sel, k)
  {
    if keys == [] then 0.0 else SumOfMeans(sel, keys) / |keys| as real
  }

  /** `calcular_metricas_colaborador`: the base period, narrowed to the shift
      computed from the start hour, then aggregated per collaborator. */
  function CollaboratorMetrics(ts: seq<Ticket>, f: Filters, shift: Option<string>): (rows: seq<Metrics>)
    ensures rows == MetricsOf(Selected(ts, f, shift))
    ensures forall u :: u in Map(rows, Collaborator) <==>
              exists t :: t in ts && t.user == u && InPeriod(f.period2, DayOf(t.withdrawal))
                          && (KeepsAllShifts(shift) || Label(ShiftOf(t)) == shift.value)
    ensures Sum(rows, Services) == |Selected(ts, f, shift)|
  {
    var sel := Selected(ts, f, shift);
    var rows := MetricsOf(sel);
    assert forall t :: t in sel <==> t in ts && InPeriod(f.period2, DayOf(t.withdrawal))
                                     && (KeepsAllShifts(shift) || Label(ShiftOf(t)) == shift.value);
    rows
  }

  /** `variacao_media` compares each collaborator with the unweighted mean of the
      per-collaborator means, so whenever that mean is not zero the variations
      cancel out. */
  lemma VariationsSumToZero(sel: seq<Ticket>)
    requires |MetricsOf(sel)| > 0
    requires MeanReal(MetricsOf(sel), MeanService) != 0.0
    ensures SumReal(MetricsOf(sel), FiniteVariation) == 0.0
  {
    var rows := MetricsOf(sel);
    MeanTimesCount(rows, MeanService);
    VariationsCancel(rows, MeanReal(rows, MeanService));
  }

  /** `mean * count == total`, kept folded so that it is matched rather than
      re-derived. */
  ghost predicate Scales(mean: real, count: nat, total: real) {
    count as real * mean == total
  }

  lemma MeanTimesCount<T>(s: seq<T>, f: T -> real)
    requires |s| > 0
    ensures Scales(MeanReal(s, f), |s|, SumReal(s, f))
  {
  }

  /** Deviations from a non-zero mean, in percent of it, add up to zero. */
  lemma VariationsCancel(rows: seq<Metrics>, m: real)
    requires m != 0.0 && Scales(m, |rows|, SumReal(rows, MeanService))
    requires forall i :: 0 <= i < |rows| ==> rows[i].variation == PctChange(rows[i].meanService, m)
    ensures SumReal(rows, FiniteVariation) == 0.0
  {
    DeviationsSum(rows, m);
    NoDeviation(SumReal(rows, FiniteVariation), m, SumReal(rows, MeanService), |rows| as real * m);
  }

  lemma NoDeviation(d: real, m: real, total: real, expected: real)
    requires m != 0.0 && d * m == 100.0 * (total - expected) && expected == total
    ensures d == 0.0
  {
  }

  lemma {:induction false} DeviationsSum(rows: seq<Metrics>, m: real)
    requires m != 0.0
    requires forall i :: 0 <= i < |rows| ==> rows[i].variation == PctChange(rows[i].meanService, m)
    ensures SumReal(rows, FiniteVariation) * m == 100.0 * (SumReal(rows, MeanService) - |rows| as real * m)
  {
    if rows != [] {
      DeviationsSum(rows[1..], m);
      Deviation(rows[0].meanService, m);
      var v := FiniteVariation(rows[0]);
      var rest := SumReal(rows[1..], FiniteVariation);
      assert (v + rest) * m == v * m + rest * m;
    }
  }

  /** One collaborator's deviation, multiplied back by the mean. */
  lemma Deviation(t: real, m: real)
    requires m != 0.0
    ensures PctChange(t, m).Finite?
    ensures PctChange(t, m).v * m == 100.0 * (t - m)
  {
    var q := (t - m) / m;
    assert q * m == t - m;
    assert q * 100.0 * m == 100.0 * (q * m);
  }

  /** The tab's "by number of services" list, `nlargest(10, 'atendimentos')`:
      of collaborators with equal counts, those earlier in the table are kept
      and listed first. */
  function TopByServices(rows: seq<Metrics>): (top: seq<Metrics>)
    ensures |top| == if |rows| < 10 then |rows| else 10
    ensures multiset(top) <= multiset(rows)
    ensures forall i, j :: 0 <= i < j < |top| ==> top[i].services >= top[j].services
    ensures forall x, y :: x in top && y in rows && y !in top ==> y.services <= x.services
    ensures KeepsFirstTies(top, rows, ServicesKey)
  {
    var top := Largest(rows, ServicesKey, 10);
    forall i, j | 0 <= i < j < |top| ensures top[i].services >= top[j].services {
      MoreServices(top[i], top[j]);
    }
    forall x, y | x in top && y in rows && y !in top ensures y.services <= x.services {
      MoreServices(x, y);
    }
    top
  }

  lemma MoreServices(a: Metrics, b: Metrics)
    requires DescLe(ServicesKey(a), ServicesKey(b))
    ensures a.services >= b.services
  {
  }

  /** The tab's "by mean service time" list, `nsmallest(10, 'tempo_medio')`:
      of collaborators with equal means, those earlier in the table are kept
      and listed first. */
  function TopByMeanService(rows: seq<Metrics>): (top: seq<Metrics>)
    ensures |top| == if |rows| < 10 then |rows| else 10
    ensures multiset(top) <= multiset(rows)
    ensures forall i, j :: 0 <= i < j < |top| ==> top[i].meanService <= top[j].meanService
    ensures forall x, y :: x in top && y in rows && y !in top ==> x.meanService <= y.meanService
    ensures KeepsFirstTies(top, rows, MeanServiceKey)
  {
    var top := Smallest(rows, MeanServiceKey, 10);
    forall i, j | 0 <= i < j < |top| ensures top[i].meanService <= top[j].meanService {
      assert Le(MeanServiceKey(top[i]), MeanServiceKey(top[j]));
    }
    forall x, y | x in top && y in rows && y !in top ensures x.meanService <= y.meanService {
      assert Le(MeanServiceKey(x), MeanServiceKey(y));
    }
    top
  }

  /** A collaborator's mean service time lies between the shortest and the
      longest service of the collaborator's tickets. */
  lemma MeanServiceBetweenExtremes(sel: seq<Ticket>, i: nat)
    requires i < |MetricsOf(sel)|
    ensures var r := MetricsOf(sel)[i];
            var grp := Group(sel, User, r.collaborator);
            && |grp| > 0
            && MinOf(grp, ServiceTime) as real <= r.meanService * 60.0 <= MaxOf(grp, ServiceTime) as real
  {
    var r := MetricsOf(sel)[i];
    var grp := UserGroup(sel, r.collaborator);
    MeanBetween(grp, ServiceTime);
    var m := Mean(grp, ServiceTime);
    assert m / 60.0 * 60.0 == m;
  }

  /** A collaborator listed by number of services brings along every
      collaborator earlier in the table with the same count. */
  lemma TiedEarlierListedByServices(rows: seq<Metrics>, i: nat, j: nat)
    requires Distinct(rows) && i < j < |rows| && rows[i].services == rows[j].services
    requires rows[j] in TopByServices(rows)
    ensures rows[i] in TopByServices(rows)
  {
    EarlierTieKept(TopByServices(rows), rows, ServicesKey, i, j);
  }

  /** A collaborator listed by mean service time brings along every
      collaborator earlier in the table with the same mean. */
  lemma TiedEarlierListedByMeanService(rows: seq<Metrics>, i: nat, j: nat)
    requires Distinct(rows) && i < j < |rows| && rows[i].meanService == rows[j].meanService
    requires rows[j] in TopByMeanService(rows)
    ensures rows[i] in TopByMeanService(rows)
  {
    EarlierTieKept(TopByMeanService(rows), rows, MeanServiceKey, i, j);
  }

  /** Two collaborators with the same count are listed in table order. */
  lemma TiedPairInTableOrder(a: Metrics, b: Metrics)
    requires a.services == b.services
    ensures TopByServices([a, b]) == [a, b]
  {
    var key := Negated(ServicesKey);
    assert [a, b][1..] == [b] && [b][1..] == [];
    assert SortAsc([b], key) == [b];
    assert key(a) == Neg(ServicesKey(a)) == Neg(ServicesKey(b)) == key(b);
    assert SortAsc([a, b], key) == Insert(a, [b], key) == [a, b];
    assert Smallest([a, b], key, 10) == Take([a, b], 10) == [a, b];
  }

  // ---- `calcular_metricas_periodos` (backup/performance.py) ----

  /** One row of the ranking: the collaborator's counts in both periods. */
  datatype Comparison = Comparison(
    collaborator: string,  // `colaborador`
    servicesP2: nat,       // `atendimentos_p2`
    servicesP1: nat,       // `atendimentos_p1`, 0 when absent from period 1
    variation: Ext         // `variacao`
  )

  /** A count row of `groupby('usuário')['id'].count()`. */
  datatype Count = Count(collaborator: string, services: nat)

  function CountCollaborator(c: Count): string { c.collaborator }
  function ComparisonCollaborator(c: Comparison): string { c.collaborator }
  function ServicesP2Key(c: Comparison): Ext { Finite(c.servicesP2 as real) }

  /** `filtrar_periodo`'s mask and shift filter. Unlike `calcular_metricas_colaborador`,
      it reads a `turno` column it does not compute: without one the filter fails. */
  function PeriodTickets(ts: seq<Ticket>, p: Period, shift: Option<string>, hasShiftColumn: bool): (r: Result<seq<Ticket>>)
    ensures r.Err? <==> !KeepsAllShifts(shift) && !hasShiftColumn
    ensures r.Err? ==> r.error == MissingColumn("turno")
    ensures r.Ok? ==> forall t :: t in r.value <==>
              t in ts && InPeriod(p, DayOf(t.withdrawal)) && (KeepsAllShifts(shift) || t.shiftColumn == shift.value)
  {
    var inPeriod := SelectPeriod(ts, p);
    if KeepsAllShifts(shift) then Ok(inPeriod)
    else if !hasShiftColumn then Err(MissingColumn("turno"))
    else Ok(Filter(inPeriod, (t: Ticket) => t.shiftColumn == shift.value))
  }

  function CountRows(sel: seq<Ticket>, keys: seq<string>): (r: seq<Count>)
    ensures |r| == |keys|
    ensures forall i :: 0 <= i < |keys| ==> r[i] == Count(keys[i], |Group(sel, User, keys[i])|)
  {
    if keys == [] then [] else [Count(keys[0], |Group(sel, User, keys[0])|)] + CountRows(sel, keys[1..])
  }

  /** The per-collaborator counts of one period: each collaborator of `sel` once, with its ticket count. */
  function PeriodCounts(sel: seq<Ticket>): (r: seq<Count>)
    ensures Distinct(Map(r, CountCollaborator))
    ensures forall u :: u in Map(r, CountCollaborator) <==> HasUser(sel, u)
    ensures forall i :: 0 <= i < |r| ==> r[i].services == |Group(sel, User, r[i].collaborator)| >= 1
  {
    var keys := Users(sel);
    var r := CountRows(sel, keys);
    assert Map(r, CountCollaborator) == keys;
    forall i | 0 <= i < |r| ensures r[i].services >= 1 {
      assert |UserGroup(sel, keys[i])| > 0;
    }
    r
  }

  /** The period-1 count of `u` after the left merge and `fillna(0)`: its first row, or 0. */
  function CountOf(counts: seq<Count>, u: string): (n: nat)
    ensures (forall i :: 0 <= i < |counts| ==> counts[i].collaborator != u) ==> n == 0
    ensures forall i :: (0 <= i < |counts| && counts[i].collaborator == u
                         && forall j :: 0 <= j < i ==> counts[j].collaborator != u) ==> n == counts[i].services
  {
    if counts == [] then 0
    else if counts[0].collaborator == u then counts[0].services
    else
      assert forall i :: 1 <= i < |counts| ==> counts[i] == counts[1..][i - 1];
      CountOf(counts[1..], u)
  }

  /** `fillna(0)`: NaN becomes 0, infinities stay. */
  function FillNaN(e: Ext): (r: Ext)
    ensures r.NaN? ==> false
    ensures !e.NaN? ==> r == e
  {
    if e.NaN? then Finite(0.0) else e
  }

  /** `pd.merge(p2, p1, on='colaborador', how='left')`, the zero fill and the variation. */
  function LeftJoin(p2: seq<Count>, p1: seq<Count>): (r: seq<Comparison>)
    ensures |r| == |p2|
    ensures forall i :: 0 <= i < |p2| ==>
              && r[i].collaborator == p2[i].collaborator
              && r[i].servicesP2 == p2[i].services
              && r[i].servicesP1 == CountOf(p1, p2[i].collaborator)
              && r[i].variation == FillNaN(PctChange(r[i].servicesP2 as real, r[i].servicesP1 as real))
  {
    if p2 == [] then []
    else
      var n1 := CountOf(p1, p2[0].collaborator);
      [Comparison(p2[0].collaborator, p2[0].services, n1,
                  FillNaN(PctChange(p2[0].services as real, n1 as real)))]
        + LeftJoin(p2[1..], p1)
  }

  /** The variation of a collaborator present in period 2: +inf when absent from
      period 1, the percentage change otherwise; never the NaN that `fillna` targets. */
  lemma CountVariation(p2: nat, p1: nat)
    requires p2 >= 1
    ensures PctChange(p2 as real, p1 as real) != NaN
    ensures FillNaN(PctChange(p2 as real, p1 as real))
            == if p1 == 0 then PosInf else PctChange(p2 as real, p1 as real)
    ensures p1 > 0 ==> PctChange(p2 as real, p1 as real).Finite?
  {
  }

  /** What every ranking row states about the two selections. */
  ghost predicate RankedRow(s1: seq<Ticket>, s2: seq<Ticket>, x: Comparison) {
    && x.servicesP2 == |Group(s2, User, x.collaborator)| >= 1
    && x.servicesP1 == |Group(s1, User, x.collaborator)|
    && x.variation == if x.servicesP1 == 0 then PosInf
                      else PctChange(x.servicesP2 as real, x.servicesP1 as real)
  }

  /** The merged table before sorting: one row per base-period collaborator. */
  function Joined(s1: seq<Ticket>, s2: seq<Ticket>): (j: seq<Comparison>)
    ensures forall u :: u in Map(j, ComparisonCollaborator) <==> HasUser(s2, u)
    ensures Distinct(Map(j, ComparisonCollaborator))
    ensures forall x :: x in j ==> RankedRow(s1, s2, x)
  {
    var c2 := PeriodCounts(s2);
    var c1 := PeriodCounts(s1);
    var joined := LeftJoin(c2, c1);
    assert Map(joined, ComparisonCollaborator) == Map(c2, CountCollaborator);
    forall i | 0 <= i < |joined| ensures RankedRow(s1, s2, joined[i]) {
      JoinedRow(s1, s2, i);
    }
    joined
  }

  lemma JoinedRow(s1: seq<Ticket>, s2: seq<Ticket>, i: nat)
    requires i < |PeriodCounts(s2)|
    ensures RankedRow(s1, s2, LeftJoin(PeriodCounts(s2), PeriodCounts(s1))[i])
  {
    var c2 := PeriodCounts(s2);
    var c1 := PeriodCounts(s1);
    var x := LeftJoin(c2, c1)[i];
    assert x.collaborator == c2[i].collaborator && x.servicesP2 == c2[i].services;
    assert x.servicesP1 == CountOf(c1, x.collaborator);
    AbsentCountsZero(s1, c1, x.collaborator);
    var p2, p1 := x.servicesP2, x.servicesP1;
    assert x.variation == FillNaN(PctChange(p2 as real, p1 as real));
    CountVariation(p2, p1);
  }

  /** The ranking of the two periods, once both selections are available:
      `sort_values('atendimentos_p2', ascending=False)` of the merged table. */
  function Ranking(s1: seq<Ticket>, s2: seq<Ticket>): (r: seq<Comparison>)
    ensures forall u :: u in Map(r, ComparisonCollaborator) <==> HasUser(s2, u)
    ensures Distinct(Map(r, ComparisonCollaborator))
    ensures forall i :: 0 <= i < |r| ==> RankedRow(s1, s2, r[i])
    ensures forall i, j :: 0 <= i < j < |r| ==> r[i].servicesP2 >= r[j].servicesP2
  {
    RankingKeys(s1, s2);
    RankingRows(s1, s2);
    SortDesc(Joined(s1, s2), ServicesP2Key)
  }

  lemma RankingKeys(s1: seq<Ticket>, s2: seq<Ticket>)
    ensures var r := SortDesc(Joined(s1, s2), ServicesP2Key);
            && Distinct(Map(r, ComparisonCollaborator))
            && forall u :: u in Map(r, ComparisonCollaborator) <==> HasUser(s2, u)
  {
    var joined := Joined(s1, s2);
    var r := SortDesc(joined, ServicesP2Key);
    PermutationKeepsDistinctKeys(joined, r, ComparisonCollaborator);
    forall u ensures u in Map(r, ComparisonCollaborator) <==> u in Map(joined, ComparisonCollaborator) {
      SameKeysUnderPermutation(joined, r, u);
    }
  }

  lemma RankingRows(s1: seq<Ticket>, s2: seq<Ticket>)
    ensures var r := SortDesc(Joined(s1, s2), ServicesP2Key);
            && (forall i :: 0 <= i < |r| ==> RankedRow(s1, s2, r[i]))
            && forall i, j :: 0 <= i < j < |r| ==> r[i].servicesP2 >= r[j].servicesP2
  {
    var joined := Joined(s1, s2);
    var r := SortDesc(joined, ServicesP2Key);
    forall i | 0 <= i < |r| ensures RankedRow(s1, s2, r[i]) {
      assert r[i] in multiset(joined);
    }
    forall i, j | 0 <= i < j < |r| ensures r[i].servicesP2 >= r[j].servicesP2 {
      assert DescLe(ServicesP2Key(r[i]), ServicesP2Key(r[j]));
    }
  }

  lemma SameKeysUnderPermutation(s: seq<Comparison>, r: seq<Comparison>, u: string)
    requires multiset(s) == multiset(r)
    ensures u in Map(r, ComparisonCollaborator) <==> u in Map(s, ComparisonCollaborator)
  {
    if u in Map(r, ComparisonCollaborator) {
      var i :| 0 <= i < |r| && r[i].collaborator == u;
      assert r[i] in multiset(s);
      var j :| 0 <= j < |s| && s[j] == r[i];
      assert Map(s, ComparisonCollaborator)[j] == u;
    }
    if u in Map(s, ComparisonCollaborator) {
      var i :| 0 <= i < |s| && s[i].collaborator == u;
      assert s[i] in multiset(r);
      var j :| 0 <= j < |r| && r[j] == s[i];
      assert Map(r, ComparisonCollaborator)[j] == u;
    }
  }

  /** The zero fill agrees with the real count: a collaborator with no period-1 tickets has none. */
  lemma AbsentCountsZero(s1: seq<Ticket>, c1: seq<Count>, u: string)
    requires c1 == PeriodCounts(s1)
    ensures CountOf(c1, u) == |Group(s1, User, u)|
  {
    if HasUser(s1, u) {
      assert u in Map(c1, CountCollaborator);
      var i :| 0 <= i < |c1| && c1[i].collaborator == u;
      forall j | 0 <= j < i ensures c1[j].collaborator != u {
        assert Map(c1, CountCollaborator)[j] != Map(c1, CountCollaborator)[i];
      }
    } else {
      forall i | 0 <= i < |c1| ensures c1[i].collaborator != u {
        assert Map(c1, CountCollaborator)[i] in Map(c1, CountCollaborator);
      }
      NoGroupWithoutRows(s1, User, u);
    }
  }

  /** `calcular_metricas_periodos`: the ranking of the base period against the
      comparison period, or the missing-column failure of the shift filter. */
  function ComparePeriods(ts: seq<Ticket>, f: Filters, shift: Option<string>, hasShiftColumn: bool)
    : (r: Result<seq<Comparison>>)
    ensures r.Err? <==> !KeepsAllShifts(shift) && !hasShiftColumn
    ensures r.Err? ==> r.error == MissingColumn("turno")
    ensures r.Ok? ==> r.value == Ranking(PeriodTickets(ts, f.period1, shift, hasShiftColumn).value,
                                         PeriodTickets(ts, f.period2, shift, hasShiftColumn).value)
  {
    var r1 := PeriodTickets(ts, f.period1, shift, hasShiftColumn);
    var r2 := PeriodTickets(ts, f.period2, shift, hasShiftColumn);
    if r1.Err? then Err(r1.error) else Ok(Ranking(r1.value, r2.value))
  }

  /** Collaborators seen only in the comparison period are dropped by the left merge. */
  lemma OnlyBasePeriodCollaborators(ts: seq<Ticket>, f: Filters, shift: Option<string>, hasShiftColumn: bool, u: string)
    requires ComparePeriods(ts, f, shift, hasShiftColumn).Ok?
    ensures u in Map(ComparePeriods(ts, f, shift, hasShiftColumn).value, ComparisonCollaborator)
            <==> exists t :: t in ts && t.user == u && InPeriod(f.period2, DayOf(t.withdrawal))
                             && (KeepsAllShifts(shift) || t.shiftColumn == shift.value)
  {
    var s2 := PeriodTickets(ts, f.period2, shift, hasShiftColumn).value;
    assert forall t :: t in s2 <==> t in ts && InPeriod(f.period2, DayOf(t.withdrawal))
                                    && (KeepsAllShifts(shift) || t.shiftColumn == shift.value);
  }
}
