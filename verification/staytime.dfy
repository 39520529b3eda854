/** The stay-time tab per client or operation
    (src/visualizacao/dashboards/operacoes_clientes/permanencia.py): the mean
    service, wait and stay times of each group of the base period, the groups
    whose mean stay exceeds the target, and the chart's ordering.
 */
module StayTimes {
  import opened ExtReal
  import opened Orders
  import opened Seqs
  import opened Sorting
  import opened Tickets
  import opened SidebarFilters
  import opened Breakdown

  /** One row of `calcular_permanencia`: the three means in minutes, and `id` counted. */
  datatype StayRow = StayRow(
    key: string,
    service: real,  // `tpatend`
    wait: real,     // `tpesper`
    stay: real,     // `tempo_permanencia`
    count: nat      // `id`
  )

  function RowKey(r: StayRow): string { r.key }
  function Count(r: StayRow): int { r.count }
  function Stay(r: StayRow): real { r.stay }
  function Wait(r: StayRow): real { r.wait }
  function Service(r: StayRow): real { r.service }

  /** The sort key of the chart and of the above-target list. */
  function StayKey(r: StayRow): Ext { Finite(r.stay) }

  /** The row of one group: its size, and its three means in minutes. */
  function StayGroupRow(sel: seq<Ticket>, g: Grouping, k: string): (r: StayRow)
    requires HasKey(sel, g, k)
    ensures r.key == k
    ensures r.count == |Group(sel, KeyOf(g), k)| >= 1
  {
    var grp := KeyGroup(sel, g, k);
    StayRow(k, Mean(grp, ServiceTime) / 60.0, Mean(grp, WaitTime) / 60.0,
            Mean(grp, StayTime) / 60.0, |grp|)
  }

  function StayRows(sel: seq<Ticket>, g: Grouping, keys: seq<string>): (rows: seq<StayRow>)
    requires forall k :: k in keys ==> HasKey(sel, g, k)
    ensures |rows| == |keys|
    ensures forall i :: 0 <= i < |keys| ==> rows[i] == StayGroupRow(sel, g, keys[i])
  {
    seq(|keys|, i requires 0 <= i < |keys| => StayGroupRow(sel, g, keys[i]))
  }

  lemma StayRowCounts(sel: seq<Ticket>, g: Grouping, keys: seq<string>)
    requires forall k :: k in keys ==> HasKey(sel, g, k)
    ensures Sum(StayRows(sel, g, keys), Count) == GroupSizes(sel, KeyOf(g), keys)
  {
    var rows := StayRows(sel, g, keys);
    forall i | 0 <= i < |keys| ensures Count(rows[i]) == |Group(sel, KeyOf(g), keys[i])| {
      assert keys[i] in keys;
    }
    CountsMatchGroupSizes(rows, Count, sel, KeyOf(g), keys);
  }

  /** The tickets of the tab: the base period, narrowed to the selected
      clients when the breakdown is by operation. */
  function StaySelection(ts: seq<Ticket>, f: Filters, g: Grouping): seq<Ticket> {
    Selection(ts, f, Period2, g)
  }

  /** `calcular_permanencia`: one row per group of the base period's tickets,
      in ascending key order, whose counts add up to the tickets selected. */
  function StayTimes(ts: seq<Ticket>, f: Filters, g: Grouping): (rows: seq<StayRow>)
    ensures var sel := StaySelection(ts, f, g);
            && StrictlySorted(Map(rows, RowKey), StrLt)
            && (forall k :: k in Map(rows, RowKey) <==> HasKey(sel, g, k))
            && (forall r :: r in rows ==> HasKey(sel, g, r.key) && r == StayGroupRow(sel, g, r.key))
            && Sum(rows, Count) == |sel|
  {
    var sel := StaySelection(ts, f, g);
    var keys := Keys(sel, g);
    var rows := StayRows(sel, g, keys);
    StayRowCounts(sel, g, keys);
    assert Map(rows, RowKey) == keys;
    assert Sum(rows, Count) == |sel| by {
      KeysPartition(sel, g);
    }
    rows
  }

  /** A ticket counts in the tab exactly when it was withdrawn within the base
      period (both ends included) and, when the breakdown is by operation and
      clients are selected, its client is one of them. */
  lemma StaySelectionRule(ts: seq<Ticket>, f: Filters, g: Grouping, t: Ticket)
    ensures t in StaySelection(ts, f, g) <==>
              && t in ts
              && f.period2.first <= DayOf(t.withdrawal) <= f.period2.last
              && (g == ByOperation && f.clients != [AllClients] ==> t.client in f.clients)
  {
  }

  /** A group's mean stay lies between its shortest and its longest stay. */
  lemma {:induction false} StayBetweenExtremes(sel: seq<Ticket>, g: Grouping, k: string)
    requires HasKey(sel, g, k)
    ensures var grp := Group(sel, KeyOf(g), k);
            var r := StayGroupRow(sel, g, k);
            && |grp| > 0
            && MinOf(grp, StayTime) as real <= r.stay * 60.0 <= MaxOf(grp, StayTime) as real
  {
    var grp := KeyGroup(sel, g, k);
    MeanBetween(grp, StayTime);
    var m := Mean(grp, StayTime);
    assert m / 60.0 * 60.0 == m;
  }

  // ---- The target ----

  /** `tempo_permanencia > meta`: the rows listed as above the target, and
      the rows whose chart annotation is red. */
  predicate AboveTarget(r: StayRow, target: int) {
    r.stay > target as real
  }

  /** `tempos[tempos['tempo_permanencia'] > meta]`. */
  function AboveTargetRows(rows: seq<StayRow>, target: int): (r: seq<StayRow>)
    ensures forall x :: x in r <==> x in rows && x.stay > target as real
    ensures forall x :: multiset(r)[x] == if x.stay > target as real then multiset(rows)[x] else 0
  {
    var p := (x: StayRow) => AboveTarget(x, target);
    FilterMultiset(rows, p);
    Filter(rows, p)
  }

  /** A group is above the target exactly when its tickets' total stay
      exceeds the target's stay for that many tickets: the comparison is
      strict, so a mean exactly on the target is not above it. */
  lemma {:induction false} AboveTargetIffTotalExceeds(sel: seq<Ticket>, g: Grouping, k: string, target: int)
    requires HasKey(sel, g, k)
    ensures var grp := Group(sel, KeyOf(g), k);
            AboveTarget(StayGroupRow(sel, g, k), target) <==> Sum(grp, StayTime) > target * 60 * |grp|
  {
    var grp := KeyGroup(sel, g, k);
    MinutesAbove(Sum(grp, StayTime), |grp|, target);
  }

  lemma MinutesAbove(total: int, n: int, target: int)
    requires n > 0
    ensures total as real / n as real / 60.0 > target as real <==> total > target * 60 * n
  {
    var q := total as real / n as real;
    assert q * n as real == total as real;
    assert (target * 60 * n) as real == target as real * 60.0 * n as real;
    if q / 60.0 > target as real {
      assert q > target as real * 60.0;
      assert q * n as real > target as real * 60.0 * n as real;
    } else {
      assert q <= target as real * 60.0;
      assert q * n as real <= target as real * 60.0 * n as real;
    }
  }

  /** The groups listed under "acima da meta": the above-target rows sorted
      by mean stay, longest first, and the first three of them. */
  function TopAboveTarget(rows: seq<StayRow>, target: int): (r: seq<StayRow>)
    ensures var above := AboveTargetRows(rows, target);
            && |r| == (if |above| < 3 then |above| else 3)
            && (forall x :: x in r ==> x in rows && AboveTarget(x, target))
            && (forall i, j :: 0 <= i < j < |r| ==> r[i].stay >= r[j].stay)
            && (forall x, y :: x in r && y in above && y !in r ==> x.stay >= y.stay)
  {
    var above := AboveTargetRows(rows, target);
    var sorted := SortDesc(above, StayKey);
    var r := Take(sorted, 3);
    LongestFirst(above, sorted, r);
    r
  }

  lemma LongestFirst(above: seq<StayRow>, sorted: seq<StayRow>, r: seq<StayRow>)
    requires SortedDescBy(sorted, StayKey) && multiset(sorted) == multiset(above)
    requires |r| <= |sorted| && r == sorted[..|r|]
    ensures forall x :: x in r ==> x in above
    ensures forall i, j :: 0 <= i < j < |r| ==> r[i].stay >= r[j].stay
    ensures forall x, y :: x in r && y in above && y !in r ==> x.stay >= y.stay
  {
    forall x | x in r ensures x in above {
      assert x in sorted;
      assert x in multiset(sorted);
    }
    forall i, j | 0 <= i < j < |r| ensures r[i].stay >= r[j].stay {
      assert DescLe(StayKey(sorted[i]), StayKey(sorted[j]));
    }
    forall x, y | x in r && y in above && y !in r ensures x.stay >= y.stay {
      assert y in multiset(above);
      var a :| 0 <= a < |r| && r[a] == x;
      var b :| 0 <= b < |sorted| && sorted[b] == y;
      if b < |r| {
        assert false;
      }
      assert DescLe(StayKey(sorted[a]), StayKey(sorted[b]));
    }
  }

  /** The chart's row order: ascending mean stay. */
  function ChartOrder(rows: seq<StayRow>): (r: seq<StayRow>)
    ensures multiset(r) == multiset(rows)
    ensures forall i, j :: 0 <= i < j < |r| ==> r[i].stay <= r[j].stay
  {
    SortAsc(rows, StayKey)
  }

  /** Every group above the target is listed when there are at most three;
      with more, the three longest are. */
  lemma TopAboveTargetComplete(rows: seq<StayRow>, target: int, x: StayRow)
    requires x in rows && AboveTarget(x, target)
    requires |AboveTargetRows(rows, target)| <= 3
    ensures x in TopAboveTarget(rows, target)
  {
    var above := AboveTargetRows(rows, target);
    var sorted := SortDesc(above, StayKey);
    assert x in multiset(above);
    assert x in multiset(sorted);
    assert Take(sorted, 3) == sorted;
  }

  // ---- The insights' overall figures ----

  /** `media_permanencia`: the mean of the groups' mean stays; NaN when no
      group is shown. */
  function MeanStay(rows: seq<StayRow>): (m: Ext)
    ensures rows == [] <==> m == NaN
  {
    if rows == [] then NaN else Finite(MeanReal(rows, Stay))
  }

  /** The "Composição do Tempo Médio" shares: mean wait and mean service over
      the mean stay, in percent. */
  function WaitShare(rows: seq<StayRow>): (p: Ext)
    ensures rows == [] ==> p == NaN
  {
    if rows == [] then NaN else Percent(MeanReal(rows, Wait), MeanReal(rows, Stay))
  }

  function ServiceShare(rows: seq<StayRow>): (p: Ext)
    ensures rows == [] ==> p == NaN
  {
    if rows == [] then NaN else Percent(MeanReal(rows, Service), MeanReal(rows, Stay))
  }

  /** When every ticket's stay is its wait plus its service, each group's
      mean stay is its mean wait plus its mean service. */
  lemma {:induction false} RowStayComposes(sel: seq<Ticket>, g: Grouping, k: string)
    requires HasKey(sel, g, k)
    requires forall t :: t in sel ==> t.stayTime == t.waitTime + t.serviceTime
    ensures var r := StayGroupRow(sel, g, k);
            r.wait + r.service == r.stay
  {
    var grp := KeyGroup(sel, g, k);
    SumsCompose(grp);
    MeansCompose(Sum(grp, WaitTime) as real, Sum(grp, ServiceTime) as real, Sum(grp, StayTime) as real,
                 |grp| as real);
  }

  lemma {:induction false} SumsCompose(s: seq<Ticket>)
    requires forall t :: t in s ==> t.stayTime == t.waitTime + t.serviceTime
    ensures Sum(s, WaitTime) + Sum(s, ServiceTime) == Sum(s, StayTime)
  {
    if s != [] {
      assert s[0] in s;
      assert forall t :: t in s[1..] ==> t in s;
      SumsCompose(s[1..]);
    }
  }

  lemma MeansCompose(wait: real, service: real, stay: real, n: real)
    requires n > 0.0 && wait + service == stay
    ensures wait / n / 60.0 + service / n / 60.0 == stay / n / 60.0
  {
    assert (wait / n) * n == wait && (service / n) * n == service && (stay / n) * n == stay;
    assert (wait / n + service / n) * n == stay;
  }

  /** When every ticket's stay is its wait plus its service, and the tab shows
      a group with a non-zero mean stay, the two shares add up to 100%. */
  lemma {:induction false} SharesAddUp(ts: seq<Ticket>, f: Filters, g: Grouping)
    requires forall t :: t in ts ==> t.stayTime == t.waitTime + t.serviceTime
    requires StayTimes(ts, f, g) != []
    requires MeanStay(StayTimes(ts, f, g)) != Finite(0.0)
    ensures WaitShare(StayTimes(ts, f, g)).Finite? && ServiceShare(StayTimes(ts, f, g)).Finite?
    ensures WaitShare(StayTimes(ts, f, g)).v + ServiceShare(StayTimes(ts, f, g)).v == 100.0
  {
    var rows := StayTimes(ts, f, g);
    MeansOfRowsCompose(ts, f, g);
    ShareSum(MeanReal(rows, Wait), MeanReal(rows, Service), MeanReal(rows, Stay));
  }

  /** When every ticket's stay is its wait plus its service, so is the mean
      over the shown groups. */
  lemma {:induction false} MeansOfRowsCompose(ts: seq<Ticket>, f: Filters, g: Grouping)
    requires forall t :: t in ts ==> t.stayTime == t.waitTime + t.serviceTime
    requires StayTimes(ts, f, g) != []
    ensures var rows := StayTimes(ts, f, g);
            MeanReal(rows, Wait) + MeanReal(rows, Service) == MeanReal(rows, Stay)
  {
    var rows := StayTimes(ts, f, g);
    var sel := StaySelection(ts, f, g);
    forall r | r in rows ensures r.wait + r.service == r.stay {
      RowStayComposes(sel, g, r.key);
    }
    RowMeansCompose(rows);
    MeansAdd(SumReal(rows, Wait), SumReal(rows, Service), SumReal(rows, Stay), |rows| as real);
  }

  lemma MeansAdd(a: real, b: real, c: real, n: real)
    requires n > 0.0 && a + b == c
    ensures a / n + b / n == c / n
  {
    assert (a / n) * n == a && (b / n) * n == b && (c / n) * n == c;
    assert (a / n + b / n) * n == c;
  }

  lemma {:induction false} RowMeansCompose(rows: seq<StayRow>)
    requires forall r :: r in rows ==> r.wait + r.service == r.stay
    ensures SumReal(rows, Wait) + SumReal(rows, Service) == SumReal(rows, Stay)
  {
    if rows != [] {
      assert rows[0] in rows;
      assert forall r :: r in rows[1..] ==> r in rows;
      RowMeansCompose(rows[1..]);
    }
  }

  lemma ShareSum(w: real, s: real, st: real)
    requires st != 0.0 && w + s == st
    ensures Percent(w, st).Finite? && Percent(s, st).Finite?
    ensures Percent(w, st).v + Percent(s, st).v == 100.0
  {
    var a, b := w / st, s / st;
    assert a * st == w && b * st == s;
    assert (a + b - 1.0) * st == a * st + b * st - st;
    assert (a + b - 1.0) * st == 0.0;
    assert a + b == 1.0;
  }
}
