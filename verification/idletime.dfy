/** Idle time per collaborator and working day: `calcular_tempo_ocioso` of
    backup/ociosidade.py, and the idle share and its warning in that file's tab.

    A working day spans from the collaborator's first to last service start of
    the day; the lunch break is taken off that span, and whatever the services
    do not fill is idle time. Nothing is clamped: a day with a single ticket has
    a zero span and so a negative idle time.
 */
module IdleTime {
  import opened ExtReal
  import opened Orders
  import opened Seqs
  import opened Tickets
  import opened SidebarFilters

  /** The lunch-break slider: 30 to 120 minutes in steps of 15. */
  type LunchSlider = m: int | 30 <= m <= 120 && (m - 30) % 15 == 0 witness 60

  const DefaultLunch: LunchSlider := 60

  /** One row of `calcular_tempo_ocioso`: durations in minutes. */
  datatype IdleRow = IdleRow(
    collaborator: string,  // `colaborador`
    day: int,              // `data`, the day of the service starts
    first: int,            // `primeiro_atend`
    last: int,             // `ultimo_atend`
    services: nat,         // `qtd_atendimentos`
    totalService: real,    // `tempo_total_atend`
    work: real,            // `tempo_trabalho`
    idle: real             // `tempo_ocioso`
  )

  /** The group key `['usuário', inicio.dt.date]`. */
  function DayKey(t: Ticket): (string, int) { (t.user, DayOf(t.start)) }
  function RowKey(r: IdleRow): (string, int) { (r.collaborator, r.day) }
  function Services(r: IdleRow): int { r.services }
  function Idle(r: IdleRow): real { r.idle }
  function TotalService(r: IdleRow): real { r.totalService }
  function Work(r: IdleRow): real { r.work }

  /** Collaborator first, then day, as pandas orders the pair keys. */
  function KeyLt(): ((string, int), (string, int)) -> bool { Lex(StrLt, IntLt) }

  lemma KeyLtIsStrictTotalOrder()
    ensures StrictTotalOrder(KeyLt())
  {
    StrLtIsStrictTotalOrder();
    IntLtIsStrictTotalOrder();
    LexIsStrictTotalOrder(StrLt, IntLt);
  }

  ghost predicate HasDay(sel: seq<Ticket>, k: (string, int)) {
    exists t :: t in sel && DayKey(t) == k
  }

  /** The rows of one collaborator's day. */
  function DayGroup(sel: seq<Ticket>, k: (string, int)): (g: seq<Ticket>)
    requires HasDay(sel, k)
    ensures |g| > 0
    ensures forall t :: t in g <==> t in sel && t.user == k.0 && DayOf(t.start) == k.1
  {
    var g := Group(sel, DayKey, k);
    var t :| t in sel && DayKey(t) == k;
    assert t in g;
    g
  }

  /** The aggregate of one day, with `lunch` minutes taken off the span. */
  function DayRow(sel: seq<Ticket>, k: (string, int), lunch: int): (r: IdleRow)
    requires HasDay(sel, k)
    ensures RowKey(r) == k
    ensures r.services == |Group(sel, DayKey, k)| >= 1
    ensures r.idle + r.totalService == r.work
  {
    var g := DayGroup(sel, k);
    var first := MinOf(g, Start);
    var last := MaxOf(g, Start);
    var total := Sum(g, ServiceTime);
    var workSeconds := (last - first) - lunch * 60;
    var idleSeconds := workSeconds - total;
    IdleRow(k.0, k.1, first, last, |g|, total as real / 60.0,
            workSeconds as real / 60.0, idleSeconds as real / 60.0)
  }

  /** A day's span runs from its earliest to its latest service start, both on
      that day; the working time is the span less the lunch break, and the
      service total is the day's summed service time, all in minutes. */
  lemma DaySpan(sel: seq<Ticket>, k: (string, int), lunch: int)
    requires HasDay(sel, k)
    ensures var r := DayRow(sel, k, lunch);
            && (forall t :: t in DayGroup(sel, k) ==> r.first <= t.start <= r.last)
            && (exists t :: t in DayGroup(sel, k) && t.start == r.first)
            && (exists t :: t in DayGroup(sel, k) && t.start == r.last)
            && r.first <= r.last
            && DayOf(r.first) == k.1 && DayOf(r.last) == k.1
            && r.work * 60.0 == (r.last - r.first - 60 * lunch) as real
            && r.totalService * 60.0 == Sum(DayGroup(sel, k), ServiceTime) as real
  {
    var r := DayRow(sel, k, lunch);
    var g := DayGroup(sel, k);
    var t1 :| t1 in g && t1.start == r.first;
    var t2 :| t2 in g && t2.start == r.last;
  }

  function DayRows(sel: seq<Ticket>, keys: seq<(string, int)>, lunch: int): (rows: seq<IdleRow>)
    requires forall k :: k in keys ==> HasDay(sel, k)
    ensures |rows| == |keys|
    ensures forall i :: 0 <= i < |keys| ==> rows[i] == DayRow(sel, keys[i], lunch)
  {
    seq(|keys|, i requires 0 <= i < |keys| => DayRow(sel, keys[i], lunch))
  }

  lemma DayRowCounts(sel: seq<Ticket>, keys: seq<(string, int)>, lunch: int)
    requires forall k :: k in keys ==> HasDay(sel, k)
    ensures Sum(DayRows(sel, keys, lunch), Services) == GroupSizes(sel, DayKey, keys)
  {
    var rows := DayRows(sel, keys, lunch);
    forall i | 0 <= i < |keys| ensures Services(rows[i]) == |Group(sel, DayKey, keys[i])| {
      assert keys[i] in keys;
    }
    CountsMatchGroupSizes(rows, Services, sel, DayKey, keys);
  }

  /** Each row carries its key, in the order of the keys. */
  lemma DayRowsKeyed(sel: seq<Ticket>, keys: seq<(string, int)>, lunch: int)
    requires forall k :: k in keys ==> HasDay(sel, k)
    ensures Map(DayRows(sel, keys, lunch), RowKey) == keys
    ensures forall r :: r in DayRows(sel, keys, lunch) ==>
              HasDay(sel, RowKey(r)) && r == DayRow(sel, RowKey(r), lunch)
  {
    var rows := DayRows(sel, keys, lunch);
    assert Map(rows, RowKey) == keys;
    forall r | r in rows ensures HasDay(sel, RowKey(r)) && r == DayRow(sel, RowKey(r), lunch) {
      var i :| 0 <= i < |rows| && rows[i] == r;
      assert keys[i] in keys;
    }
  }

  /** The tickets of the base period, by withdrawal date. */
  function Selected(ts: seq<Ticket>, f: Filters): seq<Ticket> {
    SelectPeriod(ts, f.period2)
  }

  /** `calcular_tempo_ocioso`: one row per collaborator and service day of the
      base period, in ascending (collaborator, day) order. */
  function IdleTimes(ts: seq<Ticket>, f: Filters, lunch: int): (rows: seq<IdleRow>)
    ensures StrictlySorted(Map(rows, RowKey), KeyLt())
    ensures forall k :: k in Map(rows, RowKey) <==> HasDay(Selected(ts, f), k)
    ensures Sum(rows, Services) == |Selected(ts, f)|
    ensures forall r :: r in rows ==> r == DayRow(Selected(ts, f), RowKey(r), lunch)
  {
    var sel := Selected(ts, f);
    KeyLtIsStrictTotalOrder();
    var keys := SortedKeys(Map(sel, DayKey), KeyLt());
    var rows := DayRows(sel, keys, lunch);
    DayRowsKeyed(sel, keys, lunch);
    assert Sum(rows, Services) == |sel| by {
      DayRowCounts(sel, keys, lunch);
      GroupSizesPartition(sel, DayKey, keys);
    }
    rows
  }

  /** A day with a single ticket has no span: the idle time is minus the lunch
      break and the service, so any lunch break makes it negative. */
  lemma SingleTicketDay(sel: seq<Ticket>, k: (string, int), lunch: int)
    requires HasDay(sel, k) && |DayGroup(sel, k)| == 1
    requires lunch > 0
    ensures DayRow(sel, k, lunch).first == DayRow(sel, k, lunch).last
    ensures DayRow(sel, k, lunch).idle * 60.0
            == -(60 * lunch + DayGroup(sel, k)[0].serviceTime) as real
    ensures DayRow(sel, k, lunch).idle < 0.0
  {
    var g := DayGroup(sel, k);
    DaySpan(sel, k, lunch);
    assert g[0] in g;
    assert Sum(g, ServiceTime) == g[0].serviceTime by {
      assert g[1..] == [];
    }
  }

  // ---- The tab's general metrics (backup/ociosidade.py, `mostrar_aba`) ----

  /** `percentual_ocioso`: mean idle over mean idle plus mean service, in percent.
      An empty table has NaN means, hence a NaN share. */
  function IdleShare(rows: seq<IdleRow>): (p: Ext)
    ensures rows == [] ==> p == NaN
  {
    if rows == [] then NaN
    else
      var idle := MeanReal(rows, Idle);
      Percent(idle, idle + MeanReal(rows, TotalService))
  }

  /** The warning `percentual_ocioso > 30`. */
  predicate IdleWarning(rows: seq<IdleRow>) {
    Greater(IdleShare(rows), 30.0)
  }

  /** The two means in the share add up to the mean working time. */
  lemma {:induction false} IdleAndServiceFillTheWork(rows: seq<IdleRow>)
    requires forall r :: r in rows ==> r.idle + r.totalService == r.work
    ensures SumReal(rows, Idle) + SumReal(rows, TotalService) == SumReal(rows, Work)
  {
    if rows != [] {
      assert rows[0] in rows;
      assert forall r :: r in rows[1..] ==> r in rows;
      IdleAndServiceFillTheWork(rows[1..]);
    }
  }

  lemma {:induction false} TotalServiceNonNegative(ts: seq<Ticket>, f: Filters, lunch: int)
    ensures forall r :: r in IdleTimes(ts, f, lunch) ==> r.totalService >= 0.0
  {
    var sel := Selected(ts, f);
    forall r | r in IdleTimes(ts, f, lunch) ensures r.totalService >= 0.0 {
      var g := DayGroup(sel, RowKey(r));
      SumAtLeast(g, ServiceTime, 0);
    }
  }

  /** The warning fires exactly when the table is not empty, the mean working
      time is not zero, and the idle share of it exceeds 30%. A zero mean
      working time never warns: the idle mean is then minus the service mean,
      at most zero, and the share is -inf or NaN. */
  lemma IdleWarningRule(ts: seq<Ticket>, f: Filters, lunch: int)
    ensures var rows := IdleTimes(ts, f, lunch);
            IdleWarning(rows) <==>
              && rows != []
              && MeanReal(rows, Work) != 0.0
              && MeanReal(rows, Idle) / MeanReal(rows, Work) * 100.0 > 30.0
  {
    var rows := IdleTimes(ts, f, lunch);
    TotalServiceNonNegative(ts, f, lunch);
    WarningRule(rows);
  }

  lemma WarningRule(rows: seq<IdleRow>)
    requires forall r :: r in rows ==> r.idle + r.totalService == r.work && r.totalService >= 0.0
    ensures IdleWarning(rows) <==>
              && rows != []
              && MeanReal(rows, Work) != 0.0
              && MeanReal(rows, Idle) / MeanReal(rows, Work) * 100.0 > 30.0
  {
    if rows != [] {
      IdleAndServiceFillTheWork(rows);
      SumRealAtLeast(rows, TotalService, 0.0);
      var n := |rows| as real;
      var idle, service, work := SumReal(rows, Idle), SumReal(rows, TotalService), SumReal(rows, Work);
      assert idle + service == work && service >= 0.0;
      MeansAdd(idle, service, work, n);
      ShareWarning(MeanReal(rows, Idle), MeanReal(rows, TotalService), MeanReal(rows, Work));
    }
  }

  /** Against a zero denominator the idle mean is at most zero, so no warning. */
  lemma ShareWarning(idle: real, service: real, work: real)
    requires idle + service == work && service >= 0.0
    ensures Greater(Percent(idle, idle + service), 30.0) <==> work != 0.0 && idle / work * 100.0 > 30.0
  {
  }

  lemma MeansAdd(a: real, b: real, c: real, n: real)
    requires n > 0.0 && a + b == c && b >= 0.0
    ensures a / n + b / n == c / n
    ensures b / n >= 0.0
  {
    assert (a / n) * n == a && (b / n) * n == b && (c / n) * n == c;
    assert (a / n + b / n) * n == c;
    DivideAtLeast(b, n, 0.0);
  }
}
