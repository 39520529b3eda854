/** The service time of each collaborator per operation (backup/tempo_atend.py):
    `analisar_tempos_colaborador`, the collaborator and operation pickers, the
    four headline figures and the comparison of each shown row with its
    operation's target.
 */
module CollaboratorTimes {
  import opened ExtReal
  import opened Outcome
  import opened Orders
  import opened Seqs
  import opened Tickets
  import opened SidebarFilters

  /** One row of `analisar_tempos_colaborador`: the service-time statistics in
      minutes. */
  datatype CollabRow = CollabRow(
    collaborator: string,  // `colaborador`
    operation: string,     // `operacao`
    count: nat,            // `atendimentos`
    mean: real,            // `tempo_medio`
    min: real,             // `tempo_min`
    max: real              // `tempo_max`
  )

  /** The group key `['usuário', 'OPERAÇÃO']`. */
  function PairKey(t: Ticket): (string, string) { (t.user, t.operation) }
  function RowKey(r: CollabRow): (string, string) { (r.collaborator, r.operation) }
  function Count(r: CollabRow): int { r.count }
  function MeanCol(r: CollabRow): real { r.mean }
  function MinCol(r: CollabRow): real { r.min }
  function MaxCol(r: CollabRow): real { r.max }
  function Collaborator(r: CollabRow): string { r.collaborator }
  function OperationOf(r: CollabRow): string { r.operation }

  /** Collaborator first, then operation. */
  function PairLt(): ((string, string), (string, string)) -> bool { Lex(StrLt, StrLt) }

  lemma PairLtIsStrictTotalOrder()
    ensures StrictTotalOrder(PairLt())
  {
    StrLtIsStrictTotalOrder();
    LexIsStrictTotalOrder(StrLt, StrLt);
  }

  ghost predicate HasPair(sel: seq<Ticket>, k: (string, string)) {
    exists t :: t in sel && PairKey(t) == k
  }

  /** The tickets of one collaborator and operation. */
  function PairGroup(sel: seq<Ticket>, k: (string, string)): (g: seq<Ticket>)
    requires HasPair(sel, k)
    ensures |g| > 0
    ensures g == Group(sel, PairKey, k)
    ensures forall t :: t in g <==> t in sel && t.user == k.0 && t.operation == k.1
  {
    var g := Group(sel, PairKey, k);
    PairRowInGroup(sel, k);
    g
  }

  lemma PairRowInGroup(sel: seq<Ticket>, k: (string, string))
    requires HasPair(sel, k)
    ensures |Group(sel, PairKey, k)| > 0
  {
    var t :| t in sel && PairKey(t) == k;
    assert t in Group(sel, PairKey, k);
  }

  /** The row of one pair: its size, and its service-time mean, minimum and
      maximum in minutes. */
  function PairRow(sel: seq<Ticket>, k: (string, string)): (r: CollabRow)
    requires HasPair(sel, k)
    ensures RowKey(r) == k
    ensures r.count == |Group(sel, PairKey, k)| >= 1
  {
    var g := PairGroup(sel, k);
    CollabRow(k.0, k.1, |g|, Mean(g, ServiceTime) / 60.0,
              MinOf(g, ServiceTime) as real / 60.0, MaxOf(g, ServiceTime) as real / 60.0)
  }

  /** A row's mean lies between its minimum and its maximum, and the division
      by 60 keeps that order. */
  lemma {:induction false} PairRowOrdered(sel: seq<Ticket>, k: (string, string))
    requires HasPair(sel, k)
    ensures PairRow(sel, k).min <= PairRow(sel, k).mean <= PairRow(sel, k).max
  {
    var g := PairGroup(sel, k);
    MeanBetween(g, ServiceTime);
    DivideKeepsOrder(MinOf(g, ServiceTime) as real, Mean(g, ServiceTime), MaxOf(g, ServiceTime) as real);
  }

  lemma DivideKeepsOrder(lo: real, m: real, hi: real)
    requires lo <= m <= hi
    ensures lo / 60.0 <= m / 60.0 <= hi / 60.0
  {
  }

  /** A row's minimum and maximum, in seconds, are the shortest and the
      longest service of the pair's tickets. */
  lemma {:induction false} PairRowExtremes(sel: seq<Ticket>, k: (string, string))
    requires HasPair(sel, k)
    ensures var r := PairRow(sel, k);
            && (forall t :: t in sel && PairKey(t) == k ==> r.min * 60.0 <= t.serviceTime as real <= r.max * 60.0)
            && (exists t :: t in sel && PairKey(t) == k && t.serviceTime as real == r.min * 60.0)
            && (exists t :: t in sel && PairKey(t) == k && t.serviceTime as real == r.max * 60.0)
  {
    var g := PairGroup(sel, k);
    var r := PairRow(sel, k);
    var lo, hi := MinOf(g, ServiceTime), MaxOf(g, ServiceTime);
    assert r.min * 60.0 == lo as real && r.max * 60.0 == hi as real;
    var a :| a in g && ServiceTime(a) == lo;
    var b :| b in g && ServiceTime(b) == hi;
  }

  function PairRows(sel: seq<Ticket>, keys: seq<(string, string)>): (rows: seq<CollabRow>)
    requires forall k :: k in keys ==> HasPair(sel, k)
    ensures |rows| == |keys|
    ensures forall i :: 0 <= i < |keys| ==> rows[i] == PairRow(sel, keys[i])
  {
    seq(|keys|, i requires 0 <= i < |keys| => PairRow(sel, keys[i]))
  }

  lemma PairRowCounts(sel: seq<Ticket>, keys: seq<(string, string)>)
    requires forall k :: k in keys ==> HasPair(sel, k)
    ensures Sum(PairRows(sel, keys), Count) == GroupSizes(sel, PairKey, keys)
  {
    var rows := PairRows(sel, keys);
    forall i | 0 <= i < |keys| ensures Count(rows[i]) == |Group(sel, PairKey, keys[i])| {
      assert keys[i] in keys;
    }
    CountsMatchGroupSizes(rows, Count, sel, PairKey, keys);
  }

  /** `analisar_tempos_colaborador`: one row per collaborator and operation
      with a ticket withdrawn in the base period, in ascending key order,
      whose counts add up to the tickets of that period. */
  function CollaboratorTimes(ts: seq<Ticket>, f: Filters): (rows: seq<CollabRow>)
    ensures var sel := SelectPeriod(ts, f.period2);
            && StrictlySorted(Map(rows, RowKey), PairLt())
            && (forall k :: k in Map(rows, RowKey) <==> HasPair(sel, k))
            && (forall r :: r in rows ==> HasPair(sel, RowKey(r)) && r == PairRow(sel, RowKey(r)))
            && Sum(rows, Count) == |sel|
  {
    var sel := SelectPeriod(ts, f.period2);
    PairLtIsStrictTotalOrder();
    var keys := SortedKeys(Map(sel, PairKey), PairLt());
    var rows := PairRows(sel, keys);
    assert Map(rows, RowKey) == keys;
    assert Sum(rows, Count) == |sel| by {
      PairRowCounts(sel, keys);
      GroupSizesPartition(sel, PairKey, keys);
    }
    rows
  }

  // ---- The pickers and the shown rows ----

  /** `sorted(analise['colaborador'].unique())`. */
  function CollaboratorChoices(rows: seq<CollabRow>): (r: seq<string>)
    ensures StrictlySorted(r, StrLt) && Distinct(r)
    ensures forall u :: u in r <==> exists x :: x in rows && x.collaborator == u
  {
    StrLtIsStrictTotalOrder();
    var r := SortedKeys(Map(rows, Collaborator), StrLt);
    forall u ensures u in r <==> exists x :: x in rows && x.collaborator == u {
      if u in r {
        var i :| 0 <= i < |rows| && Map(rows, Collaborator)[i] == u;
        assert rows[i] in rows;
      }
    }
    r
  }

  /** `["Todas"] + sorted(analise['operacao'].unique())`. */
  function OperationChoices(rows: seq<CollabRow>): (r: seq<string>)
    ensures |r| > 0 && r[0] == AllOperations
    ensures StrictlySorted(r[1..], StrLt) && Distinct(r[1..])
    ensures forall op :: op in r[1..] <==> exists x :: x in rows && x.operation == op
  {
    StrLtIsStrictTotalOrder();
    var ops := SortedKeys(Map(rows, OperationOf), StrLt);
    forall op ensures op in ops <==> exists x :: x in rows && x.operation == op {
      if op in ops {
        var i :| 0 <= i < |rows| && Map(rows, OperationOf)[i] == op;
        assert rows[i] in rows;
      }
    }
    assert ([AllOperations] + ops)[1..] == ops;
    [AllOperations] + ops
  }

  /** `dados_viz`: the rows of the chosen collaborator; of the chosen
      operation too, unless that is "Todas". */
  function Shown(rows: seq<CollabRow>, collaborator: string, op: string): (r: seq<CollabRow>)
    ensures forall x :: x in r <==>
              && x in rows
              && x.collaborator == collaborator
              && (op != AllOperations ==> x.operation == op)
    ensures forall x :: multiset(r)[x] <= multiset(rows)[x]
  {
    var p := (x: CollabRow) => x.collaborator == collaborator && (op != AllOperations ==> x.operation == op);
    FilterMultiset(rows, p);
    Filter(rows, p)
  }

  /** "Tempo Médio", "Tempo Mínimo" and "Tempo Máximo": the mean of the shown
      means, the least minimum and the greatest maximum; NaN when nothing is
      shown. */
  datatype Headline = Headline(mean: Ext, min: Ext, max: Ext)

  function HeadlineOf(shown: seq<CollabRow>): (h: Headline)
    ensures shown == [] <==> h == Headline(NaN, NaN, NaN)
    ensures shown != [] ==> h.mean.Finite? && h.min.Finite? && h.max.Finite?
  {
    if shown == [] then Headline(NaN, NaN, NaN)
    else Headline(Finite(MeanReal(shown, MeanCol)), Finite(MinReal(shown, MinCol)), Finite(MaxReal(shown, MaxCol)))
  }

  /** The headline minimum is at most the headline mean, which is at most the
      headline maximum: every row keeps min <= mean <= max. */
  lemma {:induction false} HeadlineOrdered(shown: seq<CollabRow>)
    requires shown != []
    requires forall x :: x in shown ==> x.min <= x.mean <= x.max
    ensures HeadlineOf(shown).min.v <= HeadlineOf(shown).mean.v <= HeadlineOf(shown).max.v
  {
    var lo, hi := MinReal(shown, MinCol), MaxReal(shown, MaxCol);
    assert forall x :: x in shown ==> lo <= MeanCol(x) <= hi;
    MeanRealAtLeast(shown, MeanCol, lo);
    MeanRealAtMost(shown, MeanCol, hi);
  }

  /** For the shown rows of the tab's own table, the headline minimum and
      maximum are the shortest and longest service, in minutes, among the
      chosen collaborator's tickets of the base period (of the chosen
      operation unless "Todas") — the tickets the box plot draws: every such
      ticket lies between them, and each of them is some such ticket's
      service time. */
  lemma {:induction false} HeadlineMinIsShortestService(ts: seq<Ticket>, f: Filters, collaborator: string, op: string,
                                                         t: Ticket)
    requires t in SelectPeriod(ts, f.period2) && t.user == collaborator
    requires op != AllOperations ==> t.operation == op
    ensures var h := HeadlineOf(Shown(CollaboratorTimes(ts, f), collaborator, op));
            && h.min.Finite? && h.max.Finite?
            && h.min.v * 60.0 <= t.serviceTime as real <= h.max.v * 60.0
            && ShownTicketTakes(ts, f, collaborator, op, h.min.v)
            && ShownTicketTakes(ts, f, collaborator, op, h.max.v)
  {
    var sel := SelectPeriod(ts, f.period2);
    var rows := CollaboratorTimes(ts, f);
    var shown := Shown(rows, collaborator, op);
    assert HasPair(sel, PairKey(t));
    var x := RowOf(ts, f, PairKey(t));
    assert x in shown;
    PairRowExtremes(sel, PairKey(t));
    var lo, hi := MinReal(shown, MinCol), MaxReal(shown, MaxCol);
    assert lo <= x.min && x.max <= hi;
    var a :| a in shown && MinCol(a) == lo;
    ShownRowMinTaken(ts, f, collaborator, op, a);
    var b :| b in shown && MaxCol(b) == hi;
    ShownRowMaxTaken(ts, f, collaborator, op, b);
  }

  /** Some ticket the box plot draws takes `minutes` to serve. */
  ghost predicate ShownTicketTakes(ts: seq<Ticket>, f: Filters, collaborator: string, op: string, minutes: real) {
    exists t :: && t in SelectPeriod(ts, f.period2) && t.user == collaborator
                && (op != AllOperations ==> t.operation == op)
                && t.serviceTime as real == minutes * 60.0
  }

  /** A shown row's minimum is the service time of one of its tickets. */
  lemma ShownRowMinTaken(ts: seq<Ticket>, f: Filters, collaborator: string, op: string, x: CollabRow)
    requires x in Shown(CollaboratorTimes(ts, f), collaborator, op)
    ensures ShownTicketTakes(ts, f, collaborator, op, x.min)
  {
    ShownRowOfPair(ts, f, collaborator, op, x);
    var t := PairRowMinTicket(SelectPeriod(ts, f.period2), RowKey(x));
    assert t.user == collaborator && t.operation == x.operation;
  }

  /** A shown row's maximum is the service time of one of its tickets. */
  lemma ShownRowMaxTaken(ts: seq<Ticket>, f: Filters, collaborator: string, op: string, x: CollabRow)
    requires x in Shown(CollaboratorTimes(ts, f), collaborator, op)
    ensures ShownTicketTakes(ts, f, collaborator, op, x.max)
  {
    ShownRowOfPair(ts, f, collaborator, op, x);
    var t := PairRowMaxTicket(SelectPeriod(ts, f.period2), RowKey(x));
    assert t.user == collaborator && t.operation == x.operation;
  }

  lemma ShownRowOfPair(ts: seq<Ticket>, f: Filters, collaborator: string, op: string, x: CollabRow)
    requires x in Shown(CollaboratorTimes(ts, f), collaborator, op)
    ensures x.collaborator == collaborator && (op != AllOperations ==> x.operation == op)
    ensures HasPair(SelectPeriod(ts, f.period2), RowKey(x))
    ensures x == PairRow(SelectPeriod(ts, f.period2), RowKey(x))
  {
    assert x in CollaboratorTimes(ts, f);
  }

  lemma PairRowMinTicket(sel: seq<Ticket>, k: (string, string)) returns (t: Ticket)
    requires HasPair(sel, k)
    ensures t in sel && PairKey(t) == k && t.serviceTime as real == PairRow(sel, k).min * 60.0
  {
    PairRowExtremes(sel, k);
    t :| t in sel && PairKey(t) == k && t.serviceTime as real == PairRow(sel, k).min * 60.0;
  }

  lemma PairRowMaxTicket(sel: seq<Ticket>, k: (string, string)) returns (t: Ticket)
    requires HasPair(sel, k)
    ensures t in sel && PairKey(t) == k && t.serviceTime as real == PairRow(sel, k).max * 60.0
  {
    PairRowExtremes(sel, k);
    t :| t in sel && PairKey(t) == k && t.serviceTime as real == PairRow(sel, k).max * 60.0;
  }

  /** The row of a listed pair. */
  lemma RowOf(ts: seq<Ticket>, f: Filters, k: (string, string)) returns (x: CollabRow)
    requires HasPair(SelectPeriod(ts, f.period2), k)
    ensures x in CollaboratorTimes(ts, f) && RowKey(x) == k
    ensures x == PairRow(SelectPeriod(ts, f.period2), k)
  {
    var rows := CollaboratorTimes(ts, f);
    assert k in Map(rows, RowKey);
    var i :| 0 <= i < |rows| && Map(rows, RowKey)[i] == k;
    x := rows[i];
  }

  // ---- The comparison with the targets ----

  /** One entry of the insights: a shown row against its operation's target. */
  datatype Insight = Insight(operation: string, mean: real, target: real, variation: Ext, warning: bool)

  /** `(tempo_medio - meta) / meta * 100`, and the warning `abs(variacao) > 20`. */
  function InsightOf(x: CollabRow, target: real): (i: Insight)
    ensures i.operation == x.operation && i.mean == x.mean && i.target == target
    ensures target > 0.0 ==> i.variation.Finite?
  {
    var v := PctChange(x.mean, target);
    Insight(x.operation, x.mean, target, v, AbsGreater(v, 20.0))
  }

  /** The warning fires exactly when the mean is more than 20% away from a
      non-zero target, or differs at all from a zero target (an infinite
      variation); a zero mean against a zero target is NaN and does not warn. */
  lemma WarningRule(x: CollabRow, target: real)
    ensures InsightOf(x, target).warning <==>
              if target != 0.0 then
                (x.mean - target) / target * 100.0 > 20.0 || (x.mean - target) / target * 100.0 < -20.0
              else x.mean != 0.0
  {
  }

  /** The position of the first shown row whose operation has no target row. */
  function FirstMissing(shown: seq<CollabRow>, targets: seq<Target>): (r: Option<nat>)
    ensures r.None? <==> forall i :: 0 <= i < |shown| ==> TargetOf(targets, shown[i].operation).Ok?
    ensures r.Some? ==> && r.value < |shown|
                        && TargetOf(targets, shown[r.value].operation).Err?
                        && forall i :: 0 <= i < r.value ==> TargetOf(targets, shown[i].operation).Ok?
  {
    if shown == [] then None
    else if TargetOf(targets, shown[0].operation).Err? then Some(0)
    else
      match FirstMissing(shown[1..], targets)
      case None => None
      case Some(k) => Some(k + 1)
  }

  /** The insights of the shown rows, in order; the lookup of a missing target
      row raises at the first such row, and the tab then shows an error instead. */
  function Insights(shown: seq<CollabRow>, targets: seq<Target>): (r: Result<seq<Insight>>)
    ensures r.Err? <==> exists x :: x in shown && TargetOf(targets, x.operation).Err?
    ensures r.Err? ==> exists k :: && 0 <= k < |shown|
                                   && r.error == MissingTarget(shown[k].operation)
                                   && TargetOf(targets, shown[k].operation).Err?
                                   && forall i :: 0 <= i < k ==> TargetOf(targets, shown[i].operation).Ok?
    ensures r.Ok? ==> |r.value| == |shown|
    ensures r.Ok? ==> forall i :: 0 <= i < |shown| ==>
                        && TargetOf(targets, shown[i].operation).Ok?
                        && r.value[i] == InsightOf(shown[i], TargetOf(targets, shown[i].operation).value)
  {
    match FirstMissing(shown, targets)
    case Some(k) =>
      assert shown[k] in shown;
      Err(MissingTarget(shown[k].operation))
    case None =>
      Ok(seq(|shown|, i requires 0 <= i < |shown| =>
               InsightOf(shown[i], TargetOf(targets, shown[i].operation).value)))
  }
}
