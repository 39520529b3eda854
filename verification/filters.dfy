/** The sidebar filters (src/visualizacao/filtros.py): two date ranges, the
    client/operation/shift selections and the stay-time target. The widgets
    themselves are not modelled; their values arrive as `Inputs`, and the
    current date as a day number.
 */
module SidebarFilters {
  import opened Outcome
  import opened Orders
  import opened Seqs
  import opened Tickets
  import opened Shifts

  const AllClients: string := "Todos"
  const AllOperations: string := "Todas"
  const ShiftOptions: seq<string> := [AllShifts, Label(A), Label(B), Label(C)]

  /** The stay-time target widget only yields whole minutes from 1 to 60. */
  type StayTarget = m: int | 1 <= m <= 60 witness 15

  const DefaultStayTarget: StayTarget := 15

  /** The record the dashboards receive as `filtros`. */
  datatype Filters = Filters(
    period1: Period,          // `periodo1`, the comparison period
    period2: Period,          // `periodo2`, the base period
    clients: seq<string>,     // `cliente`
    operations: seq<string>,  // `operacao`
    shifts: seq<string>,      // `turno`
    stayTarget: StayTarget    // `meta_permanencia`, minutes
  )

  /** What the user entered in the sidebar. */
  datatype Inputs = Inputs(
    p1First: int, p1Last: int, p2First: int, p2Last: int,
    clients: seq<string>, operations: seq<string>, shifts: seq<string>,
    stayTarget: StayTarget
  )

  /** The widgets' initial values on day `today`. */
  function DefaultInputs(today: int): Inputs {
    Inputs(today - 60, today - 31, today - 30, today,
           [AllClients], [AllOperations], [AllShifts], DefaultStayTarget)
  }

  /** The date check: a period whose last day precedes its first is refused. */
  predicate DatesAccepted(inp: Inputs) {
    !(inp.p1Last < inp.p1First || inp.p2Last < inp.p2First)
  }

  /** `criar_filtros`: `None` for refused dates, and `None` when no data is loaded. */
  function CreateFilters(inp: Inputs, data: Option<seq<Ticket>>): (r: Option<Filters>)
    ensures r.Some? <==> inp.p1First <= inp.p1Last && inp.p2First <= inp.p2Last && data.Some?
    ensures r.Some? ==> (
              && r.value.period1 == Period(inp.p1First, inp.p1Last)
              && r.value.period2 == Period(inp.p2First, inp.p2Last)
              && r.value.clients == inp.clients
              && r.value.operations == inp.operations
              && r.value.shifts == inp.shifts
              && r.value.stayTarget == inp.stayTarget)
  {
    if !DatesAccepted(inp) then None
    else if data.None? then None
    else Some(Filters(Period(inp.p1First, inp.p1Last), Period(inp.p2First, inp.p2Last),
                      inp.clients, inp.operations, inp.shifts, inp.stayTarget))
  }

  /** An option list: the "all" entry followed by the column's distinct values in ascending order. */
  function Options(all: string, column: seq<string>): (r: seq<string>)
    ensures |r| >= 1 && r[0] == all
    ensures StrictlySorted(r[1..], StrLt)
    ensures forall v :: v in r[1..] <==> v in column
  {
    StrLtIsStrictTotalOrder();
    [all] + SortedKeys(column, StrLt)
  }

  function ClientOptions(ts: seq<Ticket>): (r: seq<string>)
    ensures |r| >= 1 && r[0] == AllClients
    ensures StrictlySorted(r[1..], StrLt)
    ensures forall c :: c in r[1..] <==> exists t :: t in ts && t.client == c
  {
    Options(AllClients, Map(ts, Client))
  }

  function OperationOptions(ts: seq<Ticket>): (r: seq<string>)
    ensures |r| >= 1 && r[0] == AllOperations
    ensures StrictlySorted(r[1..], StrLt)
    ensures forall o :: o in r[1..] <==> exists t :: t in ts && t.operation == o
  {
    Options(AllOperations, Map(ts, Operation))
  }

  /** The default periods are accepted, adjacent and disjoint: the comparison
      period is the 30 days that end the day before the 31-day base period. */
  lemma DefaultPeriods(today: int)
    ensures DatesAccepted(DefaultInputs(today))
    ensures var inp := DefaultInputs(today);
            && inp.p1Last + 1 == inp.p2First
            && inp.p1Last - inp.p1First + 1 == 30
            && inp.p2Last - inp.p2First + 1 == 31
            && inp.p2Last == today
            && forall d :: !(InPeriod(Period(inp.p1First, inp.p1Last), d)
                             && InPeriod(Period(inp.p2First, inp.p2Last), d))
  {
  }

  /** Only each period's own order is checked: overlapping, even reversed, periods pass. */
  lemma OverlapAccepted(inp: Inputs, data: seq<Ticket>)
    requires inp.p1First <= inp.p1Last && inp.p2First <= inp.p2Last
    requires inp.p2First <= inp.p1Last
    ensures CreateFilters(inp, Some(data)).Some?
  {
  }
}
