/** The ticket table (`dados['base']`) and the targets table (`dados['medias']`).

    One row per queue ticket. Timestamps are whole seconds on a naive local
    clock; a timestamp's calendar date (`.dt.date`) is its day number and its
    `.dt.hour` the hour within that day. Durations are whole seconds.
 */
module Tickets {
  import opened Outcome
  import opened Seqs

  const SecondsPerMinute: int := 60
  const SecondsPerHour: int := 3600
  const SecondsPerDay: int := 86400

  datatype Ticket = Ticket(
    id: int,
    withdrawal: int,     // `retirada`: when the ticket was taken
    start: int,          // `inicio`: when service began
    serviceTime: nat,    // `tpatend`, seconds
    waitTime: nat,       // `tpesper`, seconds
    stayTime: nat,       // `tempo_permanencia`, seconds
    user: string,        // `usuário`: the collaborator who served the ticket
    client: string,      // `CLIENTE`
    operation: string,   // `OPERAÇÃO`
    shiftColumn: string  // a `turno` column the loader may have added
  )

  /** `.dt.date`, as a day number (floor division, also before the epoch). */
  function DayOf(instant: int): int {
    instant / SecondsPerDay
  }

  /** `.dt.hour`. */
  function HourOf(instant: int): (h: int)
    ensures 0 <= h < 24
  {
    (instant % SecondsPerDay) / SecondsPerHour
  }

  /** A date range from the sidebar, `{'inicio': ..., 'fim': ...}`, as day numbers. */
  datatype Period = Period(first: int, last: int)

  /** Both ends inclusive. */
  predicate InPeriod(p: Period, day: int) {
    p.first <= day <= p.last
  }

  predicate WithdrawnIn(p: Period, t: Ticket) {
    InPeriod(p, DayOf(t.withdrawal))
  }

  /** The date mask every dashboard applies first: the withdrawal date within the period. */
  function SelectPeriod(ts: seq<Ticket>, p: Period): (r: seq<Ticket>)
    ensures forall t :: t in r <==> t in ts && p.first <= DayOf(t.withdrawal) <= p.last
    ensures forall t :: multiset(r)[t] == if WithdrawnIn(p, t) then multiset(ts)[t] else 0
  {
    var keep := t => WithdrawnIn(p, t);
    FilterMultiset(ts, keep);
    Filter(ts, keep)
  }

  function User(t: Ticket): string { t.user }
  function Client(t: Ticket): string { t.client }
  function Operation(t: Ticket): string { t.operation }
  function ServiceTime(t: Ticket): int { t.serviceTime }
  function WaitTime(t: Ticket): int { t.waitTime }
  function StayTime(t: Ticket): int { t.stayTime }
  function Start(t: Ticket): int { t.start }
  function StartDay(t: Ticket): int { DayOf(t.start) }

  /** One row of the targets table: the expected service time of an operation, in minutes. */
  datatype Target = Target(operation: string, minutes: real)

  /** `df_medias[df_medias['OPERAÇÃO'] == op]['Total Geral'].values[0]`:
      the first matching row, or the `IndexError` when there is none. */
  function TargetOf(targets: seq<Target>, op: string): (r: Result<real>)
    ensures r.Ok? <==> exists i :: 0 <= i < |targets| && targets[i].operation == op
    ensures r.Err? ==> r.error == MissingTarget(op)
  {
    if targets == [] then Err(MissingTarget(op))
    else if targets[0].operation == op then Ok(targets[0].minutes)
    else
      assert forall i :: 1 <= i < |targets| ==> targets[i] == targets[1..][i - 1];
      TargetOf(targets[1..], op)
  }

  /** The target found is the minutes of the first row naming the operation. */
  lemma {:induction false} TargetOfFirstMatch(targets: seq<Target>, op: string)
    requires TargetOf(targets, op).Ok?
    ensures exists i :: 0 <= i < |targets| && targets[i].operation == op
              && targets[i].minutes == TargetOf(targets, op).value
              && forall j :: 0 <= j < i ==> targets[j].operation != op
  {
    if targets[0].operation != op {
      TargetOfFirstMatch(targets[1..], op);
      var k :| 0 <= k < |targets[1..]| && targets[1..][k].operation == op
               && targets[1..][k].minutes == TargetOf(targets[1..], op).value
               && forall j :: 0 <= j < k ==> targets[1..][j].operation != op;
      assert targets[k + 1] == targets[1..][k];
      assert forall j :: 1 <= j < k + 1 ==> targets[j] == targets[1..][j - 1];
    }
  }
}
