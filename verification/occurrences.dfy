/** Occurrences: `identificar_ocorrencias` of
    src/visualizacao/dashboards/desenvolvimento_pessoas/ocorrencias.py.

    For every collaborator of the base period two kinds of entry can be
    raised: a slow-service entry per operation whose tickets include some
    taking more than twice the operation's target, and one long-interval entry
    when more than an hour passes between two consecutive service starts. An
    operation without a target row makes the whole computation fail.
 */
module Occurrences {
  import opened ExtReal
  import opened Outcome
  import opened Seqs
  import opened Sorting
  import opened Tickets
  import opened SidebarFilters

  /** A gap longer than this many seconds between consecutive starts is flagged. */
  const LongGapSeconds: int := 3600

  datatype Kind = SlowService | LongInterval

  /** One entry of the result (`colaborador`, `operacao`, `tipo`, `quantidade`,
      `media_tempo` in minutes, `data` as a day number). */
  datatype Occurrence = Occurrence(
    collaborator: string,
    operation: string,
    kind: Kind,
    count: nat,
    meanMinutes: real,
    day: int
  )

  function EntryKey(e: Occurrence): (string, Kind, string) { (e.collaborator, e.kind, e.operation) }

  /** The rule of line 31: strictly more than twice the target, in seconds. */
  predicate IsSlow(t: Ticket, target: real) {
    t.serviceTime as real > target * 2.0 * 60.0
  }

  function UserTickets(sel: seq<Ticket>, u: string): (r: seq<Ticket>)
    ensures forall t :: t in r <==> t in sel && t.user == u
  {
    Filter(sel, (t: Ticket) => t.user == u)
  }

  /** `atend_lentos`: the collaborator's slow tickets of one operation. The three
      successive masks of the source keep the same rows as their conjunction. */
  function SlowTickets(sel: seq<Ticket>, u: string, op: string, target: real): (r: seq<Ticket>)
    ensures forall t :: t in r <==> t in sel && t.user == u && t.operation == op && IsSlow(t, target)
    ensures forall t :: multiset(r)[t] ==
              if t.user == u && t.operation == op && IsSlow(t, target) then multiset(sel)[t] else 0
  {
    var p := (t: Ticket) => t.user == u && t.operation == op && IsSlow(t, target);
    FilterMultiset(sel, p);
    Filter(sel, p)
  }

  /** The slow-service entry of one collaborator and operation, if any ticket is slow. */
  function SlowEntry(sel: seq<Ticket>, u: string, op: string, target: real): (e: Option<Occurrence>)
    ensures e.Some? <==> exists t :: t in sel && t.user == u && t.operation == op && IsSlow(t, target)
    ensures e.Some? ==> EntryKey(e.value) == (u, SlowService, op)
  {
    var slow := SlowTickets(sel, u, op, target);
    if |slow| > 0 then
      Some(Occurrence(u, op, SlowService, |slow|, Mean(slow, ServiceTime) / 60.0, MinOf(slow, StartDay)))
    else
      assert forall t :: t !in slow;
      None
  }

  /** A slow-service entry counts the slow tickets, averages their service time
      in minutes, and carries the earliest day one of them started. */
  lemma SlowEntryFields(sel: seq<Ticket>, u: string, op: string, target: real)
    requires SlowEntry(sel, u, op, target).Some?
    ensures var e := SlowEntry(sel, u, op, target).value;
            var slow := SlowTickets(sel, u, op, target);
            && e.count == |slow| >= 1
            && e.meanMinutes * 60.0 == Mean(slow, ServiceTime)
            && (forall t :: t in slow ==> e.day <= DayOf(t.start))
            && (exists t :: t in slow && DayOf(t.start) == e.day)
  {
  }

  // ---- Intervals between consecutive service starts ----

  /** A gap and the start that ends it. */
  datatype Interval = Interval(gap: int, start: int)

  function Gap(iv: Interval): int { iv.gap }
  function IntervalDay(iv: Interval): int { DayOf(iv.start) }
  function StartValue(x: int): Ext { Finite(x as real) }

  /** The `inicio` column after `sort_values('inicio')`: sorting the rows by
      their start and reading the column is sorting the column. */
  function SortedStarts(ut: seq<Ticket>): (s: seq<int>)
    ensures |s| == |ut|
    ensures multiset(s) == multiset(Map(ut, Start))
    ensures forall i, j :: 0 <= i < j < |s| ==> s[i] <= s[j]
  {
    var s := SortAsc(Map(ut, Start), StartValue);
    forall i, j | 0 <= i < j < |s| ensures s[i] <= s[j] {
      assert Le(StartValue(s[i]), StartValue(s[j]));
    }
    s
  }

  /** `diff()`: the first start has no predecessor, every later one its gap. */
  function Intervals(starts: seq<int>): (r: seq<Interval>)
    ensures |r| == if starts == [] then 0 else |starts| - 1
    ensures forall i :: 0 <= i < |r| ==> r[i] == Interval(starts[i + 1] - starts[i], starts[i + 1])
  {
    if |starts| <= 1 then []
    else seq(|starts| - 1, i requires 0 <= i < |starts| - 1 => Interval(starts[i + 1] - starts[i], starts[i + 1]))
  }

  /** `intervalos_longos`: the intervals strictly longer than an hour. */
  function LongIntervals(sel: seq<Ticket>, u: string): (r: seq<Interval>)
    ensures forall iv :: iv in r <==> iv in Intervals(SortedStarts(UserTickets(sel, u))) && iv.gap > LongGapSeconds
    ensures |UserTickets(sel, u)| > 0 ==> |r| <= |UserTickets(sel, u)| - 1
    ensures |UserTickets(sel, u)| <= 1 ==> r == []
  {
    Filter(Intervals(SortedStarts(UserTickets(sel, u))), (iv: Interval) => iv.gap > LongGapSeconds)
  }

  /** The long-interval entry of one collaborator, if any interval is long. */
  function GapEntry(sel: seq<Ticket>, u: string): (e: Option<Occurrence>)
    ensures e.Some? <==> LongIntervals(sel, u) != []
    ensures e.Some? ==> EntryKey(e.value) == (u, LongInterval, AllOperations)
  {
    var long := LongIntervals(sel, u);
    if |long| > 0 then
      Some(Occurrence(u, AllOperations, LongInterval, |long|, Mean(long, Gap) / 60.0, MinOf(long, IntervalDay)))
    else None
  }

  /** A long-interval entry counts the long gaps, averages them in minutes, and
      carries the earliest day one of them ended. */
  lemma GapEntryFields(sel: seq<Ticket>, u: string)
    requires GapEntry(sel, u).Some?
    ensures var e := GapEntry(sel, u).value;
            var long := LongIntervals(sel, u);
            && e.count == |long| >= 1
            && e.meanMinutes * 60.0 == Mean(long, Gap)
            && (forall iv :: iv in long ==> e.day <= DayOf(iv.start))
            && (exists iv :: iv in long && DayOf(iv.start) == e.day)
  {
  }

  /** A long interval is a gap of more than an hour between starts that follow
      each other in time. */
  lemma LongIntervalIsBetweenConsecutiveStarts(sel: seq<Ticket>, u: string, iv: Interval)
    requires iv in LongIntervals(sel, u)
    ensures var s := SortedStarts(UserTickets(sel, u));
            && iv.gap > LongGapSeconds
            && exists i :: 0 <= i < |s| - 1 && iv.start == s[i + 1] && iv.gap == s[i + 1] - s[i]
  {
    IntervalBetweenNeighbours(SortedStarts(UserTickets(sel, u)), iv);
  }

  lemma IntervalBetweenNeighbours(starts: seq<int>, iv: Interval)
    requires iv in Intervals(starts)
    ensures exists i :: 0 <= i < |starts| - 1 && iv.start == starts[i + 1] && iv.gap == starts[i + 1] - starts[i]
  {
    var i :| 0 <= i < |Intervals(starts)| && Intervals(starts)[i] == iv;
    assert iv == Interval(starts[i + 1] - starts[i], starts[i + 1]);
  }

  // ---- The loops over collaborators and operations ----

  ghost predicate MissingTargetFor(targets: seq<Target>, op: string) {
    TargetOf(targets, op).Err?
  }

  /** The entries a collaborator's slow tickets raise: one per listed operation
      that has a slow ticket. */
  ghost predicate SlowEntriesOf(sel: seq<Ticket>, u: string, ops: seq<string>, targets: seq<Target>, r: seq<Occurrence>)
    requires forall op :: op in ops ==> TargetOf(targets, op).Ok?
  {
    && Distinct(Map(r, EntryKey))
    && (forall e :: e in r ==> e.kind == SlowService && e.collaborator == u && e.operation in ops
                               && SlowEntry(sel, u, e.operation, TargetOf(targets, e.operation).value) == Some(e))
    && (forall op :: op in ops && SlowEntry(sel, u, op, TargetOf(targets, op).value).Some? ==>
                     SlowEntry(sel, u, op, TargetOf(targets, op).value).value in r)
  }

  /** The inner loop: operations in order; the first one without a target fails. */
  function SlowEntries(sel: seq<Ticket>, u: string, ops: seq<string>, targets: seq<Target>): (r: Result<seq<Occurrence>>)
    requires Distinct(ops)
    ensures r.Err? <==> exists op :: op in ops && MissingTargetFor(targets, op)
    ensures r.Err? ==> exists op :: op in ops && r.error == MissingTarget(op)
    ensures r.Ok? ==> SlowEntriesOf(sel, u, ops, targets, r.value)
  {
    if ops == [] then Ok([])
    else
      var target := TargetOf(targets, ops[0]);
      if target.Err? then
        assert ops[0] in ops;
        Err(target.error)
      else
        var rest := SlowEntries(sel, u, ops[1..], targets);
        if rest.Err? then Err(rest.error)
        else
          var here := match SlowEntry(sel, u, ops[0], target.value)
                      case None => []
                      case Some(e) => [e];
          assert forall op :: op in ops ==> op == ops[0] || op in ops[1..];
          SlowEntriesStep(sel, u, ops, targets, here, rest.value);
          Ok(here + rest.value)
  }

  lemma SlowEntriesStep(sel: seq<Ticket>, u: string, ops: seq<string>, targets: seq<Target>,
                        here: seq<Occurrence>, rest: seq<Occurrence>)
    requires ops != [] && Distinct(ops)
    requires forall op :: op in ops ==> TargetOf(targets, op).Ok?
    requires here == match SlowEntry(sel, u, ops[0], TargetOf(targets, ops[0]).value)
                     case None => []
                     case Some(e) => [e]
    requires SlowEntriesOf(sel, u, ops[1..], targets, rest)
    ensures SlowEntriesOf(sel, u, ops, targets, here + rest)
  {
    SlowEntriesStepDistinct(sel, u, ops, targets, here, rest);
    SlowEntriesStepComplete(sel, u, ops, targets, here, rest);
  }

  lemma SlowEntriesStepDistinct(sel: seq<Ticket>, u: string, ops: seq<string>, targets: seq<Target>,
                                here: seq<Occurrence>, rest: seq<Occurrence>)
    requires ops != [] && Distinct(ops)
    requires forall op :: op in ops ==> TargetOf(targets, op).Ok?
    requires here == match SlowEntry(sel, u, ops[0], TargetOf(targets, ops[0]).value)
                     case None => []
                     case Some(e) => [e]
    requires SlowEntriesOf(sel, u, ops[1..], targets, rest)
    ensures Distinct(Map(here + rest, EntryKey))
  {
    assert ops[0] !in ops[1..];
    forall x, y | x in here && y in rest ensures EntryKey(x) != EntryKey(y) {
    }
    DistinctKeysConcat(here, rest, EntryKey);
  }

  lemma SlowEntriesStepComplete(sel: seq<Ticket>, u: string, ops: seq<string>, targets: seq<Target>,
                                here: seq<Occurrence>, rest: seq<Occurrence>)
    requires ops != [] && Distinct(ops)
    requires forall op :: op in ops ==> TargetOf(targets, op).Ok?
    requires here == match SlowEntry(sel, u, ops[0], TargetOf(targets, ops[0]).value)
                     case None => []
                     case Some(e) => [e]
    requires SlowEntriesOf(sel, u, ops[1..], targets, rest)
    ensures forall e :: e in here + rest ==>
              e.kind == SlowService && e.collaborator == u && e.operation in ops
              && SlowEntry(sel, u, e.operation, TargetOf(targets, e.operation).value) == Some(e)
    ensures forall op :: op in ops && SlowEntry(sel, u, op, TargetOf(targets, op).value).Some? ==>
              SlowEntry(sel, u, op, TargetOf(targets, op).value).value in here + rest
  {
    forall op | op in ops ensures op == ops[0] || op in ops[1..] {
    }
  }

  /** Everything one collaborator raises, once every operation has a target. */
  ghost predicate UserEntriesOf(sel: seq<Ticket>, u: string, targets: seq<Target>, r: seq<Occurrence>)
    requires forall t :: t in sel && t.user == u ==> TargetOf(targets, t.operation).Ok?
  {
    && Distinct(Map(r, EntryKey))
    && (forall e :: e in r ==> e.collaborator == u && ValidEntry(sel, targets, e))
    && (forall t :: t in sel && t.user == u && IsSlow(t, TargetOf(targets, t.operation).value) ==>
                    SlowEntry(sel, u, t.operation, TargetOf(targets, t.operation).value).value in r)
    && (GapEntry(sel, u).Some? ==> GapEntry(sel, u).value in r)
  }

  /** An entry is what its collaborator's tickets raise for its kind and operation. */
  ghost predicate ValidEntry(sel: seq<Ticket>, targets: seq<Target>, e: Occurrence) {
    match e.kind
    case SlowService =>
      TargetOf(targets, e.operation).Ok?
      && SlowEntry(sel, e.collaborator, e.operation, TargetOf(targets, e.operation).value) == Some(e)
    case LongInterval =>
      GapEntry(sel, e.collaborator) == Some(e)
  }

  /** `df_colab['operacao'].unique()`: the collaborator's operations, once each. */
  function UserOperations(sel: seq<Ticket>, u: string): (ops: seq<string>)
    ensures Distinct(ops)
    ensures forall op :: op in ops <==> exists t :: t in sel && t.user == u && t.operation == op
  {
    var ut := UserTickets(sel, u);
    var ops := Unique(Map(ut, Operation));
    forall op ensures op in ops <==> exists t :: t in sel && t.user == u && t.operation == op {
      if op in ops {
        var i :| 0 <= i < |Map(ut, Operation)| && Map(ut, Operation)[i] == op;
        assert ut[i] in ut;
      }
      if exists t :: t in sel && t.user == u && t.operation == op {
        var t :| t in sel && t.user == u && t.operation == op;
        var i :| 0 <= i < |ut| && ut[i] == t;
        assert Map(ut, Operation)[i] == op;
      }
    }
    ops
  }

  /** The body of the outer loop for one collaborator. */
  function UserEntries(sel: seq<Ticket>, u: string, targets: seq<Target>): (r: Result<seq<Occurrence>>)
    ensures r.Err? <==> exists t :: t in sel && t.user == u && MissingTargetFor(targets, t.operation)
    ensures r.Err? ==> exists t :: t in sel && t.user == u && r.error == MissingTarget(t.operation)
    ensures r.Ok? ==> UserEntriesOf(sel, u, targets, r.value)
  {
    var ops := UserOperations(sel, u);
    var slow := SlowEntries(sel, u, ops, targets);
    if slow.Err? then Err(slow.error)
    else
      var gap := match GapEntry(sel, u)
                 case None => []
                 case Some(e) => [e];
      UserEntriesStep(sel, u, targets, ops, slow.value, gap);
      Ok(slow.value + gap)
  }

  lemma UserEntriesStep(sel: seq<Ticket>, u: string, targets: seq<Target>, ops: seq<string>,
                        slow: seq<Occurrence>, gap: seq<Occurrence>)
    requires forall t :: t in sel && t.user == u ==> t.operation in ops
    requires forall op :: op in ops ==> TargetOf(targets, op).Ok?
    requires SlowEntriesOf(sel, u, ops, targets, slow)
    requires gap == match GapEntry(sel, u)
                    case None => []
                    case Some(e) => [e]
    ensures forall t :: t in sel && t.user == u ==> TargetOf(targets, t.operation).Ok?
    ensures UserEntriesOf(sel, u, targets, slow + gap)
  {
    assert forall e :: e in slow ==> e.kind == SlowService;
    GapListed(sel, u, slow, gap);
    GapKeyedApart(slow, gap);
    UserEntriesValid(sel, u, ops, targets, slow, gap);
    SlowEntriesComplete(sel, u, ops, targets, slow, gap);
  }

  /** The long-interval list holds the collaborator's entry, if any, and nothing else. */
  lemma GapListed(sel: seq<Ticket>, u: string, slow: seq<Occurrence>, gap: seq<Occurrence>)
    requires gap == match GapEntry(sel, u)
                    case None => []
                    case Some(e) => [e]
    ensures |gap| <= 1 && forall e :: e in gap ==> e.kind == LongInterval
    ensures GapEntry(sel, u).Some? ==> GapEntry(sel, u).value in slow + gap
  {
  }

  /** The long-interval entry is keyed apart from the slow-service ones. */
  lemma GapKeyedApart(slow: seq<Occurrence>, gap: seq<Occurrence>)
    requires Distinct(Map(slow, EntryKey)) && |gap| <= 1
    requires forall e :: e in slow ==> e.kind == SlowService
    requires forall e :: e in gap ==> e.kind == LongInterval
    ensures Distinct(Map(slow + gap, EntryKey))
  {
    forall x, y | x in slow && y in gap ensures EntryKey(x) != EntryKey(y) {
    }
    DistinctKeysConcat(slow, gap, EntryKey);
  }

  lemma UserEntriesValid(sel: seq<Ticket>, u: string, ops: seq<string>, targets: seq<Target>,
                         slow: seq<Occurrence>, gap: seq<Occurrence>)
    requires forall op :: op in ops ==> TargetOf(targets, op).Ok?
    requires SlowEntriesOf(sel, u, ops, targets, slow)
    requires gap == match GapEntry(sel, u)
                    case None => []
                    case Some(e) => [e]
    ensures forall e :: e in slow + gap ==> e.collaborator == u && ValidEntry(sel, targets, e)
  {
    forall e | e in slow + gap ensures e.collaborator == u && ValidEntry(sel, targets, e) {
      if e !in slow {
        assert e in gap;
      }
    }
  }

  lemma SlowEntriesComplete(sel: seq<Ticket>, u: string, ops: seq<string>, targets: seq<Target>,
                            slow: seq<Occurrence>, gap: seq<Occurrence>)
    requires forall t :: t in sel && t.user == u ==> t.operation in ops
    requires forall op :: op in ops ==> TargetOf(targets, op).Ok?
    requires SlowEntriesOf(sel, u, ops, targets, slow)
    ensures forall t :: t in sel && t.user == u && IsSlow(t, TargetOf(targets, t.operation).value) ==>
                        SlowEntry(sel, u, t.operation, TargetOf(targets, t.operation).value).value in slow + gap
  {
    forall t | t in sel && t.user == u && IsSlow(t, TargetOf(targets, t.operation).value)
      ensures SlowEntry(sel, u, t.operation, TargetOf(targets, t.operation).value).value in slow + gap
    {
      assert t.operation in ops;
    }
  }

  /** What the outer loop has raised for the listed collaborators. */
  ghost predicate EntriesOf(sel: seq<Ticket>, users: seq<string>, targets: seq<Target>, r: seq<Occurrence>)
    requires forall t :: t in sel && t.user in users ==> TargetOf(targets, t.operation).Ok?
  {
    && Distinct(Map(r, EntryKey))
    && (forall e :: e in r ==> e.collaborator in users && ValidEntry(sel, targets, e))
    && (forall t :: t in sel && t.user in users && IsSlow(t, TargetOf(targets, t.operation).value) ==>
                    SlowEntry(sel, t.user, t.operation, TargetOf(targets, t.operation).value).value in r)
    && (forall u :: u in users && GapEntry(sel, u).Some? ==> GapEntry(sel, u).value in r)
  }

  /** The outer loop: collaborators in order; the first failure is the result. */
  function AllEntries(sel: seq<Ticket>, users: seq<string>, targets: seq<Target>): (r: Result<seq<Occurrence>>)
    requires Distinct(users)
    ensures r.Err? <==> exists t :: t in sel && t.user in users && MissingTargetFor(targets, t.operation)
    ensures r.Err? ==> exists t :: t in sel && r.error == MissingTarget(t.operation)
    ensures r.Ok? ==> EntriesOf(sel, users, targets, r.value)
  {
    if users == [] then Ok([])
    else
      MissingSplit(sel, users, targets);
      var here := UserEntries(sel, users[0], targets);
      if here.Err? then Err(here.error)
      else
        var rest := AllEntries(sel, users[1..], targets);
        if rest.Err? then Err(rest.error)
        else
          AllEntriesStep(sel, users, targets, here.value, rest.value);
          Ok(here.value + rest.value)
  }

  /** A ticket of a listed collaborator is one of the first collaborator's or
      one of the others'. */
  lemma MissingSplit(sel: seq<Ticket>, users: seq<string>, targets: seq<Target>)
    requires users != []
    ensures (exists t :: t in sel && t.user in users && MissingTargetFor(targets, t.operation)) <==>
            || (exists t :: t in sel && t.user == users[0] && MissingTargetFor(targets, t.operation))
            || (exists t :: t in sel && t.user in users[1..] && MissingTargetFor(targets, t.operation))
  {
    assert forall u :: u in users <==> u == users[0] || u in users[1..];
  }

  lemma AllEntriesStep(sel: seq<Ticket>, users: seq<string>, targets: seq<Target>,
                       here: seq<Occurrence>, rest: seq<Occurrence>)
    requires users != [] && Distinct(users)
    requires forall t :: t in sel && t.user in users ==> TargetOf(targets, t.operation).Ok?
    requires UserEntriesOf(sel, users[0], targets, here)
    requires EntriesOf(sel, users[1..], targets, rest)
    ensures EntriesOf(sel, users, targets, here + rest)
  {
    assert users[0] !in users[1..];
    forall x, y | x in here && y in rest ensures EntryKey(x) != EntryKey(y) {
    }
    DistinctKeysConcat(here, rest, EntryKey);
    forall u | u in users ensures u == users[0] || u in users[1..] {
    }
  }

  /** `identificar_ocorrencias`: the base period's tickets, collaborators in
      order of first appearance. */
  function IdentifyOccurrences(ts: seq<Ticket>, f: Filters, targets: seq<Target>): (r: Result<seq<Occurrence>>)
    ensures var sel := SelectPeriod(ts, f.period2);
            && (r.Err? <==> exists t :: t in sel && MissingTargetFor(targets, t.operation))
            && (r.Err? ==> exists t :: t in sel && r.error == MissingTarget(t.operation))
            && (r.Ok? ==> forall t :: t in sel ==> TargetOf(targets, t.operation).Ok?)
            && (r.Ok? ==> EntriesOf(sel, Unique(Map(sel, User)), targets, r.value))
  {
    var sel := SelectPeriod(ts, f.period2);
    var users := Unique(Map(sel, User));
    assert forall t :: t in sel ==> t.user in users by {
      forall t | t in sel ensures t.user in users {
        var i :| 0 <= i < |sel| && sel[i] == t;
        assert Map(sel, User)[i] == t.user;
      }
    }
    AllEntries(sel, users, targets)
  }

  lemma EveryUserListed(sel: seq<Ticket>, t: Ticket)
    requires t in sel
    ensures t.user in Unique(Map(sel, User))
  {
    var i :| 0 <= i < |sel| && sel[i] == t;
    assert Map(sel, User)[i] == t.user;
  }

  /** Every slow ticket of the base period is reported under its collaborator
      and operation. */
  lemma SlowTicketIsReported(ts: seq<Ticket>, f: Filters, targets: seq<Target>, t: Ticket)
    requires IdentifyOccurrences(ts, f, targets).Ok?
    requires t in SelectPeriod(ts, f.period2)
    ensures TargetOf(targets, t.operation).Ok?
    ensures IsSlow(t, TargetOf(targets, t.operation).value) ==>
              exists e :: e in IdentifyOccurrences(ts, f, targets).value
                          && EntryKey(e) == (t.user, SlowService, t.operation)
  {
    var sel := SelectPeriod(ts, f.period2);
    EveryUserListed(sel, t);
    if IsSlow(t, TargetOf(targets, t.operation).value) {
      var e := SlowEntry(sel, t.user, t.operation, TargetOf(targets, t.operation).value).value;
      assert e in IdentifyOccurrences(ts, f, targets).value;
    }
  }

  /** Every collaborator of the base period with a gap of more than an hour is
      reported once for it. */
  lemma LongIntervalIsReported(ts: seq<Ticket>, f: Filters, targets: seq<Target>, t: Ticket)
    requires IdentifyOccurrences(ts, f, targets).Ok?
    requires t in SelectPeriod(ts, f.period2)
    requires LongIntervals(SelectPeriod(ts, f.period2), t.user) != []
    ensures exists e :: e in IdentifyOccurrences(ts, f, targets).value
                        && EntryKey(e) == (t.user, LongInterval, AllOperations)
  {
    var sel := SelectPeriod(ts, f.period2);
    EveryUserListed(sel, t);
    var e := GapEntry(sel, t.user).value;
    assert e in IdentifyOccurrences(ts, f, targets).value;
  }
}
