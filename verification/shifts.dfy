/** Work shifts (`turno`) and the shift selector of the performance tab
    (src/visualizacao/dashboards/desenvolvimento_pessoas/performance.py). */
module Shifts {
  import opened Outcome
  import opened Seqs
  import opened Tickets

  datatype Shift = A | B | C

  const AllShifts: string := "Todos"

  /** The bucket of an hour of the day. */
  function ShiftOfHour(h: int): (s: Shift)
    requires 0 <= h < 24
    ensures s == A <==> 7 <= h <= 14
    ensures s == B <==> 15 <= h <= 22
    ensures s == C <==> h <= 6 || h == 23
  {
    if 7 <= h < 15 then A else if 15 <= h < 23 then B else C
  }

  function Label(s: Shift): string {
    match s
    case A => "A"
    case B => "B"
    case C => "C"
  }

  /** A ticket's shift is read from the hour service started, not from its withdrawal. */
  function ShiftOf(t: Ticket): Shift {
    ShiftOfHour(HourOf(t.start))
  }

  /** `if turno and turno != "Todos"`: no selection, the empty string and "Todos" all keep every ticket. */
  predicate KeepsAllShifts(sel: Option<string>) {
    sel.None? || sel.value == "" || sel.value == AllShifts
  }

  /** The shift filter: with a selection, exactly the tickets whose shift label equals it. */
  function SelectShift(ts: seq<Ticket>, sel: Option<string>): (r: seq<Ticket>)
    ensures KeepsAllShifts(sel) ==> r == ts
    ensures !KeepsAllShifts(sel) ==> forall t :: t in r <==> t in ts && Label(ShiftOf(t)) == sel.value
    ensures !KeepsAllShifts(sel) ==>
              forall t :: multiset(r)[t] == if Label(ShiftOf(t)) == sel.value then multiset(ts)[t] else 0
  {
    if KeepsAllShifts(sel) then ts
    else
      var p := t => Label(ShiftOf(t)) == sel.value;
      FilterMultiset(ts, p);
      Filter(ts, p)
  }

  /** The three shifts split the day into three blocks of eight hours. */
  lemma ShiftsSplitTheDay()
    ensures |set h | 0 <= h < 24 && ShiftOfHour(h) == A| == 8
    ensures |set h | 0 <= h < 24 && ShiftOfHour(h) == B| == 8
    ensures |set h | 0 <= h < 24 && ShiftOfHour(h) == C| == 8
  {
    ShiftAHours();
    ShiftBHours();
    ShiftCHours();
    assert Hours(0, 7) * Hours(23, 24) == {};
  }

  /** The hours from `lo` up to, not including, `hi`. */
  function Hours(lo: int, hi: int): (r: set<int>)
    ensures forall h :: h in r <==> lo <= h < hi
    ensures lo <= hi ==> |r| == hi - lo
    decreases hi - lo
  {
    if lo >= hi then {} else Hours(lo, hi - 1) + {hi - 1}
  }

  lemma ShiftAHours()
    ensures (set h | 0 <= h < 24 && ShiftOfHour(h) == A) == Hours(7, 15)
  {
  }

  lemma ShiftBHours()
    ensures (set h | 0 <= h < 24 && ShiftOfHour(h) == B) == Hours(15, 23)
  {
  }

  lemma ShiftCHours()
    ensures (set h | 0 <= h < 24 && ShiftOfHour(h) == C) == Hours(0, 7) + Hours(23, 24)
  {
  }

  lemma LabelIsALetter(s: Shift)
    ensures Label(s) in {"A", "B", "C"}
  {
  }

  /** A selection that is not a shift label keeps nothing. */
  lemma UnknownShiftKeepsNothing(ts: seq<Ticket>, sel: string)
    requires sel !in {"", AllShifts, "A", "B", "C"}
    ensures SelectShift(ts, Some(sel)) == []
  {
    var r := SelectShift(ts, Some(sel));
    if r != [] {
      LabelIsALetter(ShiftOf(r[0]));
      assert false;
    }
  }
}
