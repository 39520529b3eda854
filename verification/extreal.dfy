/** Floating-point results seen exactly.

    pandas computes means and percentages in IEEE-754 doubles. Rounding is not
    modelled: a finite value is an exact `real`. What is modelled is what a
    division by zero produces, because several dashboards divide by a count or
    a mean that can be zero: a positive numerator gives +inf, a negative one
    -inf, and 0/0 gives NaN. Every ordered comparison involving NaN is false.
 */
module ExtReal {

  datatype Ext = Finite(v: real) | PosInf | NegInf | NaN

  /** The IEEE quotient of two doubles whose divisor is never a negative zero. */
  function Quotient(num: real, den: real): Ext {
    if den != 0.0 then Finite(num / den)
    else if num > 0.0 then PosInf
    else if num < 0.0 then NegInf
    else NaN
  }

  /** Multiplication by a positive constant: infinities and NaN are unchanged. */
  function Scale(e: Ext, k: real): Ext
    requires k > 0.0
  {
    match e
    case Finite(v) => Finite(v * k)
    case _ => e
  }

  /** `(current - base) / base * 100`, the percentage variation every dashboard reports. */
  function PctChange(current: real, base: real): Ext {
    Scale(Quotient(current - base, base), 100.0)
  }

  /** `part / whole * 100`. */
  function Percent(part: real, whole: real): Ext {
    Scale(Quotient(part, whole), 100.0)
  }

  /** IEEE `e < c` for a finite constant `c`. */
  predicate Less(e: Ext, c: real) {
    match e
    case Finite(v) => v < c
    case NegInf => true
    case _ => false
  }

  /** IEEE `e > c` for a finite constant `c`. */
  predicate Greater(e: Ext, c: real) {
    match e
    case Finite(v) => v > c
    case PosInf => true
    case _ => false
  }

  /** IEEE `abs(e) > c` for a finite constant `c`. */
  predicate AbsGreater(e: Ext, c: real) {
    match e
    case Finite(v) => v > c || -v > c
    case NaN => false
    case _ => true
  }

  function Neg(e: Ext): Ext {
    match e
    case Finite(v) => Finite(-v)
    case PosInf => NegInf
    case NegInf => PosInf
    case NaN => NaN
  }

  function Rank(e: Ext): nat {
    match e
    case NegInf => 0
    case Finite(_) => 1
    case PosInf => 2
    case NaN => 3
  }

  /** The order pandas sorts a float column in: ascending, with NaN last. */
  predicate Le(a: Ext, b: Ext) {
    if a.Finite? && b.Finite? then a.v <= b.v else Rank(a) <= Rank(b)
  }

  /** `a` may precede `b` in a descending sort: larger first, NaN still last. */
  predicate DescLe(a: Ext, b: Ext) {
    Le(Neg(a), Neg(b))
  }

  lemma LeTotal(a: Ext, b: Ext)
    ensures Le(a, b) || Le(b, a)
  {
  }

  lemma LeTransitive(a: Ext, b: Ext, c: Ext)
    requires Le(a, b) && Le(b, c)
    ensures Le(a, c)
  {
  }

  /** Between numbers, the descending order is the reverse of the ascending one. */
  lemma DescLeReverses(a: Ext, b: Ext)
    requires !a.NaN? && !b.NaN?
    ensures DescLe(a, b) <==> Le(b, a)
  {
  }

  /** Against a positive base the variation is finite and has the sign of the change. */
  lemma PctChangeSign(current: real, base: real)
    requires base > 0.0
    ensures PctChange(current, base) == Finite((current - base) / base * 100.0)
    ensures Less(PctChange(current, base), 0.0) <==> current < base
    ensures Greater(PctChange(current, base), 0.0) <==> current > base
  {
    QuotientSign(current - base, base);
  }

  /** Against a zero base any increase is +inf and no change is NaN. */
  lemma PctChangeZeroBase(current: real)
    ensures current > 0.0 ==> PctChange(current, 0.0) == PosInf
    ensures current == 0.0 ==> PctChange(current, 0.0) == NaN
  {
  }

  lemma QuotientSign(d: real, b: real)
    requires b > 0.0
    ensures d / b < 0.0 <==> d < 0.0
    ensures d / b > 0.0 <==> d > 0.0
  {
    var q := d / b;
    assert q * b == d;
  }
}
