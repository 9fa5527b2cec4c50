/** JavaScript numbers as the workout model sees them: a finite value, one of
    the two infinities, or NaN. Arithmetic is exact on reals: IEEE rounding and
    the sign of zero are not modelled (every zero is +0). */
module Numbers {

  datatype Num = Finite(value: real) | PosInf | NegInf | NaN

  /** `Number.isFinite(x)` */
  predicate IsFinite(x: Num) {
    x.Finite?
  }

  /** `x > 0`; false for NaN, as every comparison with NaN is */
  predicate IsPositive(x: Num) {
    match x
    case Finite(v) => v > 0.0
    case PosInf => true
    case NegInf => false
    case NaN => false
  }

  /** Sign of a nonzero finite or infinite quotient. */
  function SignedInf(positive: bool): Num {
    if positive then PosInf else NegInf
  }

  /** `x / y`: exact division of finite values, IEEE rules for zero divisors,
      infinities and NaN. */
  function Div(x: Num, y: Num): (r: Num)
    ensures IsFinite(x) && IsFinite(y) && y.value != 0.0 ==> r == Finite(x.value / y.value)
    ensures x.NaN? || y.NaN? ==> r.NaN?
  {
    match (x, y)
    case (NaN, _) => NaN
    case (_, NaN) => NaN
    case (Finite(a), Finite(b)) =>
      if b != 0.0 then Finite(a / b)
      else if a == 0.0 then NaN
      else SignedInf(a > 0.0)
    case (Finite(_), _) => Finite(0.0)
    case (PosInf, Finite(b)) => SignedInf(b >= 0.0)
    case (NegInf, Finite(b)) => SignedInf(b < 0.0)
    case (_, _) => NaN
  }

  /** `x - y` */
  function Sub(x: Num, y: Num): (r: Num)
    ensures IsFinite(x) && IsFinite(y) ==> r == Finite(x.value - y.value)
    ensures r.NaN? <==> x.NaN? || y.NaN? || (x == y && !IsFinite(x))
  {
    match (x, y)
    case (NaN, _) => NaN
    case (_, NaN) => NaN
    case (Finite(a), Finite(b)) => Finite(a - b)
    case (PosInf, PosInf) => NaN
    case (NegInf, NegInf) => NaN
    case (PosInf, _) => PosInf
    case (NegInf, _) => NegInf
    case (Finite(_), PosInf) => NegInf
    case (Finite(_), NegInf) => PosInf
  }

  /** The sign that `Array.prototype.sort` reads from a comparator's result:
      a NaN result counts as +0 (ECMA-262, SortCompare). */
  function SortSign(v: Num): (r: int)
    ensures -1 <= r <= 1
    ensures r > 0 <==> IsPositive(v)
    ensures r < 0 <==> Less(v, Finite(0.0))
  {
    match v
    case Finite(r) => if r < 0.0 then -1 else if r > 0.0 then 1 else 0
    case PosInf => 1
    case NegInf => -1
    case NaN => 0
  }

  /** The comparator `(a, b) => a - b` as `sort` reads it. Equal numbers
      compare 0 (NaN included, since NaN - NaN reads as 0), so `sort` keeps
      records with equal keys in their original order; swapping the operands
      flips the sign. */
  function Compare(x: Num, y: Num): (r: int)
    ensures -1 <= r <= 1
    ensures x == y ==> r == 0
    ensures r == -SortSign(Sub(y, x))
  {
    SortSign(Sub(x, y))
  }

  /** The extended-real order on non-NaN numbers: -Infinity < finite < +Infinity. */
  predicate Less(x: Num, y: Num) {
    match (x, y)
    case (Finite(a), Finite(b)) => a < b
    case (NegInf, Finite(_)) => true
    case (NegInf, PosInf) => true
    case (Finite(_), PosInf) => true
    case (_, _) => false
  }

  /** Without NaN the comparator `a - b` agrees with the extended-real order: it
      is negative exactly when `x < y`, zero exactly when `x == y` and positive
      exactly when `y < x`. */
  lemma CompareIsOrder(x: Num, y: Num)
    requires !x.NaN? && !y.NaN?
    ensures Compare(x, y) < 0 <==> Less(x, y)
    ensures Compare(x, y) == 0 <==> x == y
    ensures Compare(x, y) > 0 <==> Less(y, x)
  {
  }

  /** Less is a strict total order on non-NaN numbers. */
  lemma LessIsStrictTotalOrder(x: Num, y: Num, z: Num)
    requires !x.NaN? && !y.NaN? && !z.NaN?
    ensures !Less(x, x)
    ensures Less(x, y) ==> !Less(y, x)
    ensures x != y ==> Less(x, y) || Less(y, x)
    ensures Less(x, y) && Less(y, z) ==> Less(x, z)
  {
  }
}
