/** JavaScript numbers as the distribution engine sees them.

    A JS number is modelled as an exact real (`Fin`), one of the two infinities, or NaN.
    The arithmetic below follows IEEE 754 for the non-finite cases, with two
    simplifications: there is no rounding (finite results are exact), and there is no
    signed zero (every zero behaves as +0, so `x / 0` takes the sign of `x`). */
module Numbers {

  datatype Num = Fin(v: real) | PosInf | NegInf | NaN

  datatype Option<+T> = None | Some(value: T)

  /** A value, or the exception the source code throws instead. */
  datatype Result<+T> = Ok(value: T) | Err(error: string)

  /** `Number.isInteger` on a finite number. */
  predicate IsInteger(x: real) {
    x == x.Floor as real
  }

  /** `Math.ceil` on a finite number. */
  function Ceil(x: real): (c: int)
    ensures c as real - 1.0 < x <= c as real
  {
    -((-x).Floor)
  }

  /** `Math.round` on a finite number (halves round towards +Infinity). */
  function Round(x: real): (r: int)
    ensures x - 0.5 < r as real <= x + 0.5
  {
    (x + 0.5).Floor
  }

  function MaxInt(a: int, b: int): (r: int)
    ensures r >= a && r >= b && (r == a || r == b)
  {
    if a >= b then a else b
  }

  function MinInt(a: int, b: int): (r: int)
    ensures r <= a && r <= b && (r == a || r == b)
  {
    if a <= b then a else b
  }

  /** Sign of a non-NaN number: -1, 0 or 1. */
  function Sign(a: Num): int
  {
    match a
    case Fin(x) => if x > 0.0 then 1 else if x < 0.0 then -1 else 0
    case PosInf => 1
    case NegInf => -1
    case NaN => 0
  }

  /** The infinity of the given sign; NaN for sign 0 (as in `0 * Infinity`). */
  function InfinityOfSign(s: int): Num
  {
    if s > 0 then PosInf else if s < 0 then NegInf else NaN
  }

  function Neg(a: Num): Num
  {
    match a
    case Fin(x) => Fin(-x)
    case PosInf => NegInf
    case NegInf => PosInf
    case NaN => NaN
  }

  function Add(a: Num, b: Num): Num
  {
    match (a, b)
    case (NaN, _) => NaN
    case (_, NaN) => NaN
    case (PosInf, NegInf) => NaN
    case (NegInf, PosInf) => NaN
    case (PosInf, _) => PosInf
    case (_, PosInf) => PosInf
    case (NegInf, _) => NegInf
    case (_, NegInf) => NegInf
    case (Fin(x), Fin(y)) => Fin(x + y)
  }

  function Sub(a: Num, b: Num): Num
  {
    Add(a, Neg(b))
  }

  function Mul(a: Num, b: Num): Num
  {
    match (a, b)
    case (NaN, _) => NaN
    case (_, NaN) => NaN
    case (Fin(x), Fin(y)) => Fin(x * y)
    case _ => InfinityOfSign(Sign(a) * Sign(b))
  }

  function Div(a: Num, b: Num): Num
  {
    match (a, b)
    case (NaN, _) => NaN
    case (_, NaN) => NaN
    case (Fin(x), Fin(y)) =>
      if y != 0.0 then Fin(x / y) else InfinityOfSign(Sign(a))
    case (Fin(_), _) => Fin(0.0)
    case (_, Fin(y)) =>
      // an infinity divided by a finite number; a zero divisor is +0
      if y == 0.0 then a else InfinityOfSign(Sign(a) * Sign(b))
    case _ => NaN
  }

  /** `x / y` on two finite numbers. */
  function Quot(x: real, y: real): (r: Num)
    ensures y != 0.0 ==> r == Fin(x / y)
    ensures y == 0.0 ==> (r == PosInf <==> x > 0.0) && (r == NegInf <==> x < 0.0) && (r == NaN <==> x == 0.0)
  {
    Div(Fin(x), Fin(y))
  }

  function Abs(a: Num): Num
  {
    match a
    case Fin(x) => Fin(if x < 0.0 then -x else x)
    case NegInf => PosInf
    case _ => a
  }

  /** `Math.floor`. */
  function FloorOf(a: Num): Num
  {
    match a
    case Fin(x) => Fin(x.Floor as real)
    case _ => a
  }

  /** `Math.ceil`. */
  function CeilOf(a: Num): Num
  {
    match a
    case Fin(x) => Fin(Ceil(x) as real)
    case _ => a
  }

  /** JavaScript `a < b`: false whenever NaN is involved. */
  predicate Less(a: Num, b: Num)
  {
    match (a, b)
    case (Fin(x), Fin(y)) => x < y
    case (NegInf, Fin(_)) => true
    case (NegInf, PosInf) => true
    case (Fin(_), PosInf) => true
    case _ => false
  }

  /** JavaScript `a <= b`: false whenever NaN is involved. */
  predicate LessEq(a: Num, b: Num)
  {
    a != NaN && b != NaN && !Less(b, a)
  }

  /** Dividing a negated numerator negates the quotient, and negation is an involution:
      the two facts the symmetry proofs of the normal quantile rest on. */
  lemma {:induction false} NegationFacts(x: real, y: real, a: Num)
    ensures Quot(-x, y) == Neg(Quot(x, y))
    ensures Neg(Neg(a)) == a
  {
  }
}
