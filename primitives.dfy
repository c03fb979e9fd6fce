/** The numeric primitives the distribution engine calls but does not define.

    `Math.exp`, `Math.log`, `Math.log2`, `Math.log10`, `Math.sqrt`, `Math.sin`, `Math.pow` with a
    non-integer exponent and the mathjs `math.gamma` are not computed by the model:
    they are the fields of a `MathLib` value that every formula takes as a parameter. The
    wrappers below give each one its JavaScript behaviour outside its mathematical domain
    (the logarithm of 0 is -Infinity, the square root of a negative number is NaN, ...).
    `Sane` collects the facts about the true functions that the proofs rely on; no proof
    depends on how well a formula approximates anything.

    Integer powers, factorials and binomial coefficients are computed exactly. */
module Primitives {
  import opened Numbers

  /** `Math.PI`, the double nearest to pi. */
  const Pi: real := 3.141592653589793

  datatype MathLib = MathLib(
    exp: real -> real,
    ln: real -> real,
    log2: real -> real,
    log10: real -> real,
    sqrt: real -> real,
    sin: real -> real,
    pow: (real, real) -> real,
    gamma: real -> Num)

  /** True facts about the ideal functions, as used by the proofs (the sine symmetry is
      stated about `Math.PI`, which stands for pi). */
  ghost predicate Sane(m: MathLib)
  {
    && (forall y :: m.exp(y) > 0.0)
    && m.exp(0.0) == 1.0
    && (forall y, z :: y <= z ==> m.exp(y) <= m.exp(z))
    && (forall y :: 0.0 < y <= 1.0 ==> m.ln(y) <= 0.0)
    && (forall y :: y > 0.0 ==> m.sqrt(y) > 0.0)
    && (forall x, y :: x > 0.0 ==> m.pow(x, y) > 0.0)
    && (forall y :: m.sin(Pi - y) == m.sin(y))
    && (forall y :: y > 0.0 ==> m.gamma(y).Fin? && m.gamma(y).v > 0.0)
  }

  /** `exp` undoes `ln` on the positive reals: `exp(-ln y)` is `1 / y`. */
  ghost predicate ExpInvertsLn(m: MathLib)
  {
    forall y :: y > 0.0 ==> m.exp(-m.ln(y)) * y == 1.0
  }

  /** `x` raised to a natural power, exactly. */
  function Pow(x: real, n: nat): (r: real)
    ensures x > 0.0 ==> r > 0.0
    ensures x >= 0.0 ==> r >= 0.0
    ensures x != 0.0 ==> r != 0.0
  {
    if n == 0 then 1.0 else x * Pow(x, n - 1)
  }

  /** `n!`, standing in for mathjs `math.factorial` on natural numbers. */
  function Factorial(n: nat): (r: nat)
    ensures r >= 1
  {
    if n == 0 then 1 else n * Factorial(n - 1)
  }

  /** The binomial coefficient, standing in for mathjs `math.combinations` (Pascal's rule). */
  function Choose(n: nat, k: nat): (r: nat)
    ensures k > n ==> r == 0
    ensures k <= n ==> r >= 1
  {
    if k == 0 then 1 else if n == 0 then 0 else Choose(n - 1, k - 1) + Choose(n - 1, k)
  }

  /** `Math.exp`. */
  function ExpOf(m: MathLib, a: Num): (r: Num)
    ensures Sane(m) && (a.Fin? || a == NegInf) ==> r.Fin? && r.v >= 0.0
  {
    match a
    case Fin(x) => Fin(m.exp(x))
    case PosInf => PosInf
    case NegInf => Fin(0.0)
    case NaN => NaN
  }

  /** `Math.log`: -Infinity at 0 and NaN below. */
  function LnOf(m: MathLib, x: real): (r: Num)
    ensures r.Fin? <==> x > 0.0
  {
    if x > 0.0 then Fin(m.ln(x)) else if x == 0.0 then NegInf else NaN
  }

  /** `Math.log2`. */
  function Log2Of(m: MathLib, x: real): (r: Num)
    ensures r.Fin? <==> x > 0.0
  {
    if x > 0.0 then Fin(m.log2(x)) else if x == 0.0 then NegInf else NaN
  }

  /** `Math.log10`. */
  function Log10Of(m: MathLib, x: real): (r: Num)
    ensures r.Fin? <==> x > 0.0
  {
    if x > 0.0 then Fin(m.log10(x)) else if x == 0.0 then NegInf else NaN
  }

  /** `Math.sqrt`: NaN below 0. */
  function SqrtOf(m: MathLib, x: real): (r: Num)
    ensures r.Fin? <==> x >= 0.0
    ensures Sane(m) && x > 0.0 ==> r.Fin? && r.v > 0.0
  {
    if x >= 0.0 then Fin(m.sqrt(x)) else NaN
  }

  /** `Math.pow(x, y)` on finite arguments: exact for an integer exponent, the abstract
      power of a positive base otherwise, 0 or +Infinity for a zero base and NaN for a
      negative base with a fractional exponent. */
  function PowOf(m: MathLib, x: real, y: real): (r: Num)
    ensures IsInteger(y) && y >= 0.0 ==> r == Fin(Pow(x, y.Floor as nat))
    ensures Sane(m) && x > 0.0 ==> r.Fin? && r.v > 0.0
    ensures x == 0.0 && y < 0.0 ==> r == PosInf
  {
    if IsInteger(y) && y >= 0.0 then Fin(Pow(x, y.Floor as nat))
    else if IsInteger(y) then (if x == 0.0 then PosInf else Fin(1.0 / Pow(x, (-y).Floor as nat)))
    else if x > 0.0 then Fin(m.pow(x, y))
    else if x == 0.0 then (if y > 0.0 then Fin(0.0) else PosInf)
    else NaN
  }

  /** `Math.pow(0, y)`: 1 for y = 0, 0 for y > 0 and +Infinity for y < 0. */
  lemma {:induction false} PowOfZeroBase(m: MathLib, y: real)
    ensures y == 0.0 ==> PowOf(m, 0.0, y) == Fin(1.0)
    ensures y > 0.0 ==> PowOf(m, 0.0, y) == Fin(0.0)
    ensures y < 0.0 ==> PowOf(m, 0.0, y) == PosInf
  {
    if IsInteger(y) && y > 0.0 {
      var n: nat := y.Floor;
      assert n >= 1;
      assert Pow(0.0, n) == 0.0 * Pow(0.0, n - 1);
    }
  }

  /** An odd integer, for the sign of a power of -Infinity. */
  predicate IsOddInteger(y: real)
  {
    IsInteger(y) && y.Floor % 2 == 1
  }

  /** `Math.pow(a, y)` with a base that may be NaN or infinite and a finite exponent. */
  function PowNumOf(m: MathLib, a: Num, y: real): (r: Num)
    ensures a.Fin? ==> r == PowOf(m, a.v, y)
    ensures y == 0.0 ==> r == Fin(1.0)
    ensures a == PosInf && y < 0.0 ==> r == Fin(0.0)
  {
    match a
    case Fin(x) => PowOf(m, x, y)
    case NaN => if y == 0.0 then Fin(1.0) else NaN
    case PosInf => if y > 0.0 then PosInf else if y < 0.0 then Fin(0.0) else Fin(1.0)
    case NegInf =>
      if y > 0.0 then (if IsOddInteger(y) then NegInf else PosInf)
      else if y < 0.0 then Fin(0.0)
      else Fin(1.0)
  }

  /** The mathjs `math.gamma`, total on finite arguments. */
  function GammaLibOf(m: MathLib, x: real): (r: Num)
    ensures Sane(m) && x > 0.0 ==> r.Fin? && r.v > 0.0
  {
    m.gamma(x)
  }
}
