/** The standard normal toolkit of the hypothesis-test page (the `Normal` class): the
    density, a polynomial approximation of the cdf, a piecewise rational approximation of
    its inverse, and the critical values and p-values of the three test directions.

    The constants are those of the source. The approximations are not related to the
    true normal distribution here; what is proved are the facts that follow from how the
    formulas are built: the ends, the value at 1/2, and the symmetries. */
module NormalKit {
  import opened Numbers
  import opened Primitives

  // ---------------------------------------------------------------- density

  /** `Math.pow(a, 2)` is the same for a and -a. */
  lemma {:induction false} SquareOfNegation(m: MathLib, a: Num)
    ensures PowNumOf(m, Neg(a), 2.0) == PowNumOf(m, a, 2.0)
  {
    assert IsInteger(2.0) && (2.0).Floor == 2;
    if a.Fin? {
      assert Pow(-a.v, 2) == Pow(a.v, 2) by {
        assert Pow(-a.v, 1) == -a.v * Pow(-a.v, 0);
        assert Pow(a.v, 1) == a.v * Pow(a.v, 0);
        SquareOfNegated(a.v);
      }
    } else if a == NegInf || a == PosInf {
      assert !IsOddInteger(2.0);
    }
  }

  /** `Normal.pdf(x, mean, stdDev)`: `exp(-((x - mean) / stdDev)^2 / 2) / (stdDev sqrt(2 pi))`. */
  function Pdf(m: MathLib, x: real, mean: real, stdDev: real): Num
  {
    var exponent := Mul(Fin(-0.5), PowNumOf(m, Quot(x - mean, stdDev), 2.0));
    Mul(Div(Fin(1.0), Mul(Fin(stdDev), SqrtOf(m, 2.0 * Pi))), ExpOf(m, exponent))
  }

  /** The density is symmetric about its mean, for every standard deviation. */
  lemma {:induction false} PdfSymmetric(m: MathLib, mean: real, stdDev: real, d: real)
    ensures Pdf(m, mean + d, mean, stdDev) == Pdf(m, mean - d, mean, stdDev)
  {
    assert (mean + d) - mean == d;
    assert (mean - d) - mean == -d;
    NegationFacts(d, stdDev, NaN);
    SquareOfNegation(m, Quot(d, stdDev));
  }

  /** With a positive standard deviation the density is finite and positive. */
  lemma {:induction false} PdfPositive(m: MathLib, x: real, mean: real, stdDev: real)
    requires Sane(m) && stdDev > 0.0
    ensures Pdf(m, x, mean, stdDev).Fin? && Pdf(m, x, mean, stdDev).v > 0.0
  {
    var q := (x - mean) / stdDev;
    assert IsInteger(2.0) && (2.0).Floor == 2;
    assert PowNumOf(m, Quot(x - mean, stdDev), 2.0) == Fin(Pow(q, 2));
    var s := m.sqrt(2.0 * Pi);
    assert s > 0.0;
    assert stdDev * s > 0.0;
    assert 1.0 / (stdDev * s) > 0.0;
    assert m.exp(-0.5 * Pow(q, 2)) > 0.0;
  }

  /** With standard deviation 0 the density is NaN everywhere: `0/0` at the mean, and
      `Infinity * 0` elsewhere. */
  lemma {:induction false} PdfDegenerate(m: MathLib, x: real, mean: real)
    ensures Pdf(m, x, mean, 0.0) == NaN
  {
    assert IsInteger(2.0) && !IsOddInteger(2.0);
  }

  // ---------------------------------------------------------------- cdf

  /** The polynomial `0.3193815 + t (-0.3565638 + t (1.781478 + t (-1.821256 + t 1.330274)))`. */
  function CdfPolynomial(t: real): real
  {
    0.3193815 + t * (-0.3565638 + t * (1.781478 + t * (-1.821256 + t * 1.330274)))
  }

  /** `t = 1 / (1 + 0.2316419 |x|)`. */
  function CdfT(x: real): (t: real)
    ensures 0.0 < t <= 1.0
  {
    var ax := if x < 0.0 then -x else x;
    1.0 / (1.0 + 0.2316419 * ax)
  }

  /** `d t P(t)` with `d = 0.3989423 exp(-x x / 2)`: the approximate mass of the tail
      beyond |x|. */
  function TailMass(m: MathLib, x: real): real
  {
    var t := CdfT(x);
    var d := 0.3989423 * m.exp(-x * x / 2.0);
    d * t * CdfPolynomial(t)
  }

  /** `Normal.cdf(x)`: the tail mass for x <= 0 and one minus it for x > 0. */
  function Cdf(m: MathLib, x: real): real
  {
    if x > 0.0 then 1.0 - TailMass(m, x) else TailMass(m, x)
  }

  /** The tail mass depends on x only through |x| and x^2. */
  lemma {:induction false} TailMassEven(m: MathLib, x: real)
    ensures TailMass(m, -x) == TailMass(m, x)
  {
    assert CdfT(-x) == CdfT(x);
    assert -(-x) * (-x) == -x * x;
  }

  /** `cdf(-x) = 1 - cdf(x)` at every x other than 0. */
  lemma {:induction false} CdfSymmetric(m: MathLib, x: real)
    requires x != 0.0
    ensures Cdf(m, -x) == 1.0 - Cdf(m, x)
  {
    TailMassEven(m, x);
  }

  /** At 0 the approximation gives `0.3989423 * 1.2533137`, just below 1/2, so the
      symmetry does not extend to 0. */
  lemma {:induction false} CdfAtZero(m: MathLib)
    requires Sane(m)
    ensures Cdf(m, 0.0) == 0.49999985009951
    ensures Cdf(m, 0.0) != 1.0 - Cdf(m, 0.0)
  {
    assert -0.0 * 0.0 / 2.0 == 0.0;
    assert CdfT(0.0) == 1.0;
    assert CdfPolynomial(1.0) == 1.2533137;
  }

  // ---------------------------------------------------------------- inverse cdf

  /** Below this p the lower-tail formula applies. */
  const LowBreak: real := 0.02425
  /** From this p on the upper-tail formula applies. */
  const HighBreak: real := 0.97575

  /** A polynomial in Horner form, coefficients from the highest power down:
      `((cs[0] x + cs[1]) x + cs[2]) x + ...`, the way the source writes each of its
      polynomials. */
  function Horner(cs: seq<real>, x: real): real
    decreases |cs|
  {
    if |cs| == 0 then 0.0 else Horner(cs[..|cs| - 1], x) * x + cs[|cs| - 1]
  }

  /** `c1..c6`: the numerator of the tail formulas, in `q = sqrt(-2 ln p)`. */
  const TailNumerator: seq<real> := [-0.007784894002430293, -0.3223964580411365,
    -2.400758277161838, -2.549732539343734, 4.374664141464968, 2.938163982698783]

  /** `d1..d4` and 1: the denominator of the tail formulas. */
  const TailDenominator: seq<real> := [0.007784695709041462, 0.3224671290700398,
    2.445134137142996, 3.754408661907416, 1.0]

  /** `a1..a6`: the numerator of the central formula before the factor q, in `r = q^2`. */
  const CentralNumerator: seq<real> := [-39.69683028665376, 220.9460984245205,
    -275.9285104469687, 138.3577518672690, -30.66479806614716, 2.506628277459239]

  /** `b1..b5` and 1: the denominator of the central formula. */
  const CentralDenominator: seq<real> := [-54.47609879822406, 161.5858368580409,
    -155.6989798598866, 66.80131188771972, -13.28068155288572, 1.0]

  /** `q = sqrt(-2 ln s)` for the tail formulas, on `s` in (0, 1). */
  function TailQ(m: MathLib, s: real): Num
    requires s > 0.0
  {
    SqrtOf(m, -2.0 * m.ln(s))
  }

  /** The lower-tail formula `N(q) / D(q)`. */
  function LowTail(m: MathLib, p: real): Num
    requires p > 0.0
  {
    match TailQ(m, p)
    case Fin(q) => Quot(Horner(TailNumerator, q), Horner(TailDenominator, q))
    case _ => NaN
  }

  /** The upper-tail formula `-N(q) / D(q)` with q taken from `1 - p`. */
  function HighTail(m: MathLib, p: real): Num
    requires p < 1.0
  {
    match TailQ(m, 1.0 - p)
    case Fin(q) => Quot(-Horner(TailNumerator, q), Horner(TailDenominator, q))
    case _ => NaN
  }

  /** The central formula `A(r) q / B(r)` with `q = p - 1/2` and `r = q^2`. */
  function Central(p: real): Num
  {
    OddRational(CentralNumerator, CentralDenominator, p - 0.5)
  }

  /** `Normal.invCdf(p)`: -Infinity from 0 down, +Infinity from 1 up, and in (0, 1) the
      lower-tail, central or upper-tail formula, according to the region of p. */
  function InvCdf(m: MathLib, p: real): (r: Num)
    ensures p <= 0.0 ==> r == NegInf
    ensures p >= 1.0 ==> r == PosInf
  {
    if p <= 0.0 then NegInf
    else if p >= 1.0 then PosInf
    else if p < LowBreak then LowTail(m, p)
    else if p < HighBreak then Central(p)
    else HighTail(m, p)
  }

  /** The central formula is 0 at 1/2, because its numerator carries the factor `p - 1/2`. */
  lemma {:induction false} InvCdfAtHalf(m: MathLib)
    ensures InvCdf(m, 0.5) == Fin(0.0)
  {
    var cs := CentralDenominator;
    assert Horner(cs, 0.0) == Horner(cs[..|cs| - 1], 0.0) * 0.0 + 1.0;
  }

  /** The central formula is odd in `p - 1/2`. */
  lemma {:induction false} CentralOdd(p: real)
    ensures Central(1.0 - p) == Neg(Central(p))
  {
    var q := p - 0.5;
    assert (1.0 - p) - 0.5 == -q;
    OddRationalOdd(CentralNumerator, CentralDenominator, q);
  }

  /** `A(q^2) q / B(q^2)` for polynomials A and B: the shape of the central formula. */
  function OddRational(num: seq<real>, den: seq<real>, q: real): Num
  {
    Quot(Horner(num, Squared(q)) * q, Horner(den, Squared(q)))
  }

  /** `q * q`, the variable r of the central formula. */
  function Squared(q: real): real
  {
    q * q
  }

  lemma {:induction false} OddRationalOdd(num: seq<real>, den: seq<real>, q: real)
    ensures OddRational(num, den, -q) == Neg(OddRational(num, den, q))
  {
    SquaredEven(q);
    OddQuotient(Horner(num, Squared(q)), Horner(den, Squared(q)), q);
  }

  lemma {:induction false} SquaredEven(q: real)
    ensures Squared(-q) == Squared(q)
  {
    SquareOfNegated(q);
  }

  /** Negating the odd factor negates the quotient. */
  lemma {:induction false} OddQuotient(a: real, b: real, q: real)
    ensures Quot(a * -q, b) == Neg(Quot(a * q, b))
  {
    ProductWithNegated(a, q);
    NegationFacts(a * q, b, NaN);
  }

  lemma {:induction false} SquareOfNegated(q: real)
    ensures -q * -q == q * q
  {
  }

  lemma {:induction false} ProductWithNegated(n: real, q: real)
    ensures n * -q == -(n * q)
  {
  }

  /** The upper-tail formula at p is the negated lower-tail formula at `1 - p`. */
  lemma {:induction false} HighTailMirrorsLow(m: MathLib, p: real)
    requires 0.0 < p < 1.0
    ensures HighTail(m, p) == Neg(LowTail(m, 1.0 - p))
  {
    match TailQ(m, 1.0 - p)
    case Fin(q) =>
      NegationFacts(Horner(TailNumerator, q), Horner(TailDenominator, q), NaN);
    case _ =>
  }

  /** `invCdf(1 - p) = -invCdf(p)` for every p other than the two region boundaries,
      where p and `1 - p` fall into regions whose formulas do not mirror each other. */
  lemma {:induction false} InvCdfOdd(m: MathLib, p: real)
    requires p != LowBreak && p != HighBreak
    ensures InvCdf(m, 1.0 - p) == Neg(InvCdf(m, p))
  {
    if 0.0 < p < LowBreak {
      OddFromLowTail(m, p);
    } else if LowBreak < p < HighBreak {
      CentralOdd(p);
    } else if HighBreak < p < 1.0 {
      OddFromHighTail(m, p);
    }
  }

  lemma {:induction false} OddFromLowTail(m: MathLib, p: real)
    requires 0.0 < p < LowBreak
    ensures InvCdf(m, 1.0 - p) == Neg(InvCdf(m, p))
  {
    var s := 1.0 - p;
    assert HighBreak < s < 1.0 && 1.0 - s == p;
    assert InvCdf(m, s) == HighTail(m, s);
    HighTailMirrorsLow(m, s);
  }

  lemma {:induction false} OddFromHighTail(m: MathLib, p: real)
    requires HighBreak < p < 1.0
    ensures InvCdf(m, 1.0 - p) == Neg(InvCdf(m, p))
  {
    var s := 1.0 - p;
    assert 0.0 < s < LowBreak;
    assert InvCdf(m, s) == LowTail(m, s);
    assert InvCdf(m, p) == HighTail(m, p);
    HighTailMirrorsLow(m, p);
    NegationFacts(0.0, 1.0, LowTail(m, s));
  }

  // ---------------------------------------------------------------- critical values

  /** A critical value of a one-sided test, or the pair of a two-sided one. */
  datatype Critical = Single(z: Num) | Pair(lower: Num, upper: Num)

  /** `Normal.getCriticalValue(alpha, testType)`: `invCdf(alpha)` for 'left',
      `invCdf(1 - alpha)` for 'right', the pair at `alpha / 2` and `1 - alpha / 2` for
      'two', and an error for any other test type. */
  function GetCriticalValue(m: MathLib, alpha: real, testType: string): (r: Result<Critical>)
    ensures r.Ok? <==> testType == "left" || testType == "right" || testType == "two"
    ensures r.Ok? ==> (r.value.Pair? <==> testType == "two")
  {
    if testType == "left" then Ok(Single(InvCdf(m, alpha)))
    else if testType == "right" then Ok(Single(InvCdf(m, 1.0 - alpha)))
    else if testType == "two" then Ok(Pair(InvCdf(m, alpha / 2.0), InvCdf(m, 1.0 - alpha / 2.0)))
    else Err("invalid test type")
  }

  /** The right-tailed critical value is the negated left-tailed one, and the two-sided
      pair is symmetric about 0, unless the probability involved sits on a region
      boundary. */
  lemma {:induction false} CriticalValuesSymmetric(m: MathLib, alpha: real)
    ensures alpha != LowBreak && alpha != HighBreak ==>
      GetCriticalValue(m, alpha, "right").value.z == Neg(GetCriticalValue(m, alpha, "left").value.z)
    ensures alpha / 2.0 != LowBreak && alpha / 2.0 != HighBreak ==>
      GetCriticalValue(m, alpha, "two").value.upper == Neg(GetCriticalValue(m, alpha, "two").value.lower)
  {
    if alpha != LowBreak && alpha != HighBreak {
      InvCdfOdd(m, alpha);
    }
    if alpha / 2.0 != LowBreak && alpha / 2.0 != HighBreak {
      InvCdfOdd(m, alpha / 2.0);
    }
  }

  // ---------------------------------------------------------------- p-values

  function MinReal(a: real, b: real): (r: real)
    ensures r <= a && r <= b && (r == a || r == b)
  {
    if a <= b then a else b
  }

  /** `Normal.getPValue(z, testType)`: `cdf(z)` for 'left', `1 - cdf(z)` for 'right',
      `2 min(cdf(z), 1 - cdf(z))` for 'two', and an error for any other test type. */
  function GetPValue(m: MathLib, z: real, testType: string): (r: Result<real>)
    ensures r.Ok? <==> testType == "left" || testType == "right" || testType == "two"
  {
    if testType == "left" then Ok(Cdf(m, z))
    else if testType == "right" then Ok(1.0 - Cdf(m, z))
    else if testType == "two" then Ok(2.0 * MinReal(Cdf(m, z), 1.0 - Cdf(m, z)))
    else Err("invalid test type")
  }

  /** The one-sided p-values add up to 1, the two-sided one is twice the smaller of them,
      and it lies in [0, 1] whenever the cdf does. */
  lemma {:induction false} PValueAlgebra(m: MathLib, z: real)
    ensures GetPValue(m, z, "left").value + GetPValue(m, z, "right").value == 1.0
    ensures GetPValue(m, z, "two").value
         == 2.0 * MinReal(GetPValue(m, z, "left").value, GetPValue(m, z, "right").value)
    ensures 0.0 <= Cdf(m, z) <= 1.0 ==> 0.0 <= GetPValue(m, z, "two").value <= 1.0
  {
  }

  /** The two-sided p-value is the same at z and -z, and the left-tailed p-value at -z
      is the right-tailed one at z (z other than 0). */
  lemma {:induction false} PValueSymmetric(m: MathLib, z: real)
    ensures GetPValue(m, -z, "two").value == GetPValue(m, z, "two").value
    ensures z != 0.0 ==> GetPValue(m, -z, "left").value == GetPValue(m, z, "right").value
  {
    if z != 0.0 {
      CdfSymmetric(m, z);
    }
  }
}
