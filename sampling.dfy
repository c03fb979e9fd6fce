/** The sampling distributions of the engine: Student's t, F and chi-square.

    Their pdfs are closed formulas over `math.gamma`, `Math.pow` and `Math.exp`; their cdfs
    run the trapezoidal rule with 1000 panels, the t cdf from -10 up to x and the F and
    chi-square cdfs from 0 up to x. A power `x^(d/2 - 1)` with `d < 2` is infinite at
    `x = 0`, which is a node of the F and chi-square rules. */
module SamplingDistributions {
  import opened Numbers
  import opened Primitives
  import opened Integration
  import opened GammaDistribution

  // ---------------------------------------------------------------- t

  /** `Gamma((nu+1)/2) / (sqrt(nu pi) Gamma(nu/2)) * (1 + x^2/nu)^(-(nu+1)/2)`. */
  function TPdf(m: MathLib, x: real, nu: real): Num
  {
    var coefficient := Div(GammaLibOf(m, (nu + 1.0) / 2.0), Mul(SqrtOf(m, nu * Pi), GammaLibOf(m, nu / 2.0)));
    Mul(coefficient, PowNumOf(m, Add(Fin(1.0), Quot(x * x, nu)), -(nu + 1.0) / 2.0))
  }

  /** The t pdf as a function of x, for the integration. */
  function TDensity(m: MathLib, nu: real): real -> Num
  {
    x => TPdf(m, x, nu)
  }

  /** The fixed left end of the t rule. */
  const TLowerLimit: real := -10.0

  /** The trapezoidal rule over `[-10, x]` with 1000 panels (of negative width when
      x < -10). */
  function TCdf(m: MathLib, x: real, nu: real): Num
  {
    TrapezoidSum(TDensity(m, nu), TLowerLimit, (x - TLowerLimit) / CdfSteps as real, CdfSteps)
  }

  /** The t cdf as the source computes it, with the accumulation loop. */
  method ComputeTCdf(m: MathLib, x: real, nu: real) returns (sum: Num)
    ensures sum == TCdf(m, x, nu)
  {
    var steps := 1000;
    var a, b := -10.0, x;
    var h := (b - a) / steps as real;
    sum := Trapezoid(TDensity(m, nu), a, h, steps);
  }

  /** `0` for more than one degree of freedom, NaN otherwise. */
  function TMean(nu: real): Num
  {
    if nu > 1.0 then Fin(0.0) else NaN
  }

  /** `nu / (nu - 2)` beyond 2, Infinity on (1, 2], NaN otherwise. */
  function TVariance(nu: real): Num
  {
    if nu > 2.0 then Fin(nu / (nu - 2.0)) else if nu > 1.0 && nu <= 2.0 then PosInf else NaN
  }

  function TMedian(nu: real): real
  {
    0.0
  }

  /** The plotting range `[-5, 5]`. */
  function TSupport(nu: real): (real, real)
  {
    (-5.0, 5.0)
  }

  // ---------------------------------------------------------------- F

  /** 0 below 0; otherwise
      `Gamma((d1+d2)/2) / (Gamma(d1/2) Gamma(d2/2)) (d1/d2)^(d1/2) x^(d1/2 - 1) / (1 + (d1/d2) x)^((d1+d2)/2)`. */
  function FPdf(m: MathLib, x: real, d1: real, d2: real): (r: Num)
    ensures x < 0.0 ==> r == Fin(0.0)
  {
    if x < 0.0 then Fin(0.0) else FFormula(m, x, d1, d2)
  }

  /** The constant factor `Gamma((d1+d2)/2) / (Gamma(d1/2) Gamma(d2/2)) * (d1/d2)^(d1/2)`. */
  function FCoefficient(m: MathLib, d1: real, d2: real): (r: Num)
    ensures Sane(m) && d1 > 0.0 && d2 > 0.0 ==> r.Fin? && r.v > 0.0
  {
    var gammas := Div(GammaLibOf(m, (d1 + d2) / 2.0), Mul(GammaLibOf(m, d1 / 2.0), GammaLibOf(m, d2 / 2.0)));
    Mul(gammas, PowNumOf(m, Quot(d1, d2), d1 / 2.0))
  }

  /** The divisor `(1 + (d1/d2) x)^((d1+d2)/2)`. */
  function FScale(m: MathLib, x: real, d1: real, d2: real): (r: Num)
    ensures Sane(m) && d1 > 0.0 && d2 > 0.0 && x >= 0.0 ==> r.Fin? && r.v > 0.0
  {
    ScaleBasePositive(x, d1, d2);
    PowNumOf(m, Add(Fin(1.0), Mul(Quot(d1, d2), Fin(x))), (d1 + d2) / 2.0)
  }

  /** The base `1 + (d1/d2) x` of the divisor is at least 1 from 0 on. */
  lemma {:induction false} ScaleBasePositive(x: real, d1: real, d2: real)
    ensures d1 > 0.0 && d2 > 0.0 && x >= 0.0 ==>
      Add(Fin(1.0), Mul(Quot(d1, d2), Fin(x))).Fin? && Add(Fin(1.0), Mul(Quot(d1, d2), Fin(x))).v >= 1.0
  {
    if d1 > 0.0 && d2 > 0.0 && x >= 0.0 {
      assert d1 / d2 > 0.0;
      assert d1 / d2 * x >= 0.0;
    }
  }

  /** The F formula, evaluated left to right as the source writes it. */
  function FFormula(m: MathLib, x: real, d1: real, d2: real): Num
  {
    Div(Mul(FCoefficient(m, d1, d2), PowOf(m, x, d1 / 2.0 - 1.0)), FScale(m, x, d1, d2))
  }

  /** The F pdf as a function of x, for the integration. */
  function FDensity(m: MathLib, d1: real, d2: real): real -> Num
  {
    x => FPdf(m, x, d1, d2)
  }

  /** The trapezoidal rule over `[0, x]` with 1000 panels, for every x (no guard below 0). */
  function FCdf(m: MathLib, x: real, d1: real, d2: real): Num
  {
    TrapezoidSum(FDensity(m, d1, d2), 0.0, x / CdfSteps as real, CdfSteps)
  }

  /** The F cdf as the source computes it, with the accumulation loop. */
  method ComputeFCdf(m: MathLib, x: real, d1: real, d2: real) returns (sum: Num)
    ensures sum == FCdf(m, x, d1, d2)
  {
    var steps := 1000;
    var a, b := 0.0, x;
    var h := (b - a) / steps as real;
    assert h == x / CdfSteps as real;
    sum := Trapezoid(FDensity(m, d1, d2), a, h, steps);
  }

  /** The pdf with the singular point left out: 0 from 0 down when `x^(d1/2 - 1)` is
      unbounded there (d1 < 2), and the source's pdf everywhere else. */
  function FPdfCorrected(m: MathLib, x: real, d1: real, d2: real): (r: Num)
    ensures d1 >= 2.0 ==> r == FPdf(m, x, d1, d2)
  {
    if x < 0.0 || (x == 0.0 && d1 < 2.0) then Fin(0.0) else FFormula(m, x, d1, d2)
  }

  function FDensityCorrected(m: MathLib, d1: real, d2: real): real -> Num
  {
    x => FPdfCorrected(m, x, d1, d2)
  }

  /** The cdf with a guard for x <= 0, as the chi-square and Gamma cdfs have, over the
      corrected pdf. */
  function FCdfCorrected(m: MathLib, x: real, d1: real, d2: real): Num
  {
    if x <= 0.0 then Fin(0.0) else TrapezoidSum(FDensityCorrected(m, d1, d2), 0.0, x / CdfSteps as real, CdfSteps)
  }

  /** `d2 / (d2 - 2)` beyond 2 denominator degrees of freedom, NaN otherwise. */
  function FMean(d1: real, d2: real): Num
  {
    if d2 > 2.0 then Fin(d2 / (d2 - 2.0)) else NaN
  }

  /** `2 d2^2 (d1 + d2 - 2) / (d1 (d2 - 2)^2 (d2 - 4))` beyond 4, NaN otherwise. */
  function FVariance(d1: real, d2: real): Num
  {
    if d2 > 4.0 then Quot(2.0 * Pow(d2, 2) * (d1 + d2 - 2.0), d1 * Pow(d2 - 2.0, 2) * (d2 - 4.0)) else NaN
  }

  function FMedian(d1: real, d2: real): Num
  {
    NaN
  }

  /** The plotting range `[0, 10]`. */
  function FSupport(d1: real, d2: real): (real, real)
  {
    (0.0, 10.0)
  }

  // ---------------------------------------------------------------- chi-square

  /** The constant factor `1 / (2^(k/2) Gamma(k/2))`. */
  function ChiSquareCoefficient(m: MathLib, k: real): (r: Num)
    ensures Sane(m) && k > 0.0 ==> r.Fin? && r.v > 0.0
  {
    Div(Fin(1.0), Mul(PowOf(m, 2.0, k / 2.0), GammaLibOf(m, k / 2.0)))
  }

  /** `x^(k/2 - 1) exp(-x/2) / (2^(k/2) Gamma(k/2))`, evaluated as the source writes it. */
  function ChiSquareFormula(m: MathLib, x: real, k: real): Num
  {
    Mul(Mul(ChiSquareCoefficient(m, k), PowOf(m, x, k / 2.0 - 1.0)), ExpOf(m, Quot(-x, 2.0)))
  }

  /** 0 below 0 and the formula from 0 on. */
  function ChiSquarePdf(m: MathLib, x: real, k: real): (r: Num)
    ensures x < 0.0 ==> r == Fin(0.0)
  {
    if x < 0.0 then Fin(0.0) else ChiSquareFormula(m, x, k)
  }

  function ChiSquareDensity(m: MathLib, k: real): real -> Num
  {
    x => ChiSquarePdf(m, x, k)
  }

  /** 0 below 0; otherwise the trapezoidal rule over `[0, x]` with 1000 panels. */
  function ChiSquareCdf(m: MathLib, x: real, k: real): (r: Num)
    ensures x < 0.0 ==> r == Fin(0.0)
  {
    if x < 0.0 then Fin(0.0) else TrapezoidSum(ChiSquareDensity(m, k), 0.0, x / CdfSteps as real, CdfSteps)
  }

  /** The chi-square cdf as the source computes it, with the accumulation loop. */
  method ComputeChiSquareCdf(m: MathLib, x: real, k: real) returns (sum: Num)
    ensures sum == ChiSquareCdf(m, x, k)
  {
    if x < 0.0 {
      return Fin(0.0);
    }
    var steps := 1000;
    var h := x / steps as real;
    assert h == x / CdfSteps as real;
    sum := Trapezoid(ChiSquareDensity(m, k), 0.0, h, steps);
  }

  /** The pdf with the singular point left out: 0 from 0 down when `x^(k/2 - 1)` is
      unbounded there (k < 2), and the source's pdf everywhere else. */
  function ChiSquarePdfCorrected(m: MathLib, x: real, k: real): (r: Num)
    ensures k >= 2.0 ==> r == ChiSquarePdf(m, x, k)
  {
    if x < 0.0 || (x == 0.0 && k < 2.0) then Fin(0.0) else ChiSquareFormula(m, x, k)
  }

  function ChiSquareDensityCorrected(m: MathLib, k: real): real -> Num
  {
    x => ChiSquarePdfCorrected(m, x, k)
  }

  /** The cdf guarded for x <= 0, over the corrected pdf. */
  function ChiSquareCdfCorrected(m: MathLib, x: real, k: real): Num
  {
    if x <= 0.0 then Fin(0.0) else TrapezoidSum(ChiSquareDensityCorrected(m, k), 0.0, x / CdfSteps as real, CdfSteps)
  }

  function ChiSquareMean(k: real): real
  {
    k
  }

  function ChiSquareVariance(k: real): real
  {
    2.0 * k
  }

  /** The approximation `k (1 - 2/(9k))^3`. */
  function ChiSquareMedian(m: MathLib, k: real): Num
  {
    Mul(Fin(k), PowNumOf(m, Sub(Fin(1.0), Quot(2.0, 9.0 * k)), 3.0))
  }

  /** The plotting range `[0, k + 4 sqrt(2k)]`. */
  function ChiSquareSupport(m: MathLib, k: real): (Num, Num)
  {
    (Fin(0.0), Add(Fin(k), Mul(Fin(4.0), SqrtOf(m, 2.0 * k))))
  }
}
