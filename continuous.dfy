/** The closed-form continuous distributions of the engine: Normal, Uniform and Exponential.

    Their pdf and cdf are JS expressions over the parameters, so a zero standard deviation,
    an empty interval or a zero rate shows up as NaN or Infinity exactly where JavaScript
    produces it. */
module ContinuousDistributions {
  import opened Numbers
  import opened Primitives

  // ---------------------------------------------------------------- Normal

  /** `(1 / (sigma sqrt(2 pi))) * exp(-(x - mu)^2 / (2 sigma^2))`. */
  function NormalPdf(m: MathLib, x: real, mu: real, sigma: real): Num
  {
    var coefficient := Div(Fin(1.0), Mul(Fin(sigma), SqrtOf(m, 2.0 * Pi)));
    var exponent := Div(Neg(PowOf(m, x - mu, 2.0)), Mul(Fin(2.0), PowOf(m, sigma, 2.0)));
    Mul(coefficient, ExpOf(m, exponent))
  }

  lemma {:induction false} Square(d: real)
    ensures Pow(d, 2) == d * d
  {
    assert Pow(d, 1) == d;
  }

  /** `Math.pow(d, 2)` is the exact square. */
  lemma {:induction false} SquareOf(m: MathLib, d: real)
    ensures PowOf(m, d, 2.0) == Fin(d * d)
    ensures PowOf(m, -d, 2.0) == Fin(d * d)
  {
    assert IsInteger(2.0) && 2.0.Floor == 2;
    Square(d);
    Square(-d);
  }

  /** The pdf is symmetric about the mean. */
  lemma {:induction false} NormalPdfSymmetric(m: MathLib, mu: real, sigma: real, d: real)
    ensures NormalPdf(m, mu + d, mu, sigma) == NormalPdf(m, mu - d, mu, sigma)
  {
    assert (mu + d) - mu == d;
    assert (mu - d) - mu == -d;
    SquareOf(m, d);
  }

  /** The value of the pdf for a positive standard deviation. */
  lemma {:induction false} NormalPdfValue(m: MathLib, x: real, mu: real, sigma: real)
    requires Sane(m) && sigma > 0.0
    ensures NormalPdf(m, x, mu, sigma) == Fin(NormalDensity(m, x, mu, sigma))
  {
    SquareOf(m, x - mu);
    SquareOf(m, sigma);
    var s := m.sqrt(2.0 * Pi);
    assert SqrtOf(m, 2.0 * Pi) == Fin(s) && s > 0.0;
    assert sigma * s > 0.0;
    assert Div(Fin(1.0), Mul(Fin(sigma), SqrtOf(m, 2.0 * Pi))) == Fin(1.0 / (sigma * s));
    assert 2.0 * (sigma * sigma) > 0.0;
    var e := -((x - mu) * (x - mu)) / (2.0 * (sigma * sigma));
    assert Div(Neg(PowOf(m, x - mu, 2.0)), Mul(Fin(2.0), PowOf(m, sigma, 2.0))) == Fin(e);
  }

  lemma {:induction false} ExpMonotone(m: MathLib, y: real, z: real)
    requires Sane(m) && y <= z
    ensures 0.0 < m.exp(y) <= m.exp(z)
  {
  }

  lemma {:induction false} ScaledBelowOne(c: real, u: real, w: real)
    requires c > 0.0 && 0.0 < u <= w
    ensures 0.0 < c * u <= c * w
  {
  }

  /** The density `exp(-(x - mu)^2 / (2 sigma^2)) / (sigma sqrt(2 pi))` as a real. */
  function NormalDensity(m: MathLib, x: real, mu: real, sigma: real): real
    requires Sane(m) && sigma > 0.0
  {
    1.0 / (sigma * m.sqrt(2.0 * Pi)) * m.exp(-((x - mu) * (x - mu)) / (2.0 * (sigma * sigma)))
  }

  lemma {:induction false} NormalDensityPeaks(m: MathLib, x: real, mu: real, sigma: real)
    requires Sane(m) && sigma > 0.0
    ensures 0.0 < NormalDensity(m, x, mu, sigma) <= NormalDensity(m, mu, mu, sigma)
  {
    var c := 1.0 / (sigma * m.sqrt(2.0 * Pi));
    var q := 2.0 * (sigma * sigma);
    var e := -((x - mu) * (x - mu)) / q;
    assert c > 0.0 by {
      assert m.sqrt(2.0 * Pi) > 0.0;
      assert sigma * m.sqrt(2.0 * Pi) > 0.0;
    }
    assert e <= 0.0 by {
      assert q > 0.0;
      assert (x - mu) * (x - mu) >= 0.0;
    }
    assert -((mu - mu) * (mu - mu)) / q == 0.0;
    ExpMonotone(m, e, 0.0);
    ScaledBelowOne(c, m.exp(e), m.exp(0.0));
  }

  /** With a positive standard deviation the density is positive everywhere and largest at
      the mean. */
  lemma {:induction false} NormalPdfPeaksAtMean(m: MathLib, x: real, mu: real, sigma: real)
    requires Sane(m) && sigma > 0.0
    ensures NormalPdf(m, x, mu, sigma).Fin? && NormalPdf(m, mu, mu, sigma).Fin?
    ensures 0.0 < NormalPdf(m, x, mu, sigma).v <= NormalPdf(m, mu, mu, sigma).v
  {
    var d := NormalDensity(m, x, mu, sigma);
    var d0 := NormalDensity(m, mu, mu, sigma);
    assert 0.0 < d <= d0 by {
      NormalDensityPeaks(m, x, mu, sigma);
    }
    assert NormalPdf(m, x, mu, sigma) == Fin(d) by {
      NormalPdfValue(m, x, mu, sigma);
    }
    assert NormalPdf(m, mu, mu, sigma) == Fin(d0) by {
      NormalPdfValue(m, mu, mu, sigma);
    }
  }

  /** A zero standard deviation makes the density NaN everywhere (`Infinity * 0` off the
      mean, `Infinity * NaN` at it). */
  lemma {:induction false} NormalPdfDegenerate(m: MathLib, x: real, mu: real)
    ensures NormalPdf(m, x, mu, 0.0) == NaN
  {
    SquareOf(m, x - mu);
    SquareOf(m, 0.0);
  }

  /** The Abramowitz-Stegun polynomial times `exp(-x^2)`, subtracted from 1, at `|x|`. */
  function ErfMagnitude(m: MathLib, ax: real): real
    requires ax >= 0.0
  {
    var t := 1.0 / (1.0 + 0.3275911 * ax);
    1.0 - (((((1.061405429 * t + -1.453152027) * t) + 1.421413741) * t + -0.284496736) * t + 0.254829592) * t * m.exp(-ax * ax)
  }

  /** The erf approximation on a finite argument: the sign of x times the magnitude at |x|. */
  function ErfReal(m: MathLib, x: real): real
  {
    var sign := if x >= 0.0 then 1.0 else -1.0;
    sign * ErfMagnitude(m, if x < 0.0 then -x else x)
  }

  /** `_erf` on a JS number: the formula evaluated at NaN and at the infinities gives NaN,
      1 and -1 (the exponential term vanishes). */
  function Erf(m: MathLib, a: Num): Num
  {
    match a
    case Fin(x) => Fin(ErfReal(m, x))
    case PosInf => Fin(1.0)
    case NegInf => Fin(-1.0)
    case NaN => NaN
  }

  /** The approximation is odd away from 0 (at 0 the sign test picks +1). */
  lemma {:induction false} ErfOdd(m: MathLib, x: real)
    requires x != 0.0
    ensures ErfReal(m, -x) == -ErfReal(m, x)
  {
  }

  /** `0.5 * (1 + erf((x - mu) / sigma / sqrt(2)))`. */
  function NormalCdf(m: MathLib, x: real, mu: real, sigma: real): Num
  {
    var z := Quot(x - mu, sigma);
    Mul(Fin(0.5), Add(Fin(1.0), Erf(m, Div(z, SqrtOf(m, 2.0)))))
  }

  /** For a positive standard deviation, the cdf at equal distances either side of the
      mean adds up to 1. */
  lemma {:induction false} NormalCdfSymmetric(m: MathLib, mu: real, sigma: real, d: real)
    requires Sane(m) && sigma > 0.0 && d != 0.0
    ensures NormalCdf(m, mu + d, mu, sigma).Fin? && NormalCdf(m, mu - d, mu, sigma).Fin?
    ensures NormalCdf(m, mu + d, mu, sigma).v + NormalCdf(m, mu - d, mu, sigma).v == 1.0
  {
    var s := m.sqrt(2.0);
    assert s > 0.0;
    var w := d / sigma / s;
    assert (mu + d) - mu == d;
    assert (mu - d) - mu == -d;
    assert (-d) / sigma / s == -w;
    assert w != 0.0;
    ErfOdd(m, w);
  }

  /** A zero standard deviation makes the cdf a unit step at the mean, NaN at the mean
      itself (`0 / 0`). */
  lemma {:induction false} NormalCdfDegenerate(m: MathLib, x: real, mu: real)
    requires Sane(m)
    ensures x > mu ==> NormalCdf(m, x, mu, 0.0) == Fin(1.0)
    ensures x < mu ==> NormalCdf(m, x, mu, 0.0) == Fin(0.0)
    ensures x == mu ==> NormalCdf(m, x, mu, 0.0) == NaN
  {
    assert m.sqrt(2.0) > 0.0;
  }

  function NormalMean(mu: real, sigma: real): real
  {
    mu
  }

  function NormalVariance(mu: real, sigma: real): real
  {
    sigma * sigma
  }

  function NormalMedian(mu: real, sigma: real): real
  {
    mu
  }

  /** The plotting range `[mu - 3 sigma, mu + 3 sigma]`. */
  function NormalSupport(mu: real, sigma: real): (real, real)
  {
    (mu - 3.0 * sigma, mu + 3.0 * sigma)
  }

  /** Mean and median coincide with the centre of symmetry of the pdf and of the plotting
      range, the variance is the square of the standard deviation, and the range spans
      three standard deviations either side. */
  lemma {:induction false} NormalSummaries(m: MathLib, mu: real, sigma: real, d: real)
    ensures NormalMedian(mu, sigma) == NormalMean(mu, sigma)
    ensures NormalPdf(m, NormalMean(mu, sigma) + d, mu, sigma) == NormalPdf(m, NormalMean(mu, sigma) - d, mu, sigma)
    ensures NormalSupport(mu, sigma).0 + NormalSupport(mu, sigma).1 == 2.0 * NormalMean(mu, sigma)
    ensures sigma >= 0.0 ==> NormalSupport(mu, sigma).1 - NormalSupport(mu, sigma).0 == 6.0 * sigma
    ensures NormalVariance(mu, sigma) >= 0.0
  {
    NormalPdfSymmetric(m, mu, sigma, d);
  }

  // ---------------------------------------------------------------- Uniform

  /** `1 / (b - a)` on `[a, b]`, 0 outside. */
  function UniformPdf(x: real, a: real, b: real): (r: Num)
    ensures a < b && a <= x <= b ==> r == Fin(1.0 / (b - a)) && r.v > 0.0
    ensures x < a || x > b ==> r == Fin(0.0)
    ensures x == a == b ==> r == PosInf
  {
    if x < a || x > b then Fin(0.0) else Quot(1.0, b - a)
  }

  /** 0 below a, 1 above b, `(x - a) / (b - a)` in between. */
  function UniformCdf(x: real, a: real, b: real): Num
  {
    if x < a then Fin(0.0) else if x > b then Fin(1.0) else Quot(x - a, b - a)
  }

  /** For a < b the cdf is finite, in [0, 1] and non-decreasing, and it grows by the pdf
      times the distance inside the interval. */
  lemma {:induction false} UniformCdfShape(x: real, y: real, a: real, b: real)
    requires a < b
    ensures UniformCdf(x, a, b).Fin? && 0.0 <= UniformCdf(x, a, b).v <= 1.0
    ensures x <= y ==> UniformCdf(x, a, b).v <= UniformCdf(y, a, b).v
    ensures a <= x <= b && a <= y <= b ==>
      UniformCdf(y, a, b).v - UniformCdf(x, a, b).v == (y - x) * UniformPdf(x, a, b).v
  {
    var w := b - a;
    assert w > 0.0;
    if a <= x <= b {
      assert (x - a) / w <= 1.0;
    }
    if a <= y <= b {
      assert (y - a) / w <= 1.0;
    }
    if a <= x <= b && a <= y <= b {
      assert (y - a) / w - (x - a) / w == (y - x) * (1.0 / w);
    }
    if x <= y && a <= x <= b && a <= y <= b {
      assert (x - a) / w <= (y - a) / w;
    }
  }

  /** Degenerate intervals: at a == b the cdf is NaN at a itself, and with a > b it jumps
      from 0 to 1 at a with no density anywhere. */
  lemma {:induction false} UniformDegenerate(x: real, a: real, b: real)
    ensures a == b && x == a ==> UniformCdf(x, a, b) == NaN
    ensures a > b ==> UniformPdf(x, a, b) == Fin(0.0)
    ensures a > b ==> UniformCdf(x, a, b) == Fin(if x < a then 0.0 else 1.0)
  {
  }

  function UniformMean(a: real, b: real): real
  {
    (a + b) / 2.0
  }

  function UniformVariance(a: real, b: real): real
  {
    Pow(b - a, 2) / 12.0
  }

  function UniformMedian(a: real, b: real): real
  {
    (a + b) / 2.0
  }

  function UniformSupport(a: real, b: real): (real, real)
  {
    (a, b)
  }

  /** Mean and median are the midpoint, where the cdf is 1/2; the variance is
      non-negative; the plotting range is the interval itself. */
  lemma {:induction false} UniformSummaries(a: real, b: real)
    ensures UniformMedian(a, b) == UniformMean(a, b)
    ensures UniformMean(a, b) - a == b - UniformMean(a, b)
    ensures a < b ==> UniformCdf(UniformMedian(a, b), a, b) == Fin(0.5)
    ensures UniformVariance(a, b) >= 0.0
    ensures UniformSupport(a, b) == (a, b)
  {
    Square(b - a);
    if a < b {
      assert ((a + b) / 2.0 - a) / (b - a) == 0.5;
    }
  }

  // ---------------------------------------------------------------- Exponential

  /** `lambda * exp(-lambda x)` from 0 on, 0 below. */
  function ExponentialPdf(m: MathLib, x: real, lambda: real): (r: real)
    ensures x < 0.0 ==> r == 0.0
    ensures Sane(m) && lambda >= 0.0 ==> r >= 0.0
  {
    if x < 0.0 then 0.0 else lambda * m.exp(-lambda * x)
  }

  /** `1 - exp(-lambda x)` from 0 on, 0 below. */
  function ExponentialCdf(m: MathLib, x: real, lambda: real): real
  {
    if x < 0.0 then 0.0 else 1.0 - m.exp(-lambda * x)
  }

  lemma {:induction false} ScaledOrder(lambda: real, x: real, y: real)
    requires lambda >= 0.0 && 0.0 <= x <= y
    ensures -lambda * y <= -lambda * x <= 0.0
  {
    assert lambda * (y - x) >= 0.0;
  }

  /** Under the ideal exp and a non-negative rate, the cdf stays in [0, 1) and never
      decreases. */
  lemma {:induction false} ExponentialCdfShape(m: MathLib, x: real, y: real, lambda: real)
    requires Sane(m) && lambda >= 0.0
    ensures 0.0 <= ExponentialCdf(m, x, lambda) < 1.0
    ensures x <= y ==> ExponentialCdf(m, x, lambda) <= ExponentialCdf(m, y, lambda)
  {
    if x >= 0.0 {
      ScaledOrder(lambda, x, x);
      assert m.exp(-lambda * x) <= m.exp(0.0);
    }
    if 0.0 <= x <= y {
      ScaledOrder(lambda, x, y);
      ExpMonotone(m, -lambda * y, -lambda * x);
    }
    if x < 0.0 <= y {
      ScaledOrder(lambda, y, y);
      assert m.exp(-lambda * y) <= m.exp(0.0);
    }
  }

  /** `1 / lambda`. */
  function ExponentialMean(lambda: real): Num
  {
    Quot(1.0, lambda)
  }

  /** `1 / (lambda * lambda)`. */
  function ExponentialVariance(lambda: real): Num
  {
    Quot(1.0, lambda * lambda)
  }

  /** `ln 2 / lambda`. */
  function ExponentialMedian(m: MathLib, lambda: real): Num
  {
    Div(LnOf(m, 2.0), Fin(lambda))
  }

  /** The plotting range `[0, 5 / lambda]`. */
  function ExponentialSupport(lambda: real): (Num, Num)
  {
    (Fin(0.0), Quot(5.0, lambda))
  }

  /** For a positive rate: the variance is the square of the mean, the median is the point
      where the cdf reaches `1 - exp(-ln 2)`, which is one half when `exp` undoes `ln`, and
      the plotting range ends at five means.
      At rate 0 the mean, the variance and the end of the range are +Infinity. */
  lemma {:induction false} ExponentialSummaries(m: MathLib, lambda: real)
    ensures lambda > 0.0 ==> ExponentialMean(lambda).Fin? && ExponentialVariance(lambda).Fin?
    ensures lambda > 0.0 ==> ExponentialVariance(lambda).v == ExponentialMean(lambda).v * ExponentialMean(lambda).v
    ensures lambda > 0.0 ==> ExponentialSupport(lambda).1 == Fin(5.0 * ExponentialMean(lambda).v)
    ensures lambda > 0.0 ==> ExponentialMedian(m, lambda) == Fin(m.ln(2.0) / lambda)
    ensures lambda > 0.0 && m.ln(2.0) >= 0.0 ==>
      ExponentialCdf(m, ExponentialMedian(m, lambda).v, lambda) == 1.0 - m.exp(-m.ln(2.0))
    ensures lambda > 0.0 && m.ln(2.0) >= 0.0 && ExpInvertsLn(m) ==>
      ExponentialCdf(m, ExponentialMedian(m, lambda).v, lambda) == 0.5
    ensures lambda == 0.0 ==> ExponentialMean(lambda) == PosInf && ExponentialVariance(lambda) == PosInf
    ensures lambda == 0.0 ==> ExponentialSupport(lambda).1 == PosInf
  {
    if lambda > 0.0 {
      assert 1.0 / (lambda * lambda) == (1.0 / lambda) * (1.0 / lambda);
      assert 5.0 / lambda == 5.0 * (1.0 / lambda);
      assert ExponentialMedian(m, lambda) == Fin(m.ln(2.0) / lambda);
      assert -lambda * (m.ln(2.0) / lambda) == -m.ln(2.0);
      if m.ln(2.0) >= 0.0 {
        assert m.ln(2.0) / lambda >= 0.0;
        var x := m.ln(2.0) / lambda;
        assert x >= 0.0;
        assert ExponentialCdf(m, x, lambda) == 1.0 - m.exp(-lambda * x);
        assert -lambda * x == -m.ln(2.0);
        if ExpInvertsLn(m) {
          assert m.exp(-m.ln(2.0)) * 2.0 == 1.0;
        }
      }
    }
  }
}
