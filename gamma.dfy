/** The Gamma distribution and the engine's own Gamma function.

    `_gammaFunction` is the Lanczos approximation (g = 7, nine coefficients) for arguments
    of at least 1/2, and Euler's reflection formula below that. The pdf divides by it, the
    cdf integrates the pdf with the trapezoidal rule over `[0, x]`, and the sampler sums k
    exponential draws when the shape k is a positive integer and otherwise falls back to
    the mean. */
module GammaDistribution {
  import opened Numbers
  import opened Primitives
  import opened Integration

  // ---------------------------------------------------------------- Gamma function

  /** The Lanczos coefficients for g = 7. */
  const LanczosCoefficients: seq<real> := [
    0.99999999999980993, 676.5203681218851, -1259.1392167224028,
    771.32342877765313, -176.61502916214059, 12.507343278686905,
    -0.13857109526572012, 0.0000099843695780195716, 0.00000015056327351493116]

  /** The Lanczos series after its first n + 1 terms: `p0 + p1/(y+1) + ... + pn/(y+n)`. */
  function LanczosSeries(y: real, n: nat): real
    requires n < |LanczosCoefficients| && y > -1.0
  {
    if n == 0 then LanczosCoefficients[0]
    else LanczosSeries(y, n - 1) + LanczosCoefficients[n] / (y + n as real)
  }

  /** The accumulator loop over the coefficients 1..8. */
  method LanczosSum(y: real) returns (a: real)
    requires y > -1.0
    ensures a == LanczosSeries(y, 8)
  {
    a := LanczosCoefficients[0];
    var g := 7;
    var i := 1;
    while i < g + 2
      invariant 1 <= i <= 9
      invariant a == LanczosSeries(y, i - 1)
    {
      a := a + LanczosCoefficients[i] / (y + i as real);
      i := i + 1;
    }
  }

  /** `sqrt(2 pi) * t^(y + 1/2) * exp(-t) * a` with `t = y + 7.5`, for `y = x - 1`. */
  function LanczosGamma(m: MathLib, y: real): Num
    requires y >= -0.5
  {
    var t := y + 7.0 + 0.5;
    Mul(Mul(Mul(SqrtOf(m, 2.0 * Pi), PowOf(m, t, y + 0.5)), ExpOf(m, Fin(-t))), Fin(LanczosSeries(y, 8)))
  }

  /** `_gammaFunction(x)`: the Lanczos formula at x - 1 from 1/2 on; below 1/2 the
      reflection `pi / (sin(pi x) Gamma(1 - x))`, whose recursive call at 1 - x > 1/2 takes
      the Lanczos branch. */
  function GammaFn(m: MathLib, x: real): Num
  {
    if x < 0.5 then Div(Fin(Pi), Mul(Fin(m.sin(Pi * x)), LanczosGamma(m, (1.0 - x) - 1.0)))
    else LanczosGamma(m, x - 1.0)
  }

  /** The recursive function with its accumulator loop. */
  method GammaFunction(m: MathLib, x: real) returns (r: Num)
    ensures r == GammaFn(m, x)
    decreases if x < 0.5 then 1 else 0
  {
    if x < 0.5 {
      var other := GammaFunction(m, 1.0 - x);
      GammaFnReflects(m, x);
      return Div(Fin(Pi), Mul(Fin(m.sin(Pi * x)), other));
    }
    var y := x - 1.0;
    var a := LanczosSum(y);
    var g := 7.0;
    var t := y + g + 0.5;
    r := Mul(Mul(Mul(SqrtOf(m, 2.0 * Pi), PowOf(m, t, y + 0.5)), ExpOf(m, Fin(-t))), Fin(a));
  }

  /** Below 1/2 the function is `pi / (sin(pi x) Gamma(1 - x))`. */
  lemma {:induction false} GammaFnReflects(m: MathLib, x: real)
    requires x < 0.5
    ensures GammaFn(m, x) == Div(Fin(Pi), Mul(Fin(m.sin(Pi * x)), GammaFn(m, 1.0 - x)))
  {
  }

  /** From 1/2 on, the Lanczos branch gives a finite number. */
  lemma {:induction false} GammaFnFinite(m: MathLib, x: real)
    requires Sane(m) && x >= 0.5
    ensures GammaFn(m, x).Fin?
  {
    var y := x - 1.0;
    var t := y + 7.0 + 0.5;
    assert t > 0.0;
    assert SqrtOf(m, 2.0 * Pi).Fin?;
    assert PowOf(m, t, y + 0.5).Fin?;
  }

  lemma {:induction false} ReflectionArithmetic(p: real, s: real, g: real)
    requires s != 0.0 && g != 0.0
    ensures p / (s * g) * g * s == p
  {
  }

  /** `p / (s * G)` for a finite non-zero G times G times s gives back p. */
  lemma {:induction false} ReflectedQuotient(p: real, s: real, gamma: Num)
    requires gamma.Fin? && gamma.v != 0.0 && s != 0.0
    ensures Div(Fin(p), Mul(Fin(s), gamma)).Fin?
    ensures Div(Fin(p), Mul(Fin(s), gamma)).v * gamma.v * s == p
  {
    assert s * gamma.v != 0.0;
    ReflectionArithmetic(p, s, gamma.v);
  }

  /** The reflection branch at x < 1/2 against the Lanczos branch at 1 - x. */
  lemma {:induction false} ReflectionBelowHalf(m: MathLib, x: real)
    requires Sane(m) && x < 0.5
    requires m.sin(Pi * x) != 0.0 && GammaFn(m, 1.0 - x) != Fin(0.0)
    ensures GammaFn(m, x).Fin? && GammaFn(m, 1.0 - x).Fin?
    ensures GammaFn(m, x).v * GammaFn(m, 1.0 - x).v * m.sin(Pi * x) == Pi
  {
    GammaFnReflects(m, x);
    GammaFnFinite(m, 1.0 - x);
    ReflectedQuotient(Pi, m.sin(Pi * x), GammaFn(m, 1.0 - x));
  }

  lemma {:induction false} SineOfComplement(m: MathLib, x: real)
    requires Sane(m)
    ensures m.sin(Pi * (1.0 - x)) == m.sin(Pi * x)
  {
    assert Pi * (1.0 - x) == Pi - Pi * x;
  }

  /** Euler's reflection formula `Gamma(x) Gamma(1 - x) sin(pi x) = pi` holds between the
      two branches for every x where both values are non-zero: the reflection branch is
      built to satisfy it, from either side of 1/2. */
  lemma {:induction false} GammaReflection(m: MathLib, x: real)
    requires Sane(m) && x != 0.5
    requires m.sin(Pi * x) != 0.0
    requires GammaFn(m, x) != Fin(0.0) && GammaFn(m, 1.0 - x) != Fin(0.0)
    ensures GammaFn(m, x).Fin? && GammaFn(m, 1.0 - x).Fin?
    ensures GammaFn(m, x).v * GammaFn(m, 1.0 - x).v * m.sin(Pi * x) == Pi
  {
    if x < 0.5 {
      ReflectionBelowHalf(m, x);
    } else {
      var y := 1.0 - x;
      assert 1.0 - y == x;
      SineOfComplement(m, x);
      ReflectionBelowHalf(m, y);
      assert GammaFn(m, y).v * GammaFn(m, x).v * m.sin(Pi * x) == Pi;
    }
  }

  /** Where `sin(pi x)` vanishes below 1/2 (the poles 0, -1, -2, ... of the true function),
      the reflection divides by zero and gives +Infinity whatever the sign. */
  lemma {:induction false} GammaPole(m: MathLib, x: real)
    requires Sane(m) && x < 0.5 && m.sin(Pi * x) == 0.0
    ensures GammaFn(m, x) == PosInf
  {
    GammaFnReflects(m, x);
    GammaFnFinite(m, 1.0 - x);
    assert Mul(Fin(0.0), GammaFn(m, 1.0 - x)) == Fin(0.0);
  }

  // ---------------------------------------------------------------- distribution

  /** `x^(k-1) exp(-x / theta) / (theta^k Gamma(k))` for x > 0, and 0 from 0 down. */
  function GammaPdf(m: MathLib, x: real, k: real, theta: real): (r: Num)
    ensures x <= 0.0 ==> r == Fin(0.0)
  {
    if x <= 0.0 then Fin(0.0)
    else Div(Mul(PowOf(m, x, k - 1.0), ExpOf(m, Quot(-x, theta))), Mul(PowOf(m, theta, k), GammaFn(m, k)))
  }

  /** The pdf as a function of x, for the integration. */
  function GammaDensity(m: MathLib, k: real, theta: real): real -> Num
  {
    x => GammaPdf(m, x, k, theta)
  }

  lemma {:induction false} PositiveProduct(a: Num, b: Num)
    requires a.Fin? && a.v > 0.0 && b.Fin? && b.v > 0.0
    ensures Mul(a, b).Fin? && Mul(a, b).v > 0.0
  {
  }

  lemma {:induction false} PositiveQuotient(a: Num, b: Num)
    requires a.Fin? && a.v > 0.0 && b.Fin? && b.v > 0.0
    ensures Div(a, b).Fin? && Div(a, b).v > 0.0
  {
  }

  /** With a positive scale and a positive value of the Gamma function at k, the pdf is
      finite and positive on the positive half-line. */
  lemma {:induction false} GammaPdfPositive(m: MathLib, x: real, k: real, theta: real)
    requires Sane(m) && x > 0.0 && theta > 0.0
    requires GammaFn(m, k).Fin? && GammaFn(m, k).v > 0.0
    ensures GammaPdf(m, x, k, theta).Fin? && GammaPdf(m, x, k, theta).v > 0.0
  {
    var e := ExpOf(m, Quot(-x, theta));
    assert e.Fin? && e.v > 0.0 by {
      assert Quot(-x, theta) == Fin(-x / theta);
    }
    var num := PowOf(m, x, k - 1.0);
    var den := PowOf(m, theta, k);
    PositiveProduct(num, e);
    PositiveProduct(den, GammaFn(m, k));
    PositiveQuotient(Mul(num, e), Mul(den, GammaFn(m, k)));
  }

  /** The number of trapezoid panels in the cdf. */
  const CdfSteps: nat := 1000

  /** 0 from 0 down; otherwise the trapezoidal rule over `[0, x]` with 1000 panels. */
  function GammaCdf(m: MathLib, x: real, k: real, theta: real): (r: Num)
    ensures x <= 0.0 ==> r == Fin(0.0)
  {
    if x <= 0.0 then Fin(0.0) else TrapezoidSum(GammaDensity(m, k, theta), 0.0, x / CdfSteps as real, CdfSteps)
  }

  /** The cdf as the source computes it, with the accumulation loop. */
  method ComputeGammaCdf(m: MathLib, x: real, k: real, theta: real) returns (sum: Num)
    ensures sum == GammaCdf(m, x, k, theta)
  {
    if x <= 0.0 {
      return Fin(0.0);
    }
    var steps := 1000;
    var h := x / steps as real;
    sum := Trapezoid(GammaDensity(m, k, theta), 0.0, h, steps);
  }

  /** With a positive scale and a positive value of the Gamma function at k, the computed
      cdf is a finite, non-negative number at every x. */
  lemma {:induction false} GammaCdfNonnegative(m: MathLib, x: real, k: real, theta: real)
    requires Sane(m) && theta > 0.0
    requires GammaFn(m, k).Fin? && GammaFn(m, k).v > 0.0
    ensures GammaCdf(m, x, k, theta).Fin? && GammaCdf(m, x, k, theta).v >= 0.0
  {
    if x > 0.0 {
      var h := x / CdfSteps as real;
      assert h > 0.0;
      forall i | 0 <= i <= CdfSteps
        ensures GammaDensity(m, k, theta)(Node(0.0, h, i)).Fin? && GammaDensity(m, k, theta)(Node(0.0, h, i)).v >= 0.0
      {
        if i > 0 {
          assert Node(0.0, h, i) > 0.0;
          GammaPdfPositive(m, Node(0.0, h, i), k, theta);
        }
      }
      TrapezoidNonnegative(GammaDensity(m, k, theta), 0.0, h, CdfSteps);
    }
  }

  // ---------------------------------------------------------------- summaries

  /** `k * theta`. */
  function GammaMean(k: real, theta: real): real
  {
    k * theta
  }

  /** `k * theta * theta`. */
  function GammaVariance(k: real, theta: real): real
  {
    k * theta * theta
  }

  /** The approximation `theta * (k - 1/3 + 0.1/k)`. */
  function GammaMedian(k: real, theta: real): Num
  {
    Mul(Fin(theta), Add(Fin(k - 1.0 / 3.0), Quot(0.1, k)))
  }

  /** The plotting range `[0, mean + 4 sqrt(variance)]`. */
  function GammaSupport(m: MathLib, k: real, theta: real): (Num, Num)
  {
    (Fin(0.0), Add(Fin(GammaMean(k, theta)), Mul(Fin(4.0), SqrtOf(m, GammaVariance(k, theta)))))
  }

  lemma {:induction false} MedianArithmetic(k: real, theta: real)
    requires k >= 1.0 && theta > 0.0
    ensures k * theta - theta / 3.0 < theta * (k - 1.0 / 3.0 + 0.1 / k) < k * theta
  {
    assert 0.0 < 0.1 / k <= 0.1;
    assert theta * (k - 1.0 / 3.0 + 0.1 / k) == k * theta - theta / 3.0 + theta * (0.1 / k);
    assert 0.0 < theta * (0.1 / k) <= theta * 0.1;
  }

  /** For k >= 1 and a positive scale the median lies strictly between `mean - theta/3`
      and the mean; at k = 0 it is `theta * Infinity`. */
  lemma {:induction false} GammaMedianBounds(k: real, theta: real)
    ensures k >= 1.0 && theta > 0.0 ==>
      GammaMedian(k, theta).Fin? && GammaMean(k, theta) - theta / 3.0 < GammaMedian(k, theta).v < GammaMean(k, theta)
    ensures k == 0.0 && theta > 0.0 ==> GammaMedian(k, theta) == PosInf
    ensures k == 0.0 && theta == 0.0 ==> GammaMedian(k, theta) == NaN
  {
    if k >= 1.0 && theta > 0.0 {
      MedianArithmetic(k, theta);
    }
  }

  lemma {:induction false} VariancePositive(k: real, theta: real)
    requires k > 0.0 && theta != 0.0
    ensures GammaVariance(k, theta) > 0.0
  {
    var kt := k * theta;
    assert kt * theta == k * (theta * theta);
    assert theta * theta > 0.0;
    assert k * (theta * theta) > 0.0;
    assert GammaVariance(k, theta) == kt * theta;
  }

  /** For a positive shape and a non-zero scale the variance is positive, so the plotting
      range ends strictly above the mean. */
  lemma {:induction false} GammaSupportAboveMean(m: MathLib, k: real, theta: real)
    requires Sane(m) && k > 0.0 && theta != 0.0
    ensures GammaVariance(k, theta) > 0.0
    ensures GammaSupport(m, k, theta).0 == Fin(0.0)
    ensures GammaSupport(m, k, theta).1.Fin? && GammaSupport(m, k, theta).1.v > GammaMean(k, theta)
  {
    VariancePositive(k, theta);
    var v := GammaVariance(k, theta);
    assert v > 0.0;
    assert SqrtOf(m, v).Fin? && SqrtOf(m, v).v > 0.0;
  }

  // ---------------------------------------------------------------- sampler

  /** The sum of the first n terms `-ln(u_i) * theta`, accumulated left to right. */
  function DrawSum(m: MathLib, theta: real, u: nat -> real, n: nat): Num
  {
    if n == 0 then Fin(0.0) else Add(DrawSum(m, theta, u, n - 1), Mul(Neg(LnOf(m, u(n - 1))), Fin(theta)))
  }

  /** `random(k, theta)`: for a positive integer k, the sum of k draws `-ln(U) * theta`,
      where `u(i)` is the value of the i-th call to `Math.random`; for any other k,
      exactly the mean. */
  method GammaRandom(m: MathLib, k: real, theta: real, u: nat -> real) returns (r: Num)
    ensures IsInteger(k) && k > 0.0 ==> r == DrawSum(m, theta, u, k.Floor)
    ensures !(IsInteger(k) && k > 0.0) ==> r == Fin(GammaMean(k, theta))
  {
    if k.Floor as real == k && k > 0.0 {
      var sum := Fin(0.0);
      var i: nat := 0;
      while (i as real) < k
        invariant i <= k.Floor
        invariant sum == DrawSum(m, theta, u, i)
        decreases k.Floor - i
      {
        sum := Add(sum, Mul(Neg(LnOf(m, u(i))), Fin(theta)));
        i := i + 1;
      }
      return sum;
    }
    return Fin(GammaMean(k, theta));
  }

  /** The first n calls to `Math.random` returned values in (0, 1]. */
  ghost predicate DrawsInUnitInterval(u: nat -> real, n: nat)
  {
    forall i: nat {:trigger u(i)} :: i < n ==> 0.0 < u(i) <= 1.0
  }

  /** Draws in (0, 1] and a non-negative scale give a finite, non-negative sum. */
  lemma {:induction false} DrawSumNonnegative(m: MathLib, theta: real, u: nat -> real, n: nat)
    requires Sane(m) && theta >= 0.0
    requires DrawsInUnitInterval(u, n)
    ensures DrawSum(m, theta, u, n).Fin? && DrawSum(m, theta, u, n).v >= 0.0
  {
    if n > 0 {
      DrawSumNonnegative(m, theta, u, n - 1);
      var x := u(n - 1);
      assert 0.0 < x <= 1.0;
      assert m.ln(x) <= 0.0;
      assert -m.ln(x) * theta >= 0.0;
    }
  }

  /** A draw of exactly 0 (which `Math.random` can return) makes `-ln(0) * theta`
      infinite, and with a positive scale the whole sum is +Infinity. */
  lemma {:induction false} DrawSumZeroDraw(m: MathLib, theta: real, u: nat -> real, n: nat, j: nat)
    requires Sane(m) && theta > 0.0 && j < n
    requires u(j) == 0.0
    requires forall i: nat {:trigger u(i)} :: i < n && i != j ==> 0.0 < u(i) <= 1.0
    ensures DrawSum(m, theta, u, n) == PosInf
  {
    if n - 1 == j {
      if j > 0 {
        DrawSumNonnegative(m, theta, u, j);
      }
    } else {
      DrawSumZeroDraw(m, theta, u, n - 1, j);
      var x := u(n - 1);
      assert 0.0 < x <= 1.0;
    }
  }
}
