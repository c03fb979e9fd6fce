/** The `random` functions of the distribution engine.

    `Math.random()` is not modelled: the values it returns are an input `u`, where `u(i)`
    is the value returned by the (i+1)-th call. The chi-square, t and F samplers draw from
    the standard normal sampler; the values that sampler returns are an input `z` in the
    same way. */
module Samplers {
  import opened Numbers
  import opened Primitives
  import opened DiscreteDistributions

  // ---------------------------------------------------------------- Bernoulli, Binomial

  /** `bernoulli.random(p)`: 1 when the draw is below p, 0 otherwise. */
  function BernoulliRandom(p: real, u: real): (r: int)
    ensures r == 1 <==> u < p
    ensures r == 0 <==> !(u < p)
  {
    if u < p then 1 else 0
  }

  /** How many of the first n draws are below p. */
  function CountBelow(u: nat -> real, p: real, n: nat): (r: nat)
    ensures r <= n
  {
    if n == 0 then 0 else CountBelow(u, p, n - 1) + (if u(n - 1) < p then 1 else 0)
  }

  /** `binomial.random(n, p)`: n trials, each a success when its draw is below p. */
  method BinomialRandom(n: nat, p: real, u: nat -> real) returns (successes: nat)
    ensures successes == CountBelow(u, p, n)
  {
    successes := 0;
    var i := 0;
    while i < n
      invariant i <= n
      invariant successes == CountBelow(u, p, i)
    {
      if u(i) < p {
        successes := successes + 1;
      }
      i := i + 1;
    }
  }

  /** A Bernoulli draw is a Binomial draw with a single trial. */
  lemma {:induction false} BernoulliIsOneTrial(p: real, u: nat -> real)
    ensures BernoulliRandom(p, u(0)) == CountBelow(u, p, 1)
  {
    assert CountBelow(u, p, 0) == 0;
  }

  /** A larger success probability never gives fewer successes on the same draws. */
  lemma {:induction false} CountBelowMonotone(u: nat -> real, p: real, p': real, n: nat)
    requires p <= p'
    ensures CountBelow(u, p, n) <= CountBelow(u, p', n)
  {
    if n > 0 {
      CountBelowMonotone(u, p, p', n - 1);
    }
  }

  /** The first n calls to `Math.random` returned values in [0, 1). */
  ghost predicate DrawsInRange(u: nat -> real, n: nat)
  {
    forall i: nat {:trigger u(i)} :: i < n ==> 0.0 <= u(i) < 1.0
  }

  /** With draws in [0, 1), p = 0 gives no success and p = 1 gives n of them, so the
      sampler lands on the one point of the support that has mass 1. */
  lemma {:induction false} CountBelowExtremes(u: nat -> real, p: real, n: nat)
    requires DrawsInRange(u, n)
    ensures p <= 0.0 ==> CountBelow(u, p, n) == 0
    ensures p >= 1.0 ==> CountBelow(u, p, n) == n
  {
    if n > 0 {
      assert DrawsInRange(u, n - 1);
      CountBelowExtremes(u, p, n - 1);
      assert 0.0 <= u(n - 1) < 1.0;
    }
  }

  /** Every Binomial draw is a point of the support `0..n`. */
  lemma {:induction false} BinomialRandomInSupport(n: nat, p: real, u: nat -> real)
    ensures CountBelow(u, p, n) in BinomialSupport(n, p)
  {
    var r := CountBelow(u, p, n);
    assert BinomialSupport(n, p)[r] == r;
  }

  // ---------------------------------------------------------------- Poisson

  /** The product of the first n draws. */
  function DrawProduct(u: nat -> real, n: nat): real
  {
    if n == 0 then 1.0 else DrawProduct(u, n - 1) * u(n - 1)
  }

  /** The products of the first j draws stay above the threshold for j = 1..n. */
  ghost predicate AboveThrough(u: nat -> real, threshold: real, n: nat)
  {
    forall j: nat {:trigger DrawProduct(u, j)} :: 1 <= j <= n ==> DrawProduct(u, j) > threshold
  }

  /** k is the first number of draws whose product is at most the threshold. */
  ghost predicate FirstCrossing(u: nat -> real, threshold: real, k: nat)
  {
    k >= 1 && AboveThrough(u, threshold, k - 1) && DrawProduct(u, k) <= threshold
  }

  /** `poisson.random(lambda)` (Knuth's method): multiply draws into p until p is at most
      `exp(-lambda)`, and return one less than the number of draws. The loop of the
      source ends only if some product of draws reaches the threshold, which is what the
      precondition says. */
  method PoissonRandom(m: MathLib, lambda: real, u: nat -> real) returns (k: nat)
    requires exists j: nat {:trigger DrawProduct(u, j)} :: j >= 1 && DrawProduct(u, j) <= m.exp(-lambda)
    ensures FirstCrossing(u, m.exp(-lambda), k + 1)
  {
    var threshold := m.exp(-lambda);
    ghost var w: nat :| w >= 1 && DrawProduct(u, w) <= threshold;
    var draws: nat := 1;
    var p := 1.0 * u(0);
    while p > threshold
      invariant 1 <= draws <= w
      invariant p == DrawProduct(u, draws)
      invariant AboveThrough(u, threshold, draws - 1)
      decreases w - draws
    {
      draws := draws + 1;
      p := p * u(draws - 1);
    }
    k := draws - 1;
  }

  /** The number of draws Knuth's loop takes is determined by the draws. */
  lemma {:induction false} FirstCrossingUnique(u: nat -> real, threshold: real, k: nat, k': nat)
    requires FirstCrossing(u, threshold, k) && FirstCrossing(u, threshold, k')
    ensures k == k'
  {
  }

  /** A draw of exactly 0 makes the product 0, which is below the positive threshold
      `exp(-lambda)`: the loop has stopped by then. */
  lemma {:induction false} ZeroDrawStops(m: MathLib, lambda: real, u: nat -> real, j: nat, k: nat)
    requires Sane(m) && u(j) == 0.0
    requires FirstCrossing(u, m.exp(-lambda), k)
    ensures k <= j + 1
  {
    if k > j + 1 {
      DrawProductZero(u, j, j + 1);
    }
  }

  /** Once a draw is 0 every later product is 0. */
  lemma {:induction false} DrawProductZero(u: nat -> real, j: nat, n: nat)
    requires u(j) == 0.0 && j < n
    ensures DrawProduct(u, n) == 0.0
    decreases n
  {
    if n - 1 > j {
      DrawProductZero(u, j, n - 1);
    }
  }

  // ---------------------------------------------------------------- Geometric

  /** `geometric.random(p)`: `ceil(ln(U) / ln(1 - p))`. */
  function GeometricRandom(m: MathLib, p: real, u: real): Num
  {
    CeilOf(Div(LnOf(m, u), LnOf(m, 1.0 - p)))
  }

  /** At p = 1 the divisor `ln(0)` is -Infinity, every draw in (0, 1] gives
      `ceil(0) = 0`, and 0 is not a value a Geometric variable takes: its pmf is 0
      there. */
  lemma {:induction false} GeometricRandomAtOne(m: MathLib, u: real)
    requires 0.0 < u <= 1.0
    ensures GeometricRandom(m, 1.0, u) == Fin(0.0)
    ensures GeometricPmf(0.0, 1.0) == 0.0
  {
  }

  /** The logarithm is negative strictly inside (0, 1). */
  ghost predicate LnNegative(m: MathLib)
  {
    forall y :: 0.0 < y < 1.0 ==> m.ln(y) < 0.0
  }

  /** The sampler with p = 1 answered by 1, the only value a Geometric(1) variable takes. */
  function GeometricRandomCorrected(m: MathLib, p: real, u: real): (r: Num)
    ensures p != 1.0 ==> r == GeometricRandom(m, p, u)
  {
    if p == 1.0 then Fin(1.0) else GeometricRandom(m, p, u)
  }

  /** The corrected sampler returns a whole number of trials of at least 1 for every
      p in (0, 1] and every draw in (0, 1). */
  lemma {:induction false} GeometricRandomCorrectedInSupport(m: MathLib, p: real, u: real)
    requires LnNegative(m) && 0.0 < p <= 1.0 && 0.0 < u < 1.0
    ensures GeometricRandomCorrected(m, p, u).Fin?
    ensures GeometricRandomCorrected(m, p, u).v >= 1.0
    ensures IsInteger(GeometricRandomCorrected(m, p, u).v)
  {
    if p < 1.0 {
      var a := m.ln(u);
      var b := m.ln(1.0 - p);
      assert a < 0.0 && b < 0.0;
      assert a / b > 0.0;
      assert GeometricRandom(m, p, u) == Fin(Ceil(a / b) as real);
    }
  }

  // ---------------------------------------------------------------- Uniform, Exponential

  /** `uniform.random(a, b)`: `a + U (b - a)`, in [a, b) for a < b. */
  function UniformRandom(a: real, b: real, u: real): (r: real)
    ensures a < b && 0.0 <= u < 1.0 ==> a <= r < b
  {
    ScaledDrawBelow(a, b, u);
    a + u * (b - a)
  }

  lemma {:induction false} ScaledDrawBelow(a: real, b: real, u: real)
    ensures a < b && 0.0 <= u < 1.0 ==> a <= a + u * (b - a) < b
  {
    if a < b && 0.0 <= u < 1.0 {
      ProductSign(1.0 - u, b - a);
      ProductSign(u, b - a);
      assert (1.0 - u) * (b - a) == (b - a) - u * (b - a);
    }
  }

  /** The Uniform sampler is non-decreasing in the draw. */
  lemma {:induction false} UniformRandomMonotone(a: real, b: real, u: real, u': real)
    requires a <= b && u <= u'
    ensures UniformRandom(a, b, u) <= UniformRandom(a, b, u')
  {
    ProductSign(u' - u, b - a);
  }

  lemma {:induction false} ProductSign(x: real, y: real)
    ensures x > 0.0 && y > 0.0 ==> x * y > 0.0
    ensures x >= 0.0 && y >= 0.0 ==> x * y >= 0.0
  {
  }

  /** `exponential.random(lambda)`: `-ln(U) / lambda`. */
  function ExponentialRandom(m: MathLib, lambda: real, u: real): (r: Num)
    ensures Sane(m) && lambda > 0.0 && 0.0 < u <= 1.0 ==> r.Fin? && r.v >= 0.0
    ensures lambda > 0.0 && u == 0.0 ==> r == PosInf
  {
    assert Sane(m) && lambda > 0.0 && 0.0 < u <= 1.0 ==> -m.ln(u) / lambda >= 0.0 by {
      if Sane(m) && lambda > 0.0 && 0.0 < u <= 1.0 {
        assert m.ln(u) <= 0.0;
      }
    }
    Div(Neg(LnOf(m, u)), Fin(lambda))
  }

  // ---------------------------------------------------------------- chi-square, t, F

  /** The number of passes of `for (let i = 0; i < k; i++)`: the naturals below k. */
  function Trials(k: real): (r: nat)
    ensures forall i: nat {:trigger i as real} :: i < r <==> (i as real) < k
  {
    if k <= 0.0 then 0 else Ceil(k)
  }

  /** `z(lo)^2 + ... + z(hi - 1)^2`, added left to right. */
  function SquareSum(z: nat -> real, lo: nat, hi: nat): (r: real)
    ensures r >= 0.0
    decreases hi
  {
    if hi <= lo then 0.0 else SquareSum(z, lo, hi - 1) + z(hi - 1) * z(hi - 1)
  }

  /** `chiSquare.random(k)`: the sum of the squares of k standard normal draws (of
      `ceil(k)` of them for a fractional k). */
  method ChiSquareRandom(k: real, z: nat -> real) returns (sum: real)
    ensures sum == SquareSum(z, 0, Trials(k))
  {
    sum := 0.0;
    var i: nat := 0;
    while (i as real) < k
      invariant i <= Trials(k)
      invariant sum == SquareSum(z, 0, i)
      decreases Trials(k) - i
    {
      sum := sum + z(i) * z(i);
      i := i + 1;
    }
  }

  /** `f.random(d1, d2)`: `(U1 / d1) / (U2 / d2)`, where U1 sums the squares of the first
      d1 normal draws and U2 those of the next d2. */
  method FRandom(d1: real, d2: real, z: nat -> real) returns (r: Num)
    ensures r == Div(Quot(SquareSum(z, 0, Trials(d1)), d1),
                     Quot(SquareSum(z, Trials(d1), Trials(d1) + Trials(d2)), d2))
  {
    var u1 := 0.0;
    var i: nat := 0;
    while (i as real) < d1
      invariant i <= Trials(d1)
      invariant u1 == SquareSum(z, 0, i)
      decreases Trials(d1) - i
    {
      u1 := u1 + z(i) * z(i);
      i := i + 1;
    }
    var n1 := i;
    var u2 := 0.0;
    var j: nat := 0;
    while (j as real) < d2
      invariant j <= Trials(d2)
      invariant u2 == SquareSum(z, n1, n1 + j)
      decreases Trials(d2) - j
    {
      u2 := u2 + z(n1 + j) * z(n1 + j);
      j := j + 1;
    }
    r := Div(Quot(u1, d1), Quot(u2, d2));
  }

  /** For positive degrees of freedom an F draw is never negative: non-negative and
      finite when the second sum is positive, +Infinity or NaN when it is 0. */
  lemma {:induction false} FRandomNonnegative(d1: real, d2: real, u1: real, u2: real)
    requires d1 > 0.0 && d2 > 0.0 && u1 >= 0.0 && u2 >= 0.0
    ensures u2 > 0.0 ==> Div(Quot(u1, d1), Quot(u2, d2)).Fin? && Div(Quot(u1, d1), Quot(u2, d2)).v >= 0.0
    ensures u2 == 0.0 ==> Div(Quot(u1, d1), Quot(u2, d2)) == (if u1 > 0.0 then PosInf else NaN)
  {
    assert u1 / d1 >= 0.0;
    if u2 > 0.0 {
      assert u2 / d2 > 0.0;
      assert (u1 / d1) / (u2 / d2) >= 0.0;
    } else {
      assert u2 / d2 == 0.0;
      assert u1 > 0.0 ==> u1 / d1 > 0.0;
    }
  }

  /** `Math.sqrt` on a number that may be infinite or NaN. */
  function SqrtNumOf(m: MathLib, a: Num): (r: Num)
    ensures a.Fin? ==> r == SqrtOf(m, a.v)
  {
    match a
    case Fin(x) => SqrtOf(m, x)
    case PosInf => PosInf
    case _ => NaN
  }

  /** `t.random(nu)`: `Z / sqrt(V / nu)`, where Z is the first normal draw and V sums the
      squares of the next nu. */
  method TRandom(m: MathLib, nu: real, z: nat -> real) returns (r: Num)
    ensures r == Div(Fin(z(0)), SqrtNumOf(m, Quot(SquareSum(z, 1, 1 + Trials(nu)), nu)))
  {
    var zero := z(0);
    var chiSq := 0.0;
    var i: nat := 0;
    while (i as real) < nu
      invariant i <= Trials(nu)
      invariant chiSq == SquareSum(z, 1, 1 + i)
      decreases Trials(nu) - i
    {
      chiSq := chiSq + z(1 + i) * z(1 + i);
      i := i + 1;
    }
    r := Div(Fin(zero), SqrtNumOf(m, Quot(chiSq, nu)));
  }

  /** A t draw has the sign of its normal numerator when the sum of squares is
      positive. */
  lemma {:induction false} TRandomSign(m: MathLib, nu: real, zero: real, v: real)
    requires Sane(m) && nu > 0.0 && v > 0.0
    ensures Div(Fin(zero), SqrtNumOf(m, Quot(v, nu))).Fin?
    ensures Sign(Div(Fin(zero), SqrtNumOf(m, Quot(v, nu)))) == Sign(Fin(zero))
  {
    assert v / nu > 0.0;
    var s := m.sqrt(v / nu);
    assert s > 0.0;
    assert zero > 0.0 ==> zero / s > 0.0;
    assert zero < 0.0 ==> zero / s < 0.0;
  }
}
