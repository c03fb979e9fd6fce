/** The discrete distributions of the engine: Bernoulli, Binomial, Poisson and Geometric.

    Each has a pmf that is 0 off its integer support, a cdf that is the running sum of the
    pmf (a loop for Binomial and Poisson, a closed form for Bernoulli and Geometric), its
    moments, a median and the finite support used for plotting. The arguments of pmf and cdf
    are JS numbers, so they range over all reals; a pmf is 0 at a non-integer point. */
module DiscreteDistributions {
  import opened Numbers
  import opened Primitives
  import opened Sums

  /** `q^n` stays in [0, 1] for `q` in [0, 1]. */
  lemma {:induction false} PowInUnitInterval(q: real, n: nat)
    requires 0.0 <= q <= 1.0
    ensures 0.0 <= Pow(q, n) <= 1.0
  {
    if n > 0 {
      var a := Pow(q, n - 1);
      PowInUnitInterval(q, n - 1);
      assert (1.0 - q) * a >= 0.0;
      assert Pow(q, n) == q * a;
    }
  }

  lemma {:induction false} PowOfOne(n: nat)
    ensures Pow(1.0, n) == 1.0
  {
    if n > 0 {
      PowOfOne(n - 1);
    }
  }

  // ---------------------------------------------------------------- Bernoulli

  function BernoulliPmf(x: real, p: real): (r: real)
    ensures r != 0.0 ==> x == 0.0 || x == 1.0
    ensures 0.0 <= p <= 1.0 ==> 0.0 <= r <= 1.0
  {
    if x == 0.0 then 1.0 - p else if x == 1.0 then p else 0.0
  }

  function BernoulliCdf(x: real, p: real): (r: real)
    ensures 0.0 <= p <= 1.0 ==> 0.0 <= r <= 1.0
  {
    if x < 0.0 then 0.0 else if x < 1.0 then 1.0 - p else 1.0
  }

  /** The Bernoulli pmf on the integers. */
  function BernoulliMass(p: real): int -> real
  {
    i => BernoulliPmf(i as real, p)
  }

  /** The closed-form Bernoulli cdf is the pmf summed over the integers up to `x`. */
  lemma {:induction false} BernoulliCdfIsRunningSum(x: real, p: real)
    ensures BernoulliCdf(x, p) == Sum(BernoulliMass(p), 0, x.Floor + 1)
  {
    var f := BernoulliMass(p);
    var top := x.Floor + 1;
    if top >= 2 {
      SumSplit(f, 0, 2, top);
      SumOfZeros(f, 2, top);
    }
  }

  /** The mean is the expectation of the pmf. */
  function BernoulliMean(p: real): (r: real)
    ensures r == 0.0 * BernoulliPmf(0.0, p) + 1.0 * BernoulliPmf(1.0, p)
  {
    p
  }

  /** The variance is the expected squared distance from the mean. */
  function BernoulliVariance(p: real): (r: real)
    ensures r == (0.0 - BernoulliMean(p)) * (0.0 - BernoulliMean(p)) * BernoulliPmf(0.0, p)
               + (1.0 - BernoulliMean(p)) * (1.0 - BernoulliMean(p)) * BernoulliPmf(1.0, p)
    ensures 0.0 <= p <= 1.0 ==> 0.0 <= r <= 0.25
  {
    BernoulliVarianceArithmetic(p);
    p * (1.0 - p)
  }

  lemma {:induction false} BernoulliVarianceArithmetic(p: real)
    ensures (0.0 - p) * (0.0 - p) * (1.0 - p) + (1.0 - p) * (1.0 - p) * p == p * (1.0 - p)
    ensures 0.0 <= p <= 1.0 ==> 0.0 <= p * (1.0 - p) <= 0.25
  {
    assert (0.0 - p) * (0.0 - p) == p * p;
    assert p * p * (1.0 - p) + (1.0 - p) * (1.0 - p) * p == p * (1.0 - p) * (p + (1.0 - p));
    assert 0.25 - p * (1.0 - p) == (p - 0.5) * (p - 0.5);
    assert (p - 0.5) * (p - 0.5) >= 0.0;
    if 0.0 <= p <= 1.0 {
      assert p * (1.0 - p) >= 0.0 * (1.0 - p);
    }
  }

  /** A median: at least half of the mass lies at or below it and at least half at or
      above it (0.5 when both outcomes are equally likely). */
  function BernoulliMedian(p: real): (r: real)
    ensures 0.0 <= p <= 1.0 ==> BernoulliCdf(r, p) >= 0.5
    ensures 0.0 <= p <= 1.0 ==>
      (if r <= 0.0 then BernoulliPmf(0.0, p) else 0.0) + (if r <= 1.0 then BernoulliPmf(1.0, p) else 0.0) >= 0.5
  {
    if p < 0.5 then 0.0 else if p > 0.5 then 1.0 else 0.5
  }

  /** The support is exactly the two points where the pmf can be non-zero. */
  function BernoulliSupport(p: real): (r: seq<int>)
    ensures forall k: int :: k !in r ==> BernoulliPmf(k as real, p) == 0.0
    ensures 0.0 < p < 1.0 ==> forall i :: 0 <= i < |r| ==> BernoulliPmf(r[i] as real, p) > 0.0
  {
    [0, 1]
  }

  // ---------------------------------------------------------------- Binomial

  /** `math.combinations(n, k) * p^k * (1 - p)^(n - k)` on the support, 0 elsewhere. */
  function BinomialPmf(k: real, n: nat, p: real): (r: real)
    ensures r != 0.0 ==> IsInteger(k) && 0.0 <= k <= n as real
    ensures 0.0 <= p <= 1.0 ==> r >= 0.0
  {
    if k < 0.0 || k > n as real || !IsInteger(k) then 0.0
    else
      var i := k.Floor as nat;
      (Choose(n, i) as real) * Pow(p, i) * Pow(1.0 - p, n - i)
  }

  /** The Binomial pmf on the integers. */
  function BinomialMass(n: nat, p: real): int -> real
  {
    i => BinomialPmf(i as real, n, p)
  }

  /** The term `C(n, i) p^i q^(n - i)` of the expansion of `(p + q)^n` (0 off 0..n). */
  function BinomialTermAt(n: nat, p: real, q: real, i: int): real
  {
    if 0 <= i <= n then (Choose(n, i) as real) * Pow(p, i) * Pow(q, n - i) else 0.0
  }

  /** The terms of `(p + q)^n` built by Pascal's rule, row by row. */
  function PascalTerm(n: nat, p: real, q: real, i: int): real
  {
    if i < 0 || i > n then 0.0
    else if n == 0 then 1.0
    else p * PascalTerm(n - 1, p, q, i - 1) + q * PascalTerm(n - 1, p, q, i)
  }

  /** Row n of the expansion as a function of the index. */
  function PascalRow(n: nat, p: real, q: real): int -> real
  {
    i => PascalTerm(n, p, q, i)
  }

  /** The ring identity behind Pascal's rule on the terms. */
  lemma {:induction false} PascalArithmetic(c: real, a: real, b: real, s: real, x: real, t: real, y: real, p: real, q: real)
    requires c == a + b && s == p * x && t == q * y
    ensures c * s * t == p * (a * x * t) + q * (b * s * y)
  {
  }

  lemma {:induction false} BinomialTermFirst(n: nat, p: real, q: real)
    requires n > 0
    ensures BinomialTermAt(n, p, q, 0) == p * BinomialTermAt(n - 1, p, q, -1) + q * BinomialTermAt(n - 1, p, q, 0)
  {
    var y := Pow(q, n - 1);
    assert Pow(q, n) == q * y;
    assert BinomialTermAt(n, p, q, 0) == 1.0 * 1.0 * (q * y);
    assert BinomialTermAt(n - 1, p, q, 0) == 1.0 * 1.0 * y;
  }

  lemma {:induction false} BinomialTermLast(n: nat, p: real, q: real)
    requires n > 0
    ensures BinomialTermAt(n, p, q, n) == p * BinomialTermAt(n - 1, p, q, n - 1) + q * BinomialTermAt(n - 1, p, q, n)
  {
    var c := Choose(n - 1, n - 1) as real;
    var x := Pow(p, n - 1);
    assert Choose(n, n) == Choose(n - 1, n - 1) + Choose(n - 1, n);
    assert Pow(p, n) == p * x;
    assert BinomialTermAt(n, p, q, n) == c * (p * x) * 1.0;
    assert BinomialTermAt(n - 1, p, q, n - 1) == c * x * 1.0;
  }

  lemma {:induction false} BinomialTermMiddle(n: nat, p: real, q: real, i: nat)
    requires 1 <= i < n
    ensures BinomialTermAt(n, p, q, i) == p * BinomialTermAt(n - 1, p, q, i - 1) + q * BinomialTermAt(n - 1, p, q, i)
  {
    var c := Choose(n, i) as real;
    var a := Choose(n - 1, i - 1) as real;
    var b := Choose(n - 1, i) as real;
    var s := Pow(p, i);
    var x := Pow(p, i - 1);
    var t := Pow(q, n - i);
    var y := Pow(q, n - 1 - i);
    assert Choose(n, i) == Choose(n - 1, i - 1) + Choose(n - 1, i);
    PascalArithmetic(c, a, b, s, x, t, y, p, q);
  }

  /** Pascal's rule on the terms: row n is p times row n - 1 shifted plus q times row n - 1. */
  lemma {:induction false} BinomialTermStep(n: nat, p: real, q: real, i: int)
    requires n > 0 && 0 <= i <= n
    ensures BinomialTermAt(n, p, q, i) == p * BinomialTermAt(n - 1, p, q, i - 1) + q * BinomialTermAt(n - 1, p, q, i)
  {
    if i == 0 {
      BinomialTermFirst(n, p, q);
    } else if i == n {
      BinomialTermLast(n, p, q);
    } else {
      BinomialTermMiddle(n, p, q, i);
    }
  }

  /** Pascal's rule builds exactly the terms `C(n, i) p^i q^(n - i)`. */
  lemma {:induction false} PascalTermClosedForm(n: nat, p: real, q: real, i: int)
    ensures PascalTerm(n, p, q, i) == BinomialTermAt(n, p, q, i)
  {
    if 0 <= i <= n && n > 0 {
      var a := PascalTerm(n - 1, p, q, i - 1);
      var b := PascalTerm(n - 1, p, q, i);
      assert PascalTerm(n, p, q, i) == p * a + q * b;
      assert a == BinomialTermAt(n - 1, p, q, i - 1) && b == BinomialTermAt(n - 1, p, q, i) by {
        PascalTermClosedForm(n - 1, p, q, i - 1);
        PascalTermClosedForm(n - 1, p, q, i);
      }
      BinomialTermStep(n, p, q, i);
    } else if i == 0 && n == 0 {
      assert BinomialTermAt(0, p, q, 0) == 1.0 * 1.0 * 1.0;
    }
  }

  /** Row n is built from row n - 1 by Pascal's rule, and row n - 1 vanishes just outside
      0..n - 1. */
  lemma {:induction false} PascalRowsStep(n: nat, p: real, q: real)
    requires n > 0
    ensures PascalRows(PascalRow(n, p, q), PascalRow(n - 1, p, q), p, q, n)
  {
  }

  /** The binomial theorem: the terms of row n add up to `(p + q)^n`. */
  lemma {:induction false} BinomialTheorem(n: nat, p: real, q: real)
    ensures Sum(PascalRow(n, p, q), 0, n + 1) == Pow(p + q, n)
  {
    if n > 0 {
      PascalRowsStep(n, p, q);
      SumOfRecurrence(PascalRow(n, p, q), PascalRow(n - 1, p, q), p, q, n);
      BinomialTheorem(n - 1, p, q);
    } else {
      SumLast(PascalRow(0, p, q), 0, 0);
    }
  }

  /** On the integers the pmf is the term of row n of `(p + (1 - p))^n`. */
  lemma {:induction false} BinomialMassIsTerm(n: nat, p: real, i: int)
    ensures BinomialMass(n, p)(i) == PascalRow(n, p, 1.0 - p)(i)
  {
    assert (i as real).Floor == i;
    PascalTermClosedForm(n, p, 1.0 - p, i);
  }

  /** The pmf adds up to 1 over its support 0..n, for every p. */
  lemma {:induction false} BinomialMassTotal(n: nat, p: real)
    ensures Sum(BinomialMass(n, p), 0, n + 1) == 1.0
  {
    forall i | 0 <= i < n + 1
      ensures BinomialMass(n, p)(i) == PascalRow(n, p, 1.0 - p)(i)
    {
      BinomialMassIsTerm(n, p, i);
    }
    SumCongruent(BinomialMass(n, p), PascalRow(n, p, 1.0 - p), 0, n + 1);
    assert Sum(PascalRow(n, p, 1.0 - p), 0, n + 1) == 1.0 by {
      BinomialTheorem(n, p, 1.0 - p);
      assert p + (1.0 - p) == 1.0;
      PowOfOne(n);
    }
  }

  /** The Binomial cdf: 0 below 0, 1 from n on, and the running sum of the pmf up to
      `floor(k)` in between. */
  function BinomialCdf(k: real, n: nat, p: real): (r: real)
    ensures 0.0 <= p <= 1.0 ==> 0.0 <= r <= 1.0
  {
    if k < 0.0 then 0.0
    else if k >= n as real then 1.0
    else
      var total := Sum(BinomialMass(n, p), 0, k.Floor + 1);
      assert 0.0 <= p <= 1.0 ==> 0.0 <= total <= 1.0 by {
        if 0.0 <= p <= 1.0 {
          SumNonnegative(BinomialMass(n, p), 0, k.Floor + 1);
          SumGrows(BinomialMass(n, p), 0, k.Floor + 1, n + 1);
          BinomialMassTotal(n, p);
        }
      }
      total
  }

  /** The loop of `binomial.cdf`: it adds `pmf(i)` for i = 0..floor(k). */
  method ComputeBinomialCdf(k: real, n: nat, p: real) returns (sum: real)
    ensures sum == BinomialCdf(k, n, p)
  {
    if k < 0.0 {
      return 0.0;
    }
    if k >= n as real {
      return 1.0;
    }
    sum := 0.0;
    var i := 0;
    while i <= k.Floor
      invariant 0 <= i <= k.Floor + 1
      invariant sum == Sum(BinomialMass(n, p), 0, i)
    {
      sum := sum + BinomialPmf(i as real, n, p);
      i := i + 1;
    }
  }

  /** The `k >= n` shortcut agrees with the full running sum (binomial theorem), so the cdf
      is the running sum of the pmf at every point. */
  lemma {:induction false} BinomialCdfIsRunningSum(k: real, n: nat, p: real)
    ensures BinomialCdf(k, n, p) == Sum(BinomialMass(n, p), 0, k.Floor + 1)
  {
    if k >= n as real {
      var top := k.Floor + 1;
      SumSplit(BinomialMass(n, p), 0, n + 1, top);
      SumOfZeros(BinomialMass(n, p), n + 1, top);
      BinomialMassTotal(n, p);
    }
  }

  /** The mean of n independent Bernoulli(p) trials. */
  function BinomialMean(n: nat, p: real): (r: real)
    ensures r == (n as real) * BernoulliMean(p)
  {
    (n as real) * p
  }

  /** The variance of n independent Bernoulli(p) trials. */
  function BinomialVariance(n: nat, p: real): (r: real)
    ensures r == (n as real) * BernoulliVariance(p)
    ensures 0.0 <= p <= 1.0 ==> r >= 0.0
  {
    (n as real) * p * (1.0 - p)
  }

  /** The heuristic median `floor(np + (p < 0.5 ? 0 : 1))`. It lies in the support 0..n for
      p < 1, but at p = 1 it is n + 1, one past the support. */
  function BinomialMedian(n: nat, p: real): (r: int)
    ensures n >= 1 && 0.0 <= p < 1.0 ==> 0 <= r <= n
    ensures p == 1.0 ==> r == n + 1
  {
    if n >= 1 && 0.0 <= p < 1.0 then
      var np := (n as real) * p;
      ScaledBelow(n as real, p);
      assert 0.0 <= np < n as real;
      (np + (if p < 0.5 then 0.0 else 1.0)).Floor
    else
      ((n as real) * p + (if p < 0.5 then 0.0 else 1.0)).Floor
  }

  lemma {:induction false} ScaledNonnegative(x: real, p: real)
    requires x >= 0.0 && p >= 0.0
    ensures x * p >= 0.0
  {
  }

  lemma {:induction false} ScaledBelow(x: real, p: real)
    requires x > 0.0 && 0.0 <= p < 1.0
    ensures 0.0 <= x * p < x
  {
    assert x * (1.0 - p) > 0.0;
  }

  /** As written, a certain success (p = 1) puts the median at n + 1, where the mass is 0,
      and for n = 0 any p >= 0.5 puts it at 1, where the mass is 0 as well. */
  lemma {:induction false} BinomialMedianOutsideSupport(n: nat, p: real)
    requires p == 1.0 || (n == 0 && 0.5 <= p <= 1.0)
    ensures BinomialMedian(n, p) == n + 1
    ensures BinomialPmf(BinomialMedian(n, p) as real, n, p) == 0.0
  {
    if p != 1.0 {
      assert (n as real) * p == 0.0;
    }
  }

  /** The median clamped to the support: the heuristic where it already lies in 0..n, and
      n where it runs past the end. */
  function BinomialMedianCorrected(n: nat, p: real): (r: int)
    ensures 0.0 <= p <= 1.0 ==> 0 <= r <= n
    ensures n >= 1 && 0.0 <= p < 1.0 ==> r == BinomialMedian(n, p)
    ensures p == 1.0 ==> r == n
  {
    var w := BinomialMedian(n, p);
    assert 0.0 <= p ==> (n as real) * p >= 0.0 by {
      if 0.0 <= p {
        ScaledNonnegative(n as real, p);
      }
    }
    if w > n then n else w
  }

  /** The support 0..n: n + 1 consecutive integers, covering every point of positive mass. */
  function BinomialSupport(n: nat, p: real): (r: seq<int>)
    ensures |r| == n + 1
    ensures forall i :: 0 <= i < |r| ==> r[i] == i
    ensures forall k: int :: k !in r ==> BinomialPmf(k as real, n, p) == 0.0
  {
    var r := seq(n + 1, i => i);
    forall k: int | 0 <= k <= n
      ensures k in r
    {
      assert r[k] == k;
    }
    r
  }

  // ---------------------------------------------------------------- Poisson

  /** `exp(-lambda) * lambda^k / k!` on the non-negative integers, 0 elsewhere. */
  function PoissonPmf(m: MathLib, k: real, lambda: real): (r: real)
    ensures r != 0.0 ==> IsInteger(k) && k >= 0.0
    ensures Sane(m) && lambda >= 0.0 ==> r >= 0.0
  {
    if k < 0.0 || !IsInteger(k) then 0.0
    else
      var i := k.Floor as nat;
      m.exp(-lambda) * Pow(lambda, i) / (Factorial(i) as real)
  }

  /** The Poisson pmf on the integers. */
  function PoissonMass(m: MathLib, lambda: real): int -> real
  {
    i => PoissonPmf(m, i as real, lambda)
  }

  /** The Poisson cdf: 0 below 0, otherwise the running sum of the pmf up to `floor(k)`. */
  function PoissonCdf(m: MathLib, k: real, lambda: real): (r: real)
    ensures Sane(m) && lambda >= 0.0 ==> r >= 0.0
    ensures r == Sum(PoissonMass(m, lambda), 0, k.Floor + 1)
  {
    if k < 0.0 then 0.0
    else
      var total := Sum(PoissonMass(m, lambda), 0, k.Floor + 1);
      assert Sane(m) && lambda >= 0.0 ==> total >= 0.0 by {
        if Sane(m) && lambda >= 0.0 {
          SumNonnegative(PoissonMass(m, lambda), 0, k.Floor + 1);
        }
      }
      total
  }

  /** The loop of `poisson.cdf`: it adds `pmf(i)` for i = 0..floor(k). */
  method ComputePoissonCdf(m: MathLib, k: real, lambda: real) returns (sum: real)
    ensures sum == PoissonCdf(m, k, lambda)
  {
    if k < 0.0 {
      return 0.0;
    }
    sum := 0.0;
    var i := 0;
    while i <= k.Floor
      invariant 0 <= i <= k.Floor + 1
      invariant sum == Sum(PoissonMass(m, lambda), 0, i)
    {
      sum := sum + PoissonPmf(m, i as real, lambda);
      i := i + 1;
    }
  }

  /** The Poisson cdf never decreases. */
  lemma {:induction false} PoissonCdfMonotone(m: MathLib, k: real, k': real, lambda: real)
    requires Sane(m) && lambda >= 0.0
    requires k <= k'
    ensures PoissonCdf(m, k, lambda) <= PoissonCdf(m, k', lambda)
  {
    var f := PoissonMass(m, lambda);
    if k.Floor + 1 <= 0 {
      SumNonnegative(f, 0, k'.Floor + 1);
    } else {
      SumGrows(f, 0, k.Floor + 1, k'.Floor + 1);
    }
  }

  /** The mean and the variance are both lambda. */
  function PoissonMean(lambda: real): (r: real)
    ensures r == PoissonVariance(lambda)
  {
    lambda
  }

  function PoissonVariance(lambda: real): (r: real)
    ensures lambda >= 0.0 ==> r >= 0.0
  {
    lambda
  }

  /** The approximation `floor(lambda + 1/3 - 0.02/lambda)`: an integer for lambda != 0,
      -Infinity at lambda = 0 (the division by zero). */
  function PoissonMedian(lambda: real): (r: Num)
    ensures lambda != 0.0 ==> r.Fin? && IsInteger(r.v)
    ensures lambda > 0.0 ==> r.v <= lambda + 1.0 / 3.0
    ensures lambda == 0.0 ==> r == NegInf
  {
    FloorOf(Sub(Fin(lambda + 1.0 / 3.0), Quot(0.02, lambda)))
  }

  /** The plotting range 0..max(ceil(3 lambda), 10): consecutive integers from 0 that reach
      at least 10 and at least 3 lambda (a truncation of the unbounded support). */
  function PoissonSupport(lambda: real): (r: seq<int>)
    ensures |r| == MaxInt(Ceil(lambda * 3.0), 10) + 1
    ensures |r| >= 11
    ensures 3.0 * lambda <= (|r| - 1) as real
    ensures forall i :: 0 <= i < |r| ==> r[i] == i
  {
    var top := MaxInt(Ceil(lambda * 3.0), 10);
    seq(top + 1, i => i)
  }

  // ---------------------------------------------------------------- Geometric

  /** `(1 - p)^(k - 1) * p` on the integers from 1, 0 elsewhere. */
  function GeometricPmf(k: real, p: real): (r: real)
    ensures r != 0.0 ==> IsInteger(k) && k >= 1.0
    ensures 0.0 <= p <= 1.0 ==> 0.0 <= r <= p
  {
    if k < 1.0 || !IsInteger(k) then 0.0
    else
      var e := (k.Floor - 1) as nat;
      var x := Pow(1.0 - p, e);
      assert 0.0 <= p <= 1.0 ==> 0.0 <= x * p <= p by {
        if 0.0 <= p <= 1.0 {
          PowInUnitInterval(1.0 - p, e);
          assert (1.0 - x) * p >= 0.0;
        }
      }
      x * p
  }

  /** The Geometric pmf on the integers. */
  function GeometricMass(p: real): int -> real
  {
    i => GeometricPmf(i as real, p)
  }

  /** The closed form `1 - (1 - p)^floor(k)` for k >= 1, and 0 below 1. */
  function GeometricCdf(k: real, p: real): (r: real)
    ensures 0.0 <= p <= 1.0 ==> 0.0 <= r <= 1.0
  {
    if k < 1.0 then 0.0
    else
      var x := Pow(1.0 - p, k.Floor as nat);
      assert 0.0 <= p <= 1.0 ==> 0.0 <= x <= 1.0 by {
        if 0.0 <= p <= 1.0 {
          PowInUnitInterval(1.0 - p, k.Floor as nat);
        }
      }
      1.0 - x
  }

  /** The pmf at a positive integer n is `(1 - p)^(n-1) p`. */
  lemma {:induction false} GeometricMassAt(p: real, n: nat)
    requires n >= 1
    ensures GeometricMass(p)(n) == Pow(1.0 - p, n - 1) * p
  {
    assert (n as real).Floor == n;
  }

  lemma {:induction false} SeriesStep(s: real, x: real, p: real)
    requires s == 1.0 - x
    ensures s + x * p == 1.0 - (1.0 - p) * x
  {
  }

  /** f is 0 at 0 and `(1 - p)^(i-1) p` at 1..n. */
  ghost predicate GeometricTerms(f: int -> real, p: real, n: nat)
  {
    f(0) == 0.0 && forall i: nat {:trigger f(i)} :: 1 <= i <= n ==> f(i) == Pow(1.0 - p, i - 1) * p
  }

  lemma {:induction false} GeometricSum(f: int -> real, p: real, n: nat)
    requires GeometricTerms(f, p, n)
    ensures Sum(f, 0, n + 1) == 1.0 - Pow(1.0 - p, n)
  {
    if n > 0 {
      var x := Pow(1.0 - p, n - 1);
      assert Sum(f, 0, n) == 1.0 - x by {
        assert GeometricTerms(f, p, n - 1);
        GeometricSum(f, p, n - 1);
      }
      SumLast(f, 0, n);
      assert f(n) == x * p;
      assert Pow(1.0 - p, n) == (1.0 - p) * x;
      SeriesStep(Sum(f, 0, n), x, p);
    } else {
      SumLast(f, 0, 0);
    }
  }

  /** The finite geometric series: the pmf summed over 0..n is `1 - (1 - p)^n`. */
  lemma {:induction false} GeometricSeries(p: real, n: nat)
    ensures Sum(GeometricMass(p), 0, n + 1) == 1.0 - Pow(1.0 - p, n)
  {
    forall i: nat | 1 <= i <= n
      ensures GeometricMass(p)(i) == Pow(1.0 - p, i - 1) * p
    {
      GeometricMassAt(p, i);
    }
    GeometricSum(GeometricMass(p), p, n);
  }

  /** The closed-form cdf equals the running sum of the pmf at every point. */
  lemma {:induction false} GeometricCdfIsRunningSum(k: real, p: real)
    ensures GeometricCdf(k, p) == Sum(GeometricMass(p), 0, k.Floor + 1)
  {
    if k >= 0.0 {
      GeometricSeries(p, k.Floor as nat);
    }
  }

  /** `1 / p`: +Infinity at p = 0, at least 1 for p in (0, 1]. */
  function GeometricMean(p: real): (r: Num)
    ensures 0.0 < p <= 1.0 ==> r.Fin? && r.v >= 1.0
    ensures p == 0.0 ==> r == PosInf
  {
    Quot(1.0, p)
  }

  /** `(1 - p) / p^2`: +Infinity at p = 0, finite and non-negative on (0, 1]. */
  function GeometricVariance(p: real): (r: Num)
    ensures 0.0 < p <= 1.0 ==> r.Fin? && r.v >= 0.0
    ensures p == 0.0 ==> r == PosInf
  {
    Quot(1.0 - p, p * p)
  }

  /** `ceil(-1 / log2(1 - p))`: 0 at p = 1 (where log2(0) is -Infinity), an integer on (0, 1). */
  function GeometricMedian(m: MathLib, p: real): (r: Num)
    ensures p == 1.0 ==> r == Fin(0.0)
    ensures p < 1.0 && m.log2(1.0 - p) != 0.0 ==> r.Fin? && IsInteger(r.v)
  {
    CeilOf(Div(Fin(-1.0), Log2Of(m, 1.0 - p)))
  }

  /** The plotting range 1..max(ceil(3/p), 20). At p = 0 the length is Infinity and
      `Array.from` throws a RangeError. */
  function GeometricSupport(p: real): (r: Result<seq<int>>)
    ensures r.Err? <==> p == 0.0
    ensures r.Ok? ==> |r.value| == MaxInt(Ceil(3.0 / p), 20)
    ensures r.Ok? ==> |r.value| >= 20 && forall i :: 0 <= i < |r.value| ==> r.value[i] == i + 1
    ensures p > 0.0 && r.Ok? ==> 3.0 / p <= |r.value| as real
  {
    if p == 0.0 then Err("RangeError: Invalid array length")
    else
      var top := MaxInt(Ceil(3.0 / p), 20);
      Ok(seq(top, i => i + 1))
  }
}
