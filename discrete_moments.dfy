/** The moments of the Binomial and Poisson distributions, tied to their pmfs.

    The engine states the mean and the variance of each family as closed forms. Here the
    Binomial closed forms are proved to be the first moment and the second central moment
    of the Binomial pmf over its support 0..n, and the Poisson mean is proved to be the
    first moment of the Poisson pmf, up to any truncation point, in the form
    `sum_{i <= N} i P(i) = lambda * sum_{i < N} P(i)` (and likewise for the second factorial
    moment), which gives `lambda` in the limit where the pmf sums to 1. */
module DiscreteMoments {
  import opened Primitives
  import opened Sums
  import opened DiscreteDistributions

  /** The terms `i f(i)` of the first moment of f. */
  function ByValue(f: int -> real): int -> real
  {
    i => (i as real) * f(i)
  }

  /** The terms `i (i - 1) f(i)` of the second factorial moment of f. */
  function ByFalling(f: int -> real): int -> real
  {
    i => (i as real) * ((i as real) - 1.0) * f(i)
  }

  /** The terms `(i - mu)^2 f(i)` of the second moment of f about `mu`. */
  function BySquaredDeviation(f: int -> real, mu: real): int -> real
  {
    i => ((i as real) - mu) * ((i as real) - mu) * f(i)
  }

  // ---------------------------------------------------------------- Binomial

  /** `p a + q c`. */
  function Mix(p: real, q: real, a: real, c: real): real
  {
    p * a + q * c
  }

  /** Pascal's rule at index i: `p g(i - 1) + q g(i)`. */
  function RowStep(g: int -> real, p: real, q: real, i: int): real
  {
    Mix(p, q, g(i - 1), g(i))
  }

  /** Row f is built from row g by Pascal's rule on 0..j, and g vanishes at -1 and at j. The
      rule is used only at the indices where a proof names `RowStep`. */
  ghost predicate BuiltByPascal(f: int -> real, g: int -> real, p: real, q: real, j: nat)
  {
    && (forall i {:trigger RowStep(g, p, q, i)} :: 0 <= i <= j ==> f(i) == RowStep(g, p, q, i))
    && g(-1) == 0.0
    && g(j) == 0.0
  }

  /** Row n of the expansion is built from row n - 1 by Pascal's rule. */
  lemma {:induction false} PascalBuilds(n: nat, p: real, q: real)
    requires n > 0
    ensures BuiltByPascal(PascalRow(n, p, q), PascalRow(n - 1, p, q), p, q, n)
  {
    PascalRowsStep(n, p, q);
    forall i | 0 <= i <= n
      ensures PascalRow(n, p, q)(i) == RowStep(PascalRow(n - 1, p, q), p, q, i)
    {
    }
  }

  /** `S(k - 1) + t(k - 1)`: the running sum S of t carried one index further. */
  function Extend(S: int -> real, t: int -> real, k: int): real
  {
    S(k - 1) + t(k - 1)
  }

  /** S is the running sum of t on 0..n: it starts at 0 and `S(k) = S(k - 1) + t(k - 1)`
      for k in 1..n, a step used only where a proof names `Extend`. */
  ghost predicate RunningSum(S: int -> real, t: int -> real, n: int)
  {
    && S(0) == 0.0
    && forall k {:trigger Extend(S, t, k)} :: 1 <= k <= n ==> S(k) == Extend(S, t, k)
  }

  /** `k => Sum(t, 0, k)`, the running sums of t. */
  function Partial(t: int -> real): int -> real
  {
    k => Sum(t, 0, k)
  }

  lemma {:induction false} PartialIsRunningSum(t: int -> real, n: int)
    ensures RunningSum(Partial(t), t, n)
  {
    forall k | 1 <= k <= n
      ensures Partial(t)(k) == Extend(Partial(t), t, k)
    {
    }
  }

  /** One more term of the first moment of a row built by Pascal's rule: `s` is the first
      moment of f so far, `a0`, `b0` and `c0` the first moment of g one index behind, the
      total of g one index behind and the first moment of g, and the primed values the
      same one index further on. */
  lemma {:induction false} ValueStepArithmetic(s: real, a0: real, b0: real, c0: real, s': real, a0': real, b0': real, c0': real,
                                               x: real, y: real, a: real, b: real, c: real, p: real, q: real)
    requires s == Mix(p, q, a0 + b0, c0)
    requires c == Mix(p, q, a, b) && y == x - 1.0
    requires s' == s + x * c && a0' == a0 + y * a && b0' == b0 + a && c0' == c0 + x * b
    ensures s' == Mix(p, q, a0' + b0', c0')
  {
  }

  /** The first moment F1 of a row f built by Pascal's rule from row g, over 0..hi - 1:
      `p` times the first moment G1 of g plus its total G0 over 0..hi - 2, plus `q` times
      the first moment of g over 0..hi - 1. */
  lemma {:induction false} FirstMomentPrefix(f: int -> real, g: int -> real, p: real, q: real, j: nat,
                                             F1: int -> real, G0: int -> real, G1: int -> real, hi: nat)
    requires BuiltByPascal(f, g, p, q, j)
    requires RunningSum(F1, ByValue(f), j + 1) && RunningSum(G0, g, j + 1) && RunningSum(G1, ByValue(g), j + 1)
    requires 1 <= hi <= j + 1
    ensures F1(hi) == Mix(p, q, G1(hi - 1) + G0(hi - 1), G1(hi))
  {
    assert F1(hi) == Extend(F1, ByValue(f), hi);
    assert G1(hi) == Extend(G1, ByValue(g), hi);
    if hi == 1 {
      assert Mix(p, q, 0.0 + 0.0, 0.0) == 0.0;
    } else {
      var x := (hi - 1) as real;
      assert f(hi - 1) == RowStep(g, p, q, hi - 1);
      assert G1(hi - 1) == Extend(G1, ByValue(g), hi - 1);
      assert G0(hi - 1) == Extend(G0, g, hi - 1);
      FirstMomentPrefix(f, g, p, q, j, F1, G0, G1, hi - 1);
      ValueStepArithmetic(F1(hi - 1), G1(hi - 1 - 1), G0(hi - 1 - 1), G1(hi - 1), F1(hi), G1(hi - 1), G0(hi - 1), G1(hi),
                          x, (hi - 1 - 1) as real, g(hi - 1 - 1), g(hi - 1), f(hi - 1), p, q);
    }
  }

  /** One more term of the second factorial moment of a row built by Pascal's rule, with
      `a0`, `b0` and `c0` the factorial moment of g one index behind, the first moment of g
      one index behind and the factorial moment of g. */
  lemma {:induction false} FallingStepArithmetic(s: real, a0: real, b0: real, c0: real, s': real, a0': real, b0': real, c0': real,
                                                 x: real, y: real, a: real, b: real, c: real, p: real, q: real)
    requires s == Mix(p, q, a0 + 2.0 * b0, c0)
    requires c == Mix(p, q, a, b) && y == x - 1.0
    requires s' == s + x * (x - 1.0) * c && a0' == a0 + y * (y - 1.0) * a && b0' == b0 + y * a
    requires c0' == c0 + x * (x - 1.0) * b
    ensures s' == Mix(p, q, a0' + 2.0 * b0', c0')
  {
  }

  /** The second factorial moment F2 of a row f built by Pascal's rule from row g, over
      0..hi - 1: `p` times the factorial moment G2 of g plus twice its first moment G1 over
      0..hi - 2, plus `q` times the factorial moment of g over 0..hi - 1. */
  lemma {:induction false} FactorialMomentPrefix(f: int -> real, g: int -> real, p: real, q: real, j: nat,
                                                 F2: int -> real, G1: int -> real, G2: int -> real, hi: nat)
    requires BuiltByPascal(f, g, p, q, j)
    requires RunningSum(F2, ByFalling(f), j + 1) && RunningSum(G1, ByValue(g), j + 1) && RunningSum(G2, ByFalling(g), j + 1)
    requires 1 <= hi <= j + 1
    ensures F2(hi) == Mix(p, q, G2(hi - 1) + 2.0 * G1(hi - 1), G2(hi))
  {
    assert F2(hi) == Extend(F2, ByFalling(f), hi);
    assert G2(hi) == Extend(G2, ByFalling(g), hi);
    if hi == 1 {
      assert Mix(p, q, 0.0 + 2.0 * 0.0, 0.0) == 0.0;
    } else {
      var x := (hi - 1) as real;
      assert f(hi - 1) == RowStep(g, p, q, hi - 1);
      assert G2(hi - 1) == Extend(G2, ByFalling(g), hi - 1);
      assert G1(hi - 1) == Extend(G1, ByValue(g), hi - 1);
      FactorialMomentPrefix(f, g, p, q, j, F2, G1, G2, hi - 1);
      FallingStepArithmetic(F2(hi - 1), G2(hi - 1 - 1), G1(hi - 1 - 1), G2(hi - 1), F2(hi), G2(hi - 1), G1(hi - 1), G2(hi),
                            x, (hi - 1 - 1) as real, g(hi - 1 - 1), g(hi - 1), f(hi - 1), p, q);
    }
  }

  /** Row n of the expansion of `(p + (1 - p))^n` adds up to 1. */
  lemma {:induction false} PascalRowTotal(n: nat, p: real)
    ensures Partial(PascalRow(n, p, 1.0 - p))(n + 1) == 1.0
  {
    BinomialTheorem(n, p, 1.0 - p);
    assert p + (1.0 - p) == 1.0;
    PowOfOne(n);
  }

  /** The first moment of row n from that of row n - 1 (`m`) and the total of row n - 1 (`t`). */
  lemma {:induction false} MeanStepArithmetic(n: real, n1: real, p: real, s: real, m: real, m': real, t: real)
    requires n1 == n - 1.0 && m == n1 * p && m' == m && t == 1.0
    requires s == Mix(p, 1.0 - p, m + t, m')
    ensures s == n * p
  {
  }

  /** A row f built by Pascal's rule from a row g of total 1 and first moment `(n - 1) p`
      has first moment `n p`. */
  lemma {:induction false} FirstMomentStep(f: int -> real, g: int -> real, p: real, n: nat, F1: int -> real, G0: int -> real, G1: int -> real)
    requires n >= 1 && BuiltByPascal(f, g, p, 1.0 - p, n)
    requires RunningSum(F1, ByValue(f), n + 1) && RunningSum(G0, g, n + 1) && RunningSum(G1, ByValue(g), n + 1)
    requires G1(n - 1 + 1) == ((n - 1) as real) * p && G0(n - 1 + 1) == 1.0
    ensures F1(n + 1) == (n as real) * p
  {
    FirstMomentPrefix(f, g, p, 1.0 - p, n, F1, G0, G1, n + 1);
    assert G1(n + 1) == Extend(G1, ByValue(g), n + 1);
    MeanStepArithmetic(n as real, (n - 1) as real, p, F1(n + 1), G1(n), G1(n + 1), G0(n));
  }

  /** The first moment of row n of the expansion of `(p + (1 - p))^n` is `n p`. */
  lemma {:induction false} PascalFirstMoment(n: nat, p: real)
    ensures Partial(ByValue(PascalRow(n, p, 1.0 - p)))(n + 1) == (n as real) * p
  {
    var row := PascalRow(n, p, 1.0 - p);
    if n == 0 {
      PartialIsRunningSum(ByValue(row), 1);
      assert Partial(ByValue(row))(1) == Extend(Partial(ByValue(row)), ByValue(row), 1);
    } else {
      var g := PascalRow(n - 1, p, 1.0 - p);
      PascalBuilds(n, p, 1.0 - p);
      PartialIsRunningSum(ByValue(row), n + 1);
      PartialIsRunningSum(g, n + 1);
      PartialIsRunningSum(ByValue(g), n + 1);
      PascalFirstMoment(n - 1, p);
      PascalRowTotal(n - 1, p);
      FirstMomentStep(row, g, p, n, Partial(ByValue(row)), Partial(g), Partial(ByValue(g)));
    }
  }

  /** The factorial moment of row n from those of row n - 1: its factorial moment `m` and
      its first moment `v`. */
  lemma {:induction false} FactorialStepArithmetic(n: real, n1: real, p: real, s: real, m: real, m': real, v: real)
    requires n1 == n - 1.0 && m == n1 * (n1 - 1.0) * (p * p) && m' == m && v == n1 * p
    requires s == Mix(p, 1.0 - p, m + 2.0 * v, m')
    ensures s == n * (n - 1.0) * (p * p)
  {
  }

  /** The second factorial moment `n (n - 1) p^2` of row n. */
  function FallingMomentOfRow(n: int, p: real): real
  {
    (n as real) * ((n as real) - 1.0) * (p * p)
  }

  /** A row f built by Pascal's rule from a row g of first moment `(n - 1) p` and factorial
      moment `(n - 1) (n - 2) p^2` has factorial moment `n (n - 1) p^2`. */
  lemma {:induction false} FactorialMomentStep(f: int -> real, g: int -> real, p: real, n: nat, F2: int -> real, G1: int -> real, G2: int -> real)
    requires n >= 1 && BuiltByPascal(f, g, p, 1.0 - p, n)
    requires RunningSum(F2, ByFalling(f), n + 1) && RunningSum(G1, ByValue(g), n + 1) && RunningSum(G2, ByFalling(g), n + 1)
    requires G2(n - 1 + 1) == FallingMomentOfRow(n - 1, p) && G1(n - 1 + 1) == ((n - 1) as real) * p
    ensures F2(n + 1) == FallingMomentOfRow(n, p)
  {
    FactorialMomentPrefix(f, g, p, 1.0 - p, n, F2, G1, G2, n + 1);
    assert G2(n + 1) == Extend(G2, ByFalling(g), n + 1);
    FactorialStepArithmetic(n as real, (n - 1) as real, p, F2(n + 1), G2(n), G2(n + 1), G1(n));
  }

  /** The second factorial moment of row n of the expansion is `n (n - 1) p^2`. */
  lemma {:induction false} PascalFactorialMoment(n: nat, p: real)
    ensures Partial(ByFalling(PascalRow(n, p, 1.0 - p)))(n + 1) == FallingMomentOfRow(n, p)
  {
    var row := PascalRow(n, p, 1.0 - p);
    if n == 0 {
      PartialIsRunningSum(ByFalling(row), 1);
      assert Partial(ByFalling(row))(1) == Extend(Partial(ByFalling(row)), ByFalling(row), 1);
    } else {
      var g := PascalRow(n - 1, p, 1.0 - p);
      PascalBuilds(n, p, 1.0 - p);
      PartialIsRunningSum(ByFalling(row), n + 1);
      PartialIsRunningSum(ByValue(g), n + 1);
      PartialIsRunningSum(ByFalling(g), n + 1);
      PascalFactorialMoment(n - 1, p);
      PascalFirstMoment(n - 1, p);
      FactorialMomentStep(row, g, p, n, Partial(ByFalling(row)), Partial(ByValue(g)), Partial(ByFalling(g)));
    }
  }

  /** Functions that agree on a range have the same first moment there. */
  lemma {:induction false} FirstMomentsCongruent(f: int -> real, g: int -> real, lo: int, hi: int)
    requires forall i :: lo <= i < hi ==> f(i) == g(i)
    ensures Sum(ByValue(f), lo, hi) == Sum(ByValue(g), lo, hi)
  {
    forall i | lo <= i < hi
      ensures ByValue(f)(i) == ByValue(g)(i)
    {
    }
    SumCongruent(ByValue(f), ByValue(g), lo, hi);
  }

  /** Functions that agree on a range have the same factorial moment there. */
  lemma {:induction false} FactorialMomentsCongruent(f: int -> real, g: int -> real, lo: int, hi: int)
    requires forall i :: lo <= i < hi ==> f(i) == g(i)
    ensures Sum(ByFalling(f), lo, hi) == Sum(ByFalling(g), lo, hi)
  {
    forall i | lo <= i < hi
      ensures ByFalling(f)(i) == ByFalling(g)(i)
    {
    }
    SumCongruent(ByFalling(f), ByFalling(g), lo, hi);
  }

  /** The Binomial pmf and row n of the expansion have the same moments over 0..n. */
  lemma {:induction false} BinomialMomentsOfRow(n: nat, p: real)
    ensures Sum(ByValue(BinomialMass(n, p)), 0, n + 1) == Sum(ByValue(PascalRow(n, p, 1.0 - p)), 0, n + 1)
    ensures Sum(ByFalling(BinomialMass(n, p)), 0, n + 1) == Sum(ByFalling(PascalRow(n, p, 1.0 - p)), 0, n + 1)
  {
    forall i | 0 <= i < n + 1
      ensures BinomialMass(n, p)(i) == PascalRow(n, p, 1.0 - p)(i)
    {
      BinomialMassIsTerm(n, p, i);
    }
    FirstMomentsCongruent(BinomialMass(n, p), PascalRow(n, p, 1.0 - p), 0, n + 1);
    FactorialMomentsCongruent(BinomialMass(n, p), PascalRow(n, p, 1.0 - p), 0, n + 1);
  }

  /** The Binomial mean `n p` is the first moment of the Binomial pmf over its support. */
  lemma {:induction false} BinomialMeanIsFirstMoment(n: nat, p: real)
    ensures Sum(ByValue(BinomialMass(n, p)), 0, n + 1) == BinomialMean(n, p)
  {
    BinomialMomentsOfRow(n, p);
    PascalFirstMoment(n, p);
  }

  /** The second factorial moment of the Binomial pmf over its support is `n (n - 1) p^2`. */
  lemma {:induction false} BinomialFactorialMoment(n: nat, p: real)
    ensures Sum(ByFalling(BinomialMass(n, p)), 0, n + 1) == (n as real) * ((n as real) - 1.0) * (p * p)
  {
    BinomialMomentsOfRow(n, p);
    PascalFactorialMoment(n, p);
  }

  /** `(x - mu)^2 y` split into the falling, the first and the zeroth moment terms. */
  lemma {:induction false} SquaredDeviationSplit(x: real, mu: real, y: real)
    ensures (x - mu) * (x - mu) * y == x * (x - 1.0) * y + (1.0 - 2.0 * mu) * (x * y) + mu * mu * y
  {
  }

  /** `a + c1 b + c2 c`. */
  function Combination(a: real, b: real, c: real, c1: real, c2: real): real
  {
    a + c1 * b + c2 * c
  }

  /** One more term of running sums D, A, B and C whose terms satisfy
      `d = a + c1 b + c2 c`. */
  lemma {:induction false} CombineArithmetic(s: real, s2: real, s1: real, s0: real, s': real, s2': real, s1': real, s0': real,
                                             t: real, t2: real, t1: real, t0: real, c1: real, c2: real)
    requires s == Combination(s2, s1, s0, c1, c2) && t == Combination(t2, t1, t0, c1, c2)
    requires s' == s + t && s2' == s2 + t2 && s1' == s1 + t1 && s0' == s0 + t0
    ensures s' == Combination(s2', s1', s0', c1, c2)
  {
  }

  /** Running sums of terms related by `d = a + c1 b + c2 c` on 0..n - 1 are related in the
      same way at every index up to n. */
  lemma {:induction false} CombinedPrefix(d: int -> real, a: int -> real, b: int -> real, c: int -> real, c1: real, c2: real,
                                          D: int -> real, A: int -> real, B: int -> real, C: int -> real, n: nat, hi: nat)
    requires forall i :: 0 <= i < n ==> d(i) == Combination(a(i), b(i), c(i), c1, c2)
    requires RunningSum(D, d, n) && RunningSum(A, a, n) && RunningSum(B, b, n) && RunningSum(C, c, n)
    requires hi <= n
    ensures D(hi) == Combination(A(hi), B(hi), C(hi), c1, c2)
  {
    if hi > 0 {
      assert D(hi) == Extend(D, d, hi);
      assert A(hi) == Extend(A, a, hi);
      assert B(hi) == Extend(B, b, hi);
      assert C(hi) == Extend(C, c, hi);
      CombinedPrefix(d, a, b, c, c1, c2, D, A, B, C, n, hi - 1);
      CombineArithmetic(D(hi - 1), A(hi - 1), B(hi - 1), C(hi - 1), D(hi), A(hi), B(hi), C(hi),
                        d(hi - 1), a(hi - 1), b(hi - 1), c(hi - 1), c1, c2);
    }
  }

  /** Each term `(i - mu)^2 f(i)` is the factorial moment term plus `1 - 2 mu` times the
      first moment term plus `mu^2` times `f(i)`. */
  lemma {:induction false} SquaredDeviationTerms(f: int -> real, mu: real, n: int)
    ensures forall i :: 0 <= i < n ==>
              BySquaredDeviation(f, mu)(i) == Combination(ByFalling(f)(i), ByValue(f)(i), f(i), 1.0 - 2.0 * mu, mu * mu)
  {
    forall i | 0 <= i < n
      ensures BySquaredDeviation(f, mu)(i) == Combination(ByFalling(f)(i), ByValue(f)(i), f(i), 1.0 - 2.0 * mu, mu * mu)
    {
      SquaredDeviationSplit(i as real, mu, f(i));
    }
  }

  /** A second moment about `mu = n p` from a total of 1, a first moment of `n p` and a
      factorial moment of `n (n - 1) p^2`. */
  lemma {:induction false} VarianceArithmetic(n: real, p: real, mu: real, s: real, s2: real, s1: real, s0: real)
    requires mu == n * p && s0 == 1.0 && s1 == n * p && s2 == n * (n - 1.0) * (p * p)
    requires s == Combination(s2, s1, s0, 1.0 - 2.0 * mu, mu * mu)
    ensures s == n * p * (1.0 - p)
  {
  }

  /** Running sums over 0..n of a pmf f with total 1, first moment `n p` and factorial
      moment `n (n - 1) p^2` give a second moment `n p (1 - p)` about `n p`. */
  lemma {:induction false} VarianceOfRunningSums(f: int -> real, n: nat, p: real, mu: real,
                                                 D: int -> real, F2: int -> real, F1: int -> real, F0: int -> real)
    requires mu == (n as real) * p
    requires RunningSum(D, BySquaredDeviation(f, mu), n + 1) && RunningSum(F2, ByFalling(f), n + 1)
    requires RunningSum(F1, ByValue(f), n + 1) && RunningSum(F0, f, n + 1)
    requires F0(n + 1) == 1.0 && F1(n + 1) == (n as real) * p && F2(n + 1) == (n as real) * ((n as real) - 1.0) * (p * p)
    ensures D(n + 1) == (n as real) * p * (1.0 - p)
  {
    SquaredDeviationTerms(f, mu, n + 1);
    CombinedPrefix(BySquaredDeviation(f, mu), ByFalling(f), ByValue(f), f, 1.0 - 2.0 * mu, mu * mu, D, F2, F1, F0, n + 1, n + 1);
    VarianceArithmetic(n as real, p, mu, D(n + 1), F2(n + 1), F1(n + 1), F0(n + 1));
  }

  /** The Binomial variance `n p (1 - p)` is the second moment of the Binomial pmf about its
      mean. */
  lemma {:induction false} BinomialVarianceIsSecondMoment(n: nat, p: real)
    ensures Sum(BySquaredDeviation(BinomialMass(n, p), BinomialMean(n, p)), 0, n + 1) == BinomialVariance(n, p)
  {
    var f := BinomialMass(n, p);
    var mu := BinomialMean(n, p);
    BinomialFactorialMoment(n, p);
    BinomialMeanIsFirstMoment(n, p);
    BinomialMassTotal(n, p);
    PartialIsRunningSum(BySquaredDeviation(f, mu), n + 1);
    PartialIsRunningSum(ByFalling(f), n + 1);
    PartialIsRunningSum(ByValue(f), n + 1);
    PartialIsRunningSum(f, n + 1);
    VarianceOfRunningSums(f, n, p, mu, Partial(BySquaredDeviation(f, mu)), Partial(ByFalling(f)), Partial(ByValue(f)), Partial(f));
  }

  // ---------------------------------------------------------------- Poisson

  /** `e lambda^i / i!` on the non-negative integers and 0 below; with `e = exp(-lambda)`
      this is the Poisson pmf. */
  function PoissonTerm(e: real, lambda: real, i: int): real
  {
    if i < 0 then 0.0 else e * Pow(lambda, i) / (Factorial(i) as real)
  }

  /** The terms of the Poisson pmf as a function of the index. */
  function PoissonTerms(e: real, lambda: real): int -> real
  {
    i => PoissonTerm(e, lambda, i)
  }

  /** The Poisson pmf at an integer is its term. */
  lemma {:induction false} PoissonMassIsTerm(m: MathLib, lambda: real, e: real, i: int)
    requires e == m.exp(-lambda)
    ensures PoissonMass(m, lambda)(i) == PoissonTerms(e, lambda)(i)
  {
    assert (i as real).Floor == i;
  }

  lemma {:induction false} PoissonArithmetic(k: real, e: real, l: real, x: real, f: real)
    requires k > 0.0 && f > 0.0
    ensures k * (e * (l * x) / (k * f)) == l * (e * x / f)
  {
    var q := e * x / f;
    assert q * f == e * x;
    assert (l * q) * (k * f) == e * (l * x) * k;
  }

  /** `i T(i) = lambda T(i - 1)` on all the integers. */
  lemma {:induction false} PoissonTermAbsorbs(e: real, lambda: real, i: int)
    ensures (i as real) * PoissonTerm(e, lambda, i) == lambda * PoissonTerm(e, lambda, i - 1)
  {
    if i >= 1 {
      var x := Pow(lambda, i - 1);
      var f := Factorial(i - 1) as real;
      assert Pow(lambda, i) == lambda * x;
      assert Factorial(i) as real == (i as real) * f;
      PoissonArithmetic(i as real, e, lambda, x, f);
    }
  }

  /** `lambda f(i - 1)`: a term shifted up by one and scaled by `lambda`. */
  function Shift(f: int -> real, lambda: real, i: int): real
  {
    lambda * f(i - 1)
  }

  /** `i f(i) = lambda f(i - 1)` for i in 0..n, used only where a proof names `Shift`. */
  ghost predicate Absorbs(f: int -> real, lambda: real, n: int)
  {
    forall i {:trigger Shift(f, lambda, i)} :: 0 <= i <= n ==> (i as real) * f(i) == Shift(f, lambda, i)
  }

  lemma {:induction false} PoissonTermsAbsorb(e: real, lambda: real, n: int)
    ensures Absorbs(PoissonTerms(e, lambda), lambda, n)
  {
    forall i | 0 <= i <= n
      ensures (i as real) * PoissonTerms(e, lambda)(i) == Shift(PoissonTerms(e, lambda), lambda, i)
    {
      PoissonTermAbsorbs(e, lambda, i);
    }
  }

  /** One more term of a running sum `s` that stays `l` times a running sum `a`. */
  lemma {:induction false} AbsorbArithmetic(s: real, a: real, s': real, a': real, c: real, b: real, l: real)
    requires s == l * a && s' == s + c && c == l * b && a' == a + b
    ensures s' == l * a'
  {
  }

  /** For f with `i f(i) = lambda f(i - 1)`, the first moment F1 over 0..hi - 1 is
      `lambda` times the total F0 over 0..hi - 2. */
  lemma {:induction false} AbsorbedFirstPrefix(f: int -> real, lambda: real, n: nat, F1: int -> real, F0: int -> real, hi: nat)
    requires Absorbs(f, lambda, n) && RunningSum(F1, ByValue(f), n + 1) && RunningSum(F0, f, n + 1)
    requires 1 <= hi <= n + 1
    ensures F1(hi) == lambda * F0(hi - 1)
  {
    assert F1(hi) == Extend(F1, ByValue(f), hi);
    assert ((hi - 1) as real) * f(hi - 1) == Shift(f, lambda, hi - 1);
    if hi > 1 {
      assert F0(hi - 1) == Extend(F0, f, hi - 1);
      AbsorbedFirstPrefix(f, lambda, n, F1, F0, hi - 1);
      AbsorbArithmetic(F1(hi - 1), F0(hi - 1 - 1), F1(hi), F0(hi - 1), ByValue(f)(hi - 1), f(hi - 1 - 1), lambda);
    }
  }

  /** `AbsorbedFirstPrefix` with the lower index named by the caller. */
  lemma {:induction false} AbsorbedFirstMoment(f: int -> real, lambda: real, n: nat, F1: int -> real, F0: int -> real, hi: nat, lo: nat)
    requires Absorbs(f, lambda, n) && RunningSum(F1, ByValue(f), n + 1) && RunningSum(F0, f, n + 1)
    requires 1 <= hi <= n + 1 && lo + 1 == hi
    ensures F1(hi) == lambda * F0(lo)
  {
    AbsorbedFirstPrefix(f, lambda, n, F1, F0, hi);
  }

  /** `x (x - 1) u = l (y w)` when `y = x - 1` and `x u = l w`. */
  lemma {:induction false} FallingAbsorbArithmetic(x: real, y: real, u: real, w: real, l: real)
    requires y == x - 1.0 && x * u == l * w
    ensures x * (x - 1.0) * u == l * (y * w)
  {
    assert x * (x - 1.0) * u == (x - 1.0) * (x * u);
  }

  /** For f with `i f(i) = lambda f(i - 1)`, the factorial moment F2 over 0..hi - 1 is
      `lambda` times the first moment F1 over 0..hi - 2. */
  lemma {:induction false} AbsorbedFallingPrefix(f: int -> real, lambda: real, n: nat, F2: int -> real, F1: int -> real, hi: nat)
    requires Absorbs(f, lambda, n) && RunningSum(F2, ByFalling(f), n + 1) && RunningSum(F1, ByValue(f), n + 1)
    requires 1 <= hi <= n + 1
    ensures F2(hi) == lambda * F1(hi - 1)
  {
    assert F2(hi) == Extend(F2, ByFalling(f), hi);
    if hi > 1 {
      var x := (hi - 1) as real;
      var y := (hi - 1 - 1) as real;
      assert x * f(hi - 1) == Shift(f, lambda, hi - 1);
      FallingAbsorbArithmetic(x, y, f(hi - 1), f(hi - 1 - 1), lambda);
      assert F1(hi - 1) == Extend(F1, ByValue(f), hi - 1);
      AbsorbedFallingPrefix(f, lambda, n, F2, F1, hi - 1);
      AbsorbArithmetic(F2(hi - 1), F1(hi - 1 - 1), F2(hi), F1(hi - 1), ByFalling(f)(hi - 1), ByValue(f)(hi - 1 - 1), lambda);
    }
  }

  /** `AbsorbedFallingPrefix` with the lower index named by the caller. */
  lemma {:induction false} AbsorbedFactorialMoment(f: int -> real, lambda: real, n: nat, F2: int -> real, F1: int -> real, hi: nat, lo: nat)
    requires Absorbs(f, lambda, n) && RunningSum(F2, ByFalling(f), n + 1) && RunningSum(F1, ByValue(f), n + 1)
    requires 1 <= hi <= n + 1 && lo + 1 == hi
    ensures F2(hi) == lambda * F1(lo)
  {
    AbsorbedFallingPrefix(f, lambda, n, F2, F1, hi);
  }

  /** The Poisson pmf and its terms agree on the integers. */
  lemma {:induction false} PoissonMassMatchesTerms(m: MathLib, lambda: real, e: real)
    requires e == m.exp(-lambda)
    ensures forall i :: PoissonMass(m, lambda)(i) == PoissonTerms(e, lambda)(i)
  {
    forall i
      ensures PoissonMass(m, lambda)(i) == PoissonTerms(e, lambda)(i)
    {
      PoissonMassIsTerm(m, lambda, e, i);
    }
  }

  /** The Poisson pmf and its terms have the same totals. */
  lemma {:induction false} PoissonTotalOfTerms(m: MathLib, lambda: real, e: real, hi: int)
    requires e == m.exp(-lambda)
    ensures Sum(PoissonMass(m, lambda), 0, hi) == Partial(PoissonTerms(e, lambda))(hi)
  {
    PoissonMassMatchesTerms(m, lambda, e);
    SumCongruent(PoissonMass(m, lambda), PoissonTerms(e, lambda), 0, hi);
  }

  /** The Poisson pmf and its terms have the same first moments. */
  lemma {:induction false} PoissonFirstOfTerms(m: MathLib, lambda: real, e: real, hi: int)
    requires e == m.exp(-lambda)
    ensures Sum(ByValue(PoissonMass(m, lambda)), 0, hi) == Partial(ByValue(PoissonTerms(e, lambda)))(hi)
  {
    PoissonMassMatchesTerms(m, lambda, e);
    SumCongruent(ByValue(PoissonMass(m, lambda)), ByValue(PoissonTerms(e, lambda)), 0, hi);
  }

  /** The Poisson pmf and its terms have the same factorial moments. */
  lemma {:induction false} PoissonFallingOfTerms(m: MathLib, lambda: real, e: real, hi: int)
    requires e == m.exp(-lambda)
    ensures Sum(ByFalling(PoissonMass(m, lambda)), 0, hi) == Partial(ByFalling(PoissonTerms(e, lambda)))(hi)
  {
    PoissonMassMatchesTerms(m, lambda, e);
    SumCongruent(ByFalling(PoissonMass(m, lambda)), ByFalling(PoissonTerms(e, lambda)), 0, hi);
  }

  /** The first moment of the Poisson terms up to N is `lambda` times their total up to
      N - 1. */
  lemma {:induction false} PoissonTermsFirstMoment(e: real, lambda: real, n: nat)
    ensures Partial(ByValue(PoissonTerms(e, lambda)))(n + 1) == lambda * Partial(PoissonTerms(e, lambda))(n)
  {
    var t := PoissonTerms(e, lambda);
    PoissonTermsAbsorb(e, lambda, n);
    PartialIsRunningSum(ByValue(t), n + 1);
    PartialIsRunningSum(t, n + 1);
    AbsorbedFirstMoment(t, lambda, n, Partial(ByValue(t)), Partial(t), n + 1, n);
  }

  /** The factorial moment of the Poisson terms up to N is `lambda^2` times their total up
      to N - 2. */
  lemma {:induction false} PoissonTermsFactorialMoment(e: real, lambda: real, n: nat)
    requires n >= 1
    ensures Partial(ByFalling(PoissonTerms(e, lambda)))(n + 1) == lambda * Partial(ByValue(PoissonTerms(e, lambda)))(n)
    ensures Partial(ByValue(PoissonTerms(e, lambda)))(n) == lambda * Partial(PoissonTerms(e, lambda))(n - 1)
  {
    var t := PoissonTerms(e, lambda);
    PoissonTermsAbsorb(e, lambda, n);
    PartialIsRunningSum(ByFalling(t), n + 1);
    PartialIsRunningSum(ByValue(t), n + 1);
    PartialIsRunningSum(t, n + 1);
    AbsorbedFactorialMoment(t, lambda, n, Partial(ByFalling(t)), Partial(ByValue(t)), n + 1, n);
    AbsorbedFirstMoment(t, lambda, n, Partial(ByValue(t)), Partial(t), n, n - 1);
  }

  /** The Poisson mean `lambda` as the first moment: up to any N, the first moment of the
      pmf is `lambda` times the pmf's total up to N - 1. */
  lemma {:induction false} PoissonFirstMoment(m: MathLib, lambda: real, n: nat)
    ensures Sum(ByValue(PoissonMass(m, lambda)), 0, n + 1) == PoissonMean(lambda) * Sum(PoissonMass(m, lambda), 0, n)
  {
    var e := m.exp(-lambda);
    PoissonTermsFirstMoment(e, lambda, n);
    PoissonFirstOfTerms(m, lambda, e, n + 1);
    PoissonTotalOfTerms(m, lambda, e, n);
  }
}
