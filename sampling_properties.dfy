/** Properties of the sampling distributions as the engine computes them, and of the
    corrected F and chi-square pdfs and cdfs. */
module SamplingProperties {
  import opened Numbers
  import opened Primitives
  import opened Integration
  import opened GammaDistribution
  import opened SamplingDistributions

  // ---------------------------------------------------------------- t

  /** The t pdf depends on x only through `x * x`: it is symmetric about 0. */
  lemma {:induction false} TPdfSymmetric(m: MathLib, x: real, nu: real)
    ensures TPdf(m, -x, nu) == TPdf(m, x, nu)
  {
    assert (-x) * (-x) == x * x;
  }

  /** For positive degrees of freedom the t pdf is finite and positive everywhere. */
  lemma {:induction false} TPdfPositive(m: MathLib, x: real, nu: real)
    requires Sane(m) && nu > 0.0
    ensures TPdf(m, x, nu).Fin? && TPdf(m, x, nu).v > 0.0
  {
    assert nu * Pi > 0.0;
    var s := SqrtOf(m, nu * Pi);
    var g1 := GammaLibOf(m, (nu + 1.0) / 2.0);
    var g2 := GammaLibOf(m, nu / 2.0);
    PositiveProduct(s, g2);
    PositiveQuotient(g1, Mul(s, g2));
    var base := Add(Fin(1.0), Quot(x * x, nu));
    assert base.Fin? && base.v > 0.0 by {
      assert x * x >= 0.0;
      assert x * x / nu >= 0.0;
    }
    PositiveProduct(Div(g1, Mul(s, g2)), PowNumOf(m, base, -(nu + 1.0) / 2.0));
  }

  /** For positive degrees of freedom the computed t cdf is finite; it is non-negative
      from the lower limit -10 on, and negative below it, where the rule runs backwards. */
  lemma {:induction false} TCdfSign(m: MathLib, x: real, nu: real)
    requires Sane(m) && nu > 0.0
    ensures TCdf(m, x, nu).Fin?
    ensures x >= TLowerLimit ==> TCdf(m, x, nu).v >= 0.0
    ensures x < TLowerLimit ==> TCdf(m, x, nu).v < 0.0
  {
    var h := (x - TLowerLimit) / CdfSteps as real;
    forall i | 0 <= i <= CdfSteps
      ensures TDensity(m, nu)(Node(TLowerLimit, h, i)).Fin? && TDensity(m, nu)(Node(TLowerLimit, h, i)).v >= 0.0
    {
      TPdfPositive(m, Node(TLowerLimit, h, i), nu);
    }
    if x >= TLowerLimit {
      TrapezoidNonnegative(TDensity(m, nu), TLowerLimit, h, CdfSteps);
    } else {
      assert Node(TLowerLimit, h, 0) == TLowerLimit;
      TPdfPositive(m, TLowerLimit, nu);
      TrapezoidNegative(TDensity(m, nu), TLowerLimit, h, CdfSteps);
    }
  }

  /** The moment sentinels: the mean is 0 exactly when it exists (nu > 1), the variance
      exceeds 1 where it is finite (nu > 2), is infinite on (1, 2] and NaN from 1 down; the
      median is the centre of the symmetric pdf and of the plotting range. */
  lemma {:induction false} TSummaries(m: MathLib, nu: real)
    ensures TMean(nu) == (if nu > 1.0 then Fin(0.0) else NaN)
    ensures nu > 2.0 ==> TVariance(nu).Fin? && TVariance(nu).v > 1.0
    ensures 1.0 < nu <= 2.0 ==> TVariance(nu) == PosInf
    ensures nu <= 1.0 ==> TVariance(nu) == NaN
    ensures TMedian(nu) == (TSupport(nu).0 + TSupport(nu).1) / 2.0
    ensures TPdf(m, TMedian(nu) + 1.0, nu) == TPdf(m, TMedian(nu) - 1.0, nu)
  {
    if nu > 2.0 {
      assert nu / (nu - 2.0) == 1.0 + 2.0 / (nu - 2.0);
    }
    TPdfSymmetric(m, 1.0, nu);
  }

  /** Beyond 2 degrees of freedom the variance decreases strictly towards 1. */
  lemma {:induction false} TVarianceDecreasing(nu1: real, nu2: real)
    requires 2.0 < nu1 < nu2
    ensures TVariance(nu1).Fin? && TVariance(nu2).Fin?
    ensures TVariance(nu1).v > TVariance(nu2).v
  {
    assert nu1 / (nu1 - 2.0) == 1.0 + 2.0 / (nu1 - 2.0);
    assert nu2 / (nu2 - 2.0) == 1.0 + 2.0 / (nu2 - 2.0);
    var a, b := nu1 - 2.0, nu2 - 2.0;
    assert a * b > 0.0;
    assert 2.0 / a - 2.0 / b == 2.0 * (b - a) / (a * b);
    assert 2.0 * (b - a) / (a * b) > 0.0;
  }

  // ---------------------------------------------------------------- F

  lemma {:induction false} FDensityAt(m: MathLib, d1: real, d2: real, y: real)
    ensures FDensity(m, d1, d2)(y) == FPdf(m, y, d1, d2)
  {
  }

  lemma {:induction false} NonnegativeQuotient(a: Num, b: Num)
    requires a.Fin? && a.v >= 0.0 && b.Fin? && b.v > 0.0
    ensures Div(a, b).Fin? && Div(a, b).v >= 0.0
  {
  }

  /** A positive coefficient times +Infinity, over a positive divisor, is +Infinity. */
  lemma {:induction false} InfiniteQuotient(c: Num, b: Num)
    requires c.Fin? && c.v > 0.0 && b.Fin? && b.v > 0.0
    ensures Div(Mul(c, PosInf), b) == PosInf
  {
  }

  /** For positive degrees of freedom the formula is finite and positive at every x > 0. */
  lemma {:induction false} FFormulaPositive(m: MathLib, x: real, d1: real, d2: real)
    requires Sane(m) && x > 0.0 && d1 > 0.0 && d2 > 0.0
    ensures FFormula(m, x, d1, d2).Fin? && FFormula(m, x, d1, d2).v > 0.0
  {
    PositiveProduct(FCoefficient(m, d1, d2), PowOf(m, x, d1 / 2.0 - 1.0));
    PositiveQuotient(Mul(FCoefficient(m, d1, d2), PowOf(m, x, d1 / 2.0 - 1.0)), FScale(m, x, d1, d2));
  }

  /** The pdf at every node of the rule from 0 other than the first: the formula to the
      right of 0 and 0 to the left. */
  lemma {:induction false} FNodesAfterFirst(m: MathLib, x: real, d1: real, d2: real)
    requires Sane(m) && d1 > 0.0 && d2 > 0.0 && x != 0.0
    ensures NonnegativeAfterFirstNode(FDensity(m, d1, d2), 0.0, x / CdfSteps as real, CdfSteps)
  {
    var h := x / CdfSteps as real;
    forall i | 1 <= i <= CdfSteps
      ensures FDensity(m, d1, d2)(Node(0.0, h, i)).Fin? && FDensity(m, d1, d2)(Node(0.0, h, i)).v >= 0.0
    {
      var y := Node(0.0, h, i);
      NodeSign(x, i);
      FDensityAt(m, d1, d2, y);
      if y > 0.0 {
        FFormulaPositive(m, y, d1, d2);
      }
    }
  }

  /** The nodes 1, 2, ... of the rule from 0 to x lie on the side of 0 that x does. */
  lemma {:induction false} NodeSign(x: real, i: int)
    requires i >= 1
    ensures var y := Node(0.0, x / CdfSteps as real, i); (x > 0.0 ==> y > 0.0) && (x < 0.0 ==> y < 0.0)
  {
    var h := x / CdfSteps as real;
    if x > 0.0 {
      assert h > 0.0;
      assert (i as real) * h >= h;
    } else if x < 0.0 {
      assert h < 0.0;
      assert (i as real) * h <= h;
    }
  }

  /** With a single numerator degree of freedom the pdf at 0 is a positive coefficient
      times `0^(-1/2)`, which is +Infinity. */
  lemma {:induction false} FPdfSingularAtZero(m: MathLib, d2: real)
    requires Sane(m) && d2 > 0.0
    ensures FPdf(m, 0.0, 1.0, d2) == PosInf
  {
    PowOfZeroBase(m, 1.0 / 2.0 - 1.0);
    InfiniteQuotient(FCoefficient(m, 1.0, d2), FScale(m, 0.0, 1.0, d2));
  }

  /** With two numerator degrees of freedom the power of x in the formula is `0^0 = 1` at 0. */
  lemma {:induction false} FFormulaAtZeroWithTwo(m: MathLib, d1: real, d2: real)
    requires d1 == 2.0
    ensures FFormula(m, 0.0, d1, d2) == Div(Mul(FCoefficient(m, d1, d2), Fin(1.0)), FScale(m, 0.0, d1, d2))
  {
    PowOfZeroBase(m, d1 / 2.0 - 1.0);
  }

  lemma {:induction false} PositiveOverPositive(c: Num, s: Num)
    requires c.Fin? && c.v > 0.0 && s.Fin? && s.v > 0.0
    ensures Div(Mul(c, Fin(1.0)), s).Fin? && Div(Mul(c, Fin(1.0)), s).v > 0.0
  {
    PositiveProduct(c, Fin(1.0));
    PositiveQuotient(Mul(c, Fin(1.0)), s);
  }

  lemma {:induction false} FFormulaPositiveAtZero(m: MathLib, d1: real, d2: real)
    requires d1 == 2.0 && FFactorsAtZeroPositive(m, d1, d2)
    ensures FFormula(m, 0.0, d1, d2).Fin? && FFormula(m, 0.0, d1, d2).v > 0.0
  {
    FFormulaAtZeroWithTwo(m, d1, d2);
    PositiveOverPositive(FCoefficient(m, d1, d2), FScale(m, 0.0, d1, d2));
  }

  /** With two numerator degrees of freedom the pdf at 0 is a positive coefficient
      times `0^0 = 1`. */
  lemma {:induction false} FDensityPositiveAtZero(m: MathLib, d2: real)
    requires Sane(m) && d2 > 0.0
    ensures FDensity(m, 2.0, d2)(0.0).Fin? && FDensity(m, 2.0, d2)(0.0).v > 0.0
  {
    FFactorsAtZero(m, 2.0, d2);
    FFormulaPositiveAtZero(m, 2.0, d2);
    FDensityAt(m, 2.0, d2, 0.0);
  }

  /** The rule of the source's F cdf, from 0 with 1000 panels, when the density is
      infinite at 0 and finite and non-negative at every other node. */
  lemma {:induction false} SingularOrigin(f: real -> Num, x: real)
    requires x != 0.0 && f(0.0) == PosInf
    requires NonnegativeAfterFirstNode(f, 0.0, x / CdfSteps as real, CdfSteps)
    ensures TrapezoidSum(f, 0.0, x / CdfSteps as real, CdfSteps) == if x > 0.0 then PosInf else NegInf
  {
    assert FiniteAfterFirstNode(f, 0.0, x / CdfSteps as real, CdfSteps);
    RuleFromSingularOrigin(f, x, CdfSteps);
  }

  /** The same rule run backwards (x < 0) over a density that is positive at 0 and
      non-negative at every other node. */
  lemma {:induction false} PositiveOrigin(f: real -> Num, x: real)
    requires x < 0.0 && f(0.0).Fin? && f(0.0).v > 0.0
    requires NonnegativeAfterFirstNode(f, 0.0, x / CdfSteps as real, CdfSteps)
    ensures TrapezoidSum(f, 0.0, x / CdfSteps as real, CdfSteps).Fin? && TrapezoidSum(f, 0.0, x / CdfSteps as real, CdfSteps).v < 0.0
  {
    RuleFromPositiveOrigin(f, x, CdfSteps);
  }

  /** The F cdf with one numerator degree of freedom, given the pdf's value at 0. */
  lemma {:induction false} FCdfFromSingularOrigin(m: MathLib, x: real, d2: real)
    requires Sane(m) && d2 > 0.0 && x != 0.0 && FDensity(m, 1.0, d2)(0.0) == PosInf
    ensures FCdf(m, x, 1.0, d2) == if x > 0.0 then PosInf else NegInf
  {
    FNodesAfterFirst(m, x, 1.0, d2);
    SingularOrigin(FDensity(m, 1.0, d2), x);
  }

  /** The F cdf with two numerator degrees of freedom left of 0, given the pdf's value at 0. */
  lemma {:induction false} FCdfFromPositiveOrigin(m: MathLib, x: real, d2: real)
    requires Sane(m) && d2 > 0.0 && x < 0.0
    requires FDensity(m, 2.0, d2)(0.0).Fin? && FDensity(m, 2.0, d2)(0.0).v > 0.0
    ensures FCdf(m, x, 2.0, d2).Fin? && FCdf(m, x, 2.0, d2).v < 0.0
  {
    FNodesAfterFirst(m, x, 2.0, d2);
    PositiveOrigin(FDensity(m, 2.0, d2), x);
  }

  /** The same fact about the pdf as a function of x. */
  lemma {:induction false} FDensitySingularAtZero(m: MathLib, d2: real)
    requires Sane(m) && d2 > 0.0
    ensures FDensity(m, 1.0, d2)(0.0) == PosInf
  {
    FPdfSingularAtZero(m, d2);
    FDensityAt(m, 1.0, d2, 0.0);
  }

  /** With a single numerator degree of freedom, `x^(-1/2)` is infinite at the node 0:
      the computed cdf is +Infinity for every x > 0. */
  lemma {:induction false} FCdfInfinite(m: MathLib, x: real, d2: real)
    requires Sane(m) && d2 > 0.0 && x > 0.0
    ensures FCdf(m, x, 1.0, d2) == PosInf
  {
    FDensitySingularAtZero(m, d2);
    FCdfFromSingularOrigin(m, x, d2);
  }

  /** ... and -Infinity for every x < 0, where the rule runs backwards from that node. */
  lemma {:induction false} FCdfNegativeInfinite(m: MathLib, x: real, d2: real)
    requires Sane(m) && d2 > 0.0 && x < 0.0
    ensures FCdf(m, x, 1.0, d2) == NegInf
  {
    FDensitySingularAtZero(m, d2);
    FCdfFromSingularOrigin(m, x, d2);
  }

  /** With two numerator degrees of freedom the pdf at 0 is positive and the pdf is 0 left
      of 0: the cdf of every x < 0 is negative. */
  lemma {:induction false} FCdfNegative(m: MathLib, x: real, d2: real)
    requires Sane(m) && d2 > 0.0 && x < 0.0
    ensures FCdf(m, x, 2.0, d2).Fin? && FCdf(m, x, 2.0, d2).v < 0.0
  {
    FDensityPositiveAtZero(m, d2);
    FCdfFromPositiveOrigin(m, x, d2);
  }

  /** For positive degrees of freedom the corrected pdf is finite and non-negative
      everywhere. */
  lemma {:induction false} FPdfCorrectedNonnegative(m: MathLib, y: real, d1: real, d2: real)
    requires Sane(m) && d1 > 0.0 && d2 > 0.0
    ensures FPdfCorrected(m, y, d1, d2).Fin? && FPdfCorrected(m, y, d1, d2).v >= 0.0
  {
    if y > 0.0 {
      assert FPdfCorrected(m, y, d1, d2) == FFormula(m, y, d1, d2);
      FFormulaPositive(m, y, d1, d2);
    } else if y == 0.0 && d1 >= 2.0 {
      assert FPdfCorrected(m, y, d1, d2) == FFormula(m, 0.0, d1, d2);
      FFormulaAtZero(m, d1, d2);
    } else {
      assert FPdfCorrected(m, y, d1, d2) == Fin(0.0);
    }
  }

  /** The corrected cdf is finite and non-negative for every x and positive degrees of
      freedom, and agrees with the source's cdf for every x > 0 once d1 >= 2. */
  lemma {:induction false} FCdfCorrectedSound(m: MathLib, x: real, d1: real, d2: real)
    requires Sane(m) && d1 > 0.0 && d2 > 0.0
    ensures FCdfCorrected(m, x, d1, d2).Fin? && FCdfCorrected(m, x, d1, d2).v >= 0.0
    ensures d1 >= 2.0 && x > 0.0 ==> FCdfCorrected(m, x, d1, d2) == FCdf(m, x, d1, d2)
  {
    if x > 0.0 {
      FCorrectedNodes(m, x, d1, d2);
      ForwardRule(FDensityCorrected(m, d1, d2), x);
      if d1 >= 2.0 {
        FCorrectedAgrees(m, x, d1, d2);
      }
    }
  }

  lemma {:induction false} FDensityCorrectedAt(m: MathLib, d1: real, d2: real, y: real)
    ensures FDensityCorrected(m, d1, d2)(y) == FPdfCorrected(m, y, d1, d2)
  {
  }

  /** The corrected pdf is finite and non-negative at every node of the rule. */
  lemma {:induction false} FCorrectedNodes(m: MathLib, x: real, d1: real, d2: real)
    requires Sane(m) && d1 > 0.0 && d2 > 0.0
    ensures NonnegativeAtNodes(FDensityCorrected(m, d1, d2), 0.0, x / CdfSteps as real, CdfSteps)
  {
    var h := x / CdfSteps as real;
    forall i | 0 <= i <= CdfSteps
      ensures FDensityCorrected(m, d1, d2)(Node(0.0, h, i)).Fin? && FDensityCorrected(m, d1, d2)(Node(0.0, h, i)).v >= 0.0
    {
      FDensityCorrectedAt(m, d1, d2, Node(0.0, h, i));
      FPdfCorrectedNonnegative(m, Node(0.0, h, i), d1, d2);
    }
  }

  /** From two numerator degrees of freedom on, the rule over the corrected pdf is the
      rule over the source's pdf. */
  lemma {:induction false} FCorrectedAgrees(m: MathLib, x: real, d1: real, d2: real)
    requires d1 >= 2.0
    ensures TrapezoidSum(FDensityCorrected(m, d1, d2), 0.0, x / CdfSteps as real, CdfSteps)
         == TrapezoidSum(FDensity(m, d1, d2), 0.0, x / CdfSteps as real, CdfSteps)
  {
    var h := x / CdfSteps as real;
    forall i | 0 <= i <= CdfSteps
      ensures FDensityCorrected(m, d1, d2)(Node(0.0, h, i)) == FDensity(m, d1, d2)(Node(0.0, h, i))
    {
      FDensityCorrectedAt(m, d1, d2, Node(0.0, h, i));
      FDensityAt(m, d1, d2, Node(0.0, h, i));
    }
    TrapezoidCongruent(FDensityCorrected(m, d1, d2), FDensity(m, d1, d2), 0.0, h, CdfSteps);
  }

  /** The rule from 0 to some x > 0 over an integrand non-negative at its nodes is
      finite and non-negative. */
  lemma {:induction false} ForwardRule(f: real -> Num, x: real)
    requires x > 0.0 && NonnegativeAtNodes(f, 0.0, x / CdfSteps as real, CdfSteps)
    ensures TrapezoidSum(f, 0.0, x / CdfSteps as real, CdfSteps).Fin? && TrapezoidSum(f, 0.0, x / CdfSteps as real, CdfSteps).v >= 0.0
  {
    TrapezoidNonnegative(f, 0.0, x / CdfSteps as real, CdfSteps);
  }

  /** The two factors of the formula at 0 other than the power of x are positive. */
  ghost predicate FFactorsAtZeroPositive(m: MathLib, d1: real, d2: real)
  {
    FCoefficient(m, d1, d2).Fin? && FCoefficient(m, d1, d2).v > 0.0
      && FScale(m, 0.0, d1, d2).Fin? && FScale(m, 0.0, d1, d2).v > 0.0
  }

  lemma {:induction false} FFactorsAtZero(m: MathLib, d1: real, d2: real)
    requires Sane(m) && d1 > 0.0 && d2 > 0.0
    ensures FFactorsAtZeroPositive(m, d1, d2)
  {
  }

  /** `0^(d1/2 - 1)` for d1 >= 2: 1 at d1 = 2 and 0 beyond. */
  lemma {:induction false} FPowerAtZero(m: MathLib, d1: real)
    requires d1 >= 2.0
    ensures PowOf(m, 0.0, d1 / 2.0 - 1.0).Fin? && PowOf(m, 0.0, d1 / 2.0 - 1.0).v >= 0.0
  {
    PowOfZeroBase(m, d1 / 2.0 - 1.0);
  }

  lemma {:induction false} NonnegativeProduct(a: Num, b: Num)
    requires a.Fin? && a.v > 0.0 && b.Fin? && b.v >= 0.0
    ensures Mul(a, b).Fin? && Mul(a, b).v >= 0.0
  {
  }

  lemma {:induction false} FFormulaAtZeroFromFactors(m: MathLib, d1: real, d2: real)
    requires d1 >= 2.0 && FFactorsAtZeroPositive(m, d1, d2)
    ensures FFormula(m, 0.0, d1, d2).Fin? && FFormula(m, 0.0, d1, d2).v >= 0.0
  {
    FPowerAtZero(m, d1);
    NonnegativeProduct(FCoefficient(m, d1, d2), PowOf(m, 0.0, d1 / 2.0 - 1.0));
    NonnegativeQuotient(Mul(FCoefficient(m, d1, d2), PowOf(m, 0.0, d1 / 2.0 - 1.0)), FScale(m, 0.0, d1, d2));
  }

  /** From two numerator degrees of freedom on, the formula at 0 is finite and
      non-negative (`0^0 = 1` at d1 = 2, and 0 beyond). */
  lemma {:induction false} FFormulaAtZero(m: MathLib, d1: real, d2: real)
    requires Sane(m) && d1 >= 2.0 && d2 > 0.0
    ensures FFormula(m, 0.0, d1, d2).Fin? && FFormula(m, 0.0, d1, d2).v >= 0.0
  {
    FFactorsAtZero(m, d1, d2);
    FFormulaAtZeroFromFactors(m, d1, d2);
  }

  lemma {:induction false} FVarianceArithmetic(d1: real, d2: real)
    requires d1 > 0.0 && d2 > 4.0
    ensures 2.0 * Pow(d2, 2) * (d1 + d2 - 2.0) > 0.0
    ensures d1 * Pow(d2 - 2.0, 2) * (d2 - 4.0) > 0.0
  {
    var a := Pow(d2, 2);
    var b := Pow(d2 - 2.0, 2);
    assert a > 0.0 && b > 0.0;
    var n := 2.0 * a;
    assert n * (d1 + d2 - 2.0) > 0.0;
    var e := d1 * b;
    assert e > 0.0;
    assert e * (d2 - 4.0) > 0.0;
  }

  /** The moment sentinels: the mean exists beyond d2 = 2 and exceeds 1, the variance
      exists beyond d2 = 4 and is positive (infinite for d1 = 0), and the median is never
      available. */
  lemma {:induction false} FSummaries(d1: real, d2: real)
    ensures d2 > 2.0 ==> FMean(d1, d2).Fin? && FMean(d1, d2).v > 1.0
    ensures d2 <= 2.0 ==> FMean(d1, d2) == NaN
    ensures d1 > 0.0 && d2 > 4.0 ==> FVariance(d1, d2).Fin? && FVariance(d1, d2).v > 0.0
    ensures d1 == 0.0 && d2 > 4.0 ==> FVariance(d1, d2) == PosInf
    ensures d2 <= 4.0 ==> FVariance(d1, d2) == NaN
    ensures FMedian(d1, d2) == NaN
    ensures FSupport(d1, d2).0 == 0.0 < FSupport(d1, d2).1
  {
    if d2 > 2.0 {
      assert d2 / (d2 - 2.0) == 1.0 + 2.0 / (d2 - 2.0);
    }
    if d1 > 0.0 && d2 > 4.0 {
      FVarianceArithmetic(d1, d2);
      var num := 2.0 * Pow(d2, 2) * (d1 + d2 - 2.0);
      var den := d1 * Pow(d2 - 2.0, 2) * (d2 - 4.0);
      assert num / den > 0.0;
    }
    if d1 == 0.0 && d2 > 4.0 {
      FVarianceArithmetic(1.0, d2);
      assert 2.0 * Pow(d2, 2) * (d2 - 2.0) > 0.0;
    }
  }

  // ---------------------------------------------------------------- chi-square

  /** For positive degrees of freedom the formula is finite and positive at every x > 0. */
  lemma {:induction false} ChiSquareFormulaPositive(m: MathLib, x: real, k: real)
    requires Sane(m) && x > 0.0 && k > 0.0
    ensures ChiSquareFormula(m, x, k).Fin? && ChiSquareFormula(m, x, k).v > 0.0
  {
    var c := ChiSquareCoefficient(m, k);
    PositiveProduct(c, PowOf(m, x, k / 2.0 - 1.0));
    assert Quot(-x, 2.0) == Fin(-x / 2.0);
    PositiveProduct(Mul(c, PowOf(m, x, k / 2.0 - 1.0)), ExpOf(m, Quot(-x, 2.0)));
  }

  /** With one degree of freedom, `x^(-1/2)` is infinite at the node 0, so the computed cdf
      is +Infinity for every x > 0. */
  lemma {:induction false} ChiSquareCdfInfinite(m: MathLib, x: real)
    requires Sane(m) && x > 0.0
    ensures ChiSquareCdf(m, x, 1.0) == PosInf
  {
    var h := x / CdfSteps as real;
    assert Node(0.0, h, 0) == 0.0;
    assert ChiSquareDensity(m, 1.0)(0.0) == PosInf by {
      assert ChiSquareCoefficient(m, 1.0).Fin? && ChiSquareCoefficient(m, 1.0).v > 0.0;
      PowOfZeroBase(m, 1.0 / 2.0 - 1.0);
      assert Quot(-0.0, 2.0) == Fin(0.0);
      assert ExpOf(m, Fin(0.0)) == Fin(1.0);
    }
    forall i | 1 <= i <= CdfSteps
      ensures ChiSquareDensity(m, 1.0)(Node(0.0, h, i)).Fin?
    {
      assert Node(0.0, h, i) > 0.0;
      ChiSquareFormulaPositive(m, Node(0.0, h, i), 1.0);
    }
    TrapezoidInfinite(ChiSquareDensity(m, 1.0), 0.0, h, CdfSteps);
  }

  /** From two degrees of freedom on, the formula at 0 is finite and non-negative. */
  lemma {:induction false} ChiSquareFormulaAtZero(m: MathLib, k: real)
    requires Sane(m) && k >= 2.0
    ensures ChiSquareFormula(m, 0.0, k).Fin? && ChiSquareFormula(m, 0.0, k).v >= 0.0
  {
    assert ChiSquareCoefficient(m, k).Fin? && ChiSquareCoefficient(m, k).v > 0.0;
    PowOfZeroBase(m, k / 2.0 - 1.0);
    assert Quot(-0.0, 2.0) == Fin(0.0);
    assert ExpOf(m, Fin(0.0)) == Fin(1.0);
  }

  /** For positive degrees of freedom the corrected pdf is finite and non-negative
      everywhere. */
  lemma {:induction false} ChiSquarePdfCorrectedNonnegative(m: MathLib, y: real, k: real)
    requires Sane(m) && k > 0.0
    ensures ChiSquarePdfCorrected(m, y, k).Fin? && ChiSquarePdfCorrected(m, y, k).v >= 0.0
  {
    if y > 0.0 {
      ChiSquareFormulaPositive(m, y, k);
    } else if y == 0.0 && k >= 2.0 {
      ChiSquareFormulaAtZero(m, k);
    }
  }

  /** The corrected cdf is finite and non-negative for every x and positive degrees of
      freedom, and agrees with the source's cdf for every x > 0 once k >= 2. */
  lemma {:induction false} ChiSquareCdfCorrectedSound(m: MathLib, x: real, k: real)
    requires Sane(m) && k > 0.0
    ensures ChiSquareCdfCorrected(m, x, k).Fin? && ChiSquareCdfCorrected(m, x, k).v >= 0.0
    ensures k >= 2.0 && x > 0.0 ==> ChiSquareCdfCorrected(m, x, k) == ChiSquareCdf(m, x, k)
  {
    if x > 0.0 {
      ChiSquareCorrectedNodes(m, x, k);
      ForwardRule(ChiSquareDensityCorrected(m, k), x);
      if k >= 2.0 {
        ChiSquareCorrectedAgrees(m, x, k);
      }
    }
  }

  lemma {:induction false} ChiSquareDensityCorrectedAt(m: MathLib, k: real, y: real)
    ensures ChiSquareDensityCorrected(m, k)(y) == ChiSquarePdfCorrected(m, y, k)
  {
  }

  lemma {:induction false} ChiSquareDensityAt(m: MathLib, k: real, y: real)
    ensures ChiSquareDensity(m, k)(y) == ChiSquarePdf(m, y, k)
  {
  }

  /** The corrected pdf is finite and non-negative at every node of the rule. */
  lemma {:induction false} ChiSquareCorrectedNodes(m: MathLib, x: real, k: real)
    requires Sane(m) && k > 0.0
    ensures NonnegativeAtNodes(ChiSquareDensityCorrected(m, k), 0.0, x / CdfSteps as real, CdfSteps)
  {
    var h := x / CdfSteps as real;
    forall i | 0 <= i <= CdfSteps
      ensures ChiSquareDensityCorrected(m, k)(Node(0.0, h, i)).Fin? && ChiSquareDensityCorrected(m, k)(Node(0.0, h, i)).v >= 0.0
    {
      ChiSquareDensityCorrectedAt(m, k, Node(0.0, h, i));
      ChiSquarePdfCorrectedNonnegative(m, Node(0.0, h, i), k);
    }
  }

  /** From two degrees of freedom on, the rule over the corrected pdf is the rule over
      the source's pdf. */
  lemma {:induction false} ChiSquareCorrectedAgrees(m: MathLib, x: real, k: real)
    requires k >= 2.0
    ensures TrapezoidSum(ChiSquareDensityCorrected(m, k), 0.0, x / CdfSteps as real, CdfSteps)
         == TrapezoidSum(ChiSquareDensity(m, k), 0.0, x / CdfSteps as real, CdfSteps)
  {
    var h := x / CdfSteps as real;
    forall i | 0 <= i <= CdfSteps
      ensures ChiSquareDensityCorrected(m, k)(Node(0.0, h, i)) == ChiSquareDensity(m, k)(Node(0.0, h, i))
    {
      ChiSquareDensityCorrectedAt(m, k, Node(0.0, h, i));
      ChiSquareDensityAt(m, k, Node(0.0, h, i));
    }
    TrapezoidCongruent(ChiSquareDensityCorrected(m, k), ChiSquareDensity(m, k), 0.0, h, CdfSteps);
  }

  lemma {:induction false} CubeBelowOne(c: real)
    requires 0.0 < c < 1.0
    ensures 0.0 < Pow(c, 3) < 1.0
  {
    assert Pow(c, 1) == c;
    assert Pow(c, 2) == c * c;
    assert Pow(c, 3) == c * (c * c);
    assert 0.0 < c * c < 1.0;
    assert 0.0 < c * (c * c) < 1.0;
  }

  /** The variance is twice the mean; beyond 2/9 degrees of freedom the median
      approximation lies strictly between 0 and the mean; the plotting range ends above
      the mean for k > 0 and is NaN for k < 0. */
  lemma {:induction false} ChiSquareSummaries(m: MathLib, k: real)
    ensures ChiSquareVariance(k) == 2.0 * ChiSquareMean(k)
    ensures k > 2.0 / 9.0 ==> ChiSquareMedian(m, k).Fin? && 0.0 < ChiSquareMedian(m, k).v < ChiSquareMean(k)
    ensures Sane(m) && k > 0.0 ==> ChiSquareSupport(m, k).1.Fin? && ChiSquareSupport(m, k).1.v > ChiSquareMean(k)
    ensures k < 0.0 ==> ChiSquareSupport(m, k).1 == NaN
  {
    if k > 2.0 / 9.0 {
      assert 9.0 * k > 2.0;
      var c := 1.0 - 2.0 / (9.0 * k);
      assert 0.0 < 2.0 / (9.0 * k) < 1.0;
      assert Sub(Fin(1.0), Quot(2.0, 9.0 * k)) == Fin(c);
      assert IsInteger(3.0) && 3.0.Floor == 3;
      CubeBelowOne(c);
      var p := Pow(c, 3);
      assert k * p < k;
      assert k * p > 0.0;
    }
    if Sane(m) && k > 0.0 {
      assert SqrtOf(m, 2.0 * k).Fin? && SqrtOf(m, 2.0 * k).v > 0.0;
    }
  }
}
