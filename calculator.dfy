/** The probability calculator of the distribution page (`calculateProbability` and
    `calculateProbabilityRange`): point, lower-tail and upper-tail probabilities and the
    probability of a range, from a distribution's pmf or pdf and its cdf. */
module Calculator {
  import opened Numbers
  import opened Primitives
  import opened Sums
  import opened DiscreteDistributions
  import opened ContinuousDistributions

  /** A distribution as the calculator sees it: its kind, its pmf or pdf, and its cdf, all
      with the parameters already applied. */
  datatype Family =
    | Discrete(pmf: real -> real, cdf: real -> Num)
    | Continuous(pdf: real -> Num, cdf: real -> Num)

  /** The calculator's single-value probability for `calcType` 'eq', 'le' or 'ge'; any
      other type leaves the probability undefined, which the page cannot display. */
  function Probability(d: Family, calcType: string, x: real): (r: Option<Num>)
    ensures r.Some? <==> calcType == "eq" || calcType == "le" || calcType == "ge"
  {
    if calcType == "eq" then Some(if d.Discrete? then Fin(d.pmf(x)) else Fin(0.0))
    else if calcType == "le" then Some(d.cdf(x))
    else if calcType == "ge" then Some(Sub(Fin(1.0), d.cdf(if d.Discrete? then x - 1.0 else x)))
    else None
  }

  /** `P(a <= X <= b)` as the page computes it: `cdf(b) - cdf(a - 1)` for a discrete
      distribution, `cdf(b) - cdf(a)` for a continuous one. */
  function RangeProbability(d: Family, a: real, b: real): Num
  {
    Sub(d.cdf(b), d.cdf(if d.Discrete? then a - 1.0 else a))
  }

  /** The single-value probability with the discrete upper tail taken from the least
      whole number at or above `x`. */
  function ProbabilityCorrected(d: Family, calcType: string, x: real): (r: Option<Num>)
    ensures calcType != "ge" || d.Continuous? || IsInteger(x) ==> r == Probability(d, calcType, x)
  {
    CeilOfWhole(x);
    if calcType == "ge" && d.Discrete? then Some(Sub(Fin(1.0), d.cdf(Ceil(x) as real - 1.0)))
    else Probability(d, calcType, x)
  }

  lemma {:induction false} CeilOfWhole(x: real)
    ensures IsInteger(x) ==> Ceil(x) as real == x
  {
    if IsInteger(x) {
      assert (-x).Floor == -(x.Floor);
    }
  }

  /** The range probability with the discrete lower bound taken from the least whole
      number at or above `a`. */
  function RangeProbabilityCorrected(d: Family, a: real, b: real): (r: Num)
    ensures d.Continuous? || IsInteger(a) ==> r == RangeProbability(d, a, b)
  {
    CeilOfWhole(a);
    if d.Discrete? then Sub(d.cdf(b), d.cdf(Ceil(a) as real - 1.0)) else RangeProbability(d, a, b)
  }

  // ---------------------------------------------------------------- discrete families

  /** A discrete family whose cdf at x is the running sum of `mass` over 0..floor(x),
      where `mass` is the pmf on the integers and is 0 below 0. */
  ghost predicate RunningSum(d: Family, mass: int -> real)
  {
    && d.Discrete?
    && (forall x: real :: d.cdf(x) == Fin(Sum(mass, 0, x.Floor + 1)))
    && (forall i: int :: mass(i) == d.pmf(i as real))
    && (forall i: int :: i < 0 ==> mass(i) == 0.0)
  }

  /** The difference of two running sums is the mass between them. */
  lemma {:induction false} CdfGap(d: Family, mass: int -> real, y: real, z: real)
    requires RunningSum(d, mass) && z.Floor <= y.Floor
    ensures Sub(d.cdf(y), d.cdf(z)) == Fin(Sum(mass, z.Floor + 1, y.Floor + 1))
  {
    assert d.cdf(y) == Fin(Sum(mass, 0, y.Floor + 1));
    assert d.cdf(z) == Fin(Sum(mass, 0, z.Floor + 1));
    MassBetween(mass, z.Floor + 1, y.Floor + 1);
  }

  /** With no mass below 0, the running sum up to `hi` minus that up to `lo` is the
      mass from `lo` to `hi`. */
  lemma {:induction false} MassBetween(mass: int -> real, lo: int, hi: int)
    requires lo <= hi && forall i: int :: i < 0 ==> mass(i) == 0.0
    ensures Sum(mass, 0, hi) - Sum(mass, 0, lo) == Sum(mass, lo, hi)
  {
    if 0 <= lo {
      SumSplit(mass, 0, lo, hi);
    } else if 0 <= hi {
      SumSplit(mass, lo, 0, hi);
      SumOfZeros(mass, lo, 0);
    } else {
      SumOfZeros(mass, lo, hi);
    }
  }

  /** The whole numbers in `[a, b]` are those from `ceil(a)` to `floor(b)`. */
  lemma {:induction false} WholeNumbersBetween(a: real, b: real, i: int)
    ensures a <= i as real <= b <==> Ceil(a) <= i <= b.Floor
  {
  }

  /** As written, for a non-integer lower bound the range also takes in the whole number
      just below `a`: the page's value is the mass from `floor(a)` to `floor(b)`. */
  lemma {:induction false} RangeAsWritten(d: Family, mass: int -> real, a: real, b: real)
    requires RunningSum(d, mass) && a <= b
    ensures RangeProbability(d, a, b) == Fin(Sum(mass, a.Floor, b.Floor + 1))
  {
    assert (a - 1.0).Floor + 1 == a.Floor;
    CdfGap(d, mass, b, a - 1.0);
  }

  /** The corrected range is the mass of the whole numbers in `[a, b]`, from `ceil(a)` to
      `floor(b)`. */
  lemma {:induction false} RangeIsMassBetween(d: Family, mass: int -> real, a: real, b: real)
    requires RunningSum(d, mass) && a <= b
    ensures RangeProbabilityCorrected(d, a, b) == Fin(Sum(mass, Ceil(a), b.Floor + 1))
  {
    var c := Ceil(a) as real - 1.0;
    assert c.Floor == Ceil(a) - 1;
    CdfGap(d, mass, b, c);
  }

  /** As written, the upper tail `P(X >= x)` is 1 minus the mass below `floor(x)`, so for
      a non-integer `x` it also counts the whole number just below `x`. */
  lemma {:induction false} AtLeastAsWritten(d: Family, mass: int -> real, x: real)
    requires RunningSum(d, mass)
    ensures Probability(d, "ge", x) == Some(Fin(1.0 - Sum(mass, 0, x.Floor)))
  {
    assert (x - 1.0).Floor + 1 == x.Floor;
    assert d.cdf(x - 1.0) == Fin(Sum(mass, 0, x.Floor));
  }

  /** The corrected upper tail is 1 minus the mass of the whole numbers below `x`. */
  lemma {:induction false} AtLeastIsMassFrom(d: Family, mass: int -> real, x: real)
    requires RunningSum(d, mass)
    ensures ProbabilityCorrected(d, "ge", x) == Some(Fin(1.0 - Sum(mass, 0, Ceil(x))))
  {
    var c := Ceil(x) as real - 1.0;
    assert c.Floor + 1 == Ceil(x);
    assert d.cdf(c) == Fin(Sum(mass, 0, Ceil(x)));
  }

  /** The point probability at a whole number is the range from it to itself. */
  lemma {:induction false} PointIsRange(d: Family, mass: int -> real, k: int)
    requires RunningSum(d, mass)
    ensures Probability(d, "eq", k as real) == Some(RangeProbability(d, k as real, k as real))
  {
    var x := k as real;
    RangeAsWritten(d, mass, x, x);
    assert x.Floor == k;
    assert Probability(d, "eq", x) == Some(Fin(d.pmf(x)));
    assert d.pmf(x) == mass(k);
    assert Sum(mass, k, k + 1) == Sum(mass, k, k) + mass(k);
  }

  /** With the bound `0.5` the page reports `P(0.5 <= X <= 1) = 1` and `P(X >= 0.5) = 1`
      for a fair Bernoulli variable, where both are 0.5. */
  lemma {:induction false} HalfBoundCountsZero()
    ensures RangeProbability(BernoulliFamily(0.5), 0.5, 1.0) == Fin(1.0)
    ensures Probability(BernoulliFamily(0.5), "ge", 0.5) == Some(Fin(1.0))
  {
    var d := BernoulliFamily(0.5);
    assert RangeProbability(d, 0.5, 1.0) == Sub(d.cdf(1.0), d.cdf(-0.5));
    assert Probability(d, "ge", 0.5) == Some(Sub(Fin(1.0), d.cdf(-0.5)));
    assert d.cdf(1.0) == Fin(1.0);
    assert d.cdf(-0.5) == Fin(0.0);
  }

  /** The corrected calculator gives 0.5 for both. */
  lemma {:induction false} HalfBoundCorrected()
    ensures RangeProbabilityCorrected(BernoulliFamily(0.5), 0.5, 1.0) == Fin(0.5)
    ensures ProbabilityCorrected(BernoulliFamily(0.5), "ge", 0.5) == Some(Fin(0.5))
  {
    var d := BernoulliFamily(0.5);
    assert Ceil(0.5) == 1;
    assert d.cdf(1.0) == Fin(1.0);
    assert d.cdf(0.0) == Fin(0.5);
  }

  function BernoulliFamily(p: real): Family
  {
    Discrete(x => BernoulliPmf(x, p), x => Fin(BernoulliCdf(x, p)))
  }

  function BinomialFamily(n: nat, p: real): Family
  {
    Discrete(x => BinomialPmf(x, n, p), x => Fin(BinomialCdf(x, n, p)))
  }

  function PoissonFamily(m: MathLib, lambda: real): Family
  {
    Discrete(x => PoissonPmf(m, x, lambda), x => Fin(PoissonCdf(m, x, lambda)))
  }

  function GeometricFamily(p: real): Family
  {
    Discrete(x => GeometricPmf(x, p), x => Fin(GeometricCdf(x, p)))
  }

  /** Each discrete distribution of the engine has a running-sum cdf, so the lemmas
      above apply to all of them. */
  lemma {:induction false} BernoulliIsRunningSum(p: real)
    ensures RunningSum(BernoulliFamily(p), BernoulliMass(p))
  {
    forall x: real ensures BernoulliFamily(p).cdf(x) == Fin(Sum(BernoulliMass(p), 0, x.Floor + 1)) {
      BernoulliCdfIsRunningSum(x, p);
    }
  }

  lemma {:induction false} BinomialIsRunningSum(n: nat, p: real)
    ensures RunningSum(BinomialFamily(n, p), BinomialMass(n, p))
  {
    forall x: real ensures BinomialFamily(n, p).cdf(x) == Fin(Sum(BinomialMass(n, p), 0, x.Floor + 1)) {
      BinomialCdfIsRunningSum(x, n, p);
    }
  }

  lemma {:induction false} PoissonIsRunningSum(m: MathLib, lambda: real)
    ensures RunningSum(PoissonFamily(m, lambda), PoissonMass(m, lambda))
  {
  }

  lemma {:induction false} GeometricIsRunningSum(p: real)
    ensures RunningSum(GeometricFamily(p), GeometricMass(p))
  {
    forall x: real ensures GeometricFamily(p).cdf(x) == Fin(Sum(GeometricMass(p), 0, x.Floor + 1)) {
      GeometricCdfIsRunningSum(x, p);
    }
  }

  // ---------------------------------------------------------------- continuous families

  /** For a continuous distribution a point has probability 0, and the lower and upper
      tails at the same point add up to 1 wherever the cdf is finite. */
  lemma {:induction false} ContinuousTails(d: Family, x: real)
    requires d.Continuous?
    ensures Probability(d, "eq", x) == Some(Fin(0.0))
    ensures d.cdf(x).Fin? ==> Probability(d, "le", x).value.v + Probability(d, "ge", x).value.v == 1.0
  {
  }

  function UniformFamily(a: real, b: real): Family
  {
    Continuous(x => UniformPdf(x, a, b), x => UniformCdf(x, a, b))
  }

  /** Inside the interval of a Uniform(a, b) distribution the range probability is the
      length of the range over the length of the interval. */
  lemma {:induction false} UniformRange(a: real, b: real, x: real, y: real)
    requires a < b && a <= x <= y <= b
    ensures RangeProbability(UniformFamily(a, b), x, y) == Fin((y - x) / (b - a))
  {
    assert (y - a) / (b - a) - (x - a) / (b - a) == (y - x) / (b - a);
  }
}
