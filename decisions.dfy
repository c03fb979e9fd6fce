/** The conclusions of the hypothesis-test page (`updateResults`). The null hypothesis is
    `mu = 0` (two-sided), `mu >= 0` (left-tailed) or `mu <= 0` (right-tailed), the
    standard error is 1, and the page rejects it by one of three rules: the sample mean
    against the critical value, the p-value against alpha, or 0 against the confidence
    interval. */
module Decisions {
  import opened Numbers
  import opened Primitives
  import opened NormalKit

  // ---------------------------------------------------------------- the rules

  /** Left-tailed critical-value rule: reject when the sample mean is at most the critical value. */
  predicate LeftCriticalRejects(mean: real, crit: Num)
  {
    LessEq(Fin(mean), crit)
  }

  /** Right-tailed critical-value rule: reject when the sample mean is at least the critical value. */
  predicate RightCriticalRejects(mean: real, crit: Num)
  {
    LessEq(crit, Fin(mean))
  }

  /** Two-tailed critical-value rule: reject outside the open interval between the two critical values. */
  predicate TwoCriticalRejects(mean: real, lower: Num, upper: Num)
  {
    LessEq(Fin(mean), lower) || LessEq(upper, Fin(mean))
  }

  /** p-value rule, the same in every direction. */
  predicate PValueRejects(pValue: real, alpha: real)
  {
    pValue <= alpha
  }

  /** Left-tailed interval `(-Infinity, mean + |crit|]`: reject when it lies below 0. */
  predicate LeftIntervalRejects(mean: real, crit: Num)
  {
    Less(Add(Fin(mean), Abs(crit)), Fin(0.0))
  }

  /** Right-tailed interval `[mean - |crit|, Infinity)`: reject when it lies above 0. */
  predicate RightIntervalRejects(mean: real, crit: Num)
  {
    Less(Fin(0.0), Sub(Fin(mean), Abs(crit)))
  }

  /** Two-tailed interval `mean -/+ |lower|`: reject when it does not contain 0. Only the
      lower critical value is used for the margin. */
  predicate TwoIntervalRejects(mean: real, lower: Num)
  {
    var margin := Abs(lower);
    Less(Fin(0.0), Sub(Fin(mean), margin)) || Less(Add(Fin(mean), margin), Fin(0.0))
  }

  // ---------------------------------------------------------------- the page

  /** The conclusion `updateResults` shows for a test type and method: `true` for "reject".
      The critical values and the p-value come from the normal toolkit; an unknown test
      type makes `getCriticalValue` throw. Any method other than 'critical' and 'p-value'
      is the confidence-interval method. */
  function UpdateResults(m: MathLib, testType: string, testMethod: string, alpha: real, sampleMean: real): (r: Result<bool>)
    ensures r.Ok? <==> testType == "left" || testType == "right" || testType == "two"
    ensures r.Ok? && testMethod == "p-value" ==> (r.value <==> PValueRejects(GetPValue(m, sampleMean, testType).value, alpha))
  {
    var critical := GetCriticalValue(m, alpha, testType);
    var pValue := GetPValue(m, sampleMean, testType);
    if critical.Err? then Err(critical.error)
    else if testType == "left" then
      var crit := critical.value.z;
      Ok(if testMethod == "critical" then LeftCriticalRejects(sampleMean, crit)
         else if testMethod == "p-value" then PValueRejects(pValue.value, alpha)
         else LeftIntervalRejects(sampleMean, crit))
    else if testType == "right" then
      var crit := critical.value.z;
      Ok(if testMethod == "critical" then RightCriticalRejects(sampleMean, crit)
         else if testMethod == "p-value" then PValueRejects(pValue.value, alpha)
         else RightIntervalRejects(sampleMean, crit))
    else
      var lower := critical.value.lower;
      var upper := critical.value.upper;
      Ok(if testMethod == "critical" then TwoCriticalRejects(sampleMean, lower, upper)
         else if testMethod == "p-value" then PValueRejects(pValue.value, alpha)
         else TwoIntervalRejects(sampleMean, lower))
  }

  // ---------------------------------------------------------------- agreement

  /** Left-tailed: with a negative critical value c the interval rule rejects exactly
      when the critical rule does and the sample mean is not c itself; with critical
      value -Infinity (alpha <= 0) neither rule rejects. */
  lemma {:induction false} LeftRulesAgree(mean: real, c: real)
    ensures c < 0.0 ==> (LeftIntervalRejects(mean, Fin(c)) <==> LeftCriticalRejects(mean, Fin(c)) && mean != c)
    ensures !LeftIntervalRejects(mean, NegInf) && !LeftCriticalRejects(mean, NegInf)
  {
  }

  /** Right-tailed: with a positive critical value c the interval rule rejects exactly
      when the critical rule does and the sample mean is not c; with critical value
      +Infinity (alpha <= 0) neither rule rejects. */
  lemma {:induction false} RightRulesAgree(mean: real, c: real)
    ensures c > 0.0 ==> (RightIntervalRejects(mean, Fin(c)) <==> RightCriticalRejects(mean, Fin(c)) && mean != c)
    ensures !RightIntervalRejects(mean, PosInf) && !RightCriticalRejects(mean, PosInf)
  {
  }

  /** Two-tailed: with critical values c < 0 and -c the interval rule rejects exactly when
      the critical rule does and the sample mean is neither c nor -c. */
  lemma {:induction false} TwoRulesAgree(mean: real, c: real)
    requires c < 0.0
    ensures TwoIntervalRejects(mean, Fin(c)) <==> TwoCriticalRejects(mean, Fin(c), Fin(-c)) && mean != c && mean != -c
  {
  }

  /** On the page: for a two-sided test whose lower critical value c is negative and
      whose alpha/2 is not a region boundary of the inverse cdf, the interval method
      and the critical-value method reach the same conclusion except at mean = c and
      mean = -c, where only the critical-value method rejects. */
  lemma {:induction false} TwoTailedMethodsAgree(m: MathLib, alpha: real, mean: real, c: real)
    requires alpha / 2.0 != LowBreak && alpha / 2.0 != HighBreak
    requires GetCriticalValue(m, alpha, "two").value.lower == Fin(c) && c < 0.0
    ensures UpdateResults(m, "two", "confidence", alpha, mean).value
        <==> UpdateResults(m, "two", "critical", alpha, mean).value && mean != c && mean != -c
  {
    CriticalValuesSymmetric(m, alpha);
    TwoRulesAgree(mean, c);
  }

  /** On the page, left-tailed: the interval method and the critical-value method agree
      except when the sample mean equals a negative critical value. */
  lemma {:induction false} LeftTailedMethodsAgree(m: MathLib, alpha: real, mean: real, c: real)
    requires GetCriticalValue(m, alpha, "left").value.z == Fin(c) && c < 0.0
    ensures UpdateResults(m, "left", "confidence", alpha, mean).value
        <==> UpdateResults(m, "left", "critical", alpha, mean).value && mean != c
  {
    LeftRulesAgree(mean, c);
  }

  /** On the page, right-tailed: the two methods agree except when the sample mean
      equals a positive critical value. */
  lemma {:induction false} RightTailedMethodsAgree(m: MathLib, alpha: real, mean: real, c: real)
    requires GetCriticalValue(m, alpha, "right").value.z == Fin(c) && c > 0.0
    ensures UpdateResults(m, "right", "confidence", alpha, mean).value
        <==> UpdateResults(m, "right", "critical", alpha, mean).value && mean != c
  {
    RightRulesAgree(mean, c);
  }

  /** The two-sided p-value method reaches the same conclusion for a sample mean and for
      its negation. */
  lemma {:induction false} TwoSidedPValueSymmetric(m: MathLib, alpha: real, mean: real)
    ensures UpdateResults(m, "two", "p-value", alpha, -mean).value
        == UpdateResults(m, "two", "p-value", alpha, mean).value
  {
    PValueSymmetric(m, mean);
  }
}
