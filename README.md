# A verified model of the probability-distribution explorer

The system is a browser page for exploring probability distributions, together with a
companion page that runs a one-sample z-test. This project models the computational core
of both pages in Dafny.

- **`distributions.js`.** The distribution engine. For Bernoulli, binomial, Poisson,
  geometric, normal, uniform, exponential, gamma, Student t, F and chi-square it models
  the probability mass or density, the cumulative distribution function, the mean,
  variance, median and plotting support, and the random draws. It also models the Lanczos
  gamma function with its reflection branch.
- **`hypothesis_test/normal.js`.** The `Normal` toolkit: the density, a polynomial cdf,
  the piecewise rational inverse cdf, critical values and p-values.
- **`hypothesis_test/main.js`.** The reject rules of `updateResults`: critical-value,
  p-value and confidence-interval, in each tail direction.
- **`script.js`.** Three parts of the main page:
  - the histogram of a generated sample: bins, in-place counting, frequencies, and the
    sample mean and variance;
  - the 200-point plotting grid;
  - the probability calculator.

How numbers are modelled:

- A JavaScript number is `Numbers.Num`: an exact real (`Fin`), one of the two infinities,
  or NaN.
- Arithmetic follows IEEE 754 for the non-finite cases. Finite results are exact: there
  is no rounding and no signed zero.
- `exp`, `ln`, `log2`, `log10`, `sqrt`, `sin`, real-exponent `pow` and the library gamma
  function are fields of a record `Primitives.MathLib` that every formula receives as a
  parameter.
- `Sane(m)` collects the facts about those functions that the proofs rely on, for
  example `exp > 0`, `sqrt(x) > 0` for `x > 0`, and that `sin` is symmetric about
  `pi / 2`.
- Integer powers, factorials and binomial coefficients are exact.
- `Math.random()` draws are explicit inputs, a function from the draw number to a real.

The source's loops are modelled as methods, each proved equal to a function that gives
the meaning of the loop:

- the running sums of the binomial and Poisson cdfs;
- the 1000-step trapezoidal cdfs of the gamma, t, F and chi-square distributions;
- the Lanczos accumulator;
- the counting loops of the samplers;
- the two histogram-counting loops, which fill an `array` in place.

The properties are proved about those functions.

The module `DiscreteMoments` ties the closed-form means and variances of the binomial
and Poisson distributions to their pmfs:

- The binomial moments are exact sums over the finite support 0..n. They are proved by
  Pascal's rule, one row of the expansion at a time.
- The Poisson moments are truncated identities, one for every N. They rest on each term
  `lambda^i / i!` absorbing one factor `lambda` from the term before it.

## Model

| member | source | states |
|---|---|---|
| DiscreteDistributions.BernoulliPmf | distributions.js:14-18 | the mass is non-zero only at 0 and 1, and lies in [0, 1] for p in [0, 1] |
| DiscreteDistributions.BernoulliCdf | distributions.js:20-24 | the cdf lies in [0, 1] for p in [0, 1] |
| DiscreteDistributions.BernoulliCdfIsRunningSum | distributions.js:14-24 | cdf(x) is the mass summed over the integers 0..floor(x), for every real x |
| DiscreteDistributions.BernoulliMean | distributions.js:30-32 | the mean is the mass-weighted sum of the support, 0·pmf(0) + 1·pmf(1) |
| DiscreteDistributions.BernoulliVariance | distributions.js:34-36 | the variance is the mass-weighted squared deviation from the mean, and lies in [0, 1/4] |
| DiscreteDistributions.BernoulliMedian | distributions.js:38-42 | the returned median has cdf at least 1/2 |
| DiscreteDistributions.BernoulliSupport | distributions.js:44-46 | every integer outside the support has mass 0; for p in (0, 1) every support point has positive mass |
| DiscreteDistributions.BinomialPmf | distributions.js:67-70 | the mass is non-zero only at integers in [0, n], and is non-negative for p in [0, 1] |
| DiscreteDistributions.BinomialTheorem | distributions.js:67-70 | the Pascal-rule terms of row n sum to (p + q)^n |
| DiscreteDistributions.PascalTermClosedForm | distributions.js:67-70 | the Pascal-rule term equals C(n, i) p^i q^(n-i) |
| DiscreteDistributions.BinomialMassTotal | distributions.js:67-80 | the binomial masses over 0..n sum to exactly 1 |
| DiscreteDistributions.BinomialCdf | distributions.js:72-80 | the cdf lies in [0, 1] for p in [0, 1] |
| DiscreteDistributions.ComputeBinomialCdf | distributions.js:72-80 | the accumulating loop returns the binomial cdf |
| DiscreteDistributions.BinomialCdfIsRunningSum | distributions.js:72-80 | the cdf, including the k >= n shortcut to 1, is the running sum of the mass over 0..floor(k) |
| DiscreteMoments.BinomialMeanIsFirstMoment | distributions.js:90-92 | the returned mean n p is the first moment of the binomial pmf: the sum over 0..n of i times pmf(i) |
| DiscreteMoments.BinomialFactorialMoment | distributions.js:94-96 | the second factorial moment of the pmf, the sum over 0..n of i (i - 1) pmf(i), is n (n - 1) p^2 |
| DiscreteDistributions.BinomialVariance | distributions.js:94-96 | the variance is non-negative for p in [0, 1] |
| DiscreteMoments.BinomialVarianceIsSecondMoment | distributions.js:94-96 | the returned variance n p (1 - p) is the pmf's squared deviation from the returned mean: the sum over 0..n of (i - n p)^2 pmf(i) |
| DiscreteDistributions.BinomialMedian | distributions.js:98-100 | the median lies in 0..n for n >= 1 and p in [0, 1), and is n + 1 at p = 1 |
| DiscreteDistributions.BinomialMedianOutsideSupport | distributions.js:98-100 | at p = 1, and at n = 0 with p >= 0.5, the median is n + 1, where the mass is 0 |
| DiscreteDistributions.BinomialMedianCorrected | distributions.js:98-100 | the median clamped to n lies in 0..n for every p in [0, 1], equals the source's for n >= 1 and p < 1, and is n at p = 1 |
| DiscreteDistributions.BinomialSupport | distributions.js:102-104 | the support is exactly 0..n (n + 1 items), and the mass is 0 outside it |
| DiscreteDistributions.PoissonPmf | distributions.js:126-129 | the mass is non-zero only at non-negative integers, and non-negative for lambda >= 0 |
| DiscreteDistributions.PoissonCdf | distributions.js:131-138 | the cdf is the running sum of the mass over 0..floor(k) (0 for k < 0), and non-negative |
| DiscreteDistributions.ComputePoissonCdf | distributions.js:131-138 | the accumulating loop returns the Poisson cdf |
| DiscreteDistributions.PoissonCdfMonotone | distributions.js:131-138 | the cdf is non-decreasing in k |
| DiscreteMoments.PoissonMassIsTerm | distributions.js:126-129 | at every integer the pmf is the term e lambda^i / i! with e = exp(-lambda), and 0 below 0 |
| DiscreteMoments.PoissonTermsFirstMoment | distributions.js:151-153 | for the terms t(i) = e lambda^i / i! and every N, the sum over 0..N of i t(i) is lambda times the sum of t over 0..N-1 |
| DiscreteMoments.PoissonFirstMoment | distributions.js:151-153 | for every N, the sum over 0..N of i pmf(i) is the returned mean lambda times the pmf's total over 0..N-1: the truncated identity whose limit is the mean lambda |
| DiscreteMoments.PoissonTermsFactorialMoment | distributions.js:155-157 | for the terms and every N >= 1, the sum over 0..N of i (i - 1) t(i) is lambda times the sum of i t(i) over 0..N-1, which is lambda times the sum of t over 0..N-2 |
| DiscreteMoments.PoissonFallingOfTerms | distributions.js:126-129 | the pmf's partial sums of i (i - 1) pmf(i) equal those of the terms, so the factorial-moment identity holds of the pmf |
| DiscreteDistributions.PoissonVariance | distributions.js:155-157 | the variance is non-negative for lambda >= 0 |
| DiscreteDistributions.PoissonMedian | distributions.js:159-161 | the median is a whole number at most lambda + 1/3; at lambda = 0 it is -Infinity |
| DiscreteDistributions.PoissonSupport | distributions.js:163-167 | the support is exactly 0..max(ceil(3 lambda), 10): max(ceil(3 lambda), 10) + 1 consecutive integers from 0, at least 11, reaching 3 lambda |
| DiscreteDistributions.GeometricPmf | distributions.js:188-191 | the mass is non-zero only at integers >= 1, and lies in [0, p] |
| DiscreteDistributions.GeometricCdf | distributions.js:193-196 | the cdf lies in [0, 1] for p in [0, 1] |
| DiscreteDistributions.GeometricSeries | distributions.js:188-196 | the masses over 1..n sum to 1 - (1 - p)^n, the finite geometric series |
| DiscreteDistributions.GeometricCdfIsRunningSum | distributions.js:188-196 | the closed-form cdf equals the running sum of the mass over 1..floor(k), and is 0 for k < 1 |
| DiscreteDistributions.GeometricMean | distributions.js:202-204 | the mean is at least 1 for p in (0, 1], and +Infinity at p = 0 |
| DiscreteDistributions.GeometricVariance | distributions.js:206-208 | the variance is non-negative for p in (0, 1], and +Infinity at p = 0 |
| DiscreteDistributions.GeometricMedian | distributions.js:210-212 | the median is 0 at p = 1, and a whole number when log2(1 - p) is non-zero |
| DiscreteDistributions.GeometricSupport | distributions.js:214-218 | the support is exactly 1..max(ceil(3/p), 20): max(ceil(3/p), 20) consecutive integers from 1, reaching 3/p; p = 0 makes the array length invalid (an error) |
| ContinuousDistributions.NormalPdfSymmetric | distributions.js:243-246 | the density is symmetric about mu |
| ContinuousDistributions.NormalPdfPeaksAtMean | distributions.js:243-246 | for sigma > 0 the density is finite, positive and largest at mu |
| ContinuousDistributions.NormalPdfDegenerate | distributions.js:243-246 | for sigma = 0 the density is NaN |
| ContinuousDistributions.ErfOdd | distributions.js:255-273 | the error-function approximation is odd away from 0 |
| ContinuousDistributions.NormalCdfSymmetric | distributions.js:248-253 | for sigma > 0, cdf(mu + d) + cdf(mu - d) = 1 when d is non-zero |
| ContinuousDistributions.NormalCdfDegenerate | distributions.js:248-253 | for sigma = 0 the cdf is the step from 0 to 1 at mu, and NaN at mu itself |
| ContinuousDistributions.NormalSummaries | distributions.js:282-298 | the median is the mean, the support is mu ± 3 sigma (symmetric, width 6 sigma), and the variance is non-negative |
| ContinuousDistributions.UniformPdf | distributions.js:319-322 | the density is 1/(b - a) > 0 on [a, b], and 0 outside |
| ContinuousDistributions.UniformCdfShape | distributions.js:324-328 | for a < b the cdf lies in [0, 1], is non-decreasing, and rises by (y - x)·pdf over [x, y] within [a, b] |
| ContinuousDistributions.UniformDegenerate | distributions.js:319-328 | for a = b the cdf at a is NaN; for a > b the density is 0 and the cdf is the step at a |
| ContinuousDistributions.UniformSummaries | distributions.js:334-348 | the median equals the mean, at the midpoint of [a, b]; the cdf there is 1/2; the variance is non-negative; the support is [a, b] |
| ContinuousDistributions.ExponentialPdf | distributions.js:370-373 | the density is 0 for x < 0, and non-negative |
| ContinuousDistributions.ExponentialCdfShape | distributions.js:375-378 | the cdf lies in [0, 1) and is non-decreasing |
| ContinuousDistributions.ExponentialSummaries | distributions.js:384-398 | variance = mean², the support ends at 5·mean, the median is ln 2/lambda, where the cdf is exactly 1/2 whenever ln 2 >= 0 and exp inverts ln (`ExpInvertsLn`); at lambda = 0 mean, variance and the support's end are +Infinity |
| GammaDistribution.LanczosSum | distributions.js:437-442 | the accumulating loop computes the Lanczos series |
| GammaDistribution.GammaFunction | distributions.js:426-446 | the recursive method returns the gamma function of the model |
| GammaDistribution.GammaFnReflects | distributions.js:432-434 | below 1/2 the function is pi / (sin(pi x) Γ(1 - x)) |
| GammaDistribution.GammaFnFinite | distributions.js:436-446 | from 1/2 upwards the Lanczos formula is finite |
| GammaDistribution.GammaReflection | distributions.js:432-446 | Γ(x) Γ(1 - x) sin(pi x) = pi wherever sin(pi x) and the two values are non-zero |
| GammaDistribution.GammaPole | distributions.js:432-434 | where sin(pi x) = 0 below 1/2 the function is +Infinity |
| GammaDistribution.GammaPdf | distributions.js:420-424 | the density is 0 for x <= 0 |
| GammaDistribution.GammaPdfPositive | distributions.js:420-424 | for x > 0 and theta > 0, and provided the model's Γ(k) is finite and positive (`GammaFn(m, k).Fin? && GammaFn(m, k).v > 0.0`), the density is finite and positive |
| GammaDistribution.GammaCdf | distributions.js:448-464 | the cdf is 0 for x <= 0 |
| GammaDistribution.ComputeGammaCdf | distributions.js:448-464 | the trapezoid loop returns the gamma cdf |
| GammaDistribution.GammaCdfNonnegative | distributions.js:448-464 | for theta > 0, and provided the model's Γ(k) is finite and positive (`GammaFn(m, k).Fin? && GammaFn(m, k).v > 0.0`), the cdf is finite and non-negative |
| GammaDistribution.GammaMedianBounds | distributions.js:489-492 | for k >= 1 the median lies strictly between mean - theta/3 and the mean; at k = 0 it is +Infinity or NaN |
| GammaDistribution.GammaSupportAboveMean | distributions.js:481-497 | the variance is positive and the support [0, mean + 4 sd] reaches past the mean |
| GammaDistribution.GammaRandom | distributions.js:466-479 | a positive whole k sums exactly k exponential draws; any other k returns exactly the mean k·theta |
| GammaDistribution.DrawSumNonnegative | distributions.js:468-474 | with draws in (0, 1] the sum is finite and non-negative |
| GammaDistribution.DrawSumZeroDraw | distributions.js:468-474 | a draw of exactly 0 makes the sum +Infinity |
| Integration.Trapezoid | distributions.js:455-463 | the loop `sum += (f(x1) + f(x2)) h / 2` returns the trapezoid sum |
| Integration.TrapezoidClosedForm | distributions.js:455-463 | with finite node values the sum is h (Σ f(x_i) - (f(x_0) + f(x_n))/2) |
| Integration.TrapezoidNonnegative | distributions.js:455-463 | a non-negative integrand and a non-negative step give a non-negative sum |
| Integration.TrapezoidNegative | distributions.js:593-602 | a negative step with a positive first value gives a negative sum |
| Integration.TrapezoidInfinite | distributions.js:593-602 | an infinite first value gives ±Infinity, signed by the step |
| SamplingDistributions.ComputeTCdf | distributions.js:526-538 | the trapezoid loop from -10 returns the t cdf |
| SamplingProperties.TPdfSymmetric | distributions.js:520-524 | the t density is even in x |
| SamplingProperties.TPdfPositive | distributions.js:520-524 | for nu > 0 the t density is finite and positive |
| SamplingProperties.TCdfSign | distributions.js:526-538 | the t cdf is finite; non-negative from -10 up and negative below -10 |
| SamplingProperties.TSummaries | distributions.js:549-565 | mean NaN for nu <= 1; variance nu/(nu - 2) > 1 for nu > 2, +Infinity for 1 < nu <= 2, NaN otherwise; median 0, centre of the support [-5, 5] |
| SamplingProperties.TVarianceDecreasing | distributions.js:553-557 | the t variance decreases in nu above 2 |
| SamplingDistributions.FPdf | distributions.js:584-590 | the F density is 0 for x < 0 |
| SamplingDistributions.ComputeFCdf | distributions.js:592-603 | the trapezoid loop returns the F cdf |
| SamplingProperties.FFormulaPositive | distributions.js:584-590 | for x > 0 the F formula is finite and positive |
| SamplingProperties.FCdfInfinite | distributions.js:584-603 | as written, with d1 = 1 the cdf is +Infinity at every x > 0 |
| SamplingProperties.FCdfNegativeInfinite | distributions.js:584-603 | as written, with d1 = 1 the cdf is -Infinity at every x < 0 |
| SamplingProperties.FCdfNegative | distributions.js:584-603 | as written, with d1 = 2 the cdf is negative at every x < 0 |
| SamplingDistributions.FPdfCorrected | distributions.js:584-590 | the density guarded at x <= 0 agrees with the source for d1 >= 2 |
| SamplingProperties.FCdfCorrectedSound | distributions.js:592-603 | the corrected cdf is finite and non-negative for all d1, d2 > 0, and equals the source's for d1 >= 2 and x > 0 |
| SamplingProperties.FSummaries | distributions.js:617-631 | mean d2/(d2 - 2) > 1 for d2 > 2, NaN otherwise; variance positive for d2 > 4, NaN otherwise; median NaN; support [0, 10] |
| SamplingDistributions.ChiSquarePdf | distributions.js:649-654 | the chi-square density is 0 for x < 0 |
| SamplingDistributions.ChiSquareCdf | distributions.js:656-667 | the chi-square cdf is 0 for x < 0 |
| SamplingDistributions.ComputeChiSquareCdf | distributions.js:656-667 | the trapezoid loop returns the chi-square cdf |
| SamplingProperties.ChiSquareFormulaPositive | distributions.js:649-654 | for x > 0 the formula is finite and positive |
| SamplingProperties.ChiSquareCdfInfinite | distributions.js:649-667 | as written, with k = 1 the cdf is +Infinity at every x > 0 |
| SamplingDistributions.ChiSquarePdfCorrected | distributions.js:649-654 | the density guarded at x <= 0 agrees with the source for k >= 2 |
| SamplingProperties.ChiSquareCdfCorrectedSound | distributions.js:656-667 | the corrected cdf is finite and non-negative for every k > 0, and equals the source's for k >= 2 and x > 0 |
| SamplingProperties.ChiSquareSummaries | distributions.js:677-691 | variance = 2·mean; the median lies in (0, mean) for k > 2/9; the support reaches past the mean; NaN for k < 0 |
| Samplers.BernoulliRandom | distributions.js:26-28 | the draw is 1 exactly when u < p, and 0 otherwise |
| Samplers.BinomialRandom | distributions.js:82-88 | the loop counts the draws below p among the first n |
| Samplers.BernoulliIsOneTrial | distributions.js:26-28 | a Bernoulli draw is a binomial draw with one trial |
| Samplers.CountBelowMonotone | distributions.js:82-88 | the count is non-decreasing in p |
| Samplers.CountBelowExtremes | distributions.js:82-88 | with draws in [0, 1) the count is 0 for p <= 0 and n for p >= 1 |
| Samplers.BinomialRandomInSupport | distributions.js:82-104 | every binomial draw lies in the binomial support |
| Samplers.PoissonRandom | distributions.js:140-149 | the do-while returns k where the running product of draws first reaches exp(-lambda) at draw k + 1 |
| Samplers.FirstCrossingUnique | distributions.js:140-149 | that crossing point is unique |
| Samplers.ZeroDrawStops | distributions.js:140-149 | a draw of 0 stops the loop at that draw at the latest |
| Samplers.GeometricRandomAtOne | distributions.js:188-200 | as written, at p = 1 the draw is 0, which has mass 0 |
| Samplers.GeometricRandomCorrected | distributions.js:198-200 | the corrected draw agrees with the source for p ≠ 1 |
| Samplers.GeometricRandomCorrectedInSupport | distributions.js:198-200 | the corrected draw is a whole number >= 1 for p in (0, 1] |
| Samplers.UniformRandom | distributions.js:330-332 | for a < b and u in [0, 1) the draw lies in [a, b) |
| Samplers.UniformRandomMonotone | distributions.js:330-332 | the draw is non-decreasing in u |
| Samplers.ExponentialRandom | distributions.js:380-382 | for u in (0, 1] the draw is finite and non-negative; u = 0 gives +Infinity |
| Samplers.ChiSquareRandom | distributions.js:669-675 | the loop sums the squares of the first ceil(k) normal draws |
| Samplers.FRandom | distributions.js:605-615 | the two loops give (U1/d1)/(U2/d2) over two consecutive blocks of squared draws |
| Samplers.FRandomNonnegative | distributions.js:605-615 | the F draw is non-negative, +Infinity or NaN when the second block is 0 |
| Samplers.TRandom | distributions.js:540-547 | the loop gives Z / sqrt(chiSq/nu) with Z the first draw |
| Samplers.TRandomSign | distributions.js:540-547 | the t draw is finite and has the sign of Z |
| Samplers.Trials | distributions.js:470 | the loop `i < k` runs exactly ceil(k) times (0 for k <= 0) |
| NormalKit.PdfSymmetric | hypothesis_test/normal.js:12-15 | pdf(m + d) = pdf(m - d) for every standard deviation |
| NormalKit.PdfPositive | hypothesis_test/normal.js:12-15 | with a positive standard deviation the density is finite and positive |
| NormalKit.CdfT | hypothesis_test/normal.js:24 | t lies in (0, 1] |
| NormalKit.TailMassEven | hypothesis_test/normal.js:24-26 | the tail term depends only on abs(x) and x² |
| NormalKit.CdfSymmetric | hypothesis_test/normal.js:22-33 | cdf(-x) = 1 - cdf(x) for x ≠ 0 |
| NormalKit.CdfAtZero | hypothesis_test/normal.js:22-33 | cdf(0) = 0.49999985009951, so the symmetry does not extend to 0 |
| NormalKit.InvCdf | hypothesis_test/normal.js:40-43 | -Infinity for p <= 0, +Infinity for p >= 1 |
| NormalKit.InvCdfAtHalf | hypothesis_test/normal.js:78-82 | invCdf(1/2) = 0 |
| NormalKit.CentralOdd | hypothesis_test/normal.js:78-82 | the central formula is odd in p - 1/2 |
| NormalKit.HighTailMirrorsLow | hypothesis_test/normal.js:71-88 | the upper-tail formula at p is the negated lower-tail formula at 1 - p |
| NormalKit.InvCdfOdd | hypothesis_test/normal.js:40-89 | invCdf(1 - p) = -invCdf(p) for every p except the two region boundaries |
| NormalKit.GetCriticalValue | hypothesis_test/normal.js:97-111 | succeeds exactly for 'left', 'right' and 'two', and gives a pair exactly for 'two' |
| NormalKit.CriticalValuesSymmetric | hypothesis_test/normal.js:97-111 | the right critical value is the negated left one, and the two-sided pair is symmetric, away from the region boundaries |
| NormalKit.GetPValue | hypothesis_test/normal.js:119-130 | succeeds exactly for 'left', 'right' and 'two' |
| NormalKit.PValueAlgebra | hypothesis_test/normal.js:119-130 | left + right = 1; two = 2·min(left, right), in [0, 1] whenever the cdf is |
| NormalKit.PValueSymmetric | hypothesis_test/normal.js:119-130 | the two-sided p-value is even in z; for z ≠ 0 the left p-value at -z is the right one at z |
| Decisions.UpdateResults | hypothesis_test/main.js:33-237 | a conclusion exists exactly for the three known test types; the p-value method rejects exactly when p <= alpha |
| Decisions.LeftRulesAgree | hypothesis_test/main.js:47-48 | with c < 0 the left interval rule (88-95) rejects exactly when the critical rule does and mean ≠ c; with c = -Infinity neither rejects |
| Decisions.RightRulesAgree | hypothesis_test/main.js:108-109 | with c > 0 the right interval rule (149-156) rejects exactly when the critical rule does and mean ≠ c; with c = +Infinity neither rejects |
| Decisions.TwoRulesAgree | hypothesis_test/main.js:170-172 | with c < 0 the two-sided interval rule (215-224) rejects exactly when the critical rule with (c, -c) does and mean is neither c nor -c |
| Decisions.LeftTailedMethodsAgree | hypothesis_test/main.js:47-95 | on the page, left-tailed: the interval method agrees with the critical-value method except at mean = c |
| Decisions.RightTailedMethodsAgree | hypothesis_test/main.js:108-156 | on the page, right-tailed: the same, except at mean = c |
| Decisions.TwoTailedMethodsAgree | hypothesis_test/main.js:169-224 | on the page, two-sided: the same, except at mean = ±c |
| Decisions.TwoSidedPValueSymmetric | hypothesis_test/main.js:195-201 | the two-sided p-value method reaches the same conclusion for mean and -mean |
| Histogram.HitsBounds | script.js:633-639 | every sample is counted exactly when every index is in range; none is counted when none is in range |
| Histogram.TallyTotal | script.js:633-639 | the counters add up to the number of in-range indices |
| Histogram.DiscreteBins | script.js:626-630 | the bins are consecutive integers from the smallest to the largest of support and samples, and contain every value of both |
| Histogram.CountDiscrete | script.js:633-639 | the in-place counting loop leaves the tally of `sample - minVal` in the array |
| Histogram.DiscreteCountsOccurrences | script.js:633-639 | counter i holds the number of samples equal to minVal + i |
| Histogram.DiscreteHistogramComplete | script.js:623-639 | the counters add up to the sample size, and each holds the occurrences of its bin's value |
| Histogram.FrequenciesTotal | script.js:641 | the frequencies add up to total count / sample size |
| Histogram.FrequenciesSumToOne | script.js:641 | when the counters add up to the sample size, the frequencies add up to 1 |
| Histogram.NumBins | script.js:652 | at least 5 bins; exactly ceil(1 + 3.322 log10(n)) when that exceeds 5, and exactly 5 for an empty sample or when it does not |
| Histogram.ContinuousBinsCover | script.js:653-656 | the bin edges start at adjustedMin, are binWidth apart, and the last bin ends at adjustedMax |
| Histogram.BinIndex | script.js:661 | the index lies in [0, numBins - 1], and equals the source's clamped floor whenever binWidth ≠ 0 |
| Histogram.BinIndexLocates | script.js:661 | a sample inside the histogram's range lands in the bin whose edges enclose it |
| Histogram.CountContinuous | script.js:659-663 | the in-place counting loop leaves the tally of the bin indices in the array |
| Histogram.ContinuousCountsComplete | script.js:659-663 | with the index guarded against width 0, every sample is counted once and the counters add up to the sample size |
| Histogram.ZeroWidthDropsSamples | script.js:647-663 | as written: with binWidth ≠ 0 every sample is counted; with width 0 and every sample at adjustedMin, none is |
| Histogram.SquaredDeviationsFacts | script.js:613 | the squared deviations are non-negative, and 0 when every value is the mean |
| Histogram.SampleVarianceFacts | script.js:612-613 | for a non-empty sample the variance is finite and non-negative, and 0 for a constant sample |
| Histogram.Grid | script.js:425-429 | exactly 200 points |
| Histogram.GridShape | script.js:425-429 | the grid starts at min, ends at max, is evenly spaced by (max - min)/199, and is increasing when min < max |
| Calculator.Probability | script.js:553-574 | a value exists exactly for 'eq', 'le' and 'ge' |
| Calculator.ContinuousTails | script.js:564-574 | for a continuous distribution P(X = x) = 0, and P(X <= x) + P(X >= x) = 1 when the cdf is finite |
| Calculator.PointIsRange | script.js:553-563 | for a discrete distribution whose cdf is a running sum, P(X = k) at a whole k is the range [k, k] |
| Calculator.CdfGap | script.js:591-592 | the difference of two running-sum cdf values is the mass between them |
| Calculator.RangeAsWritten | script.js:591-592 | as written, the discrete range [a, b] sums the mass from floor(a), not ceil(a) |
| Calculator.AtLeastAsWritten | script.js:560-563 | as written, discrete P(X >= x) = 1 - mass below floor(x) |
| Calculator.HalfBoundCountsZero | script.js:560-563 | as written, for Bernoulli(1/2), P(0.5 <= X <= 1) = 1 and P(X >= 0.5) = 1 |
| Calculator.ProbabilityCorrected | script.js:560-563 | agrees with the source except for 'ge' on a discrete distribution at a non-whole x |
| Calculator.RangeProbabilityCorrected | script.js:591-594 | agrees with the source except for a discrete distribution with a non-whole lower bound |
| Calculator.RangeIsMassBetween | script.js:591-592 | the corrected range sums the mass over the whole numbers in [a, b] |
| Calculator.WholeNumbersBetween | script.js:591-592 | the whole numbers in [a, b] are exactly ceil(a)..floor(b) |
| Calculator.AtLeastIsMassFrom | script.js:560-563 | the corrected P(X >= x) = 1 - mass below ceil(x) |
| Calculator.HalfBoundCorrected | script.js:560-592 | corrected, for Bernoulli(1/2) both probabilities are 1/2 |
| Calculator.BernoulliIsRunningSum | distributions.js:14-24 | the Bernoulli cdf is the running sum of its mass, as the calculator's range formula expects |
| Calculator.BinomialIsRunningSum | distributions.js:67-80 | the same for the binomial distribution |
| Calculator.PoissonIsRunningSum | distributions.js:126-138 | the same for the Poisson distribution |
| Calculator.GeometricIsRunningSum | distributions.js:188-196 | the same for the geometric distribution |
| Calculator.UniformRange | script.js:593-594 | for the uniform distribution, P(x <= X <= y) within [a, b] is (y - x)/(b - a) |
| Primitives.PowOf | distributions.js:69 | a whole non-negative exponent gives the exact power; a positive base gives a positive result; 0 to a negative power is +Infinity |
| Primitives.Choose | distributions.js:69 | C(n, k) is 0 for k > n and at least 1 otherwise; an exact substitute for the library's combinations |
| Primitives.Log10Of | script.js:652 | the logarithm is finite exactly for x > 0 |

## Left out

- **UI and rendering.** The DOM, Chart.js, MathJax, themes, event listeners, all of
  `hypothesis_test/visualization.js`, and the HTML text of `updateResults`.
- **Approximation accuracy.** Nothing relates the following to the true functions,
  because `exp`, `ln`, `sqrt`, `sin`, `pow` and gamma are abstract here:
  - the Abramowitz–Stegun `erf`;
  - the Lanczos gamma function;
  - the polynomial normal cdf;
  - the Acklam inverse cdf;
  - the trapezoidal rule.
- **Round-trips between approximations.** `invCdf(cdf(x)) ≈ x`, and agreement between
  the p-value and critical-value methods, depend on that accuracy.
- **Floating point.** There is no rounding, no signed zero, and no overflow to
  Infinity of a large finite result.
- **Library functions.** The library's `combinations`, `factorial` and gamma are not
  part of this model. Combinations and factorials are exact natural-number definitions;
  gamma is an abstract field of `MathLib`.
- **The Box–Muller normal sampler.** It needs `cos` and `ln` of a uniform draw. The t, F
  and chi-square samplers take their standard normal draws as inputs instead.
- Samplers.PoissonRandom: requires that the product of the draws reaches
  `exp(-lambda)` at some point. The source loops for ever otherwise.
- PoissonMean: the returned lambda is tied to the pmf only through the truncated
  first-moment identity of `PoissonFirstMoment`, for every N. The infinite series
  and its limit are not modelled.
- PoissonVariance: states only that the variance is non-negative for lambda >= 0. The
  factorial-moment identities are proved for the terms `e lambda^i / i!`
  (`PoissonTermsFactorialMoment`), and their partial sums equal the pmf's
  (`PoissonFallingOfTerms`, `PoissonFirstOfTerms`). The combined pmf-level statement,
  and the limit `lambda^2 + lambda - lambda^2 = lambda`, are not stated.
- **The t cdf's fixed lower limit of -10.** It is modelled as written, but nothing is
  proved about how much mass lies below it.
- Histogram.DiscreteBins: requires a non-empty support. Every support function of
  the engine returns at least one value; `Math.min()` of nothing is not modelled.
- Histogram.CountDiscrete: takes the samples as whole numbers, so `Math.round` is
  the identity. Discrete draws are always whole.
- Histogram.SampleVarianceFacts: states that a constant sample has variance 0, but
  not the converse.
- **Frequencies of the continuous histogram, and the plotted values.** The continuous
  frequencies, `count / (sampleSize * binWidth)`, are not modelled, and neither are the
  theoretical pmf/pdf values plotted beside the histogram.
- Histogram.Grid: takes the support ends as finite reals. The exponential support's
  +Infinity end at lambda = 0 is not fed to it.
- **Global state.** The global flags of the page (`isCumulative` and the like) and the
  `currentParams` handlers of the test page are not modelled.

## Findings

| source | as written | input that shows it | evidently intended | confidence | as-written member | corrected member |
|---|---|---|---|---|---|---|
| distributions.js:649-667 | the chi-square pdf guards only x < 0, so the trapezoid evaluates pdf(0) = pow(0, -1/2) = +Infinity when k = 1 | k = 1, any x > 0: cdf = +Infinity | guard x <= 0 as the gamma pdf does, so the cdf is finite and non-negative | not executed | SamplingProperties.ChiSquareCdfInfinite | SamplingProperties.ChiSquareCdfCorrectedSound |
| distributions.js:584-603 | the F pdf guards only x < 0, and the F cdf has no guard for x < 0; pdf(0) = +Infinity when d1 = 1 | d1 = 1, any d2 > 0: cdf(x) = +Infinity for x > 0, and -Infinity for x < 0 | guard x <= 0 in the pdf and return 0 for x <= 0 in the cdf | not executed | SamplingProperties.FCdfInfinite | SamplingProperties.FCdfCorrectedSound |
| distributions.js:592-603 | the F cdf integrates from 0 to a negative x | d1 = 2, any d2 > 0, x = -1: cdf < 0 | the cdf is 0 for x <= 0 | not executed | SamplingProperties.FCdfNegative | SamplingProperties.FCdfCorrectedSound |
| distributions.js:98-100 | floor(n p + (p < 0.5 ? 0 : 1)) has no upper clamp | p = 1 and any n: the median is n + 1, where the mass is 0; likewise n = 0 with p = 0.5 gives 1 | a median inside the support 0..n, which is n at p = 1 | not executed | DiscreteDistributions.BinomialMedianOutsideSupport | DiscreteDistributions.BinomialMedianCorrected |
| distributions.js:198-200 | ceil(ln u / ln(1 - p)) with ln(0) = -Infinity | p = 1, u in (0, 1): the draw is 0, outside the support 1, 2, ... | a draw >= 1 (1 at p = 1) | not executed | Samplers.GeometricRandomAtOne | Samplers.GeometricRandomCorrectedInSupport |
| script.js:647-663 | binWidth = 0 gives the index floor(0/0) = NaN, and `counts[NaN]++` counts nothing | normal with sigma = 0 (allowed by distributions.js:303): every sample equals mu = adjustedMin, and no sample is counted | every sample lands in a bin | not executed | Histogram.ZeroWidthDropsSamples | Histogram.ContinuousCountsComplete |
| script.js:560-563, 591-592 | the discrete P(X >= x) and P(a <= X <= b) subtract cdf(x - 1), cdf(a - 1), which is right only for whole x and a; the inputs are read with parseFloat | Bernoulli p = 0.5, a = 0.5, b = 1: the range gives 1, not P(X = 1) = 0.5; likewise P(X >= 0.5) = 1 | subtract the cdf below ceil(a) | not executed; depends on the page accepting a non-whole bound | Calculator.HalfBoundCountsZero | Calculator.HalfBoundCorrected |

