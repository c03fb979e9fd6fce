/** The sample histogram of the distribution page (`generateSamples`): the bins, the
    counting of samples into them, the frequencies, the sample statistics, and the grid
    the continuous curves are drawn on (`generateContinuousData`). */
module Histogram {
  import opened Numbers
  import opened Primitives

  // ---------------------------------------------------------------- counters

  /** `counts[i]++` as the page guards it: an index that names no counter changes nothing. */
  function Bump(counts: seq<nat>, i: int): (r: seq<nat>)
    ensures |r| == |counts|
  {
    if 0 <= i < |counts| then counts[i := counts[i] + 1] else counts
  }

  /** The counters after a run of increments, starting from `n` zeros. */
  function Tally(indices: seq<int>, n: nat): (r: seq<nat>)
    ensures |r| == n
  {
    if |indices| == 0 then seq(n, _ => 0)
    else Bump(Tally(indices[..|indices| - 1], n), indices[|indices| - 1])
  }

  /** Sum of counters. */
  function Total(counts: seq<nat>): nat
  {
    if |counts| == 0 then 0 else Total(counts[..|counts| - 1]) + counts[|counts| - 1]
  }

  /** How many of the indices name one of `n` counters. */
  function Hits(indices: seq<int>, n: nat): (r: nat)
    ensures r <= |indices|
  {
    if |indices| == 0 then 0
    else Hits(indices[..|indices| - 1], n) + (if 0 <= indices[|indices| - 1] < n then 1 else 0)
  }

  predicate AllInRange(indices: seq<int>, n: nat)
  {
    forall k :: 0 <= k < |indices| ==> 0 <= indices[k] < n
  }

  predicate NoneInRange(indices: seq<int>, n: nat)
  {
    forall k :: 0 <= k < |indices| ==> !(0 <= indices[k] < n)
  }

  /** Every index is counted exactly when every index names a counter; none is counted
      when none does. */
  lemma {:induction false} HitsBounds(indices: seq<int>, n: nat)
    ensures Hits(indices, n) == |indices| <==> AllInRange(indices, n)
    ensures NoneInRange(indices, n) ==> Hits(indices, n) == 0
  {
    if |indices| > 0 {
      var prefix := indices[..|indices| - 1];
      HitsBounds(prefix, n);
      assert forall k :: 0 <= k < |prefix| ==> prefix[k] == indices[k];
      if AllInRange(prefix, n) && 0 <= indices[|indices| - 1] < n {
        assert AllInRange(indices, n) by {
          forall k | 0 <= k < |indices| ensures 0 <= indices[k] < n {
            if k < |prefix| {
              assert prefix[k] == indices[k];
            }
          }
        }
      }
    }
  }

  /** One increment adds one to the sum of the counters. */
  lemma {:induction false} TotalIncrement(counts: seq<nat>, i: nat)
    requires i < |counts|
    ensures Total(counts[i := counts[i] + 1]) == Total(counts) + 1
  {
    var bumped := counts[i := counts[i] + 1];
    var last := |counts| - 1;
    assert bumped[..last] == if i < last then counts[..last][i := counts[i] + 1] else counts[..last];
    if i < last {
      TotalIncrement(counts[..last], i);
    }
  }

  lemma {:induction false} TotalOfZeros(n: nat)
    ensures Total(seq(n, _ => 0)) == 0
  {
    if n > 0 {
      assert seq(n, _ => 0)[..n - 1] == seq(n - 1, _ => 0);
      TotalOfZeros(n - 1);
    }
  }

  /** The counters add up to the number of indices that name a counter. */
  lemma {:induction false} TallyTotal(indices: seq<int>, n: nat)
    ensures Total(Tally(indices, n)) == Hits(indices, n)
  {
    if |indices| == 0 {
      TotalOfZeros(n);
    } else {
      var prefix := indices[..|indices| - 1];
      var i := indices[|indices| - 1];
      TallyTotal(prefix, n);
      if 0 <= i < n {
        TotalIncrement(Tally(prefix, n), i);
      }
    }
  }

  // ---------------------------------------------------------------- discrete bins

  function MinOf(s: seq<int>): (r: int)
    requires |s| > 0
    ensures r in s && forall x | x in s :: r <= x
  {
    if |s| == 1 then s[0]
    else
      var prefix := s[..|s| - 1];
      assert s == prefix + [s[|s| - 1]];
      MinInt(MinOf(prefix), s[|s| - 1])
  }

  function MaxOf(s: seq<int>): (r: int)
    requires |s| > 0
    ensures r in s && forall x | x in s :: x <= r
  {
    if |s| == 1 then s[0]
    else
      var prefix := s[..|s| - 1];
      assert s == prefix + [s[|s| - 1]];
      MaxInt(MaxOf(prefix), s[|s| - 1])
  }

  /** One bin per whole number from the least to the greatest value among the support
      and the samples: the bins are consecutive, start and end at such a value, and
      every value of the support and of the samples has its bin. */
  function DiscreteBins(support: seq<int>, samples: seq<int>): (bins: seq<int>)
    requires |support| > 0
    ensures |bins| > 0 && bins[0] in support + samples && bins[|bins| - 1] in support + samples
    ensures forall i :: 0 <= i < |bins| ==> bins[i] == bins[0] + i
    ensures forall x | x in support + samples :: x in bins
  {
    var values := support + samples;
    var lo := MinOf(values);
    var hi := MaxOf(values);
    var bins := seq(hi - lo + 1, i => lo + i);
    assert forall x | x in values :: bins[x - lo] == x;
    bins
  }

  /** The counter index of each discrete sample: its distance from the first bin. The
      samplers of the discrete distributions return whole numbers, so rounding them is
      the identity. */
  function DiscreteIndices(samples: seq<int>, minVal: int): seq<int>
  {
    seq(|samples|, k requires 0 <= k < |samples| => samples[k] - minVal)
  }

  /** How often `v` occurs in `s`. */
  function Occurrences(s: seq<int>, v: int): nat
  {
    if |s| == 0 then 0 else Occurrences(s[..|s| - 1], v) + (if s[|s| - 1] == v then 1 else 0)
  }

  /** The page's discrete counting loop, on a fresh array of zeros. */
  method CountDiscrete(samples: seq<int>, minVal: int, numBins: nat) returns (counts: array<nat>)
    ensures counts[..] == Tally(DiscreteIndices(samples, minVal), numBins)
  {
    counts := new nat[numBins](_ => 0);
    var j := 0;
    while j < |samples|
      invariant 0 <= j <= |samples|
      invariant counts.Length == numBins
      invariant counts[..] == Tally(DiscreteIndices(samples[..j], minVal), numBins)
    {
      var binIndex := samples[j] - minVal;
      if 0 <= binIndex < counts.Length {
        counts[binIndex] := counts[binIndex] + 1;
      }
      assert DiscreteIndices(samples[..j + 1], minVal)[..j] == DiscreteIndices(samples[..j], minVal);
      j := j + 1;
    }
    assert samples[..|samples|] == samples;
  }

  /** Counter `i` holds the number of samples equal to `minVal + i`. */
  lemma {:induction false} DiscreteCountsOccurrences(samples: seq<int>, minVal: int, numBins: nat, i: nat)
    requires i < numBins
    ensures Tally(DiscreteIndices(samples, minVal), numBins)[i] == Occurrences(samples, minVal + i)
  {
    if |samples| > 0 {
      var prefix := samples[..|samples| - 1];
      assert DiscreteIndices(samples, minVal)[..|samples| - 1] == DiscreteIndices(prefix, minVal);
      DiscreteCountsOccurrences(prefix, minVal, numBins, i);
    }
  }

  /** With the page's bins every sample is counted once: the counters add up to the
      sample size, and the counter of each bin holds how often its value was drawn. */
  lemma {:induction false} DiscreteHistogramComplete(support: seq<int>, samples: seq<int>, i: nat)
    requires |support| > 0
    ensures var bins := DiscreteBins(support, samples);
            var counts := Tally(DiscreteIndices(samples, bins[0]), |bins|);
            Total(counts) == |samples| && (i < |bins| ==> counts[i] == Occurrences(samples, bins[i]))
  {
    var bins := DiscreteBins(support, samples);
    var indices := DiscreteIndices(samples, bins[0]);
    forall k | 0 <= k < |indices| ensures 0 <= indices[k] < |bins| {
      assert samples[k] in support + samples;
    }
    TallyTotal(indices, |bins|);
    HitsBounds(indices, |bins|);
    if i < |bins| {
      DiscreteCountsOccurrences(samples, bins[0], |bins|, i);
    }
  }

  /** `count / sampleSize` for every counter. */
  function Frequencies(counts: seq<nat>, sampleSize: nat): (f: seq<Num>)
    ensures |f| == |counts|
  {
    seq(|counts|, i requires 0 <= i < |counts| => Quot(counts[i] as real, sampleSize as real))
  }

  /** JavaScript sum of numbers, from 0. */
  function NumTotal(f: seq<Num>): Num
  {
    if |f| == 0 then Fin(0.0) else Add(NumTotal(f[..|f| - 1]), f[|f| - 1])
  }

  /** For a non-empty sample the frequencies add up to the share of samples counted,
      which is 1 when every sample is counted. */
  lemma {:induction false} FrequenciesTotal(counts: seq<nat>, sampleSize: nat)
    requires sampleSize > 0
    ensures NumTotal(Frequencies(counts, sampleSize)) == Fin(Total(counts) as real / sampleSize as real)
  {
    var n := sampleSize as real;
    if |counts| > 0 {
      var prefix := counts[..|counts| - 1];
      var last := counts[|counts| - 1];
      var f := Frequencies(counts, sampleSize);
      assert f[..|counts| - 1] == Frequencies(prefix, sampleSize);
      assert f[|counts| - 1] == Fin(last as real / n);
      assert NumTotal(f) == Add(NumTotal(Frequencies(prefix, sampleSize)), Fin(last as real / n));
      FrequenciesTotal(prefix, sampleSize);
      QuotientsAdd(Total(prefix) as real, last as real, n);
    }
  }

  /** When every sample is counted the frequencies add up to 1. */
  lemma {:induction false} FrequenciesSumToOne(counts: seq<nat>, sampleSize: nat)
    requires sampleSize > 0 && Total(counts) == sampleSize
    ensures NumTotal(Frequencies(counts, sampleSize)) == Fin(1.0)
  {
    FrequenciesTotal(counts, sampleSize);
    assert Total(counts) as real / sampleSize as real == 1.0;
  }

  lemma {:induction false} QuotientsAdd(a: real, b: real, n: real)
    requires n > 0.0
    ensures Add(Fin(a / n), Fin(b / n)) == Fin((a + b) / n)
  {
  }

  // ---------------------------------------------------------------- continuous bins

  /** Sturges' rule with at least five bins: the ceiling of `1 + 3.322 log10(sampleSize)`
      when that exceeds 5, and 5 otherwise (an empty sample included). */
  function NumBins(m: MathLib, sampleSize: nat): (r: nat)
    ensures r >= 5
    ensures sampleSize > 0 && 1.0 + 3.322 * m.log10(sampleSize as real) > 5.0 ==>
              (r - 1) as real < 1.0 + 3.322 * m.log10(sampleSize as real) <= r as real
    ensures (sampleSize == 0 || 1.0 + 3.322 * m.log10(sampleSize as real) <= 5.0) ==> r == 5
  {
    match CeilOf(Add(Fin(1.0), Mul(Fin(3.322), Log10Of(m, sampleSize as real))))
    case Fin(c) => if c > 5.0 then c.Floor else 5
    case _ => 5
  }

  /** The left edges of `numBins` bins of width `binWidth` from `adjustedMin`. */
  function ContinuousBins(adjustedMin: real, binWidth: real, numBins: nat): seq<real>
  {
    seq(numBins, i => adjustedMin + i as real * binWidth)
  }

  /** With `binWidth = (adjustedMax - adjustedMin) / numBins` the bins start at
      `adjustedMin`, follow one another without gaps, and the last one ends at
      `adjustedMax`. */
  lemma {:induction false} ContinuousBinsCover(adjustedMin: real, adjustedMax: real, numBins: nat)
    requires numBins >= 1
    ensures var w := (adjustedMax - adjustedMin) / numBins as real;
            var bins := ContinuousBins(adjustedMin, w, numBins);
            bins[0] == adjustedMin && bins[numBins - 1] + w == adjustedMax
            && forall i :: 0 <= i < numBins - 1 ==> bins[i] + w == bins[i + 1]
  {
    var w := (adjustedMax - adjustedMin) / numBins as real;
    assert (numBins - 1) as real * w + w == numBins as real * w;
  }

  /** JavaScript `Math.max(a, b)`: NaN if either is. */
  function NumMax(a: Num, b: Num): Num
  {
    if a == NaN || b == NaN then NaN else if Less(a, b) then b else a
  }

  /** JavaScript `Math.min(a, b)`: NaN if either is. */
  function NumMin(a: Num, b: Num): Num
  {
    if a == NaN || b == NaN then NaN else if Less(b, a) then b else a
  }

  /** The counter index of a continuous sample as the page computes it:
      `Math.min(numBins - 1, Math.max(0, Math.floor((sample - adjustedMin) / binWidth)))`. */
  function BinIndexAsWritten(sample: real, adjustedMin: real, binWidth: real, numBins: nat): Num
  {
    NumMin(Fin((numBins - 1) as real), NumMax(Fin(0.0), FloorOf(Quot(sample - adjustedMin, binWidth))))
  }

  /** The counter a computed index names: a finite whole number names its own, anything
      else (NaN becomes the array property "NaN") names none. */
  function Slot(index: Num): int
  {
    if index.Fin? && IsInteger(index.v) then index.v.Floor else -1
  }

  /** The index with a zero width corrected: every sample then goes to the first bin. */
  function BinIndex(sample: real, adjustedMin: real, binWidth: real, numBins: nat): (r: nat)
    requires numBins >= 1
    ensures r < numBins
    ensures binWidth != 0.0 ==> BinIndexAsWritten(sample, adjustedMin, binWidth, numBins) == Fin(r as real)
  {
    if binWidth == 0.0 then 0
    else MinInt(numBins - 1, MaxInt(0, ((sample - adjustedMin) / binWidth).Floor))
  }

  /** Floor bounds scaled by a positive width. */
  lemma {:induction false} ScaledFloor(d: real, w: real)
    requires w > 0.0
    ensures (d / w).Floor as real * w <= d < (d / w).Floor as real * w + w
  {
    var q := d / w;
    var k := q.Floor as real;
    assert q * w == d;
    assert k <= q < k + 1.0;
    MulMonotone(k, q, w);
    MulStrict(q, k + 1.0, w);
    assert (k + 1.0) * w == k * w + w;
    assert d < k * w + w;
  }

  /** For a positive width the index locates the sample: a sample in
      `[adjustedMin, adjustedMin + numBins * binWidth)` lies in the bin the index names. */
  lemma {:induction false} BinIndexLocates(sample: real, adjustedMin: real, binWidth: real, numBins: nat)
    requires numBins >= 1 && binWidth > 0.0
    requires adjustedMin <= sample < adjustedMin + numBins as real * binWidth
    ensures var i := BinIndex(sample, adjustedMin, binWidth, numBins);
            var edges := ContinuousBins(adjustedMin, binWidth, numBins);
            edges[i] <= sample < edges[i] + binWidth
  {
    var d := sample - adjustedMin;
    var k := (d / binWidth).Floor;
    ScaledFloor(d, binWidth);
    FloorInRange(d, binWidth, numBins);
    assert BinIndex(sample, adjustedMin, binWidth, numBins) == k;
  }

  /** A distance below `numBins` widths names one of the `numBins` bins. */
  lemma {:induction false} FloorInRange(d: real, w: real, numBins: nat)
    requires w > 0.0 && 0.0 <= d < numBins as real * w
    ensures 0 <= (d / w).Floor < numBins
  {
    var k := (d / w).Floor;
    ScaledFloor(d, w);
    assert 0 <= k by {
      if k < 0 {
        MulMonotone(k as real + 1.0, 0.0, w);
      }
    }
    assert k < numBins by {
      assert k as real * w < numBins as real * w;
      MulCancel(k as real, numBins as real, w);
    }
  }

  lemma {:induction false} MulMonotone(a: real, b: real, w: real)
    requires a <= b && w > 0.0
    ensures a * w <= b * w
  {
    assert b * w - a * w == (b - a) * w;
  }

  lemma {:induction false} MulCancel(a: real, b: real, w: real)
    requires w > 0.0 && a * w < b * w
    ensures a < b
  {
    if a >= b {
      MulMonotone(b, a, w);
    }
  }

  lemma {:induction false} MulStrict(a: real, b: real, w: real)
    requires a < b && w > 0.0
    ensures a * w < b * w
  {
    assert b * w - a * w == (b - a) * w;
  }

  /** The counter indices of the samples as the page computes them. */
  function IndicesAsWritten(samples: seq<real>, adjustedMin: real, binWidth: real, numBins: nat): seq<int>
  {
    seq(|samples|, k requires 0 <= k < |samples| => Slot(BinIndexAsWritten(samples[k], adjustedMin, binWidth, numBins)))
  }

  /** The counter indices with the corrected index. */
  function Indices(samples: seq<real>, adjustedMin: real, binWidth: real, numBins: nat): seq<int>
    requires numBins >= 1
  {
    seq(|samples|, k requires 0 <= k < |samples| => BinIndex(samples[k], adjustedMin, binWidth, numBins) as int)
  }

  /** The page's continuous counting loop, with the corrected index, on a fresh array of zeros. */
  method CountContinuous(samples: seq<real>, adjustedMin: real, binWidth: real, numBins: nat) returns (counts: array<nat>)
    requires numBins >= 1
    ensures counts[..] == Tally(Indices(samples, adjustedMin, binWidth, numBins), numBins)
  {
    counts := new nat[numBins](_ => 0);
    var j := 0;
    while j < |samples|
      invariant 0 <= j <= |samples|
      invariant counts.Length == numBins
      invariant counts[..] == Tally(Indices(samples[..j], adjustedMin, binWidth, numBins), numBins)
    {
      var binIndex := BinIndex(samples[j], adjustedMin, binWidth, numBins);
      counts[binIndex] := counts[binIndex] + 1;
      assert Indices(samples[..j + 1], adjustedMin, binWidth, numBins)[..j] == Indices(samples[..j], adjustedMin, binWidth, numBins);
      j := j + 1;
    }
    assert samples[..|samples|] == samples;
  }

  /** With the corrected index every sample is counted exactly once, whatever the width. */
  lemma {:induction false} ContinuousCountsComplete(samples: seq<real>, adjustedMin: real, binWidth: real, numBins: nat)
    requires numBins >= 1
    ensures Total(Tally(Indices(samples, adjustedMin, binWidth, numBins), numBins)) == |samples|
  {
    var indices := Indices(samples, adjustedMin, binWidth, numBins);
    TallyTotal(indices, numBins);
    HitsBounds(indices, numBins);
  }

  /** As written: for a positive width every sample is counted exactly once, but for a
      zero width (all samples equal to `adjustedMin`, as with a normal distribution of
      standard deviation 0) the index is NaN and no sample is counted at all. */
  lemma {:induction false} ZeroWidthDropsSamples(samples: seq<real>, adjustedMin: real, binWidth: real, numBins: nat)
    requires numBins >= 1
    ensures binWidth != 0.0 ==> Total(Tally(IndicesAsWritten(samples, adjustedMin, binWidth, numBins), numBins)) == |samples|
    ensures binWidth == 0.0 && (forall k :: 0 <= k < |samples| ==> samples[k] == adjustedMin)
        ==> Total(Tally(IndicesAsWritten(samples, adjustedMin, binWidth, numBins), numBins)) == 0
  {
    var indices := IndicesAsWritten(samples, adjustedMin, binWidth, numBins);
    TallyTotal(indices, numBins);
    HitsBounds(indices, numBins);
    if binWidth != 0.0 {
      forall k | 0 <= k < |samples| ensures 0 <= indices[k] < numBins {
        var r := BinIndex(samples[k], adjustedMin, binWidth, numBins);
        assert BinIndexAsWritten(samples[k], adjustedMin, binWidth, numBins) == Fin(r as real);
      }
    }
  }

  // ---------------------------------------------------------------- sample statistics

  function RealSum(s: seq<real>): real
  {
    if |s| == 0 then 0.0 else RealSum(s[..|s| - 1]) + s[|s| - 1]
  }

  /** Sum of squared deviations from `mean`. */
  function SquaredDeviations(s: seq<real>, mean: real): real
  {
    if |s| == 0 then 0.0
    else SquaredDeviations(s[..|s| - 1], mean) + (s[|s| - 1] - mean) * (s[|s| - 1] - mean)
  }

  /** The sample mean: NaN for an empty sample. */
  function SampleMean(samples: seq<real>): Num
  {
    Quot(RealSum(samples), |samples| as real)
  }

  /** The sample variance in population form: NaN for an empty sample. */
  function SampleVariance(samples: seq<real>): Num
  {
    match SampleMean(samples)
    case Fin(mean) => Quot(SquaredDeviations(samples, mean), |samples| as real)
    case _ => NaN
  }

  /** Squared deviations are never negative, and vanish when every value is the mean. */
  lemma {:induction false} SquaredDeviationsFacts(s: seq<real>, mean: real)
    ensures SquaredDeviations(s, mean) >= 0.0
    ensures (forall k :: 0 <= k < |s| ==> s[k] == mean) ==> SquaredDeviations(s, mean) == 0.0
  {
    if |s| > 0 {
      var prefix := s[..|s| - 1];
      SquaredDeviationsFacts(prefix, mean);
      SquareNonnegative(s[|s| - 1], mean);
      assert forall k :: 0 <= k < |prefix| ==> prefix[k] == s[k];
    }
  }

  lemma {:induction false} SquareNonnegative(x: real, mean: real)
    ensures (x - mean) * (x - mean) >= 0.0
  {
  }

  /** The sum of `n` copies of `c`. */
  lemma {:induction false} ConstantSum(s: seq<real>, c: real)
    requires forall k :: 0 <= k < |s| ==> s[k] == c
    ensures RealSum(s) == |s| as real * c
  {
    if |s| > 0 {
      ConstantSum(s[..|s| - 1], c);
    }
  }

  /** For a non-empty sample the variance is a non-negative number, and it is 0 when all
      samples are equal. */
  lemma {:induction false} SampleVarianceFacts(samples: seq<real>)
    requires |samples| > 0
    ensures SampleVariance(samples).Fin? && SampleVariance(samples).v >= 0.0
    ensures (forall k :: 0 <= k < |samples| ==> samples[k] == samples[0]) ==> SampleVariance(samples) == Fin(0.0)
  {
    var n := |samples| as real;
    var mean := RealSum(samples) / n;
    SquaredDeviationsFacts(samples, mean);
    var dev := SquaredDeviations(samples, mean);
    assert dev / n >= 0.0;
    if forall k :: 0 <= k < |samples| ==> samples[k] == samples[0] {
      ConstantSum(samples, samples[0]);
      assert mean == samples[0];
    }
  }

  // ---------------------------------------------------------------- plotting grid

  const NumPoints: nat := 200

  /** The 200 x values of a continuous curve from `lo` to `hi`. */
  function Grid(lo: real, hi: real): (xs: seq<real>)
    ensures |xs| == NumPoints
  {
    var step := (hi - lo) / (NumPoints - 1) as real;
    seq(NumPoints, i => lo + i as real * step)
  }

  /** The grid starts at `lo`, ends at `hi`, is evenly spaced, and ascends when `lo < hi`. */
  lemma {:induction false} GridShape(lo: real, hi: real)
    ensures var xs := Grid(lo, hi);
            xs[0] == lo && xs[NumPoints - 1] == hi
            && (forall i :: 0 <= i < NumPoints - 1 ==> xs[i + 1] - xs[i] == (hi - lo) / (NumPoints - 1) as real)
            && (lo < hi ==> forall i :: 0 <= i < NumPoints - 1 ==> xs[i] < xs[i + 1])
  {
    var step := (hi - lo) / (NumPoints - 1) as real;
    assert (NumPoints - 1) as real * step == hi - lo;
    forall i | 0 <= i < NumPoints - 1
      ensures Grid(lo, hi)[i + 1] - Grid(lo, hi)[i] == step
    {
      assert (i + 1) as real * step == i as real * step + step;
    }
  }
}
