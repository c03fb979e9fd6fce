/** Finite sums over a range of integers, the running sums behind the discrete cdfs. */
module Sums {

  /** `f(lo) + f(lo + 1) + ... + f(hi - 1)`, added in that order (0 when `hi <= lo`). */
  function Sum(f: int -> real, lo: int, hi: int): real
    decreases hi - lo
  {
    if hi <= lo then 0.0 else Sum(f, lo, hi - 1) + f(hi - 1)
  }

  lemma {:induction false} SumSplit(f: int -> real, lo: int, mid: int, hi: int)
    requires lo <= mid <= hi
    ensures Sum(f, lo, hi) == Sum(f, lo, mid) + Sum(f, mid, hi)
    decreases hi - mid
  {
    if hi > mid {
      SumSplit(f, lo, mid, hi - 1);
    }
  }

  lemma {:induction false} SumOfZeros(f: int -> real, lo: int, hi: int)
    requires forall i :: lo <= i < hi ==> f(i) == 0.0
    ensures Sum(f, lo, hi) == 0.0
    decreases hi - lo
  {
    if hi > lo {
      SumOfZeros(f, lo, hi - 1);
    }
  }

  lemma {:induction false} SumNonnegative(f: int -> real, lo: int, hi: int)
    requires forall i :: lo <= i < hi ==> f(i) >= 0.0
    ensures Sum(f, lo, hi) >= 0.0
    decreases hi - lo
  {
    if hi > lo {
      SumNonnegative(f, lo, hi - 1);
    }
  }

  /** A sum of non-negative terms grows with its upper bound. */
  lemma {:induction false} SumGrows(f: int -> real, lo: int, hi: int, hi': int)
    requires lo <= hi <= hi'
    requires forall i :: hi <= i < hi' ==> f(i) >= 0.0
    ensures Sum(f, lo, hi) <= Sum(f, lo, hi')
  {
    SumSplit(f, lo, hi, hi');
    SumNonnegative(f, hi, hi');
  }

  /** Sums of pointwise equal terms are equal. */
  lemma {:induction false} SumCongruent(f: int -> real, g: int -> real, lo: int, hi: int)
    requires forall i :: lo <= i < hi ==> f(i) == g(i)
    ensures Sum(f, lo, hi) == Sum(g, lo, hi)
    decreases hi - lo
  {
    if hi > lo {
      SumCongruent(f, g, lo, hi - 1);
    }
  }

  /** Peeling the last term off a sum. */
  lemma {:induction false} SumLast(f: int -> real, lo: int, hi: int)
    requires lo <= hi
    ensures Sum(f, lo, hi + 1) == Sum(f, lo, hi) + f(hi)
  {
  }

  /** If every term of f is `p` times the previous term of g plus `q` times the same term
      of g (g being 0 just below `0`), the partial sums of f are combined the same way. */
  lemma {:induction false} SumOfShifted(f: int -> real, g: int -> real, p: real, q: real, j: nat)
    requires forall i {:trigger f(i)} :: 0 <= i < j + 1 ==> f(i) == p * g(i - 1) + q * g(i)
    requires g(-1) == 0.0
    ensures Sum(f, 0, j + 1) == p * Sum(g, 0, j) + q * Sum(g, 0, j + 1)
  {
    SumLast(f, 0, j);
    SumLast(g, 0, j);
    if j > 0 {
      SumOfShifted(f, g, p, q, j - 1);
      SumLast(g, 0, j - 1);
    }
  }

  /** Row f is built from row g by `f(i) = p g(i - 1) + q g(i)` on 0..j, and g vanishes at
      -1 and at j. */
  ghost predicate PascalRows(f: int -> real, g: int -> real, p: real, q: real, j: nat)
  {
    && (forall i {:trigger f(i)} :: 0 <= i < j + 1 ==> f(i) == p * g(i - 1) + q * g(i))
    && g(-1) == 0.0
    && g(j) == 0.0
  }

  /** The step of the binomial theorem on abstract rows: if row f is built from row g by
      `f(i) = p g(i - 1) + q g(i)` and g vanishes at -1 and at j, then f sums to `(p + q)`
      times g. */
  lemma {:induction false} SumOfRecurrence(f: int -> real, g: int -> real, p: real, q: real, j: nat)
    requires PascalRows(f, g, p, q, j)
    ensures Sum(f, 0, j + 1) == (p + q) * Sum(g, 0, j)
  {
    SumOfShifted(f, g, p, q, j);
    SumLast(g, 0, j);
    var s := Sum(g, 0, j);
    assert p * s + q * s == (p + q) * s;
  }
}
