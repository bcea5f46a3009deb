/**
  * Finite sums over integer ranges. Every `sum(... for i in range)` of the
  * integer-program construction becomes a `Sum(lo, hi, f)`; the lemmas below
  * are the algebra the constraint and objective lemmas are built from.
  */
module Sums {

  /** `v` when `b` holds, zero otherwise: a binary variable times a coefficient. */
  function Ind(b: bool, v: real): real {
    if b then v else 0.0
  }

  /** The sum of f(i) for lo <= i < hi; zero when the range is empty. */
  function Sum(lo: int, hi: int, f: int -> real): real
    decreases hi - lo
  {
    if hi <= lo then 0.0 else Sum(lo, hi - 1, f) + f(hi - 1)
  }

  /** Sums of functions that agree on the range are equal. */
  lemma {:induction false} SumExt(lo: int, hi: int, f: int -> real, g: int -> real)
    requires forall i :: lo <= i < hi ==> f(i) == g(i)
    ensures Sum(lo, hi, f) == Sum(lo, hi, g)
    decreases hi - lo
  {
    if lo < hi {
      SumExt(lo, hi - 1, f, g);
    }
  }

  lemma {:induction false} SumNonneg(lo: int, hi: int, f: int -> real)
    requires forall i :: lo <= i < hi ==> 0.0 <= f(i)
    ensures 0.0 <= Sum(lo, hi, f)
    decreases hi - lo
  {
    if lo < hi {
      SumNonneg(lo, hi - 1, f);
    }
  }

  lemma {:induction false} SumMono(lo: int, hi: int, f: int -> real, g: int -> real)
    requires forall i :: lo <= i < hi ==> f(i) <= g(i)
    ensures Sum(lo, hi, f) <= Sum(lo, hi, g)
    decreases hi - lo
  {
    if lo < hi {
      SumMono(lo, hi - 1, f, g);
    }
  }

  /** A sum of equal terms is the number of terms times the term. */
  lemma {:induction false} SumConst(lo: int, hi: int, f: int -> real, k: real)
    requires lo <= hi
    requires forall i :: lo <= i < hi ==> f(i) == k
    ensures Sum(lo, hi, f) == (hi - lo) as real * k
    decreases hi - lo
  {
    if lo < hi {
      SumConst(lo, hi - 1, f, k);
    }
  }

  /** Sums add termwise: h is f + g on the range. */
  lemma {:induction false} SumAdd(lo: int, hi: int, f: int -> real, g: int -> real, h: int -> real)
    requires forall i :: lo <= i < hi ==> h(i) == f(i) + g(i)
    ensures Sum(lo, hi, f) + Sum(lo, hi, g) == Sum(lo, hi, h)
    decreases hi - lo
  {
    if lo < hi {
      SumAdd(lo, hi - 1, f, g, h);
    }
  }

  /** A constant factor comes out of a sum: h is k * f on the range. */
  lemma {:induction false} SumScale(lo: int, hi: int, f: int -> real, k: real, h: int -> real)
    requires forall i :: lo <= i < hi ==> h(i) == k * f(i)
    ensures Sum(lo, hi, h) == k * Sum(lo, hi, f)
    decreases hi - lo
  {
    if lo < hi {
      SumScale(lo, hi - 1, f, k, h);
    }
  }

  /** Summing a term that does not depend on the inner index repeats it m times. */
  lemma {:induction false} SumRepeated(n: int, m: int, p: int -> real)
    requires 0 <= m
    ensures Sum(0, n, t => Sum(0, m, r => p(t))) == (m as real) * Sum(0, n, p)
  {
    var times := m as real;
    forall t | 0 <= t < n
      ensures Sum(0, m, r => p(t)) == times * p(t)
    {
      SumConst(0, m, r => p(t), p(t));
    }
    SumScale(0, n, p, times, t => Sum(0, m, r => p(t)));
  }

  /** With non-negative terms, every single term is at most the sum. */
  lemma {:induction false} SumGeTerm(lo: int, hi: int, f: int -> real, j: int)
    requires forall i :: lo <= i < hi ==> 0.0 <= f(i)
    requires lo <= j < hi
    ensures f(j) <= Sum(lo, hi, f)
    decreases hi - lo
  {
    if j < hi - 1 {
      SumGeTerm(lo, hi - 1, f, j);
    } else {
      SumNonneg(lo, hi - 1, f);
    }
  }

  /** A positive sum has a positive term. */
  lemma {:induction false} SumPositiveHasPositiveTerm(lo: int, hi: int, f: int -> real)
    requires 0.0 < Sum(lo, hi, f)
    ensures exists i :: lo <= i < hi && 0.0 < f(i)
    decreases hi - lo
  {
    if lo < hi && f(hi - 1) <= 0.0 {
      SumPositiveHasPositiveTerm(lo, hi - 1, f);
    }
  }

  /** Exchanging the order of a double sum leaves it unchanged. */
  lemma {:induction false} SumSwap(lo1: int, hi1: int, lo2: int, hi2: int, F: (int, int) -> real)
    ensures Sum(lo1, hi1, i => Sum(lo2, hi2, j => F(i, j)))
         == Sum(lo2, hi2, j => Sum(lo1, hi1, i => F(i, j)))
    decreases hi1 - lo1
  {
    var cols := j => Sum(lo1, hi1, i => F(i, j));
    if hi1 <= lo1 {
      SumExt(lo2, hi2, cols, _ => 0.0);
      if lo2 <= hi2 {
        SumConst(lo2, hi2, _ => 0.0, 0.0);
      }
    } else {
      SumSwap(lo1, hi1 - 1, lo2, hi2, F);
      SumAdd(lo2, hi2, j => Sum(lo1, hi1 - 1, i => F(i, j)), j => F(hi1 - 1, j), cols);
    }
  }

  /** k * s <= k when 0 <= s <= 1 and 0 <= k. */
  lemma ScaledFractionAtMost(k: real, s: real)
    requires 0.0 <= k && 0.0 <= s <= 1.0
    ensures k * s <= k
  {
    assert k * (1.0 - s) >= 0.0;
  }

  /**
    * A sum of zero/one terms is at most one exactly when at most one term is
    * one.
    */
  lemma {:induction false} ZeroOneSumAtMostOne(lo: int, hi: int, f: int -> real)
    requires forall i :: lo <= i < hi ==> f(i) == 0.0 || f(i) == 1.0
    ensures Sum(lo, hi, f) <= 1.0 <==>
      forall i, j :: lo <= i < hi && lo <= j < hi && f(i) == 1.0 && f(j) == 1.0 ==> i == j
    decreases hi - lo
  {
    if lo < hi {
      ZeroOneSumAtMostOne(lo, hi - 1, f);
      SumNonneg(lo, hi - 1, f);
      if f(hi - 1) == 1.0 {
        if exists i :: lo <= i < hi - 1 && f(i) == 1.0 {
          var i :| lo <= i < hi - 1 && f(i) == 1.0;
          SumGeTerm(lo, hi - 1, f, i);
        } else {
          SumExt(lo, hi - 1, f, _ => 0.0);
          SumConst(lo, hi - 1, _ => 0.0, 0.0);
        }
      }
    }
  }

}
