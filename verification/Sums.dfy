/** Sums and counts over index ranges. */
module Sums {
  function Sum(f: int -> real, lo: int, hi: int): real
    decreases hi - lo
  {
    if hi <= lo then 0.0 else Sum(f, lo, hi - 1) + f(hi - 1)
  }

  function Count(f: int -> bool, lo: int, hi: int): nat
    decreases hi - lo
  {
    if hi <= lo then 0 else Count(f, lo, hi - 1) + if f(hi - 1) then 1 else 0
  }

  lemma {:induction false} SumSplit(f: int -> real, lo: int, mid: int, hi: int)
    requires lo <= mid <= hi
    ensures Sum(f, lo, hi) == Sum(f, lo, mid) + Sum(f, mid, hi)
    decreases hi - mid
  {
    if mid < hi {
      SumSplit(f, lo, mid, hi - 1);
    }
  }

  lemma {:induction false} CountSplit(f: int -> bool, lo: int, mid: int, hi: int)
    requires lo <= mid <= hi
    ensures Count(f, lo, hi) == Count(f, lo, mid) + Count(f, mid, hi)
    decreases hi - mid
  {
    if mid < hi {
      CountSplit(f, lo, mid, hi - 1);
    }
  }

  lemma {:induction false} SumSame(f: int -> real, g: int -> real, lo: int, hi: int)
    requires forall i :: lo <= i < hi ==> f(i) == g(i)
    ensures Sum(f, lo, hi) == Sum(g, lo, hi)
    decreases hi - lo
  {
    if lo < hi {
      SumSame(f, g, lo, hi - 1);
    }
  }

  lemma {:induction false} CountSame(f: int -> bool, g: int -> bool, lo: int, hi: int)
    requires forall i :: lo <= i < hi ==> f(i) == g(i)
    ensures Count(f, lo, hi) == Count(g, lo, hi)
    decreases hi - lo
  {
    if lo < hi {
      CountSame(f, g, lo, hi - 1);
    }
  }

  /** A sum of sums. */
  lemma {:induction false} SumPlus(f: int -> real, g: int -> real, h: int -> real, lo: int, hi: int)
    requires forall i :: lo <= i < hi ==> h(i) == f(i) + g(i)
    ensures Sum(h, lo, hi) == Sum(f, lo, hi) + Sum(g, lo, hi)
    decreases hi - lo
  {
    if lo < hi {
      SumPlus(f, g, h, lo, hi - 1);
    }
  }

  lemma {:induction false} SumZero(f: int -> real, lo: int, hi: int)
    requires forall i :: lo <= i < hi ==> f(i) == 0.0
    ensures Sum(f, lo, hi) == 0.0
    decreases hi - lo
  {
    if lo < hi {
      SumZero(f, lo, hi - 1);
    }
  }

  /** All terms but one are zero. */
  lemma {:induction false} SumOne(f: int -> real, lo: int, hi: int, k: int)
    requires lo <= k < hi && forall i :: lo <= i < hi && i != k ==> f(i) == 0.0
    ensures Sum(f, lo, hi) == f(k)
    decreases hi - lo
  {
    if k == hi - 1 {
      SumZero(f, lo, hi - 1);
    } else {
      SumOne(f, lo, hi - 1, k);
    }
  }

  lemma {:induction false} SumNonNegative(f: int -> real, lo: int, hi: int)
    requires forall i :: lo <= i < hi ==> f(i) >= 0.0
    ensures Sum(f, lo, hi) >= 0.0
    decreases hi - lo
  {
    if lo < hi {
      SumNonNegative(f, lo, hi - 1);
    }
  }

  lemma {:induction false} SumAtMost(f: int -> real, g: int -> real, lo: int, hi: int)
    requires forall i :: lo <= i < hi ==> f(i) <= g(i)
    ensures Sum(f, lo, hi) <= Sum(g, lo, hi)
    decreases hi - lo
  {
    if lo < hi {
      SumAtMost(f, g, lo, hi - 1);
    }
  }

  /** One more index counts. */
  lemma {:induction false} CountOneMore(f: int -> bool, g: int -> bool, lo: int, hi: int, k: int)
    requires lo <= k < hi && !f(k) && g(k) && forall i :: lo <= i < hi && i != k ==> f(i) == g(i)
    ensures Count(g, lo, hi) == Count(f, lo, hi) + 1
    decreases hi - lo
  {
    if k == hi - 1 {
      CountSame(f, g, lo, hi - 1);
    } else {
      CountOneMore(f, g, lo, hi - 1, k);
    }
  }

  /** The indices that count are those of `g` and those of `h`, which share none. */
  lemma {:induction false} CountApart(f: int -> bool, g: int -> bool, h: int -> bool, lo: int, hi: int)
    requires forall i :: lo <= i < hi ==> !(g(i) && h(i)) && (f(i) <==> g(i) || h(i))
    ensures Count(f, lo, hi) == Count(g, lo, hi) + Count(h, lo, hi)
    decreases hi - lo
  {
    if lo < hi {
      CountApart(f, g, h, lo, hi - 1);
    }
  }
}
