/** The points are dealt out to the threads in blocks; the last thread takes what is left over. */
module Blocks {
  /** The first index of the block of thread `p` of `m`; for p == m, the number of points. */
  function Lo(n: nat, m: nat, p: int): int
    requires m > 0
  {
    if p >= m then n else n / m * p
  }

  /** The thread whose block holds index `i`. */
  function Owner(n: nat, m: nat, i: int): int
    requires m > 0
  {
    if n / m > 0 && i / (n / m) < m then i / (n / m) else m - 1
  }

  lemma LoBounds(n: nat, m: nat, p: int)
    requires 0 <= p < m
    ensures 0 <= Lo(n, m, p) <= Lo(n, m, p + 1) <= n
    ensures Lo(n, m, 0) == 0
  {
    var b := n / m;
    Scale(b, p, p + 1);
    Scale(b, p + 1, m);
    assert b * m <= n;
  }

  lemma {:induction false} Scale(b: nat, p: nat, q: nat)
    requires p <= q
    ensures 0 <= b * p <= b * q
    ensures p < q ==> b * p + b <= b * q
    decreases q
  {
    if p < q {
      Scale(b, p, q - 1);
      assert b * q == b * (q - 1) + b;
    } else if q > 0 {
      Scale(b, q - 1, q - 1);
      assert b * q == b * (q - 1) + b;
    }
  }

  lemma OwnerIs(n: nat, m: nat, p: int, i: int)
    requires 0 <= p < m && 0 <= i < n
    ensures Owner(n, m, i) == p <==> Lo(n, m, p) <= i < Lo(n, m, p + 1)
    ensures 0 <= Owner(n, m, i) < m
  {
    var b := n / m;
    if b > 0 {
      var q := i / b;
      assert i == b * q + i % b;
      if q < p {
        Scale(b, q, p);
      } else if q > p {
        Scale(b, p + 1, q);
      }
      assert b * (p + 1) == b * p + b;
    }
  }
}
