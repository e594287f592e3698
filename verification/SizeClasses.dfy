/** Size classes by powers of two (kingsleyheap.h). */
module SizeClasses {
  const NUMBINS: nat := 29

  function Pow2(n: nat): nat {
    if n == 0 then 1 else 2 * Pow2(n - 1)
  }

  /** The largest size of a class. */
  function Class2Size(c: nat): nat {
    Pow2(c + 3)
  }

  const CLASSES: seq<nat> := [0, 1, 2, 2, 3, 3, 3, 3, 4, 4, 4, 4, 4, 4, 4, 4]

  lemma {:induction false} Pow2Grows(a: nat, b: nat)
    requires a < b
    ensures 0 < Pow2(a) < Pow2(b)
  {
    if a + 1 < b {
      Pow2Grows(a, b - 1);
    } else if a > 0 {
      Pow2Grows(a - 1, a);
    }
  }

  /** The class is the least whose size suffices. */
  predicate Fitting(size: nat, c: nat) {
    size <= Class2Size(c) && (c > 0 ==> Class2Size(c - 1) < size)
  }

  lemma FittingUnique(size: nat, c: nat, d: nat)
    requires Fitting(size, c) && Fitting(size, d)
    ensures c == d
  {
    if c < d - 1 {
      Pow2Grows(c + 3, d + 2);
    } else if d < c - 1 {
      Pow2Grows(d + 3, c + 2);
    }
  }

  lemma FittingOwn(c: nat)
    ensures Fitting(Class2Size(c), c)
  {
    if c > 0 {
      Pow2Grows(c + 2, c + 3);
    }
  }

  lemma SmallPowers()
    ensures Class2Size(0) == 8 && Class2Size(1) == 16 && Class2Size(2) == 32 && Class2Size(3) == 64
            && Class2Size(4) == 128
  {
  }

  lemma Halve(p: nat, q: nat)
    ensures 2 * p * (q / 2) <= p * q && p * (q + 1) <= 2 * p * (q / 2 + 1)
  {
    Times(p, 2 * (q / 2), q);
    Times(p, q + 1, 2 * (q / 2 + 1));
    assert p * (2 * (q / 2)) == 2 * p * (q / 2);
    assert p * (2 * (q / 2 + 1)) == 2 * p * (q / 2 + 1);
  }

  /** For every size up to that of the last class the loop finds the least sufficient class. */
  method Size2Class(size: nat) returns (c: nat)
    ensures Fitting(if size < 8 then 8 else size, c)
    ensures size <= Class2Size(NUMBINS - 1) ==> c < NUMBINS
  {
    var sz := if size < 8 then 8 else size;
    SmallPowers();
    if sz <= 128 {
      c := CLASSES[(sz - 1) / 8];
      assert Fitting(sz, c);
    } else {
      c := 5;
      var sz1 := (sz - 1) / 32;
      assert Pow2(5) == 32;
      while sz1 > 7
        invariant c >= 5 && sz1 >= 4 && Pow2(c) * sz1 <= sz - 1 < Pow2(c) * (sz1 + 1)
      {
        Halve(Pow2(c), sz1);
        sz1 := sz1 / 2;
        c := c + 1;
      }
      Bracket(sz - 1, c, sz1);
    }
    PowOrder(3, NUMBINS + 2);
    PowOrder(c + 2, NUMBINS + 2);
  }

  lemma PowOrder(a: nat, b: nat)
    ensures a < b <==> Pow2(a) < Pow2(b)
  {
    if a < b {
      Pow2Grows(a, b);
    } else if b < a {
      Pow2Grows(b, a);
    }
  }

  lemma Bracket(n: nat, c: nat, q: nat)
    requires c >= 1 && Pow2(c) * q <= n < Pow2(c) * (q + 1) && 4 <= q <= 7
    ensures Fitting(n + 1, c)
  {
    var p := Pow2(c);
    assert Pow2(c + 3) == 8 * p && Pow2(c + 2) == 4 * p;
    Times(p, 4, q);
    Times(p, q + 1, 8);
  }

  lemma {:induction false} Times(p: nat, a: nat, b: nat)
    requires a <= b
    ensures a * p <= b * p && p * a <= p * b
    decreases b - a
  {
    if a < b {
      Times(p, a + 1, b);
      assert (a + 1) * p == a * p + p;
    }
  }
}
