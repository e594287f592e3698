/** The table of open centers: each center gets the number of centers before it, and the threads add
    up their parts of each sum under that number. */
module CenterTable {
  import opened Sums
  import opened Blocks
  import opened FacilityCost

  function Rank(s: Solution, i: int): nat {
    s.Centers(0, i)
  }

  lemma RankBelow(s: Solution, i: int)
    requires s.Open(i)
    ensures Rank(s, i) < s.Centers(0, |s.center|)
  {
    CountSplit(j => s.Open(j), 0, i + 1, |s.center|);
  }

  lemma RankInjective(s: Solution, i: int, j: int)
    requires s.Open(i) && s.Open(j)
    ensures Rank(s, i) == Rank(s, j) <==> i == j
  {
    if i < j {
      CountSplit(l => s.Open(l), 0, i + 1, j);
    } else if j < i {
      CountSplit(l => s.Open(l), 0, j + 1, i);
    }
  }

  /** Every number below the count belongs to an open center. */
  lemma {:induction false} RankOnto(s: Solution, r: nat, n: int) returns (i: int)
    requires 0 <= n <= |s.center| && r < s.Centers(0, n)
    ensures s.Open(i) && Rank(s, i) == r
    decreases n
  {
    i := n - 1;
    if !s.Open(i) || Rank(s, i) != r {
      i := RankOnto(s, r, n - 1);
    }
  }

  /** The room for one thread: the number of centers and two more, rounded up to cache lines. */
  function Stride(k: nat): nat {
    if (k + 2) % 4 != 0 then 4 * ((k + 2) / 4 + 1) else k + 2
  }

  /** A center's cell is not one of the two last cells of the stride, and no two cells of different
      threads or columns are the same. */
  lemma CellsApart(s: Solution, i: int, p: nat, q: nat, c: nat, d: nat)
    requires s.Open(i)
    ensures var w := Stride(s.Centers(0, |s.center|));
            && Rank(s, i) < w - 2 && w % 4 == 0
            && (c < w && d < w && p * w + c == q * w + d ==> p == q && c == d)
  {
    RankBelow(s, i);
    var w := Stride(s.Centers(0, |s.center|));
    if c < w && d < w && p * w + c == q * w + d {
      SameRow(w, p, q, c, d);
    }
  }

  lemma SameRow(w: nat, p: nat, q: nat, c: nat, d: nat)
    requires c < w && d < w && p * w + c == q * w + d
    ensures p == q && c == d
  {
    if p < q {
      Scale(w, p, q);
    } else if q < p {
      Scale(w, q, p);
    }
  }

  // ---- The parts of the sums ----

  function StaysAt(s: Solution, x: int, r: int, i: int): real {
    if !s.Switches(x, i) && Rank(s, s.AssignedTo(i)) == r then s.Current(i) - s.CostTo(i, x) else 0.0
  }

  function LowerIn(s: Solution, x: int, r: int, lo: int, hi: int): real {
    Sum(i => StaysAt(s, x, r, i), lo, hi)
  }

  function SwitchIn(s: Solution, x: int, lo: int, hi: int): real {
    Sum(i => s.SwitchGain(x, i), lo, hi)
  }

  function CloseIn(s: Solution, z: real, x: int, lo: int, hi: int): real {
    Sum(j => s.CloseGain(z, x, j), lo, hi)
  }

  function ClosedIn(s: Solution, z: real, x: int, lo: int, hi: int): nat {
    Count(j => s.Closes(z, x, j), lo, hi)
  }

  /** What the threads add up under the number of a center is the saving of closing it. */
  lemma LowByRank(s: Solution, z: real, x: int, j: int, k: int)
    requires s.Consistent(k) && s.Open(j)
    ensures z + LowerIn(s, x, Rank(s, j), 0, |s.cost|) == s.Low(z, x, j)
  {
    var r := Rank(s, j);
    forall i | 0 <= i < |s.cost|
      ensures StaysAt(s, x, r, i) == s.Stays(x, j, i)
    {
      RankInjective(s, s.assign[i], j);
    }
    SumSame(i => StaysAt(s, x, r, i), i => s.Stays(x, j, i), 0, |s.cost|);
  }

  lemma OpeningCostIs(s: Solution, z: real, x: int)
    requires s.Shape()
    ensures s.OpeningCost(z, x) == z + SwitchIn(s, x, 0, |s.cost|) - CloseIn(s, z, x, 0, |s.cost|)
    ensures s.Closed(z, x) == ClosedIn(s, z, x, 0, |s.cost|)
  {
  }
}
