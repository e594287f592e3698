/** The whole of pkmedian: a facility cost to start from, first solutions until one has enough centers,
    their marking, and the search for the facility cost. */
module Clustering {
  import opened Sums
  import opened Blocks
  import opened FacilityCost
  import opened LocalSearch
  import opened KMedian
  import opened Speedy

  // How often a first solution is tried before the facility cost is lowered.
  const SP: nat := 1

  /** What the points of a block would cost with point 0 as the only center. */
  function FeeIn(s: Solution, lo: int, hi: int): real {
    Sum(i => s.CostTo(i, 0), lo, hi)
  }

  method BlockFee(ls: LocalSearch, p: nat) returns (fee: real)
    requires ls.Valid() && p < ls.nproc
    ensures fee == FeeIn(ls.View(), ls.First(p), ls.First(p + 1))
  {
    LoBounds(ls.n, ls.nproc, p);
    ghost var s := ls.View();
    fee := 0.0;
    for i := ls.First(p) to ls.First(p + 1)
      invariant fee == FeeIn(s, ls.First(p), i)
    {
      assert s.CostTo(i, 0) == ls.weight[i] * Dist(ls.coord[i], ls.coord[0]);
      fee := fee + ls.weight[i] * Dist(ls.coord[i], ls.coord[0]);
    }
  }

  /** The largest facility cost to be tried, added up block by block. */
  method LargestFee(ls: LocalSearch) returns (fee: real)
    requires ls.Valid()
    ensures fee == FeeIn(ls.View(), 0, ls.n)
  {
    ghost var s := ls.View();
    fee := 0.0;
    LoBounds(ls.n, ls.nproc, 0);
    for p := 0 to ls.nproc
      invariant fee == FeeIn(s, 0, ls.First(p))
    {
      LoBounds(ls.n, ls.nproc, p);
      SumSplit(i => s.CostTo(i, 0), 0, ls.First(p), ls.First(p + 1));
      var mine := BlockFee(ls, p);
      fee := fee + mine;
    }
  }

  /** No more points than centers are wanted: each point is on its own. */
  method AssignToSelf(ls: LocalSearch)
    requires ls.Valid()
    modifies ls.cost, ls.assign
    ensures forall i :: 0 <= i < ls.n ==> ls.assign[i] == i && ls.cost[i] == 0.0
  {
    for i := 0 to ls.n
      modifies ls.cost, ls.assign
      invariant forall j :: 0 <= j < i ==> ls.assign[j] == j && ls.cost[j] == 0.0
    {
      ls.assign[i], ls.cost[i] := i, 0.0;
    }
  }

  ghost predicate Draws(draws: seq<seq<real>>, n: nat) {
    forall a :: 0 <= a < |draws| ==> Draw(draws[a], n)
  }

  ghost predicate Draw(draw: seq<real>, n: nat) {
    |draw| == n && forall i :: 0 <= i < n ==> draw[i] >= 0.0
  }

  /** How often the facility cost has been halved before the first solution `a` is tried. */
  function Halvings(a: nat): nat {
    if a <= SP then 0 else a - SP
  }

  /** The first solution that these random numbers give, with its cost and its number of centers. */
  ghost predicate Planted(s: Solution, draw: seq<real>, z: real, cost: real, k: int) {
    Seeded(s, k) && cost == s.Total(z, k) && Grown(s, draw, z, |s.assign|)
  }

  method Plant(ls: LocalSearch, z: real, draw: seq<real>) returns (cost: real, k: int)
    requires ls.Valid() && Weighted(ls.weight) && ls.View().Shape() && z > 0.0
    requires Draw(draw, ls.n)
    modifies ls.cost, ls.assign
    ensures ls.View().Shape() && Planted(ls.View(), draw, z, cost, k) && ls.isCenter[..] == old(ls.isCenter[..])
  {
    cost, k := PSpeedy(ls, z, draw);
  }

  /** First solutions, one for each list of random numbers, until one has `kmin` centers; the facility cost
      is halved before each but the first and `SP` more.  The last one is held. */
  method FirstSolution(ls: LocalSearch, kmin: int, hiz0: real, draws: seq<seq<real>>)
    returns (cost: real, k: int, hiz: real, used: nat)
    requires ls.Valid() && Weighted(ls.weight) && ls.View().Shape() && hiz0 > 0.0
    requires draws != [] && Draws(draws, ls.n)
    modifies ls.cost, ls.assign
    ensures hiz > 0.0 && used < |draws| && hiz == Halved(hiz0, Halvings(used))
    ensures Planted(ls.View(), draws[used], hiz / 2.0, cost, k)
    ensures k >= kmin || used == |draws| - 1
    ensures ls.isCenter[..] == old(ls.isCenter[..])
  {
    hiz, used := hiz0, 0;
    var z, i := hiz / 2.0, 0;
    cost, k := Plant(ls, z, draws[0]);
    while k < kmin && used + 1 < |draws|
      invariant used < |draws| && z == hiz / 2.0 > 0.0 && Fees(hiz0, hiz, used, i)
      invariant ls.View().Shape() && Planted(ls.View(), draws[used], z, cost, k)
      invariant ls.isCenter[..] == old(ls.isCenter[..])
      decreases |draws| - used
    {
      hiz, i := NextFee(hiz0, hiz, used, i);
      z, used := hiz / 2.0, used + 1;
      cost, k := Plant(ls, z, draws[used]);
    }
  }

  /** The facility cost of first solution `a`, and how many have been tried since it was last lowered. */
  predicate Fees(hiz0: real, hiz: real, a: nat, i: nat) {
    hiz == Halved(hiz0, Halvings(a)) && i == if a <= SP then a else SP
  }

  method NextFee(hiz0: real, hiz1: real, a: nat, i1: nat) returns (hiz: real, i: nat)
    requires Fees(hiz0, hiz1, a, i1) && hiz1 > 0.0
    ensures Fees(hiz0, hiz, a + 1, i) && hiz > 0.0
  {
    hiz, i := hiz1, i1;
    if i >= SP {
      hiz := hiz / 2.0;
      i := 0;
    }
    i := i + 1;
  }

  lemma SameTotal(s: Solution, r: Solution, z: real, k: int)
    requires s.cost == r.cost
    ensures s.Total(z, k) == r.Total(z, k)
  {
    SumSame(i => s.Current(i), i => r.Current(i), 0, |s.cost|);
  }

  datatype Outcome =
    | Trivial                // no more points than centers
    | TooFew                 // no list of random numbers gave enough centers
    | Found(done: bool, loz: real, hiz: real)   // whether the search has come to an end, and where

  /** pkmedian: the cost returned is that of the consistent solution that is held in the end, under the
      last facility cost; the search for it begins below the facility cost that gave the first solution. */
  method PKMedian(ls: LocalSearch, kmin: int, kmax: int, draws: seq<seq<real>>, feasible: seq<int>, iter: nat,
                  rounds: nat)
    returns (cost: real, z: real, outcome: Outcome, ghost used: nat, ghost tried: seq<Try>, ghost last: Round)
    requires ls.Valid() && Weighted(ls.weight) && ls.View().Shape() && FeeIn(ls.View(), 0, ls.n) > 0.0
    requires forall i :: 0 <= i < ls.n ==> !ls.isCenter[i]
    requires draws != [] && Draws(draws, ls.n)
    requires Feasible(feasible, ls.n)
    modifies ls`work, ls`numcenters, ls.cost, ls.assign, ls.isCenter, ls.centerTable, ls.switchMembership
    ensures outcome.Trivial? <==> ls.n <= kmax
    ensures outcome.Trivial? ==> cost == 0.0 && forall i :: 0 <= i < ls.n ==> ls.assign[i] == i && ls.cost[i] == 0.0
    ensures outcome.TooFew? ==> Seeded(ls.View(), SelfCount(ls.View(), ls.n)) && SelfCount(ls.View(), ls.n) < kmin
    ensures outcome.Found? ==>
              && ls.View().Consistent(ls.numcenters) && z > 0.0 && cost == ls.View().Total(z, ls.numcenters)
              && |tried| <= rounds && (!outcome.done ==> |tried| == rounds) && used < |draws|
              && SearchEnds(Wanted(kmin, kmax, Halved(FeeIn(ls.View(), 0, ls.n), Halvings(used))), feasible, iter,
                            tried, last, outcome.done, outcome.loz, outcome.hiz, z, Holding(ls))
  {
    used, tried, last := 0, [], Round([], []);
    var top := LargestFee(ls);
    z := top / 2.0;
    if ls.n <= kmax {
      AssignToSelf(ls);
      cost, outcome := 0.0, Trivial;
    } else {
      cost, z, outcome, used, tried, last := Search(ls, kmin, kmax, top, draws, feasible, iter, rounds);
      SameFee(ls.View(), old(ls.View()), ls.n);
    }
  }

  /** Points and weights stay what they are. */
  lemma SameFee(s: Solution, r: Solution, n: int)
    requires s.coord == r.coord && s.weight == r.weight
    ensures FeeIn(s, 0, n) == FeeIn(r, 0, n)
  {
    SumSame(i => s.CostTo(i, 0), i => r.CostTo(i, 0), 0, n);
  }

  method Search(ls: LocalSearch, kmin: int, kmax: int, top: real, draws: seq<seq<real>>, feasible: seq<int>, iter: nat,
                rounds: nat)
    returns (cost: real, z: real, outcome: Outcome, ghost used: nat, ghost tried: seq<Try>, ghost last: Round)
    requires ls.Valid() && Weighted(ls.weight) && ls.View().Shape() && top > 0.0
    requires forall i :: 0 <= i < ls.n ==> !ls.isCenter[i]
    requires draws != [] && Draws(draws, ls.n) && Feasible(feasible, ls.n)
    modifies ls`work, ls`numcenters, ls.cost, ls.assign, ls.isCenter, ls.centerTable, ls.switchMembership
    ensures outcome.TooFew? || outcome.Found?
    ensures outcome.TooFew? ==> Seeded(ls.View(), SelfCount(ls.View(), ls.n)) && SelfCount(ls.View(), ls.n) < kmin
    ensures outcome.Found? ==>
              && Holding(ls).Fits(ls.n) && z > 0.0 && cost == Holding(ls).Cost(z)
              && |tried| <= rounds && (!outcome.done ==> |tried| == rounds) && used < |draws|
              && SearchEnds(Wanted(kmin, kmax, Halved(top, Halvings(used))), feasible, iter, tried, last,
                            outcome.done, outcome.loz, outcome.hiz, z, Holding(ls))
  {
    tried, last := [], Round([], []);
    var k, hiz, first;
    cost, k, hiz, first := FirstSolution(ls, kmin, top, draws);
    used, z := first, hiz / 2.0;
    if k < kmin {
      outcome := TooFew;
    } else {
      MarkAll(ls, k, z);
      var done, loz;
      cost, z, done, loz, hiz, tried, last := SearchFee(ls, feasible, kmin, kmax, hiz, cost, iter, rounds);
      outcome := Found(done, loz, hiz);
    }
  }

  method MarkAll(ls: LocalSearch, k: int, ghost z: real)
    requires ls.Valid() && Seeded(ls.View(), k) && forall i :: 0 <= i < ls.n ==> !ls.isCenter[..][i]
    modifies ls.isCenter, ls`numcenters
    ensures Holding(ls).Fits(ls.n) && Holding(ls).Cost(z) == old(ls.View().Total(z, k))
  {
    assert forall i :: 0 <= i < ls.n ==> ls.isCenter[i] == ls.isCenter[..][i];
    ghost var s := ls.View();
    MarkCenters(ls, k);
    SameTotal(s, ls.View(), z, k);
  }
}
