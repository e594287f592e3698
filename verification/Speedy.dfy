/** The first solution: points are opened as centers at random, each with the points that it is
    closer to (pspeedy). */
module Speedy {
  import opened Sums
  import opened Blocks
  import opened FacilityCost
  import opened LocalSearch
  import opened KMedian

  predicate SelfAssigned(s: Solution, j: int) {
    0 <= j < |s.assign| && s.assign[j] == j
  }

  function SelfCount(s: Solution, hi: int): nat {
    Count(j => SelfAssigned(s, j), 0, hi)
  }

  /** The open centers are the points assigned to themselves; there are `k` of them. */
  ghost predicate Seeded(s: Solution, k: int) {
    && s.Shape()
    && (forall i :: 0 <= i < |s.assign| ==> Served(s, i))
    && k == SelfCount(s, |s.assign|)
  }

  /** Point `i` is assigned to a center, at its true cost. */
  predicate Served(s: Solution, i: int)
    requires s.Shape() && 0 <= i < |s.assign|
  {
    SelfAssigned(s, s.assign[i]) && s.cost[i] == s.CostTo(i, s.assign[i])
  }

  function JoinCost(s: Solution, c: int, i: int): real {
    if s.CostTo(i, c) < s.Current(i) then s.CostTo(i, c) else s.Current(i)
  }

  function JoinAssign(s: Solution, c: int, i: int): int {
    if s.CostTo(i, c) < s.Current(i) then c else s.AssignedTo(i)
  }

  function Joined(s: Solution, c: int): Solution {
    s.(cost := seq(|s.cost|, i => JoinCost(s, c, i)), assign := seq(|s.assign|, i => JoinAssign(s, c, i)))
  }

  /** The self-assigned points stay, and `c` becomes one. */
  lemma JoinedSelf(s: Solution, c: int, j: int)
    requires s.Shape() && Weighted(s.weight) && 0 <= c < |s.cost| && s.cost[c] > 0.0
    requires SelfAssigned(s, j) ==> s.cost[j] == s.CostTo(j, j)
    ensures SelfAssigned(Joined(s, c), j) <==> j == c || SelfAssigned(s, j)
  {
    SelfFree(s, c);
    if SelfAssigned(s, j) && j != c {
      SelfFree(s, j);
      CostNonNegative(s, j, c);
    }
  }

  /** A point that costs something becomes one more center, and no center is lost. */
  lemma JoinedSeeded(s: Solution, c: int, k: int)
    requires Seeded(s, k) && Weighted(s.weight) && 0 <= c < |s.cost| && s.cost[c] > 0.0
    ensures Seeded(Joined(s, c), k + 1)
  {
    JoinedSelfAll(s, c, k);
    forall i | 0 <= i < |s.assign|
      ensures var r := Joined(s, c); SelfAssigned(r, r.assign[i]) && r.cost[i] == r.CostTo(i, r.assign[i])
    {
      assert Served(s, i) && Served(s, s.assign[i]) && Served(s, c);
      JoinedPoint(s, c, i);
    }
    SelfFree(s, c);
    assert Served(s, c);
    JoinedCount(s, c);
  }

  lemma JoinedPoint(s: Solution, c: int, i: int)
    requires s.Shape() && Weighted(s.weight) && 0 <= c < |s.cost| && s.cost[c] > 0.0 && 0 <= i < |s.assign|
    requires s.cost[i] == s.CostTo(i, s.assign[i]) && SelfAssigned(s, s.assign[i])
    requires s.cost[s.assign[i]] == s.CostTo(s.assign[i], s.assign[i])
             && (SelfAssigned(s, c) ==> s.cost[c] == s.CostTo(c, c))
    ensures var r := Joined(s, c); SelfAssigned(r, r.assign[i]) && r.cost[i] == r.CostTo(i, r.assign[i])
  {
    var r := Joined(s, c);
    assert r.cost[i] == JoinCost(s, c, i) && r.assign[i] == JoinAssign(s, c, i) && s.AssignedTo(i) == s.assign[i];
    CostToSame(s, r, i, r.assign[i]);
    if s.CostTo(i, c) < s.Current(i) {
      JoinedSelf(s, c, c);
    } else {
      JoinedSelf(s, c, s.assign[i]);
    }
  }

  lemma CostToSame(s: Solution, r: Solution, i: int, j: int)
    requires s.coord == r.coord && s.weight == r.weight
    ensures s.CostTo(i, j) == r.CostTo(i, j)
  {
  }

  lemma JoinedCount(s: Solution, c: int)
    requires 0 <= c < |s.assign| && !SelfAssigned(s, c)
    requires forall j :: 0 <= j < |s.assign| ==> (SelfAssigned(Joined(s, c), j) <==> j == c || SelfAssigned(s, j))
    ensures SelfCount(Joined(s, c), |s.assign|) == SelfCount(s, |s.assign|) + 1
  {
    CountOneMore(j => SelfAssigned(s, j), j => SelfAssigned(Joined(s, c), j), 0, |s.assign|, c);
  }

  /** A point costs nothing at its own place. */
  lemma SelfFree(s: Solution, j: int)
    ensures s.CostTo(j, j) == 0.0
  {
    if 0 <= j < |s.coord| {
      DistSelf(s.coord[j]);
    }
  }

  function First(s: Solution): Solution {
    s.(cost := seq(|s.cost|, i => s.CostTo(i, 0)), assign := seq(|s.assign|, i => 0))
  }

  lemma FirstSeeded(s: Solution)
    requires s.Shape() && s.cost != []
    ensures Seeded(First(s), 1)
  {
    var r := First(s);
    SelfFree(s, 0);
    forall i | 0 <= i < |r.assign|
      ensures SelfAssigned(r, r.assign[i]) && r.cost[i] == r.CostTo(i, r.assign[i])
    {
      assert r.CostTo(i, 0) == s.CostTo(i, 0);
    }
    forall j | 0 <= j < |r.assign|
      ensures SelfAssigned(r, j) <==> j == 0
    {
    }
    CountNone(0, |r.assign|);
    CountOneMore(j => false, j => SelfAssigned(r, j), 0, |r.assign|, 0);
  }

  lemma {:induction false} CountNone(lo: int, hi: int)
    ensures Count(j => false, lo, hi) == 0
    decreases hi - lo
  {
    if lo < hi {
      CountNone(lo, hi - 1);
    }
  }

  /** The solution with exactly the used points marked as centers. */
  function Marked(s: Solution): Solution {
    s.(center := seq(|s.center|, j => SelfAssigned(s, j)))
  }

  lemma MarkedConsistent(s: Solution, k: int)
    requires Seeded(s, k)
    ensures Marked(s).Consistent(k)
  {
    var r := Marked(s);
    CountSame(j => SelfAssigned(s, j), j => r.Open(j), 0, |s.center|);
    forall i | 0 <= i < |r.assign|
      ensures r.Open(r.assign[i]) && r.cost[i] == r.CostTo(i, r.assign[i])
    {
      assert Served(s, i);
      assert r.CostTo(i, r.assign[i]) == s.CostTo(i, r.assign[i]);
    }
  }

  // ---- Which points become centers ----

  /** Every point is assigned to the nearest center, and among equally near ones to the first. */
  ghost predicate Nearest(s: Solution) {
    forall i, j :: 0 <= i < |s.assign| && SelfAssigned(s, j) ==> NoNearer(s, i, j)
  }

  predicate NoNearer(s: Solution, i: int, j: int) {
    s.Current(i) <= s.CostTo(i, j) && (j < s.AssignedTo(i) ==> s.Current(i) < s.CostTo(i, j))
  }

  /** Point `i` is a center exactly when its random number, times the facility cost, is less than what it
      would pay at each center before it. */
  ghost predicate Drawn(s: Solution, draw: real, z: real, i: int) {
    SelfAssigned(s, i) <==> forall j :: j < i && SelfAssigned(s, j) ==> PaysMore(s, draw * z, i, j)
  }

  predicate PaysMore(s: Solution, price: real, i: int, j: int) {
    price < s.CostTo(i, j)
  }

  /** The solution that the random numbers give, once the points below `m` have been looked at. */
  ghost predicate Grown(s: Solution, draws: seq<real>, z: real, m: int) {
    && Nearest(s) && SelfAssigned(s, 0)
    && (forall j :: SelfAssigned(s, j) ==> j < m)
    && forall i :: 1 <= i < m && i < |draws| ==> Drawn(s, draws[i], z, i)
  }

  lemma FirstGrown(s: Solution, draws: seq<real>, z: real)
    requires s.Shape() && s.cost != []
    ensures Grown(First(s), draws, z, 1)
  {
    var r := First(s);
    forall i, j | 0 <= i < |r.assign| && SelfAssigned(r, j)
      ensures NoNearer(r, i, j)
    {
      CostToSame(s, r, i, j);
    }
  }

  /** Point `m` does not open. */
  lemma SkippedGrown(s: Solution, draws: seq<real>, z: real, m: int, k: int)
    requires Seeded(s, k) && Grown(s, draws, z, m) && 1 <= m < |s.cost| == |draws| && z > 0.0
    requires !(draws[m] < s.cost[m] / z)
    ensures Grown(s, draws, z, m + 1)
  {
    Times(draws[m], s.cost[m], z);
    assert Served(s, m);
    assert Drawn(s, draws[m], z, m);
  }

  lemma Times(draw: real, cost: real, z: real)
    requires z > 0.0
    ensures draw < cost / z <==> draw * z < cost
  {
    var q := cost / z;
    assert cost == q * z;
    if draw < q {
      Strictly(q, draw, z);
    } else {
      Product(draw - q, z);
    }
  }

  /** Point `m` opens, and takes the points that it is nearer to. */
  lemma JoinedGrown(s: Solution, draws: seq<real>, z: real, m: int, k: int)
    requires Seeded(s, k) && Grown(s, draws, z, m) && 1 <= m < |s.cost| == |draws| && z > 0.0
    requires Weighted(s.weight) && s.cost[m] > 0.0 && draws[m] < s.cost[m] / z
    ensures Grown(Joined(s, m), draws, z, m + 1)
  {
    var r := Joined(s, m);
    JoinedSelfAll(s, m, k);
    assert forall i :: 0 <= i < |s.assign| ==> Served(s, i) ==> SelfAssigned(s, s.assign[i]);
    JoinedNearest(s, m);
    forall i | 1 <= i < m + 1
      ensures Drawn(r, draws[i], z, i)
    {
      if i < m {
        assert Drawn(s, draws[i], z, i);
        DrawnBefore(s, draws[i], z, m, i);
      } else {
        DrawnNow(s, draws[m], z, m);
      }
    }
  }

  lemma DrawnBefore(s: Solution, draw: real, z: real, m: int, i: int)
    requires Drawn(s, draw, z, i) && i < m
    requires forall j :: SelfAssigned(Joined(s, m), j) <==> j == m || SelfAssigned(s, j)
    ensures Drawn(Joined(s, m), draw, z, i)
  {
    forall j | j < i
      ensures SelfAssigned(s, j) ==> (PaysMore(Joined(s, m), draw * z, i, j) <==> PaysMore(s, draw * z, i, j))
    {
      CostToSame(s, Joined(s, m), i, j);
    }
  }

  lemma DrawnNow(s: Solution, draw: real, z: real, m: int)
    requires z > 0.0 && 0 <= m < |s.cost| == |s.assign| && draw < s.cost[m] / z && Nearest(s)
    requires forall j :: SelfAssigned(Joined(s, m), j) <==> j == m || SelfAssigned(s, j)
    ensures Drawn(Joined(s, m), draw, z, m)
  {
    Times(draw, s.cost[m], z);
    forall j | j < m && SelfAssigned(s, j)
      ensures PaysMore(Joined(s, m), draw * z, m, j)
    {
      assert NoNearer(s, m, j);
      CostToSame(s, Joined(s, m), m, j);
    }
  }

  lemma JoinedNearest(s: Solution, m: int)
    requires s.Shape() && Nearest(s) && 0 <= m && forall i :: 0 <= i < |s.assign| ==> s.assign[i] < m
    requires forall j :: SelfAssigned(Joined(s, m), j) <==> j == m || SelfAssigned(s, j)
    ensures Nearest(Joined(s, m))
  {
    var r := Joined(s, m);
    forall i, j | 0 <= i < |r.assign| && SelfAssigned(r, j)
      ensures NoNearer(r, i, j)
    {
      CostToSame(s, r, i, j);
      assert j != m ==> NoNearer(s, i, j);
      assert r.Current(i) == JoinCost(s, m, i) && r.AssignedTo(i) == JoinAssign(s, m, i);
    }
  }

  lemma JoinedSelfAll(s: Solution, c: int, k: int)
    requires Seeded(s, k) && Weighted(s.weight) && 0 <= c < |s.cost| && s.cost[c] > 0.0
    ensures forall j :: SelfAssigned(Joined(s, c), j) <==> j == c || SelfAssigned(s, j)
  {
    forall j
      ensures SelfAssigned(Joined(s, c), j) <==> j == c || SelfAssigned(s, j)
    {
      if 0 <= j < |s.assign| {
        assert Served(s, j);
        JoinedSelf(s, c, j);
      }
    }
  }

  // ---- The threads ----

  /** A thread assigns its points to the first center, or offers them the center `c`. */
  method JoinBlock(ls: LocalSearch, p: nat, c: int, first: bool, ghost s: Solution)
    requires ls.Valid() && s.Shape() && s.coord == ls.coord && s.weight == ls.weight
    requires p < ls.nproc && 0 <= c < ls.n
    requires forall i :: 0 <= i < ls.n && ls.Own(i) == p ==> ls.cost[i] == s.cost[i] && ls.assign[i] == s.assign[i]
    modifies ls.cost, ls.assign
    ensures forall i :: 0 <= i < ls.n && ls.Own(i) == p ==>
              ls.cost[i] == NextCost(s, c, first, i) && ls.assign[i] == NextAssign(s, c, first, i)
    ensures forall i :: 0 <= i < ls.n && ls.Own(i) != p ==>
              ls.cost[i] == old(ls.cost[i]) && ls.assign[i] == old(ls.assign[i])
  {
    LoBounds(ls.n, ls.nproc, p);
    ls.OwnBlock(p);
    var k1, k2 := ls.First(p), ls.First(p + 1);
    for i := k1 to k2
      modifies ls.cost, ls.assign
      invariant forall j :: k1 <= j < i ==>
                  ls.cost[j] == NextCost(s, c, first, j) && ls.assign[j] == NextAssign(s, c, first, j)
      invariant forall j :: 0 <= j < ls.n && !(k1 <= j < i) ==>
                  ls.cost[j] == old(ls.cost[j]) && ls.assign[j] == old(ls.assign[j])
    {
      DistSymmetric(ls.coord[c], ls.coord[i]);
      var distance := Dist(ls.coord[c], ls.coord[i]);
      assert distance * ls.weight[i] == s.CostTo(i, c);
      if first || distance * ls.weight[i] < ls.cost[i] {
        ls.cost[i] := distance * ls.weight[i];
        ls.assign[i] := c;
      }
    }
  }

  function NextCost(s: Solution, c: int, first: bool, i: int): real {
    if first then s.CostTo(i, c) else JoinCost(s, c, i)
  }

  function NextAssign(s: Solution, c: int, first: bool, i: int): int {
    if first then c else JoinAssign(s, c, i)
  }

  method JoinAll(ls: LocalSearch, c: int, first: bool, ghost s: Solution)
    requires ls.Valid() && ls.Holds(s) && s.Shape() && 0 <= c < ls.n && (first ==> c == 0)
    modifies ls.cost, ls.assign
    ensures ls.Holds(if first then First(s) else Joined(s, c))
  {
    ls.AllOwned();
    var todo := Threads(ls.nproc);
    while todo != {}
      invariant todo <= Threads(ls.nproc)
      invariant forall i :: 0 <= i < ls.n && Thread(ls.Own(i)) in todo ==>
                  ls.cost[i] == s.cost[i] && ls.assign[i] == s.assign[i]
      invariant forall i :: 0 <= i < ls.n && Thread(ls.Own(i)) !in todo ==>
                  ls.cost[i] == NextCost(s, c, first, i) && ls.assign[i] == NextAssign(s, c, first, i)
    {
      var t :| t in todo;
      JoinBlock(ls, t.pid, c, first, s);
      todo := todo - {t};
    }
  }

  /** The sum of the costs of a block. */
  method BlockCost(ls: LocalSearch, p: nat, ghost s: Solution) returns (total: real)
    requires ls.Valid() && ls.Holds(s) && p < ls.nproc
    ensures total == CostIn(s, ls.First(p), ls.First(p + 1))
  {
    LoBounds(ls.n, ls.nproc, p);
    total := 0.0;
    for i := ls.First(p) to ls.First(p + 1)
      invariant total == CostIn(s, ls.First(p), i)
    {
      assert s.Current(i) == ls.cost[i];
      total := total + ls.cost[i];
    }
  }

  function CostIn(s: Solution, lo: int, hi: int): real {
    Sum(i => s.Current(i), lo, hi)
  }

  method AllCosts(ls: LocalSearch, ghost s: Solution) returns (total: real)
    requires ls.Valid() && ls.Holds(s)
    ensures total == CostIn(s, 0, ls.n)
  {
    total := 0.0;
    LoBounds(ls.n, ls.nproc, 0);
    for p := 0 to ls.nproc
      invariant total == CostIn(s, 0, ls.First(p))
    {
      LoBounds(ls.n, ls.nproc, p);
      SumSplit(i => s.Current(i), 0, ls.First(p), ls.First(p + 1));
      var mine := BlockCost(ls, p, s);
      total := total + mine;
    }
  }

  /** For every outcome of the random choices: the first solution is consistent once its centers are
      marked, and the cost returned is its cost.  `draws` are the random numbers; they decide which points
      are centers, and every point is assigned to the nearest of those. */
  method PSpeedy(ls: LocalSearch, z: real, draws: seq<real>) returns (cost: real, k: int)
    requires ls.Valid() && Weighted(ls.weight) && z > 0.0
    requires ls.View().Shape() && |draws| == ls.n && forall i :: 0 <= i < |draws| ==> draws[i] >= 0.0
    modifies ls.cost, ls.assign
    ensures Seeded(ls.View(), k) && cost == ls.View().Total(z, k) && Grown(ls.View(), draws, z, ls.n)
    ensures ls.isCenter[..] == old(ls.isCenter[..])
  {
    ghost var s := ls.View();
    JoinAll(ls, 0, true, s);
    FirstSeeded(s);
    FirstGrown(s, draws, z);
    s := First(s);
    k := 1;
    for i := 1 to ls.n
      invariant ls.Holds(s) && Seeded(s, k) && Grown(s, draws, z, i) && s.center == old(ls.isCenter[..])
    {
      if draws[i] < ls.cost[i] / z {
        Opening(draws[i], ls.cost[i], z);
        k := k + 1;
        JoinAll(ls, i, false, s);
        JoinedSeeded(s, i, k - 1);
        JoinedGrown(s, draws, z, i, k - 1);
        s := Joined(s, i);
      } else {
        SkippedGrown(s, draws, z, i, k);
      }
    }
    ls.HoldsView(s);
    cost := AllCosts(ls, s);
    cost := z * k as real + cost;
  }

  lemma Opening(draw: real, cost: real, z: real)
    requires draw >= 0.0 && z > 0.0 && draw < cost / z
    ensures cost > 0.0
  {
    assert cost == (cost / z) * z;
    Product(cost / z, z);
  }

  /** The points that others are assigned to become the open centers. */
  method MarkCenters(ls: LocalSearch, k: int)
    requires ls.Valid() && Seeded(ls.View(), k) && forall i :: 0 <= i < ls.n ==> !ls.isCenter[i]
    modifies ls.isCenter, ls`numcenters
    ensures ls.View() == Marked(old(ls.View())) && ls.numcenters == k && ls.View().Consistent(k)
  {
    ghost var s := ls.View();
    for i := 0 to ls.n
      modifies ls.isCenter
      invariant forall j :: 0 <= j < ls.n && ls.isCenter[j] ==> SelfAssigned(s, j)
      invariant forall j :: 0 <= j < i ==> ls.isCenter[s.assign[j]]
    {
      assert Served(s, i);
      ls.isCenter[ls.assign[i]] := true;
    }
    forall j | 0 <= j < ls.n
      ensures ls.isCenter[j] == SelfAssigned(s, j)
    {
      assert SelfAssigned(s, j) ==> s.assign[j] == j;
    }
    ls.numcenters := k;
    ls.HoldsView(Marked(s));
    MarkedConsistent(s, k);
  }
}
