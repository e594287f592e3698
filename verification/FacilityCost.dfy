/** What the local search of streamcluster works on: points with weights, each assigned to an open
    center, and the cost of such a solution.  `pgain` opens a center and closes others. */
module FacilityCost {
  import opened Sums

  type Coord = seq<real>

  /** The squared distance of two points (dist). */
  function Dist(a: Coord, b: Coord): (d: real)
    ensures d >= 0.0
    decreases |a|
  {
    if a == [] || b == [] then 0.0 else (a[0] - b[0]) * (a[0] - b[0]) + Dist(a[1..], b[1..])
  }

  lemma {:induction false} DistSymmetric(a: Coord, b: Coord)
    ensures Dist(a, b) == Dist(b, a)
    decreases |a|
  {
    if a != [] && b != [] {
      DistSymmetric(a[1..], b[1..]);
    }
  }

  lemma {:induction false} DistSelf(a: Coord)
    ensures Dist(a, a) == 0.0
    decreases |a|
  {
    if a != [] {
      DistSelf(a[1..]);
    }
  }

  datatype Solution = Solution(coord: seq<Coord>, weight: seq<real>, cost: seq<real>, assign: seq<int>,
                               center: seq<bool>) {
    predicate Shape() {
      && |coord| == |weight| == |cost| == |assign| == |center|
      && forall i :: 0 <= i < |assign| ==> 0 <= assign[i] < |assign|
    }

    /** What point `i` costs when it is assigned to `j`. */
    function CostTo(i: int, j: int): real {
      if 0 <= i < |coord| && 0 <= i < |weight| && 0 <= j < |coord| then weight[i] * Dist(coord[i], coord[j]) else 0.0
    }

    predicate Open(i: int) {
      0 <= i < |center| && center[i]
    }

    function Current(i: int): real {
      if 0 <= i < |cost| then cost[i] else 0.0
    }

    function Centers(lo: int, hi: int): nat {
      Count(i => Open(i), lo, hi)
    }

    /** `k` centers are open, and every point is assigned to one of them at its true cost. */
    predicate Consistent(k: int) {
      && Shape()
      && k == Centers(0, |center|)
      && forall i :: 0 <= i < |assign| ==> Open(assign[i]) && cost[i] == CostTo(i, assign[i])
    }

    function Costs(): real {
      Sum(i => Current(i), 0, |cost|)
    }

    function Total(z: real, k: int): real {
      z * k as real + Costs()
    }

    /** Point `i` saves by switching to `x` itself. */
    predicate Switches(x: int, i: int) {
      CostTo(i, x) < Current(i)
    }

    function AssignedTo(i: int): int {
      if 0 <= i < |assign| then assign[i] else -1
    }

    /** What point `i` adds to the saving of closing center `j`, if its members go to `x`. */
    function Stays(x: int, j: int, i: int): real {
      if !Switches(x, i) && AssignedTo(i) == j then Current(i) - CostTo(i, x) else 0.0
    }

    /** What is saved by closing center `j` once the switching points have gone to `x`. */
    function Low(z: real, x: int, j: int): real {
      z + Sum(i => Stays(x, j, i), 0, |cost|)
    }

    predicate Closes(z: real, x: int, j: int) {
      Open(j) && Low(z, x, j) > 0.0
    }

    predicate Moves(z: real, x: int, i: int) {
      Switches(x, i) || Closes(z, x, AssignedTo(i))
    }

    function Closed(z: real, x: int): nat {
      Count(j => Closes(z, x, j), 0, |center|)
    }

    /** The solution with `x` opened, the centers that save by it closed, and their members and all
        switching points assigned to `x`. */
    function After(z: real, x: int): Solution {
      Solution(coord, weight,
               seq(|cost|, i => NewCost(z, x, i)),
               seq(|assign|, i => NewAssign(z, x, i)),
               seq(|center|, j => NewCenter(z, x, j)))
    }

    function NewCost(z: real, x: int, i: int): real {
      if Moves(z, x, i) then CostTo(i, x) else Current(i)
    }

    function NewAssign(z: real, x: int, i: int): int {
      if Moves(z, x, i) then x else AssignedTo(i)
    }

    predicate NewCenter(z: real, x: int, j: int) {
      j == x || (Open(j) && !Closes(z, x, j))
    }

    // What the threads add up.

    function SwitchGain(x: int, i: int): real {
      if Switches(x, i) then CostTo(i, x) - Current(i) else 0.0
    }

    function CloseGain(z: real, x: int, j: int): real {
      if Closes(z, x, j) then Low(z, x, j) else 0.0
    }

    function SwitchGains(x: int): real {
      Sum(i => SwitchGain(x, i), 0, |cost|)
    }

    function CloseGains(z: real, x: int): real {
      Sum(j => CloseGain(z, x, j), 0, |center|)
    }

    function OpeningCost(z: real, x: int): real {
      z + SwitchGains(x) - CloseGains(z, x)
    }
  }

  // ---- Closing a set of centers ----

  /** What the members of the closing centers `c` save by going to `x`. */
  function Moving(s: Solution, c: set<int>, x: int, j: int, i: int): real {
    if j in c then s.Stays(x, j, i) else 0.0
  }

  function MovingOf(s: Solution, c: set<int>, x: int, j: int): real {
    Sum(i => Moving(s, c, x, j, i), 0, |s.cost|)
  }

  function MovingCost(s: Solution, c: set<int>, x: int): real {
    Sum(j => MovingOf(s, c, x, j), 0, |s.center|)
  }

  /** What is saved by closing center `j`, if it is one of `c`. */
  function Saving(s: Solution, z: real, c: set<int>, x: int, j: int): real {
    if j in c then s.Low(z, x, j) else 0.0
  }

  lemma {:induction false} SavingsUpTo(s: Solution, z: real, c: set<int>, x: int, n: nat)
    ensures Sum(j => Saving(s, z, c, x, j), 0, n) ==
            z * Count(j => j in c, 0, n) as real + Sum(j => MovingOf(s, c, x, j), 0, n)
  {
    if n > 0 {
      SavingsUpTo(s, z, c, x, n - 1);
      SavingOf(s, z, c, x, n - 1);
      Fee(z, Count(j => j in c, 0, n - 1));
    }
  }

  lemma SavingOf(s: Solution, z: real, c: set<int>, x: int, j: int)
    ensures Saving(s, z, c, x, j) == (if j in c then z else 0.0) + MovingOf(s, c, x, j)
  {
    if j in c {
      SumSame(i => Moving(s, c, x, j, i), i => s.Stays(x, j, i), 0, |s.cost|);
    } else {
      SumZero(i => Moving(s, c, x, j, i), 0, |s.cost|);
    }
  }

  lemma Fee(z: real, k: int)
    ensures z * (k + 1) as real == z * k as real + z
  {
  }

  /** The order of the two summations does not matter. */
  lemma {:induction false} MovingBothWays(s: Solution, c: set<int>, x: int, m: nat)
    ensures Sum(i => Sum(j => Moving(s, c, x, j, i), 0, |s.center|), 0, m) ==
            Sum(j => Sum(i => Moving(s, c, x, j, i), 0, m), 0, |s.center|)
  {
    if m == 0 {
      SumZero(j => Sum(i => Moving(s, c, x, j, i), 0, m), 0, |s.center|);
    } else {
      MovingBothWays(s, c, x, m - 1);
      SumPlus(j => Sum(i => Moving(s, c, x, j, i), 0, m - 1), j => Moving(s, c, x, j, m - 1),
              j => Sum(i => Moving(s, c, x, j, i), 0, m), 0, |s.center|);
    }
  }

  lemma MovingPoints(s: Solution, c: set<int>, x: int)
    ensures Sum(i => Sum(j => Moving(s, c, x, j, i), 0, |s.center|), 0, |s.cost|) == MovingCost(s, c, x)
  {
    MovingBothWays(s, c, x, |s.cost|);
    SumSame(j => MovingOf(s, c, x, j), j => Sum(i => Moving(s, c, x, j, i), 0, |s.cost|), 0, |s.center|);
  }

  /** A point is a member of one center only. */
  lemma MovingPoint(s: Solution, c: set<int>, x: int, i: int)
    requires s.Shape() && 0 <= i < |s.cost|
    ensures Sum(j => Moving(s, c, x, j, i), 0, |s.center|) == Moving(s, c, x, s.assign[i], i)
  {
    SumOne(j => Moving(s, c, x, j, i), 0, |s.center|, s.assign[i]);
  }

  // ---- The cost of opening is exact ----

  /** The centers that save by closing. */
  function Closing(s: Solution, z: real, x: int): set<int> {
    set j | 0 <= j < |s.center| && s.Closes(z, x, j)
  }

  lemma CloseGainsSplit(s: Solution, z: real, x: int)
    requires s.Shape() && 0 <= x < |s.center|
    ensures s.CloseGains(z, x) == z * s.Closed(z, x) as real + MovingCost(s, Closing(s, z, x), x)
  {
    var c := Closing(s, z, x);
    SavingsUpTo(s, z, c, x, |s.center|);
    ClosingIs(s, z, x, c);
  }

  lemma ClosingIs(s: Solution, z: real, x: int, c: set<int>)
    requires c == Closing(s, z, x)
    ensures s.CloseGains(z, x) == Sum(j => Saving(s, z, c, x, j), 0, |s.center|)
    ensures s.Closed(z, x) == Count(j => j in c, 0, |s.center|)
  {
    SumSame(j => s.CloseGain(z, x, j), j => Saving(s, z, c, x, j), 0, |s.center|);
    CountSame(j => s.Closes(z, x, j), j => j in c, 0, |s.center|);
  }

  /** How much more point `i` costs afterwards. */
  lemma PointChange(s: Solution, z: real, x: int, i: int)
    requires s.Shape() && 0 <= i < |s.cost|
    ensures s.After(z, x).Current(i) == s.Current(i) + s.SwitchGain(x, i)
                                        - Sum(j => Moving(s, Closing(s, z, x), x, j, i), 0, |s.center|)
  {
    MovingPoint(s, Closing(s, z, x), x, i);
  }

  /** The costs of all points afterwards. */
  lemma CostsAfter(s: Solution, z: real, x: int)
    requires s.Shape()
    ensures s.After(z, x).Costs() == s.Costs() + s.SwitchGains(x) - MovingCost(s, Closing(s, z, x), x)
  {
    var r := s.After(z, x);
    SumSame(i => r.Current(i), i => s.After(z, x).Current(i), 0, |s.cost|);
    CostsAfterUpTo(s, z, x, |s.cost|);
    MovingPoints(s, Closing(s, z, x), x);
  }

  lemma {:induction false} CostsAfterUpTo(s: Solution, z: real, x: int, n: nat)
    requires s.Shape() && n <= |s.cost|
    ensures Sum(i => s.After(z, x).Current(i), 0, n) ==
            Sum(i => s.Current(i), 0, n) + Sum(i => s.SwitchGain(x, i), 0, n)
            - Sum(i => Sum(j => Moving(s, Closing(s, z, x), x, j, i), 0, |s.center|), 0, n)
  {
    if n > 0 {
      CostsAfterUpTo(s, z, x, n - 1);
      PointChange(s, z, x, n - 1);
    }
  }

  /** A center that already is `x` closes, because `z` is positive: it is opened again. */
  lemma SelfCloses(s: Solution, z: real, x: int, k: int)
    requires s.Consistent(k) && z > 0.0 && s.Open(x)
    ensures s.Closes(z, x, x)
  {
    SumZero(i => s.Stays(x, x, i), 0, |s.cost|);
  }

  lemma CentersAfter(s: Solution, z: real, x: int, k: int)
    requires s.Consistent(k) && z > 0.0 && 0 <= x < |s.center|
    ensures Count(i => s.After(z, x).Open(i), 0, |s.center|) == k + 1 - s.Closed(z, x)
  {
    if s.Open(x) {
      SelfCloses(s, z, x, k);
    }
    var kept := i => s.Open(i) && !s.Closes(z, x, i);
    CountApart(i => s.Open(i), kept, j => s.Closes(z, x, j), 0, |s.center|);
    CountOneMore(kept, i => s.After(z, x).Open(i), 0, |s.center|, x);
  }

  lemma AfterConsistent(s: Solution, z: real, x: int, k: int)
    requires s.Consistent(k) && z > 0.0 && 0 <= x < |s.center|
    ensures s.After(z, x).Consistent(k + 1 - s.Closed(z, x))
  {
    var r := s.After(z, x);
    CentersAfter(s, z, x, k);
    forall i | 0 <= i < |r.assign|
      ensures r.Open(r.assign[i]) && r.cost[i] == r.CostTo(i, r.assign[i])
    {
      AfterPoint(s, z, x, i);
    }
  }

  lemma AfterPoint(s: Solution, z: real, x: int, i: int)
    requires s.Shape() && 0 <= x < |s.center| && 0 <= i < |s.assign|
    requires s.Open(s.assign[i]) && s.cost[i] == s.CostTo(i, s.assign[i])
    ensures var r := s.After(z, x); r.Open(r.assign[i]) && r.cost[i] == r.CostTo(i, r.assign[i])
  {
    var r := s.After(z, x);
    assert r.CostTo(i, r.assign[i]) == s.CostTo(i, r.assign[i]);
    if s.Moves(z, x, i) {
      assert r.assign[i] == x && r.cost[i] == s.CostTo(i, x);
    } else {
      assert r.assign[i] == s.assign[i] && r.cost[i] == s.cost[i];
    }
  }

  /** Opening `x` changes the total cost by exactly what the threads add up. */
  lemma OpeningExact(s: Solution, z: real, x: int, k: int)
    requires s.Shape() && 0 <= x < |s.center|
    ensures s.After(z, x).Total(z, k + 1 - s.Closed(z, x)) == s.Total(z, k) + s.OpeningCost(z, x)
  {
    CostsAfter(s, z, x);
    CloseGainsSplit(s, z, x);
    CentersCost(z, k, s.Closed(z, x), k + 1 - s.Closed(z, x));
  }

  lemma CentersCost(z: real, k: int, c: int, k2: int)
    requires k2 == k + 1 - c
    ensures z * k2 as real == z * k as real + z - z * c as real
  {
    assert (k + 1 - c) as real == k as real + 1.0 - c as real;
  }

  /** The solution after `pgain`: opened, if that costs less in total. */
  function Outcome(s: Solution, z: real, x: int, k: int): (Solution, int) {
    var k2 := k + 1 - s.Closed(z, x);
    if s.After(z, x).Total(z, k2) < s.Total(z, k) then (s.After(z, x), k2) else (s, k)
  }

  lemma OutcomeExact(s: Solution, z: real, x: int, k: int)
    requires s.Consistent(k) && z > 0.0 && 0 <= x < |s.center|
    ensures var (r, k2) := Outcome(s, z, x, k);
            && r.Consistent(k2)
            && r.Total(z, k2) == s.Total(z, k) - (if s.OpeningCost(z, x) < 0.0 then -s.OpeningCost(z, x) else 0.0)
            && (r, k2) == if s.OpeningCost(z, x) < 0.0 then (s.After(z, x), k + 1 - s.Closed(z, x)) else (s, k)
  {
    OpeningExact(s, z, x, k);
    AfterConsistent(s, z, x, k);
  }

  // ---- No opening of the point is better ----

  /** `r` comes from `s` by opening `x`, closing any of the other centers, and assigning any points to `x`. */
  ghost predicate Opens(s: Solution, r: Solution, x: int) {
    && r.Shape() && s.coord == r.coord && s.weight == r.weight && r.Open(x)
    && (forall j :: r.Open(j) ==> j == x || s.Open(j))
    && (forall i :: 0 <= i < |r.assign| ==> r.AssignedTo(i) == s.AssignedTo(i) || r.AssignedTo(i) == x)
  }

  /** The centers that are closed, and `x` itself: it is opened again. */
  function Given(s: Solution, r: Solution, x: int): set<int> {
    set j | 0 <= j < |s.center| && s.Open(j) && (j == x || !r.Open(j))
  }

  /** The centers that remain. */
  lemma CentersOpened(s: Solution, r: Solution, c: set<int>, x: int, k: int, k2: int)
    requires s.Consistent(k) && r.Consistent(k2) && Opens(s, r, x) && c == Given(s, r, x)
    ensures k2 == k + 1 - Count(j => j in c, 0, |s.center|)
  {
    var kept := i => r.Open(i) && i != x;
    CountApart(i => s.Open(i), kept, j => j in c, 0, |s.center|);
    CountOneMore(kept, i => r.Open(i), 0, |s.center|, x);
  }

  /** Every point saves at most what it saves by going to the nearer center. */
  lemma PointOpened(s: Solution, r: Solution, c: set<int>, x: int, k: int, k2: int, i: int)
    requires s.Consistent(k) && r.Consistent(k2) && Opens(s, r, x) && c == Given(s, r, x) && 0 <= i < |s.cost|
    ensures r.Current(i) >= s.Current(i) + s.SwitchGain(x, i) - Sum(j => Moving(s, c, x, j, i), 0, |s.center|)
  {
    MovingPoint(s, c, x, i);
    assert s.Open(s.assign[i]) && s.cost[i] == s.CostTo(i, s.assign[i]);
    assert r.Open(r.assign[i]) && r.cost[i] == s.CostTo(i, r.assign[i]);
    assert r.AssignedTo(i) == s.AssignedTo(i) || r.AssignedTo(i) == x;
  }

  lemma {:induction false} CostsOpenedUpTo(s: Solution, r: Solution, c: set<int>, x: int, k: int, k2: int, n: nat)
    requires s.Consistent(k) && r.Consistent(k2) && Opens(s, r, x) && c == Given(s, r, x) && n <= |s.cost|
    ensures Sum(i => r.Current(i), 0, n) >=
            Sum(i => s.Current(i), 0, n) + Sum(i => s.SwitchGain(x, i), 0, n)
            - Sum(i => Sum(j => Moving(s, c, x, j, i), 0, |s.center|), 0, n)
  {
    if n > 0 {
      CostsOpenedUpTo(s, r, c, x, k, k2, n - 1);
      PointOpened(s, r, c, x, k, k2, n - 1);
    }
  }

  lemma CostsOpened(s: Solution, r: Solution, c: set<int>, x: int, k: int, k2: int)
    requires s.Consistent(k) && r.Consistent(k2) && Opens(s, r, x) && c == Given(s, r, x)
    ensures r.Costs() >= s.Costs() + s.SwitchGains(x) - MovingCost(s, c, x)
  {
    CostsOpenedUpTo(s, r, c, x, k, k2, |s.cost|);
    MovingPoints(s, c, x);
  }

  /** Closing other centers than those that save by it saves no more. */
  lemma SavingsLeast(s: Solution, z: real, c: set<int>, x: int)
    requires forall j :: j in c ==> s.Open(j)
    ensures z * Count(j => j in c, 0, |s.center|) as real + MovingCost(s, c, x) <= s.CloseGains(z, x)
  {
    SavingsUpTo(s, z, c, x, |s.center|);
    SumAtMost(j => Saving(s, z, c, x, j), j => s.CloseGain(z, x, j), 0, |s.center|);
  }

  /** No way to open `x` costs less than the one that is chosen. */
  lemma OpeningLeast(s: Solution, z: real, x: int, k: int, r: Solution, k2: int)
    requires s.Consistent(k) && r.Consistent(k2) && Opens(s, r, x)
    ensures s.Total(z, k) + s.OpeningCost(z, x) <= r.Total(z, k2)
  {
    var c := Given(s, r, x);
    CostsOpened(s, r, c, x, k, k2);
    CentersOpened(s, r, c, x, k, k2);
    SavingsLeast(s, z, c, x);
    TotalLeast(s, z, x, k, r, k2, Count(j => j in c, 0, |s.center|), MovingCost(s, c, x));
  }

  lemma TotalLeast(s: Solution, z: real, x: int, k: int, r: Solution, k2: int, closed: nat, moving: real)
    requires k2 == k + 1 - closed && r.Costs() >= s.Costs() + s.SwitchGains(x) - moving
    requires z * closed as real + moving <= s.CloseGains(z, x)
    ensures s.Total(z, k) + s.OpeningCost(z, x) <= r.Total(z, k2)
  {
    CentersCost(z, k, closed, k2);
  }

  /** What `pgain` leaves costs no more than what it found, nor than any solution with `x` opened. */
  lemma NoneBetter(s: Solution, z: real, x: int, k: int, r: Solution, k2: int)
    requires s.Consistent(k) && z > 0.0 && r.Consistent(k2) && Opens(s, r, x)
    ensures var (out, k3) := Outcome(s, z, x, k);
            out.Total(z, k3) <= s.Total(z, k) && out.Total(z, k3) <= r.Total(z, k2)
  {
    OpeningLeast(s, z, x, k, r, k2);
    OutcomeExact(s, z, x, k);
  }

  /** No solution that comes from `s` by opening `x` costs less than `total`. */
  ghost predicate NoOpening(s: Solution, total: real, z: real, x: int) {
    forall r: Solution, k :: r.Consistent(k) && Opens(s, r, x) ==> total <= r.Total(z, k)
  }

  lemma LeastTotal(s: Solution, z: real, x: int, k: int)
    requires s.Consistent(k) && z > 0.0
    ensures var (out, k3) := Outcome(s, z, x, k); NoOpening(s, out.Total(z, k3), z, x)
  {
    var (out, k3) := Outcome(s, z, x, k);
    forall r: Solution, k2 | r.Consistent(k2) && Opens(s, r, x)
      ensures out.Total(z, k3) <= r.Total(z, k2)
    {
      NoneBetter(s, z, x, k, r, k2);
    }
  }

  /** `out` is what there was, or cheaper and a solution with `x` opened in which no point pays more than
      it would at `x`. */
  ghost predicate OpenedOrKept(s: Solution, k: int, out: Solution, k2: int, z: real, x: int) {
    || (out == s && k2 == k)
    || (&& Opens(s, out, x) && out.Total(z, k2) < s.Total(z, k)
        && forall i :: 0 <= i < |s.cost| ==> out.Current(i) <= s.CostTo(i, x))
  }

  lemma OutcomeOpens(s: Solution, z: real, x: int, k: int)
    requires s.Consistent(k) && z > 0.0 && 0 <= x < |s.center|
    ensures var (out, k2) := Outcome(s, z, x, k); OpenedOrKept(s, k, out, k2, z, x)
  {
    AfterConsistent(s, z, x, k);
  }

  /** The laws of an outcome. */
  lemma OutcomeBest(s: Solution, z: real, x: int, k: int, out: Solution, k2: int)
    requires s.Consistent(k) && z > 0.0 && 0 <= x < |s.center| && (out, k2) == Outcome(s, z, x, k)
    ensures out.Consistent(k2) && OpenedOrKept(s, k, out, k2, z, x) && NoOpening(s, out.Total(z, k2), z, x)
  {
    OutcomeExact(s, z, x, k);
    OutcomeOpens(s, z, x, k);
    LeastTotal(s, z, x, k);
  }
}
