/** The parallel local search of streamcluster: pspeedy, pgain, pFL and pkmedian.

    Between two barriers every thread works on its own block of the points and its own row of the
    working memory; here the threads take such a phase one after the other, in an arbitrary order. */
module LocalSearch {
  import opened Sums
  import opened Blocks
  import opened FacilityCost
  import opened CenterTable

  datatype Thread = Thread(pid: int)

  function Threads(m: nat): (r: set<Thread>)
    ensures forall t :: t in r <==> 0 <= t.pid < m
  {
    if m == 0 then {} else Threads(m - 1) + {Thread(m - 1)}
  }

  class LocalSearch {
    const n: nat
    const nproc: nat
    const coord: seq<Coord>
    const weight: seq<real>
    const cost: array<real>
    const assign: array<int>
    const isCenter: array<bool>
    const centerTable: array<int>
    const switchMembership: array<bool>
    var work: array2<real>
    var numcenters: int

    ghost predicate Valid() {
      && nproc > 0 && n > 0
      && |coord| == |weight| == cost.Length == assign.Length == isCenter.Length == n
      && centerTable.Length == switchMembership.Length == n
      && assign != centerTable && isCenter != switchMembership
    }

    ghost function View(): Solution
      reads cost, assign, isCenter
    {
      Solution(coord, weight, cost[..], assign[..], isCenter[..])
    }

    /** The arrays hold the solution `s`. */
    ghost predicate Holds(s: Solution)
      reads cost, assign, isCenter
    {
      && s.coord == coord && s.weight == weight
      && |s.cost| == cost.Length && |s.assign| == assign.Length && |s.center| == isCenter.Length
      && (forall i :: 0 <= i < cost.Length ==> cost[i] == s.cost[i])
      && (forall i :: 0 <= i < assign.Length ==> assign[i] == s.assign[i])
      && (forall i :: 0 <= i < isCenter.Length ==> isCenter[i] == s.center[i])
    }

    ghost predicate Room(k: nat)
      reads this`work
    {
      work.Length0 == nproc + 1 && work.Length1 == Stride(k)
    }

    function First(p: int): int
      requires nproc > 0
    {
      Lo(n, nproc, p)
    }

    function Own(i: int): int
      requires nproc > 0
    {
      Owner(n, nproc, i)
    }

    lemma AllOwned()
      requires Valid()
      ensures forall i :: 0 <= i < n ==> 0 <= Own(i) < nproc
    {
      forall i | 0 <= i < n
        ensures 0 <= Own(i) < nproc
      {
        OwnerIs(n, nproc, 0, i);
      }
    }

    // ---- The table of centers ----

    method CountCenters(p: nat, ghost s: Solution)
      requires Valid() && Holds(s) && p < nproc && work.Length0 == nproc + 1 && work.Length1 > 0
      modifies centerTable, work
      ensures forall i :: 0 <= i < n && Own(i) == p && s.Open(i) ==> centerTable[i] == s.Centers(First(p), i)
      ensures forall i :: 0 <= i < n && Own(i) != p ==> centerTable[i] == old(centerTable[i])
      ensures work[p, 0] == s.Centers(First(p), First(p + 1)) as real
      ensures forall q :: 0 <= q < nproc && q != p ==> work[q, 0] == old(work[q, 0])
    {
      LoBounds(n, nproc, p);
      var k1, k2 := First(p), First(p + 1);
      var count := 0;
      for i := k1 to k2
        modifies centerTable
        invariant count == s.Centers(k1, i)
        invariant forall j :: k1 <= j < i && s.Open(j) ==> centerTable[j] == s.Centers(k1, j)
        invariant forall j :: 0 <= j < n && !(k1 <= j < i) ==> centerTable[j] == old(centerTable[j])
      {
        if isCenter[i] {
          centerTable[i] := count;
          count := count + 1;
        }
      }
      work[p, 0] := count as real;
      forall i | 0 <= i < n
        ensures Own(i) == p <==> k1 <= i < k2
      {
        OwnerIs(n, nproc, p, i);
      }
    }

    method CountAll(ghost s: Solution)
      requires Valid() && Holds(s) && work.Length0 == nproc + 1 && work.Length1 > 0
      modifies centerTable, work
      ensures forall i :: 0 <= i < n && s.Open(i) ==> centerTable[i] == s.Centers(First(Own(i)), i)
      ensures forall p :: 0 <= p < nproc ==> work[p, 0] == s.Centers(First(p), First(p + 1)) as real
    {
      AllOwned();
      var todo := Threads(nproc);
      while todo != {}
        invariant todo <= Threads(nproc)
        invariant forall i :: 0 <= i < n && s.Open(i) && Thread(Own(i)) !in todo ==>
                    centerTable[i] == s.Centers(First(Own(i)), i)
        invariant forall p :: 0 <= p < nproc && Thread(p) !in todo ==>
                    work[p, 0] == s.Centers(First(p), First(p + 1)) as real
      {
        var t :| t in todo;
        CountCenters(t.pid, s);
        todo := todo - {t};
      }
    }

    /** The first thread turns the counts into the numbers at which the blocks begin. */
    method PrefixSum(ghost s: Solution)
      requires Valid() && |s.center| == n && work.Length0 == nproc + 1 && work.Length1 > 0
      requires forall p :: 0 <= p < nproc ==> work[p, 0] == s.Centers(First(p), First(p + 1)) as real
      modifies work
      ensures forall p :: 0 <= p < nproc ==> work[p, 0] == s.Centers(0, First(p)) as real
    {
      var accum := 0;
      LoBounds(n, nproc, 0);
      for p := 0 to nproc
        invariant accum == s.Centers(0, First(p))
        invariant forall q :: 0 <= q < p ==> work[q, 0] == s.Centers(0, First(q)) as real
        invariant forall q :: p <= q < nproc ==> work[q, 0] == s.Centers(First(q), First(q + 1)) as real
      {
        LoBounds(n, nproc, p);
        CountSplit(i => s.Open(i), 0, First(p), First(p + 1));
        var tmp := work[p, 0].Floor;
        work[p, 0] := accum as real;
        accum := accum + tmp;
      }
    }

    /** A thread completes its part of the table, and clears its memory. */
    method FixUp(p: nat, ghost s: Solution)
      requires Valid() && Holds(s) && p < nproc && work.Length0 == nproc + 1 && work.Length1 > 0
      requires forall i :: 0 <= i < n && Own(i) == p && s.Open(i) ==> centerTable[i] == s.Centers(First(p), i)
      requires work[p, 0] == s.Centers(0, First(p)) as real
      modifies centerTable, switchMembership, work
      ensures forall i :: 0 <= i < n && Own(i) == p && s.Open(i) ==> centerTable[i] == Rank(s, i)
      ensures forall i :: 0 <= i < n && Own(i) == p ==> !switchMembership[i]
      ensures forall i :: 0 <= i < n && Own(i) != p ==>
                centerTable[i] == old(centerTable[i]) && switchMembership[i] == old(switchMembership[i])
      ensures forall c :: 0 <= c < work.Length1 ==> work[p, c] == 0.0
      ensures forall q, c :: 0 <= q < nproc && q != p && 0 <= c < work.Length1 ==> work[q, c] == old(work[q, c])
    {
      LoBounds(n, nproc, p);
      var k1, k2 := First(p), First(p + 1);
      forall i | 0 <= i < n
        ensures Own(i) == p <==> k1 <= i < k2
      {
        OwnerIs(n, nproc, p, i);
      }
      for i := k1 to k2
        modifies centerTable
        invariant forall j :: k1 <= j < i && s.Open(j) ==> centerTable[j] == Rank(s, j)
        invariant forall j :: 0 <= j < n && !(k1 <= j < i) ==> centerTable[j] == old(centerTable[j])
      {
        if isCenter[i] {
          CountSplit(j => s.Open(j), 0, k1, i);
          centerTable[i] := centerTable[i] + work[p, 0].Floor;
        }
      }
      forall i | k1 <= i < k2 {
        switchMembership[i] := false;
      }
      forall c | 0 <= c < work.Length1 {
        work[p, c] := 0.0;
      }
      if p == 0 {
        forall c | 0 <= c < work.Length1 {
          work[nproc, c] := 0.0;
        }
      }
    }

    /** What the table and the cleared memory look like once all threads have built it. */
    ghost predicate TableBuilt(s: Solution)
      requires Valid() && |s.center| == n
      reads this`work, work, centerTable, switchMembership
    {
      && work.Length0 == nproc + 1
      && (forall i :: 0 <= i < n && s.Open(i) ==> centerTable[i] == Rank(s, i))
      && (forall i :: 0 <= i < n ==> !switchMembership[i])
      && (forall q, c :: 0 <= q < nproc && 0 <= c < work.Length1 ==> work[q, c] == 0.0)
    }

    method FixAll(ghost s: Solution)
      requires Valid() && Holds(s) && work.Length0 == nproc + 1 && work.Length1 > 0
      requires forall i :: 0 <= i < n && s.Open(i) ==> centerTable[i] == s.Centers(First(Own(i)), i)
      requires forall p :: 0 <= p < nproc ==> work[p, 0] == s.Centers(0, First(p)) as real
      modifies centerTable, switchMembership, work
      ensures TableBuilt(s)
    {
      AllOwned();
      var todo := Threads(nproc);
      while todo != {}
        invariant todo <= Threads(nproc)
        invariant forall i :: 0 <= i < n && s.Open(i) && Thread(Own(i)) in todo ==>
                    centerTable[i] == s.Centers(First(Own(i)), i)
        invariant forall i :: 0 <= i < n && s.Open(i) && Thread(Own(i)) !in todo ==> centerTable[i] == Rank(s, i)
        invariant forall i :: 0 <= i < n && Thread(Own(i)) !in todo ==> !switchMembership[i]
        invariant forall p :: 0 <= p < nproc && Thread(p) in todo ==> work[p, 0] == s.Centers(0, First(p)) as real
        invariant forall p, c :: 0 <= p < nproc && Thread(p) !in todo && 0 <= c < work.Length1 ==> work[p, c] == 0.0
      {
        var t :| t in todo;
        FixUp(t.pid, s);
        todo := todo - {t};
      }
    }

    method BuildTable(ghost s: Solution)
      requires Valid() && Holds(s) && work.Length0 == nproc + 1 && work.Length1 > 0
      modifies centerTable, switchMembership, work
      ensures TableBuilt(s)
    {
      CountAll(s);
      PrefixSum(s);
      FixAll(s);
    }

    // ---- The cost of opening ----

    function FeeTo(i: int, j: int): real
      requires Valid() && 0 <= i < n && 0 <= j < n
    {
      weight[i] * Dist(coord[i], coord[j])
    }

    /** One point: it would switch to `x`, or it adds to what closing its center would cost. */
    method LowerPoint(p: nat, i: int, x: int, ghost s: Solution) returns (gain: real)
      requires Valid() && Holds(s) && s.Shape() && 0 <= p < nproc && 0 <= i < n && 0 <= x < n
      requires s.Open(s.assign[i]) && centerTable[s.assign[i]] == Rank(s, s.assign[i])
      requires work.Length0 == nproc + 1 && Rank(s, s.assign[i]) < work.Length1 && !switchMembership[i]
      modifies switchMembership, work
      ensures gain == s.SwitchGain(x, i)
      ensures switchMembership[i] == s.Switches(x, i)
      ensures forall j :: 0 <= j < n && j != i ==> switchMembership[j] == old(switchMembership[j])
      ensures forall c :: 0 <= c < work.Length1 ==> work[p, c] == old(work[p, c]) + StaysAt(s, x, c, i)
      ensures forall q, c :: 0 <= q < nproc && q != p && 0 <= c < work.Length1 ==> work[q, c] == old(work[q, c])
    {
      var xCost := FeeTo(i, x);
      assert xCost == s.CostTo(i, x) && cost[i] == s.Current(i) && s.AssignedTo(i) == s.assign[i];
      gain := 0.0;
      if xCost < cost[i] {
        switchMembership[i] := true;
        gain := xCost - cost[i];
      } else {
        var r := centerTable[assign[i]];
        work[p, r] := work[p, r] + (cost[i] - xCost);
      }
    }

    /** A thread marks its points that would switch to `x`, and adds up what the others would cost
        under the number of their center. */
    method LowerCosts(p: nat, x: int, ghost s: Solution) returns (opening: real)
      requires Valid() && Holds(s) && s.Consistent(s.Centers(0, n)) && p < nproc && 0 <= x < n
      requires Room(s.Centers(0, n)) && Ranked(s)
      requires forall i :: 0 <= i < n && Own(i) == p ==> !switchMembership[i]
      requires forall c :: 0 <= c < work.Length1 ==> work[p, c] == 0.0
      modifies switchMembership, work
      ensures opening == SwitchIn(s, x, First(p), First(p + 1))
      ensures forall i :: 0 <= i < n && Own(i) == p ==> switchMembership[i] == s.Switches(x, i)
      ensures forall i :: 0 <= i < n && Own(i) != p ==> switchMembership[i] == old(switchMembership[i])
      ensures forall c :: 0 <= c < work.Length1 ==> work[p, c] == LowerIn(s, x, c, First(p), First(p + 1))
      ensures forall q, c :: 0 <= q < nproc && q != p && 0 <= c < work.Length1 ==> work[q, c] == old(work[q, c])
    {
      LoBounds(n, nproc, p);
      OwnBlock(p);
      opening := LowerBlock(p, x, First(p), First(p + 1), s);
    }

    /** The points from `k1` to `k2`. */
    method LowerBlock(p: nat, x: int, k1: nat, k2: nat, ghost s: Solution) returns (opening: real)
      requires Valid() && Holds(s) && s.Shape() && p < nproc && 0 <= x < n && k1 <= k2 <= n
      requires work.Length0 == nproc + 1 && Ranked(s)
      requires forall i :: k1 <= i < k2 ==> !switchMembership[i] && s.Open(s.assign[i])
      requires forall c :: 0 <= c < work.Length1 ==> work[p, c] == 0.0
      modifies switchMembership, work
      ensures opening == SwitchIn(s, x, k1, k2)
      ensures forall i :: k1 <= i < k2 ==> switchMembership[i] == s.Switches(x, i)
      ensures forall i :: 0 <= i < n && !(k1 <= i < k2) ==> switchMembership[i] == old(switchMembership[i])
      ensures forall c :: 0 <= c < work.Length1 ==> work[p, c] == LowerIn(s, x, c, k1, k2)
      ensures forall q, c :: 0 <= q < nproc && q != p && 0 <= c < work.Length1 ==> work[q, c] == old(work[q, c])
    {
      opening := 0.0;
      for i := k1 to k2
        modifies switchMembership, work
        invariant opening == SwitchIn(s, x, k1, i)
        invariant forall j :: k1 <= j < i ==> switchMembership[j] == s.Switches(x, j)
        invariant forall j :: i <= j < k2 ==> !switchMembership[j]
        invariant forall j :: 0 <= j < n && !(k1 <= j < k2) ==> switchMembership[j] == old(switchMembership[j])
        invariant forall c :: 0 <= c < work.Length1 ==> work[p, c] == LowerIn(s, x, c, k1, i)
        invariant forall q, c :: 0 <= q < nproc && q != p && 0 <= c < work.Length1 ==> work[q, c] == old(work[q, c])
      {
        LowerSteps(s, x, k1, i);
        var gain := LowerPoint(p, i, x, s);
        opening := opening + gain;
      }
    }

    lemma LowerSteps(s: Solution, x: int, lo: int, i: int)
      requires lo <= i
      ensures SwitchIn(s, x, lo, i + 1) == SwitchIn(s, x, lo, i) + s.SwitchGain(x, i)
      ensures forall c: int :: LowerIn(s, x, c, lo, i + 1) == LowerIn(s, x, c, lo, i) + StaysAt(s, x, c, i)
    {
    }

    /** Every open center has its number in the table, and its column in the working memory. */
    ghost predicate Ranked(s: Solution)
      requires Valid() && |s.center| == n
      reads this`work, work, centerTable
    {
      forall i :: 0 <= i < n && s.Open(i) ==> centerTable[i] == Rank(s, i) && Rank(s, i) < work.Length1 - 2
    }

    lemma RanksFit(s: Solution)
      requires Valid() && |s.center| == n && Room(s.Centers(0, n))
      requires forall i :: 0 <= i < n && s.Open(i) ==> centerTable[i] == Rank(s, i)
      ensures Ranked(s)
    {
      forall i | 0 <= i < n && s.Open(i)
        ensures Rank(s, i) < work.Length1 - 2
      {
        RankBelow(s, i);
      }
    }

    lemma OwnBlock(p: nat)
      requires Valid() && p < nproc
      ensures forall i :: 0 <= i < n ==> (Own(i) == p <==> First(p) <= i < First(p + 1))
    {
      forall i | 0 <= i < n
        ensures Own(i) == p <==> First(p) <= i < First(p + 1)
      {
        OwnerIs(n, nproc, p, i);
      }
    }

    /** The threads have added up their parts. */
    ghost predicate Lowered(x: int, s: Solution)
      requires Valid() && |s.center| == n
      reads this`work, work, centerTable
    {
      && work.Length0 == nproc + 1 && work.Length1 >= 2
      && Ranked(s)
      && (forall q, c :: 0 <= q < nproc && 0 <= c < work.Length1 - 2 ==>
            work[q, c] == LowerIn(s, x, c, First(q), First(q + 1)))
    }

    /** The threads have marked the points that would switch. */
    ghost predicate Marked(x: int, s: Solution)
      requires Valid()
      reads switchMembership
    {
      forall i :: 0 <= i < n ==> switchMembership[i] == s.Switches(x, i)
    }

    method LowerAll(x: int, ghost s: Solution, openings: array<real>)
      requires Valid() && Holds(s) && s.Consistent(s.Centers(0, n)) && 0 <= x < n && Room(s.Centers(0, n))
      requires TableBuilt(s) && openings.Length == nproc && openings != cost
      modifies switchMembership, work, openings
      ensures Lowered(x, s) && Marked(x, s)
      ensures forall p :: 0 <= p < nproc ==> openings[p] == SwitchIn(s, x, First(p), First(p + 1))
    {
      AllOwned();
      RanksFit(s);
      var todo := Threads(nproc);
      while todo != {}
        invariant todo <= Threads(nproc) && Lowering(x, s, todo)
        invariant forall p :: 0 <= p < nproc && Thread(p) !in todo ==>
                    openings[p] == SwitchIn(s, x, First(p), First(p + 1))
      {
        var t :| t in todo;
        openings[t.pid] := LowerTurn(t.pid, x, s, todo);
        todo := todo - {t};
      }
    }

    /** The threads in `todo` have not had their turn yet. */
    ghost predicate Lowering(x: int, s: Solution, todo: set<Thread>)
      requires Valid()
      reads this`work, work, switchMembership
    {
      && work.Length0 == nproc + 1
      && (forall i :: 0 <= i < n && Thread(Own(i)) in todo ==> !switchMembership[i])
      && (forall i :: 0 <= i < n && Thread(Own(i)) !in todo ==> switchMembership[i] == s.Switches(x, i))
      && (forall q, c :: 0 <= q < nproc && Thread(q) in todo && 0 <= c < work.Length1 ==> work[q, c] == 0.0)
      && (forall q, c :: 0 <= q < nproc && Thread(q) !in todo && 0 <= c < work.Length1 ==>
            work[q, c] == LowerIn(s, x, c, First(q), First(q + 1)))
    }

    method LowerTurn(p: nat, x: int, ghost s: Solution, ghost todo: set<Thread>) returns (opening: real)
      requires Valid() && Holds(s) && s.Consistent(s.Centers(0, n)) && p < nproc && 0 <= x < n
      requires Room(s.Centers(0, n)) && Ranked(s) && Thread(p) in todo && Lowering(x, s, todo)
      modifies switchMembership, work
      ensures opening == SwitchIn(s, x, First(p), First(p + 1)) && Lowering(x, s, todo - {Thread(p)})
    {
      opening := LowerCosts(p, x, s);
    }

    /** The saving of closing the center with number `r`, over all threads. */
    method SumLow(r: nat, x: int, z: real, ghost s: Solution) returns (low: real)
      requires Valid() && work.Length0 == nproc + 1 && r < work.Length1
      requires forall q :: 0 <= q < nproc ==> work[q, r] == LowerIn(s, x, r, First(q), First(q + 1))
      ensures low == z + LowerIn(s, x, r, 0, n)
    {
      low := z;
      LoBounds(n, nproc, 0);
      for p := 0 to nproc
        invariant low == z + LowerIn(s, x, r, 0, First(p))
      {
        LoBounds(n, nproc, p);
        LowerSplit(s, x, r, First(p), First(p + 1));
        low := low + work[p, r];
      }
    }

    lemma LowerSplit(s: Solution, x: int, r: nat, mid: int, hi: int)
      requires 0 <= mid <= hi
      ensures LowerIn(s, x, r, 0, hi) == LowerIn(s, x, r, 0, mid) + LowerIn(s, x, r, mid, hi)
    {
      SumSplit(j => StaysAt(s, x, r, j), 0, mid, hi);
    }

    /** One center: what closing it would save is recorded under its number. */
    method CloseOne(i: int, x: int, z: real, ghost s: Solution) returns (low: real)
      requires Valid() && s.Consistent(s.Centers(0, n)) && |s.center| == n && Lowered(x, s) && 0 <= i < n && s.Open(i)
      modifies work
      ensures low == s.Low(z, x, i) && work[nproc, Rank(s, i)] == low
      ensures forall j :: 0 <= j < n && s.Open(j) && j != i ==> work[nproc, Rank(s, j)] == old(work[nproc, Rank(s, j)])
      ensures forall q, c :: 0 <= q < nproc && 0 <= c < work.Length1 ==> work[q, c] == old(work[q, c])
    {
      low := SumLow(centerTable[i], x, z, s);
      LowByRank(s, z, x, i, s.Centers(0, n));
      OtherRanks(s, i);
      work[nproc, centerTable[i]] := low;
    }

    /** A thread decides which of its centers would close. */
    method CloseCenters(p: nat, x: int, z: real, opening: real, ghost s: Solution) returns (number: nat, gain: real)
      requires Valid() && Holds(s) && s.Consistent(s.Centers(0, n)) && p < nproc && 0 <= x < n && Lowered(x, s)
      modifies work
      ensures number == ClosedIn(s, z, x, First(p), First(p + 1))
              && gain == opening - CloseIn(s, z, x, First(p), First(p + 1))
      ensures forall i :: 0 <= i < n && s.Open(i) && Own(i) == p ==> work[nproc, Rank(s, i)] == s.Low(z, x, i)
      ensures forall i :: 0 <= i < n && s.Open(i) && Own(i) != p ==>
                work[nproc, Rank(s, i)] == old(work[nproc, Rank(s, i)])
      ensures forall q, c :: 0 <= q < nproc && 0 <= c < work.Length1 ==> work[q, c] == old(work[q, c])
    {
      LoBounds(n, nproc, p);
      OwnBlock(p);
      var k1, k2 := First(p), First(p + 1);
      number, gain := 0, opening;
      for i := k1 to k2
        modifies work
        invariant number == ClosedIn(s, z, x, k1, i) && gain == opening - CloseIn(s, z, x, k1, i)
        invariant forall j :: k1 <= j < i && s.Open(j) ==> work[nproc, Rank(s, j)] == s.Low(z, x, j)
        invariant forall j :: 0 <= j < n && s.Open(j) && !(k1 <= j < i) ==>
                    work[nproc, Rank(s, j)] == old(work[nproc, Rank(s, j)])
        invariant forall q, c :: 0 <= q < nproc && 0 <= c < work.Length1 ==> work[q, c] == old(work[q, c])
      {
        CloseSteps(s, z, x, k1, i);
        if isCenter[i] {
          var low := CloseOne(i, x, z, s);
          if low > 0.0 {
            number := number + 1;
            gain := gain - low;
          }
        }
      }
    }

    lemma CloseSteps(s: Solution, z: real, x: int, lo: int, i: int)
      requires lo <= i
      ensures CloseIn(s, z, x, lo, i + 1) == CloseIn(s, z, x, lo, i) + s.CloseGain(z, x, i)
      ensures ClosedIn(s, z, x, lo, i + 1) == ClosedIn(s, z, x, lo, i) + if s.Closes(z, x, i) then 1 else 0
    {
    }

    /** A thread decides which of its centers would close, and leaves its totals in the two last cells
        of its row. */
    method CloseCosts(p: nat, x: int, z: real, opening: real, ghost s: Solution)
      requires Valid() && Holds(s) && s.Consistent(s.Centers(0, n)) && p < nproc && 0 <= x < n && Lowered(x, s)
      requires opening == SwitchIn(s, x, First(p), First(p + 1))
      modifies work
      ensures Lowered(x, s)
      ensures forall i :: 0 <= i < n && s.Open(i) && Own(i) == p ==> work[nproc, Rank(s, i)] == s.Low(z, x, i)
      ensures forall i :: 0 <= i < n && s.Open(i) && Own(i) != p ==>
                work[nproc, Rank(s, i)] == old(work[nproc, Rank(s, i)])
      ensures work[p, work.Length1 - 2] == RowClosed(p, x, z, s) && work[p, work.Length1 - 1] == RowGain(p, x, z, s)
      ensures forall q, c :: 0 <= q < nproc && q != p && 0 <= c < work.Length1 ==> work[q, c] == old(work[q, c])
    {
      var number, gain := CloseCenters(p, x, z, opening, s);
      var K := work.Length1 - 2;
      work[p, K] := number as real;
      work[p, K + 1] := gain;
    }

    lemma OtherRanks(s: Solution, i: int)
      requires s.Open(i)
      ensures forall j :: 0 <= j < |s.center| && s.Open(j) && j != i ==> Rank(s, j) != Rank(s, i)
    {
      forall j | 0 <= j < |s.center| && s.Open(j) && j != i
        ensures Rank(s, j) != Rank(s, i)
      {
        RankInjective(s, i, j);
      }
    }

    /** What thread `p` leaves in the two last cells of its row. */
    ghost function RowClosed(p: int, x: int, z: real, s: Solution): real
      requires nproc > 0
    {
      ClosedIn(s, z, x, First(p), First(p + 1)) as real
    }

    ghost function RowGain(p: int, x: int, z: real, s: Solution): real
      requires nproc > 0
    {
      SwitchIn(s, x, First(p), First(p + 1)) - CloseIn(s, z, x, First(p), First(p + 1))
    }

    ghost predicate Totals(x: int, z: real, s: Solution, todo: set<Thread>)
      requires Valid() && work.Length0 == nproc + 1 && work.Length1 >= 2
      reads this`work, work
    {
      forall p :: 0 <= p < nproc && Thread(p) !in todo ==>
        work[p, work.Length1 - 2] == RowClosed(p, x, z, s) && work[p, work.Length1 - 1] == RowGain(p, x, z, s)
    }

    /** The cells of the centers of the threads that have had their turn. */
    ghost predicate LowsDone(x: int, z: real, s: Solution, todo: set<Thread>)
      requires Valid() && |s.center| == n && work.Length0 == nproc + 1 && Ranked(s)
      reads this`work, work, centerTable
    {
      forall i :: 0 <= i < n && s.Open(i) && Thread(Own(i)) !in todo ==> work[nproc, Rank(s, i)] == s.Low(z, x, i)
    }

    method CloseTurn(p: nat, x: int, z: real, opening: real, ghost s: Solution, ghost todo: set<Thread>)
      requires Valid() && Holds(s) && s.Consistent(s.Centers(0, n)) && p < nproc && 0 <= x < n && Lowered(x, s)
      requires opening == SwitchIn(s, x, First(p), First(p + 1)) && Totals(x, z, s, todo) && LowsDone(x, z, s, todo)
      modifies work
      ensures Lowered(x, s) && Totals(x, z, s, todo - {Thread(p)}) && LowsDone(x, z, s, todo - {Thread(p)})
    {
      CloseCosts(p, x, z, opening, s);
    }

    method CloseAll(x: int, z: real, ghost s: Solution, openings: array<real>)
      requires Valid() && Holds(s) && s.Consistent(s.Centers(0, n)) && 0 <= x < n && Lowered(x, s)
      requires openings.Length == nproc && forall p :: 0 <= p < nproc ==>
                 openings[p] == SwitchIn(s, x, First(p), First(p + 1))
      modifies work
      ensures Lowered(x, s) && Totals(x, z, s, {})
      ensures forall i :: 0 <= i < n && s.Open(i) ==> work[nproc, Rank(s, i)] == s.Low(z, x, i)
    {
      AllOwned();
      var todo := Threads(nproc);
      while todo != {}
        invariant todo <= Threads(nproc) && Lowered(x, s) && Totals(x, z, s, todo)
        invariant LowsDone(x, z, s, todo)
      {
        var t :| t in todo;
        CloseTurn(t.pid, x, z, openings[t.pid], s, todo);
        todo := todo - {t};
      }
    }

    lemma TotalsSplit(s: Solution, z: real, x: int, mid: int, hi: int)
      requires 0 <= mid <= hi
      ensures ClosedIn(s, z, x, 0, hi) == ClosedIn(s, z, x, 0, mid) + ClosedIn(s, z, x, mid, hi)
      ensures SwitchIn(s, x, 0, hi) == SwitchIn(s, x, 0, mid) + SwitchIn(s, x, mid, hi)
      ensures CloseIn(s, z, x, 0, hi) == CloseIn(s, z, x, 0, mid) + CloseIn(s, z, x, mid, hi)
    {
      CountSplit(j => s.Closes(z, x, j), 0, mid, hi);
      SumSplit(i => s.SwitchGain(x, i), 0, mid, hi);
      SumSplit(j => s.CloseGain(z, x, j), 0, mid, hi);
    }

    /** The first thread adds up the totals. */
    method Aggregate(x: int, z: real, ghost s: Solution) returns (number: nat, opening: real)
      requires Valid() && |s.cost| == n && s.Shape() && work.Length0 == nproc + 1 && work.Length1 >= 2
               && Totals(x, z, s, {})
      ensures number == s.Closed(z, x) && opening == s.OpeningCost(z, x)
    {
      number, opening := 0, z;
      LoBounds(n, nproc, 0);
      for p := 0 to nproc
        invariant number == ClosedIn(s, z, x, 0, First(p))
        invariant opening == z + SwitchIn(s, x, 0, First(p)) - CloseIn(s, z, x, 0, First(p))
      {
        LoBounds(n, nproc, p);
        TotalsSplit(s, z, x, First(p), First(p + 1));
        assert work[p, work.Length1 - 2] == RowClosed(p, x, z, s) && work[p, work.Length1 - 1] == RowGain(p, x, z, s);
        number := number + work[p, work.Length1 - 2].Floor;
        opening := opening + work[p, work.Length1 - 1];
      }
      OpeningCostIs(s, z, x);
    }

    // ---- Opening the center ----

    /** The cells of the open centers hold what closing them would save. */
    ghost predicate Decided(x: int, z: real, s: Solution)
      requires Valid() && |s.center| == n
      reads this`work, work, centerTable, switchMembership
    {
      && work.Length0 == nproc + 1 && Ranked(s) && Marked(x, s)
      && (forall i :: 0 <= i < n && s.Open(i) ==> work[nproc, Rank(s, i)] == s.Low(z, x, i))
    }

    /** One point moves if it switches or its center closes. */
    method MovePoint(i: int, x: int, z: real, ghost s: Solution)
      requires Valid() && s.Shape() && s.coord == coord && s.weight == weight
      requires 0 <= i < n && 0 <= x < n && cost[i] == s.cost[i] && assign[i] == s.assign[i] && s.Open(s.assign[i])
      requires work.Length0 == nproc + 1 && Ranked(s) && switchMembership[i] == s.Switches(x, i)
      requires work[nproc, Rank(s, s.assign[i])] == s.Low(z, x, s.assign[i])
      modifies cost, assign
      ensures cost[i] == s.NewCost(z, x, i) && assign[i] == s.NewAssign(z, x, i)
      ensures forall j :: 0 <= j < n && j != i ==> cost[j] == old(cost[j]) && assign[j] == old(assign[j])
    {
      assert s.Current(i) == s.cost[i] && s.AssignedTo(i) == s.assign[i];
      var closeCenter := work[nproc, centerTable[assign[i]]] > 0.0;
      assert closeCenter == s.Closes(z, x, s.assign[i]);
      if switchMembership[i] || closeCenter {
        cost[i] := FeeTo(i, x);
        assign[i] := x;
      }
    }

    /** A thread moves its points that switch or whose center closes. */
    method MovePoints(p: nat, x: int, z: real, ghost s: Solution)
      requires Valid() && s.Consistent(s.Centers(0, n)) && s.coord == coord && s.weight == weight
      requires p < nproc && 0 <= x < n && Decided(x, z, s)
      requires forall i :: 0 <= i < n && Own(i) == p ==> cost[i] == s.cost[i] && assign[i] == s.assign[i]
      modifies cost, assign
      ensures forall i :: 0 <= i < n && Own(i) == p ==>
                cost[i] == s.NewCost(z, x, i) && assign[i] == s.NewAssign(z, x, i)
      ensures forall i :: 0 <= i < n && Own(i) != p ==> cost[i] == old(cost[i]) && assign[i] == old(assign[i])
    {
      LoBounds(n, nproc, p);
      OwnBlock(p);
      var k1, k2 := First(p), First(p + 1);
      for i := k1 to k2
        modifies cost, assign
        invariant forall j :: k1 <= j < i ==> cost[j] == s.NewCost(z, x, j) && assign[j] == s.NewAssign(z, x, j)
        invariant forall j :: 0 <= j < n && !(k1 <= j < i) ==> cost[j] == old(cost[j]) && assign[j] == old(assign[j])
      {
        MovePoint(i, x, z, s);
      }
    }

    /** A thread closes its centers that save by it, and opens `x` if that is its point. */
    method MoveCenters(p: nat, x: int, z: real, ghost s: Solution)
      requires Valid() && |s.center| == n && p < nproc && 0 <= x < n && Decided(x, z, s)
      requires forall i :: 0 <= i < n && Own(i) == p ==> isCenter[i] == s.center[i]
      modifies isCenter
      ensures forall i :: 0 <= i < n && Own(i) == p ==> isCenter[i] == s.NewCenter(z, x, i)
      ensures forall i :: 0 <= i < n && Own(i) != p ==> isCenter[i] == old(isCenter[i])
    {
      LoBounds(n, nproc, p);
      OwnBlock(p);
      var k1, k2 := First(p), First(p + 1);
      for i := k1 to k2
        modifies isCenter
        invariant forall j :: k1 <= j < i ==> isCenter[j] == (s.Open(j) && !s.Closes(z, x, j))
        invariant forall j :: 0 <= j < n && !(k1 <= j < i) ==> isCenter[j] == old(isCenter[j])
      {
        assert isCenter[i] == s.Open(i);
        if isCenter[i] && work[nproc, centerTable[i]] > 0.0 {
          isCenter[i] := false;
        }
      }
      if k1 <= x < k2 {
        isCenter[x] := true;
      }
    }

    method OpenAll(x: int, z: real, ghost s: Solution)
      requires Valid() && Holds(s) && s.Consistent(s.Centers(0, n)) && 0 <= x < n && Decided(x, z, s)
      modifies cost, assign, isCenter
      ensures Holds(s.After(z, x))
    {
      AllOwned();
      var todo := Threads(nproc);
      while todo != {}
        invariant todo <= Threads(nproc)
        invariant forall i :: 0 <= i < n && Thread(Own(i)) in todo ==>
                    cost[i] == s.cost[i] && assign[i] == s.assign[i] && isCenter[i] == s.center[i]
        invariant forall i :: 0 <= i < n && Thread(Own(i)) !in todo ==>
                    cost[i] == s.NewCost(z, x, i) && assign[i] == s.NewAssign(z, x, i)
                    && isCenter[i] == s.NewCenter(z, x, i)
      {
        var t :| t in todo;
        MovePoints(t.pid, x, z, s);
        MoveCenters(t.pid, x, z, s);
        todo := todo - {t};
      }
    }

    lemma HoldsView(s: Solution)
      requires Valid()
      ensures Holds(s) <==> View() == s
    {
    }

    /** For every number of threads and every order in which they take their turns: `pgain` performs
        the opening of `x` exactly when it makes the total cost smaller, and returns by how much.  No way
        to open `x`, whatever other centers are closed and whatever points are moved, costs less. */
    method Gain(x: int, z: real) returns (gain: real)
      requires Valid() && View().Consistent(numcenters) && z > 0.0 && 0 <= x < n
      modifies this`work, this`numcenters, cost, assign, isCenter, centerTable, switchMembership
      ensures View().Consistent(numcenters)
      ensures gain >= 0.0 && View().Total(z, numcenters) == old(View().Total(z, numcenters)) - gain
      ensures OpenedOrKept(old(View()), old(numcenters), View(), numcenters, z, x)
      ensures NoOpening(old(View()), View().Total(z, numcenters), z, x)
      ensures (View(), numcenters) == Outcome(old(View()), z, x, old(numcenters))
    {
      ghost var s, k := View(), numcenters;
      gain := OpenIfCheaper(x, z, s);
      OutcomeBest(s, z, x, k, View(), numcenters);
    }

    method OpenIfCheaper(x: int, z: real, ghost s: Solution) returns (gain: real)
      requires Valid() && s == View() && s.Consistent(numcenters) && z > 0.0 && 0 <= x < n
      modifies this`work, this`numcenters, cost, assign, isCenter, centerTable, switchMembership
      ensures gain >= 0.0 && View().Total(z, numcenters) == s.Total(z, old(numcenters)) - gain
      ensures (View(), numcenters) == Outcome(s, z, x, old(numcenters))
    {
      ghost var k := numcenters;
      var number, opening := TryOpening(x, z, s);
      OutcomeExact(s, z, x, k);
      if opening < 0.0 {
        OpenCenter(x, z, number, s);
        gain := -opening;
      } else {
        HoldsView(s);
        gain := 0.0;
      }
      ghost var (r, k2) := Outcome(s, z, x, k);
      assert View() == r && numcenters == k2;
    }

    method OpenCenter(x: int, z: real, number: nat, ghost s: Solution)
      requires Valid() && Holds(s) && s.Consistent(s.Centers(0, n)) && 0 <= x < n && Decided(x, z, s)
      modifies this`numcenters, cost, assign, isCenter
      ensures View() == s.After(z, x) && numcenters == old(numcenters) + 1 - number
    {
      OpenAll(x, z, s);
      HoldsView(s.After(z, x));
      numcenters := numcenters + 1 - number;
    }

    /** What opening `x` would cost, and how many centers would close. */
    method TryOpening(x: int, z: real, ghost s: Solution) returns (number: nat, opening: real)
      requires Valid() && Holds(s) && s.Consistent(s.Centers(0, n)) && 0 <= x < n && numcenters == s.Centers(0, n)
      modifies this`work, centerTable, switchMembership
      ensures Decided(x, z, s) && number == s.Closed(z, x) && opening == s.OpeningCost(z, x)
    {
      var stride := Stride(numcenters);
      work := new real[nproc + 1, stride];
      var openings := new real[nproc];
      BuildTable(s);
      LowerAll(x, s, openings);
      CloseAll(x, z, s, openings);
      number, opening := Aggregate(x, z, s);
    }
  }
}
