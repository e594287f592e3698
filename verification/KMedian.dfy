/** The local search as a whole: a first solution, rounds of openings, and the search for the
    facility cost that gives the wanted number of centers. */
module KMedian {
  import opened Sums
  import opened Blocks
  import opened FacilityCost
  import opened CenterTable
  import opened LocalSearch

  ghost predicate Weighted(weight: seq<real>) {
    forall i :: 0 <= i < |weight| ==> weight[i] >= 0.0
  }

  lemma CostNonNegative(s: Solution, i: int, j: int)
    requires Weighted(s.weight)
    ensures s.CostTo(i, j) >= 0.0
  {
    if 0 <= i < |s.coord| && 0 <= i < |s.weight| && 0 <= j < |s.coord| {
      Product(s.weight[i], Dist(s.coord[i], s.coord[j]));
    }
  }

  lemma Product(a: real, b: real)
    requires a >= 0.0 && b >= 0.0
    ensures a * b >= 0.0
  {
  }

  /** At least one center is open, so that a solution costs at least `z`. */
  lemma CostsAtLeastOne(s: Solution, z: real, k: int)
    requires s.Consistent(k) && Weighted(s.weight) && z > 0.0 && s.assign != []
    ensures k >= 1 && s.Total(z, k) >= z
  {
    RankBelow(s, s.assign[0]);
    forall i | 0 <= i < |s.cost|
      ensures s.Current(i) >= 0.0
    {
      assert s.cost[i] == s.CostTo(i, s.assign[i]);
      CostNonNegative(s, i, s.assign[i]);
    }
    SumNonNegative(i => s.Current(i), 0, |s.cost|);
    AtLeastOne(z, k);
  }

  lemma AtLeastOne(z: real, k: int)
    requires z > 0.0 && k >= 1
    ensures z * k as real >= z
  {
    Product(z, (k - 1) as real);
    assert z * k as real == z * (k - 1) as real + z;
  }

  /** Another facility cost changes the total by that much for each center. */
  lemma OtherFee(s: Solution, z: real, z2: real, k: int)
    ensures s.Total(z2, k) == s.Total(z, k) + (z2 - z) * k as real
  {
  }

  function Steps(cost: real, unit: real): int
    requires unit > 0.0
  {
    (cost / unit).Floor
  }

  lemma StepsDrop(cost: real, next: real, unit: real)
    requires unit > 0.0 && next <= cost
    ensures Steps(next, unit) <= Steps(cost, unit)
    ensures cost - next > unit ==> Steps(next, unit) < Steps(cost, unit)
  {
    var d := cost - next;
    assert cost / unit == next / unit + d / unit;
    Quotient(d, unit);
  }

  lemma Quotient(d: real, unit: real)
    requires unit > 0.0 && d >= 0.0
    ensures d / unit >= 0.0
    ensures d > unit ==> d / unit >= 1.0
  {
    var q := d / unit;
    assert q * unit == d;
    if q < 0.0 {
      Product(-q, unit);
    }
    assert (1.0 - q) * unit == unit - d;
    if d > unit && q < 1.0 {
      Product(1.0 - q, unit);
    }
  }

  lemma StepsNonNegative(cost: real, unit: real)
    requires unit > 0.0 && cost >= 0.0
    ensures Steps(cost, unit) >= 0
  {
    Quotient(cost, unit);
  }

  // ---- Rounds of openings ----

  ghost predicate Feasible(order: seq<int>, n: int) {
    order != [] && forall x :: x in order ==> 0 <= x < n
  }

  /** A solution and its number of centers. */
  datatype Held = Held(s: Solution, k: int) {
    function Cost(z: real): real {
      s.Total(z, k)
    }

    ghost predicate Fits(n: int) {
      s.Consistent(k) && |s.center| == n
    }

    function Tried(z: real, x: int): Held {
      var (r, k2) := Outcome(s, z, x, k);
      Held(r, k2)
    }
  }

  /** A try leaves what there was, or something cheaper. */
  lemma TriedFalls(h: Held, z: real, x: int, n: int)
    requires h.Fits(n) && z > 0.0 && 0 <= x < n
    ensures var r := h.Tried(z, x); r.Fits(n) && (r == h || r.Cost(z) < h.Cost(z)) && NoOpening(h.s, r.Cost(z), z, x)
  {
    var r := h.Tried(z, x);
    OutcomeBest(h.s, z, x, h.k, r.s, r.k);
  }

  /** The point of try `i`: from the start again after the last one. */
  function Point(order: seq<int>, i: nat): (x: int)
    requires order != []
    ensures x in order
  {
    order[i % |order|]
  }

  lemma FirstPass(order: seq<int>, i: nat)
    requires i < |order|
    ensures Point(order, i) == order[i]
  {
  }

  /** A round: what is held before each try and after the last one, and the order of the points. */
  datatype Round = Round(run: seq<Held>, order: seq<int>) {
    ghost predicate Step(z: real, i: nat)
      requires i + 1 < |run|
    {
      order != [] && run[i + 1] == run[i].Tried(z, Point(order, i))
    }

    ghost predicate Runs(z: real, iter: nat, n: int) {
      && |run| == iter + 1 && run[0].Fits(n) && Feasible(order, n)
      && forall i :: 0 <= i < iter ==> Step(z, i)
    }
  }

  lemma {:induction false} RoundFalls(round: Round, z: real, iter: nat, n: int, i: nat, j: nat)
    requires round.Runs(z, iter, n) && z > 0.0 && i <= j <= iter && round.run[i].Fits(n)
    ensures round.run[j].Fits(n) && (round.run[j] == round.run[i] || round.run[j].Cost(z) < round.run[i].Cost(z))
    decreases j - i
  {
    if i < j {
      RoundFalls(round, z, iter, n, i, j - 1);
      assert round.Step(z, j - 1);
      TriedFalls(round.run[j - 1], z, Point(round.order, j - 1), n);
    }
  }

  /** When a round over all feasible points has gained nothing, no opening of any of them gains anything. */
  lemma LocallyOptimal(round: Round, z: real, iter: nat, n: int, i: nat)
    requires round.Runs(z, iter, n) && z > 0.0 && i < |round.order| <= iter
    requires round.run[iter].Cost(z) == round.run[0].Cost(z)
    ensures round.run[iter] == round.run[0]
    ensures NoOpening(round.run[iter].s, round.run[iter].Cost(z), z, round.order[i])
  {
    RoundFalls(round, z, iter, n, 0, iter);
    Still(round, z, iter, n, i);
    Still(round, z, iter, n, i + 1);
    OwnTry(round, z, iter, n, i);
    TriedFalls(round.run[0], z, round.order[i], n);
  }

  lemma OwnTry(round: Round, z: real, iter: nat, n: int, i: nat)
    requires round.Runs(z, iter, n) && i < |round.order| <= iter
    ensures round.run[i + 1] == round.run[i].Tried(z, round.order[i]) && 0 <= round.order[i] < n
  {
    assert round.Step(z, i);
    FirstPass(round.order, i);
  }

  lemma Still(round: Round, z: real, iter: nat, n: int, i: nat)
    requires round.Runs(z, iter, n) && z > 0.0 && i <= iter && round.run[iter] == round.run[0]
    ensures round.run[i] == round.run[0]
  {
    RoundFalls(round, z, iter, n, 0, i);
    RoundFalls(round, z, iter, n, i, iter);
  }

  /** The round goes over the feasible points in some order and ends with `out`. */
  ghost predicate Ends(round: Round, feasible: seq<int>, z: real, iter: nat, out: Held) {
    && multiset(round.order) == multiset(feasible)
    && round.Runs(z, iter, |out.s.center|) && out == round.run[iter]
  }

  /** It has gained no more than the part `e` of what `out` costs. */
  ghost predicate Settles(round: Round, feasible: seq<int>, z: real, iter: nat, e: real, out: Held) {
    Ends(round, feasible, z, iter, out) && round.run[0].Cost(z) - out.Cost(z) <= e * out.Cost(z)
  }

  lemma FeasibleIn(order: seq<int>, feasible: seq<int>, n: int)
    requires Feasible(feasible, n) && multiset(order) == multiset(feasible) && |order| == |feasible|
    ensures Feasible(order, n)
  {
    forall x | x in order
      ensures x in feasible
    {
      assert x in multiset(order);
    }
  }

  ghost function Holding(ls: LocalSearch): Held
    reads ls, ls.cost, ls.assign, ls.isCenter
  {
    Held(ls.View(), ls.numcenters)
  }

  /** One opening is tried. */
  method TryOne(ls: LocalSearch, x: int, z: real) returns (gain: real)
    requires ls.Valid() && Holding(ls).Fits(ls.n) && z > 0.0 && 0 <= x < ls.n
    modifies ls`work, ls`numcenters, ls.cost, ls.assign, ls.isCenter, ls.centerTable, ls.switchMembership
    ensures Holding(ls).Fits(ls.n) && gain >= 0.0 && Holding(ls).Cost(z) == old(Holding(ls).Cost(z)) - gain
    ensures Holding(ls) == old(Holding(ls)).Tried(z, x)
  {
    gain := ls.Gain(x, z);
  }

  /** One round: each of `iter` tries in turn. */
  method TryAll(ls: LocalSearch, order: seq<int>, z: real, iter: nat) returns (change: real, ghost round: Round)
    requires ls.Valid() && Holding(ls).Fits(ls.n) && z > 0.0 && Feasible(order, ls.n)
    modifies ls`work, ls`numcenters, ls.cost, ls.assign, ls.isCenter, ls.centerTable, ls.switchMembership
    ensures Holding(ls).Fits(ls.n) && change >= 0.0 && Holding(ls).Cost(z) == old(Holding(ls).Cost(z)) - change
    ensures round.Runs(z, iter, ls.n) && round.order == order
    ensures round.run[0] == old(Holding(ls)) && round.run[iter] == Holding(ls)
  {
    change := 0.0;
    round := Round([Holding(ls)], order);
    for i := 0 to iter
      invariant Holding(ls).Fits(ls.n) && change >= 0.0 && Holding(ls).Cost(z) == old(Holding(ls).Cost(z)) - change
      invariant round.Runs(z, i, ls.n) && round.order == order
      invariant round.run[0] == old(Holding(ls)) && round.run[i] == Holding(ls)
    {
      var gain := TryOne(ls, Point(order, i), z);
      change := change + gain;
      RunsMore(round, z, i, ls.n);
      round := Round(round.run + [Holding(ls)], order);
    }
  }

  lemma RunsMore(round: Round, z: real, iter: nat, n: int)
    requires round.Runs(z, iter, n)
    ensures Round(round.run + [round.run[iter].Tried(z, Point(round.order, iter))], round.order).Runs(z, iter + 1, n)
  {
    var after := Round(round.run + [round.run[iter].Tried(z, Point(round.order, iter))], round.order);
    forall i | 0 <= i < iter + 1
      ensures after.Step(z, i)
    {
      assert i < iter ==> round.Step(z, i);
    }
  }

  /** Rounds of openings, until a round gains no more than the part `e` of the cost (pFL): the cost
      is at every round the cost of the solution that is held, and the rounds come to an end with one
      that gains so little; there is none when `e` is 1 or more.  The orders are the shuffles of the
      feasible points. */
  method FacilityLocation(ls: LocalSearch, feasible: seq<int>, z: real, cost0: real, iter: nat, e: real)
    returns (cost: real, ghost last: Round)
    requires ls.Valid() && Holding(ls).Fits(ls.n) && Weighted(ls.weight)
    requires z > 0.0 && e > 0.0 && Feasible(feasible, ls.n) && cost0 == Holding(ls).Cost(z)
    modifies ls`work, ls`numcenters, ls.cost, ls.assign, ls.isCenter, ls.centerTable, ls.switchMembership
    ensures Holding(ls).Fits(ls.n) && 0.0 < cost == Holding(ls).Cost(z) <= cost0
    ensures if e < 1.0 then Settles(last, feasible, z, iter, e, Holding(ls)) && last.run[0].Cost(z) <= cost0
            else Holding(ls) == old(Holding(ls))
  {
    cost := cost0;
    var change, order := cost, feasible;
    last := Round([Holding(ls)], order);
    ghost var started, unit := false, e * z;
    Product(e, z);
    HeldAtLeast(Holding(ls), z);
    StepsNonNegative(cost, unit);
    while change / cost > e
      invariant Holding(ls).Fits(ls.n) && cost == Holding(ls).Cost(z) && 0.0 < z <= cost <= cost0
      invariant multiset(order) == multiset(feasible) && |order| == |feasible|
      invariant if started then e < 1.0 && cost + change <= cost0
                                && Starts(last, feasible, z, iter, Holding(ls), cost + change)
                else change == cost && Holding(ls) == old(Holding(ls))
      invariant Steps(cost, unit) >= 0
      decreases Steps(cost, unit) + if change / cost > e then 1 else 0
    {
      Entered(change, cost, e);
      order, cost, change, last := NextRound(ls, order, feasible, z, cost, iter, e);
      started := true;
    }
    Entered(change, cost, e);
    if started {
      Concluded(last, feasible, z, iter, e, Holding(ls), cost, change);
    }
  }

  ghost predicate Starts(round: Round, feasible: seq<int>, z: real, iter: nat, out: Held, cost: real) {
    Ends(round, feasible, z, iter, out) && round.run[0].Cost(z) == cost
  }

  lemma Concluded(round: Round, feasible: seq<int>, z: real, iter: nat, e: real, out: Held, cost: real, change: real)
    requires Starts(round, feasible, z, iter, out, cost + change) && out.Cost(z) == cost && change <= e * cost
    ensures Settles(round, feasible, z, iter, e, out) && round.run[0].Cost(z) == cost + change
  {
  }

  method NextRound(ls: LocalSearch, order0: seq<int>, feasible: seq<int>, z: real, cost0: real, iter: nat,
                   ghost e: real)
    returns (order: seq<int>, cost: real, change: real, ghost last: Round)
    requires ls.Valid() && Holding(ls).Fits(ls.n) && Weighted(ls.weight)
    requires z > 0.0 && cost0 == Holding(ls).Cost(z) && e > 0.0 && e * z > 0.0
    requires Feasible(feasible, ls.n) && multiset(order0) == multiset(feasible) && |order0| == |feasible|
    modifies ls`work, ls`numcenters, ls.cost, ls.assign, ls.isCenter, ls.centerTable, ls.switchMembership
    ensures Holding(ls).Fits(ls.n) && z <= cost == Holding(ls).Cost(z) && 0.0 <= change == cost0 - cost
    ensures Starts(last, feasible, z, iter, Holding(ls), cost0)
    ensures multiset(order) == multiset(feasible) && |order| == |feasible|
    ensures 0 <= Steps(cost, e * z) <= Steps(cost0, e * z)
    ensures change / cost > e ==> Steps(cost, e * z) < Steps(cost0, e * z)
  {
    order := Shuffle(order0);
    FeasibleIn(order, feasible, ls.n);
    change, last := TryAll(ls, order, z, iter);
    cost := cost0 - change;
    HeldAtLeast(Holding(ls), z);
    RoundsEnd(cost0, cost, change, e, z);
  }

  lemma HeldAtLeast(h: Held, z: real)
    requires h.s.Consistent(h.k) && h.s.center != [] && Weighted(h.s.weight) && z > 0.0
    ensures h.Cost(z) >= z
  {
    CostsAtLeastOne(h.s, z, h.k);
  }

  /** The test of the loop, without the quotient. */
  lemma Entered(change: real, cost: real, e: real)
    requires cost > 0.0
    ensures change / cost > e <==> change > e * cost
    ensures change / cost > e && change == cost ==> e < 1.0
    ensures change / cost <= e && change == cost ==> e >= 1.0
  {
    var q := change / cost;
    assert change == q * cost;
    if q > e {
      Strictly(q, e, cost);
    } else {
      Product(e - q, cost);
    }
    if change == cost {
      assert q == 1.0;
    }
  }

  lemma RoundsEnd(before: real, cost: real, change: real, e: real, z: real)
    requires cost == before - change && change >= 0.0 && cost >= z > 0.0 && e > 0.0 && e * z > 0.0
    ensures 0 <= Steps(cost, e * z) <= Steps(before, e * z)
    ensures change / cost > e ==> Steps(cost, e * z) < Steps(before, e * z)
  {
    StepsNonNegative(cost, e * z);
    if change / cost > e {
      var q := change / cost;
      assert change == q * cost;
      Product(q - e, cost);
      Product(e, cost - z);
      Strictly(q, e, cost);
    }
    StepsDrop(before, cost, e * z);
  }

  lemma Strictly(q: real, e: real, cost: real)
    requires q > e && cost > 0.0
    ensures q * cost > e * cost
  {
  }

  /** Any order of the feasible points. */
  method Shuffle(s: seq<int>) returns (r: seq<int>)
    ensures multiset(r) == multiset(s) && |r| == |s|
  {
    r := s;
    for i := 0 to |s|
      invariant multiset(r) == multiset(s) && |r| == |s|
    {
      var j :| i <= j < |s|;
      r := r[i := r[j]][j := r[i]];
    }
  }

  // ---- The search for the facility cost ----

  /** A facility cost that was tried, and the number of centers it gave. */
  datatype Try = Try(fee: real, k: int)

  /** The limits on the number of centers, and the facility cost to begin below. */
  datatype Wanted = Wanted(kmin: int, kmax: int, top: real) {
    predicate InRange(k: int) {
      kmin <= k <= kmax
    }

    /** Close enough for a second, more accurate search. */
    predicate Near(k: int) {
      (10 * k <= 11 * kmax && 10 * k >= 9 * kmin) || (k <= kmax + 2 && k >= kmin - 2)
    }

    /** The facility cost to be tried next: halfway, then up by half the last step when there were too many
        centers, and down by it when there were too few. */
    function FeeAfter(tried: seq<Try>): real {
      if tried == [] then top / 2.0
      else
        var t, step := tried[|tried| - 1], Halved(top, |tried| + 1);
        if t.k > kmax then t.fee + step else if t.k < kmin then t.fee - step else t.fee
    }

    ghost predicate Bisects(tried: seq<Try>) {
      forall i :: 0 <= i < |tried| ==> Follows(tried, i)
    }

    predicate Follows(tried: seq<Try>, i: nat)
      requires i < |tried|
    {
      tried[i].fee == FeeAfter(tried[..i]) && (i > 0 ==> !InRange(tried[i - 1].k))
    }

    /** `loz` is the largest facility cost that gave too many centers, `hiz` the least that gave too few. */
    ghost predicate Between(tried: seq<Try>, loz: real, hiz: real) {
      && (forall t :: t in tried ==> (t.k > kmax ==> t.fee <= loz) && (t.k < kmin ==> t.fee >= hiz))
      && (loz == 0.0 || exists t :: t in tried && t.k > kmax && t.fee == loz)
      && (hiz == top || exists t :: t in tried && t.k < kmin && t.fee == hiz)
    }
  }

  function Halved(x: real, n: nat): (r: real)
    ensures x > 0.0 ==> 0.0 < r <= x
  {
    if n == 0 then x else Halved(x, n - 1) / 2.0
  }

  /** A facility cost that gave too many centers is never gone below again, and one that gave too few is
      never reached again. */
  lemma NeverBack(w: Wanted, tried: seq<Try>, i: nat, j: nat)
    requires w.kmin <= w.kmax && w.top > 0.0 && w.Bisects(tried) && i < j < |tried|
    ensures tried[i].k > w.kmax ==> tried[j].fee > tried[i].fee
    ensures tried[i].k < w.kmin ==> tried[j].fee < tried[i].fee
  {
    assert tried[..i + 1][i] == tried[i];
    assert w.Follows(tried, i + 1);
    StaysNear(w, tried, i + 1, j);
  }

  lemma {:induction false} StaysNear(w: Wanted, tried: seq<Try>, i: nat, j: nat)
    requires w.kmin <= w.kmax && w.top > 0.0 && w.Bisects(tried) && i <= j < |tried|
    ensures var d, most := tried[j].fee - tried[i].fee, Halved(w.top, i + 1) - Halved(w.top, j + 1);
            -most <= d <= most
  {
    if i < j {
      StaysNear(w, tried, i, j - 1);
      assert tried[..j][j - 1] == tried[j - 1];
      assert w.Follows(tried, j);
    }
  }

  /** What the search has come to: what was tried, the interval that is left, and the next facility cost. */
  ghost predicate Searched(w: Wanted, tried: seq<Try>, loz: real, hiz: real, z: real) {
    && w.Bisects(tried) && w.Between(tried, loz, hiz) && z == w.FeeAfter(tried)
    && hiz - loz == Halved(w.top, if tried != [] && w.InRange(tried[|tried| - 1].k) then |tried| - 1 else |tried|)
  }

  ghost predicate Halving(w: Wanted, tried: seq<Try>, loz: real, hiz: real, z: real) {
    Searched(w, tried, loz, hiz, z) && z == (hiz + loz) / 2.0 && (tried != [] ==> !w.InRange(tried[|tried| - 1].k))
  }

  lemma TriedMore(w: Wanted, tried: seq<Try>, loz: real, hiz: real, z: real, k: int)
    requires Halving(w, tried, loz, hiz, z) && w.kmin <= w.kmax && w.top > 0.0
    ensures var after := tried + [Try(z, k)];
            if k > w.kmax then Halving(w, after, z, hiz, (hiz + z) / 2.0)
            else if k < w.kmin then Halving(w, after, loz, z, (z + loz) / 2.0)
            else Searched(w, after, loz, hiz, z)
  {
    var after, t := tried + [Try(z, k)], Try(z, k);
    BisectsMore(w, tried, t);
    BetweenMore(w, tried, loz, hiz, t);
    assert after[|tried|] == t;
    assert Halved(w.top, |tried| + 2) == Halved(w.top, |tried| + 1) / 2.0 == Halved(w.top, |tried|) / 4.0;
  }

  lemma BisectsMore(w: Wanted, tried: seq<Try>, t: Try)
    requires w.Bisects(tried) && t.fee == w.FeeAfter(tried)
    requires tried != [] ==> !w.InRange(tried[|tried| - 1].k)
    ensures w.Bisects(tried + [t])
  {
    var after := tried + [t];
    forall i | 0 <= i < |after|
      ensures w.Follows(after, i)
    {
      if i < |tried| {
        assert w.Follows(tried, i) && after[i] == tried[i] && after[..i] == tried[..i];
      } else {
        assert after[..i] == tried;
      }
    }
  }

  lemma BetweenMore(w: Wanted, tried: seq<Try>, loz: real, hiz: real, t: Try)
    requires w.Between(tried, loz, hiz) && loz <= t.fee <= hiz && w.kmin <= w.kmax
    ensures w.Between(tried + [t], if t.k > w.kmax then t.fee else loz, if t.k < w.kmin then t.fee else hiz)
  {
    assert t in tried + [t] && forall u :: u in tried + [t] <==> u in tried || u == t;
  }

  /** One try: a rough search, and a more accurate one when the number of centers seems right. */
  method Attempt(ls: LocalSearch, feasible: seq<int>, w: Wanted, z: real, cost0: real, iter: nat)
    returns (cost: real, ghost last: Round)
    requires ls.Valid() && Holding(ls).Fits(ls.n) && Weighted(ls.weight)
    requires z > 0.0 && Feasible(feasible, ls.n) && cost0 == Holding(ls).Cost(z)
    modifies ls`work, ls`numcenters, ls.cost, ls.assign, ls.isCenter, ls.centerTable, ls.switchMembership
    ensures Holding(ls).Fits(ls.n) && cost == Holding(ls).Cost(z) <= cost0
    ensures Settles(last, feasible, z, iter, if w.InRange(ls.numcenters) then 0.001 else 0.1, Holding(ls))
  {
    cost, last := FacilityLocation(ls, feasible, z, cost0, iter, 0.1);
    if w.Near(ls.numcenters) {
      cost, last := FacilityLocation(ls, feasible, z, cost, iter, 0.001);
      SettlesMore(last, feasible, z, iter, Holding(ls));
    }
  }

  lemma SettlesMore(round: Round, feasible: seq<int>, z: real, iter: nat, out: Held)
    requires Settles(round, feasible, z, iter, 0.001, out) && out.Cost(z) >= 0.0
    ensures Settles(round, feasible, z, iter, 0.1, out)
  {
  }

  /** What the search ends with: it is done exactly when the number of centers is in range or the interval is
      narrow, and the solution is one that the last round of openings did not make much cheaper. */
  ghost predicate SearchEnds(w: Wanted, feasible: seq<int>, iter: nat, tried: seq<Try>, last: Round, done: bool,
                             loz: real, hiz: real, z: real, out: Held)
  {
    && (tried == [] ==> z == w.top / 2.0)
    && (tried != [] ==> Tried(w, out.k, tried, done, loz, hiz) && Settled(w, last, feasible, tried, iter, out))
    && (w.kmin <= w.kmax ==> Searched(w, tried, loz, hiz, z))
  }

  /** The search for a facility cost (the main loop of pkmedian), for any number of rounds: the cost it
      carries along is always the cost of the solution that is held.  It goes on until the number of
      centers is in range or the interval that is left is narrow; the interval is halved at each try. */
  method SearchFee(ls: LocalSearch, feasible: seq<int>, kmin: int, kmax: int, hiz0: real, cost0: real, iter: nat,
                   rounds: nat)
    returns (cost: real, z: real, done: bool, loz: real, hiz: real, ghost tried: seq<Try>, ghost last: Round)
    requires ls.Valid() && Holding(ls).Fits(ls.n) && Weighted(ls.weight)
    requires hiz0 > 0.0 && Feasible(feasible, ls.n) && cost0 == Holding(ls).Cost(hiz0 / 2.0)
    modifies ls`work, ls`numcenters, ls.cost, ls.assign, ls.isCenter, ls.centerTable, ls.switchMembership
    ensures Holding(ls).Fits(ls.n) && z > 0.0 && cost == Holding(ls).Cost(z)
    ensures |tried| <= rounds && (!done ==> |tried| == rounds)
    ensures SearchEnds(Wanted(kmin, kmax, hiz0), feasible, iter, tried, last, done, loz, hiz, z, Holding(ls))
  {
    var w := Wanted(kmin, kmax, hiz0);
    loz, hiz, z := 0.0, hiz0, hiz0 / 2.0;
    cost := cost0;
    done, tried := false, [];
    last := Round([Holding(ls)], feasible);
    for r := 0 to rounds
      invariant Holding(ls).Fits(ls.n) && 0.0 <= loz && 0.0 < hiz && 0.0 < z && cost == Holding(ls).Cost(z)
      invariant !done && |tried| == r && (tried == [] ==> z == hiz0 / 2.0)
      invariant tried != [] ==> Tried(w, ls.numcenters, tried, done, loz, hiz)
                                && Settled(w, last, feasible, tried, iter, Holding(ls))
      invariant kmin <= kmax ==> Halving(w, tried, loz, hiz, z)
    {
      ghost var fee := z;
      cost, last := Attempt(ls, feasible, w, z, cost, iter);
      var k := ls.numcenters;
      if kmin <= kmax {
        TriedMore(w, tried, loz, hiz, z, k);
      }
      loz, hiz, z, cost := Narrow(w, loz, hiz, z, cost, k, Holding(ls));
      tried := tried + [Try(fee, k)];
      if (k <= kmax && k >= kmin) || loz >= 0.999 * hiz {
        done := true;
        break;
      }
    }
  }

  ghost predicate Tried(w: Wanted, k: int, tried: seq<Try>, done: bool, loz: real, hiz: real)
    requires tried != []
  {
    tried[|tried| - 1].k == k && (done <==> w.InRange(k) || loz >= 0.999 * hiz)
  }

  /** The last round gained little under the facility cost tried last. */
  ghost predicate Settled(w: Wanted, last: Round, feasible: seq<int>, tried: seq<Try>, iter: nat, out: Held)
    requires tried != []
  {
    Settles(last, feasible, tried[|tried| - 1].fee, iter, if w.InRange(out.k) then 0.001 else 0.1, out)
  }

  /** Too many centers: facilities are too cheap; too few: too expensive.  The cost follows. */
  method Narrow(w: Wanted, loz0: real, hiz0: real, z0: real, cost0: real, k: int, ghost h: Held)
    returns (loz: real, hiz: real, z: real, cost: real)
    requires 0.0 <= loz0 && 0.0 < hiz0 && 0.0 < z0 && cost0 == h.Cost(z0) && k == h.k
    ensures 0.0 <= loz && 0.0 < hiz && 0.0 < z && cost == h.Cost(z)
    ensures w.kmin <= w.kmax ==>
              if k > w.kmax then (loz, hiz, z) == (z0, hiz0, (hiz0 + z0) / 2.0)
              else if k < w.kmin then (loz, hiz, z) == (loz0, z0, (z0 + loz0) / 2.0)
              else (loz, hiz, z) == (loz0, hiz0, z0)
  {
    loz, hiz, z, cost := loz0, hiz0, z0, cost0;
    if k > w.kmax {
      loz := z;
      z := (hiz + loz) / 2.0;
      OtherFee(h.s, loz, z, k);
      cost := cost + (z - loz) * k as real;
    }
    if k < w.kmin {
      hiz := z;
      z := (hiz + loz) / 2.0;
      OtherFee(h.s, hiz, z, k);
      cost := cost + (z - hiz) * k as real;
    }
  }
}
