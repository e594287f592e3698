/** Directed graphs as sets of edges, and reachability in them. */
module Graphs {
  type Edges<!N(==)> = set<(N, N)>

  /** A walk of `n` edges from `x` to `y`. */
  ghost predicate Walk<N(!new)>(e: Edges<N>, x: N, y: N, n: nat) {
    if n == 0 then x == y
    else exists z :: (x, z) in e && Walk(e, z, y, n - 1)
  }

  /** `y` comes after `x`: there is a walk of at least one edge. */
  ghost predicate Reach<N(!new)>(e: Edges<N>, x: N, y: N) {
    exists n: nat :: n > 0 && Walk(e, x, y, n)
  }

  ghost predicate ReachOrSame<N(!new)>(e: Edges<N>, x: N, y: N) {
    x == y || Reach(e, x, y)
  }

  ghost predicate Acyclic<N(!new)>(e: Edges<N>) {
    forall x :: !Reach(e, x, x)
  }

  ghost predicate SameReach<N(!new)>(e: Edges<N>, f: Edges<N>) {
    forall x, y :: Reach(e, x, y) <==> Reach(f, x, y)
  }

  /** No third node lies between the two ends of the edge. */
  ghost predicate Direct<N(!new)>(e: Edges<N>, a: N, b: N) {
    forall c :: !(Reach(e, a, c) && Reach(e, c, b))
  }

  lemma {:induction false} WalkJoin<N(!new)>(e: Edges<N>, x: N, y: N, z: N, m: nat, n: nat)
    requires Walk(e, x, y, m) && Walk(e, y, z, n)
    ensures Walk(e, x, z, m + n)
  {
    if m > 0 {
      var w :| (x, w) in e && Walk(e, w, y, m - 1);
      WalkJoin(e, w, y, z, m - 1, n);
    }
  }

  lemma ReachJoin<N(!new)>(e: Edges<N>, x: N, y: N, z: N)
    requires ReachOrSame(e, x, y) && ReachOrSame(e, y, z)
    ensures ReachOrSame(e, x, z) && (Reach(e, x, y) || Reach(e, y, z) ==> Reach(e, x, z))
  {
    if x != y && y != z {
      var m: nat :| m > 0 && Walk(e, x, y, m);
      var n: nat :| n > 0 && Walk(e, y, z, n);
      WalkJoin(e, x, y, z, m, n);
    } else if Reach(e, x, y) && Reach(e, y, z) {
      var m: nat :| m > 0 && Walk(e, x, y, m);
      var n: nat :| n > 0 && Walk(e, y, z, n);
      WalkJoin(e, x, y, z, m, n);
    }
  }

  lemma EdgeReaches<N(!new)>(e: Edges<N>, x: N, y: N)
    requires (x, y) in e
    ensures Reach(e, x, y)
  {
    assert Walk(e, y, y, 0);
    assert Walk(e, x, y, 1);
  }

  lemma WalkReaches<N(!new)>(e: Edges<N>, x: N, y: N, n: nat)
    requires Walk(e, x, y, n)
    ensures ReachOrSame(e, x, y) && (n > 0 ==> Reach(e, x, y))
  {
  }

  /** The first edge of a way from `x` to `y`. */
  lemma FirstEdge<N(!new)>(e: Edges<N>, x: N, y: N) returns (z: N)
    requires Reach(e, x, y)
    ensures (x, z) in e && ReachOrSame(e, z, y)
  {
    var n: nat :| n > 0 && Walk(e, x, y, n);
    z :| (x, z) in e && Walk(e, z, y, n - 1);
    WalkReaches(e, z, y, n - 1);
  }

  lemma NoEdgeNoReach<N(!new)>(e: Edges<N>, x: N, y: N)
    requires forall z :: (x, z) !in e
    ensures !Reach(e, x, y)
  {
  }

  lemma {:induction false} WalkGrows<N(!new)>(e: Edges<N>, f: Edges<N>, x: N, y: N, n: nat)
    requires e <= f && Walk(e, x, y, n)
    ensures Walk(f, x, y, n)
  {
    if n > 0 {
      var z :| (x, z) in e && Walk(e, z, y, n - 1);
      WalkGrows(e, f, z, y, n - 1);
    }
  }

  lemma ReachGrows<N(!new)>(e: Edges<N>, f: Edges<N>, x: N, y: N)
    requires e <= f && Reach(e, x, y)
    ensures Reach(f, x, y)
  {
    var n: nat :| n > 0 && Walk(e, x, y, n);
    WalkGrows(e, f, x, y, n);
  }

  // ---- Removing an edge that has a way round it ----

  /** A walk does without the edge (a, b), or it leads to `a` and goes on from `b`. */
  lemma {:induction false} WalkAvoids<N(!new)>(e: Edges<N>, a: N, b: N, x: N, y: N, n: nat)
    requires Walk(e, x, y, n)
    ensures (if n == 0 then x == y else Reach(e - {(a, b)}, x, y)) || (ReachOrSame(e, x, a) && ReachOrSame(e, b, y))
  {
    if n > 0 {
      var f := e - {(a, b)};
      var z :| (x, z) in e && Walk(e, z, y, n - 1);
      EdgeReaches(e, x, z);
      WalkReaches(e, z, y, n - 1);
      WalkAvoids(e, a, b, z, y, n - 1);
      if (x, z) != (a, b) {
        if ReachOrSame(e, z, a) && ReachOrSame(e, b, y) {
          ReachJoin(e, x, z, a);
        } else {
          EdgeReaches(f, x, z);
          ReachJoin(f, x, z, y);
        }
      }
    }
  }

  lemma ReachAvoids<N(!new)>(e: Edges<N>, a: N, b: N, x: N, y: N)
    requires Reach(e, x, y)
    ensures Reach(e - {(a, b)}, x, y) || (ReachOrSame(e, x, a) && ReachOrSame(e, b, y))
  {
    var n: nat :| n > 0 && Walk(e, x, y, n);
    WalkAvoids(e, a, b, x, y, n);
  }

  lemma {:induction false} WalkDetours<N(!new)>(e: Edges<N>, a: N, b: N, x: N, y: N, n: nat)
    requires Walk(e, x, y, n) && Reach(e - {(a, b)}, a, b)
    ensures if n == 0 then x == y else Reach(e - {(a, b)}, x, y)
  {
    if n > 0 {
      var f := e - {(a, b)};
      var z :| (x, z) in e && Walk(e, z, y, n - 1);
      WalkDetours(e, a, b, z, y, n - 1);
      if (x, z) != (a, b) {
        EdgeReaches(f, x, z);
      }
      ReachJoin(f, x, z, y);
    }
  }

  /** Removing an edge with a node in between changes nothing that can be reached. */
  lemma RemoveIndirect<N(!new)>(e: Edges<N>, a: N, b: N, c: N)
    requires Acyclic(e) && Reach(e, a, c) && Reach(e, c, b)
    ensures SameReach(e, e - {(a, b)})
  {
    var f := e - {(a, b)};
    ReachAvoids(e, a, b, a, c);
    ReachAvoids(e, a, b, c, b);
    if !Reach(f, a, c) {
      ReachJoin(e, b, c, b);
      ReachJoin(e, c, b, c);
      assert false;
    }
    if !Reach(f, c, b) {
      ReachJoin(e, a, c, a);
      assert false;
    }
    ReachJoin(f, a, c, b);
    forall x, y
      ensures Reach(e, x, y) <==> Reach(f, x, y)
    {
      if Reach(e, x, y) {
        var n: nat :| n > 0 && Walk(e, x, y, n);
        WalkDetours(e, a, b, x, y, n);
      }
      if Reach(f, x, y) {
        ReachGrows(f, e, x, y);
      }
    }
  }

  // ---- Adding a node that nothing leaves ----

  /** The edges from each of `preds` to the new node `v`. */
  function Into<N(==)>(preds: set<N>, v: N): Edges<N> {
    set p | p in preds :: (p, v)
  }

  ghost predicate Unknown<N(!new)>(e: Edges<N>, v: N) {
    forall x, y :: (x, y) in e ==> x != v && y != v
  }

  lemma {:induction false} WalkExtended<N(!new)>(e: Edges<N>, preds: set<N>, v: N, x: N, y: N, n: nat)
    requires Unknown(e, v) && v !in preds && Walk(e + Into(preds, v), x, y, n) && n > 0
    ensures x != v
    ensures y != v ==> Reach(e, x, y)
    ensures y == v ==> exists p :: p in preds && ReachOrSame(e, x, p)
  {
    var f := e + Into(preds, v);
    var z :| (x, z) in f && Walk(f, z, y, n - 1);
    if n == 1 {
      if y != v {
        EdgeReaches(e, x, y);
      }
    } else {
      WalkExtended(e, preds, v, z, y, n - 1);
      EdgeReaches(e, x, z);
      if y != v {
        ReachJoin(e, x, z, y);
      } else {
        var p :| p in preds && ReachOrSame(e, z, p);
        ReachJoin(e, x, z, p);
      }
    }
  }

  /** What can be reached once `v` has been added behind `preds`. */
  lemma ReachExtended<N(!new)>(e: Edges<N>, preds: set<N>, v: N, x: N, y: N)
    requires Unknown(e, v) && v !in preds
    ensures Reach(e + Into(preds, v), x, y) <==>
            if y == v then exists p :: p in preds && ReachOrSame(e, x, p) else Reach(e, x, y)
  {
    var f := e + Into(preds, v);
    if Reach(f, x, y) {
      var n: nat :| n > 0 && Walk(f, x, y, n);
      WalkExtended(e, preds, v, x, y, n);
    }
    if y == v && exists p :: p in preds && ReachOrSame(e, x, p) {
      var p :| p in preds && ReachOrSame(e, x, p);
      assert (p, v) in Into(preds, v);
      EdgeReaches(f, p, v);
      if x != p {
        ReachGrows(e, f, x, p);
      }
      ReachJoin(f, x, p, v);
    }
    if Reach(e, x, y) {
      ReachGrows(e, f, x, y);
      if y == v {
        var n: nat :| n > 0 && Walk(e, x, y, n);
        NobodyReaches(e, v, x, n);
      }
    }
  }

  lemma {:induction false} NobodyReaches<N(!new)>(e: Edges<N>, v: N, x: N, n: nat)
    requires Unknown(e, v) && n > 0
    ensures !Walk(e, x, v, n)
  {
    if Walk(e, x, v, n) {
      var z :| (x, z) in e && Walk(e, z, v, n - 1);
      if n > 1 {
        NobodyReaches(e, v, z, n - 1);
      }
    }
  }
}
