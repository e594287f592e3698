/** The in-place transitive reduction of the trace graph (task.py). */
module Reduction {
  import opened Graphs

  function Targets<N(==)>(e: Edges<N>, n: N): set<N> {
    set p | p in e && p.0 == n :: p.1
  }

  /** The edges from `n` that lead to `m` or to a node behind `m`. */
  ghost function Shortcuts<N(!new)>(e: Edges<N>, n: N, m: N): Edges<N> {
    set p | p in e && p.0 == n && ReachOrSame(e, m, p.1)
  }

  /** The edges with no third node between their ends. */
  ghost function Reduced<N(!new)>(e: Edges<N>): Edges<N> {
    set p | p in e && Direct(e, p.0, p.1)
  }

  function Spokes<N(==)>(n: N, ms: set<N>): Edges<N> {
    set m | m in ms :: (n, m)
  }

  ghost predicate OnlyIndirect<N(!new)>(e: Edges<N>, gone: Edges<N>) {
    forall p :: p in gone ==> p in e && !Direct(e, p.0, p.1)
  }

  lemma SameIndirect<N(!new)>(e: Edges<N>, f: Edges<N>, a: N, b: N)
    requires SameReach(e, f)
    ensures Direct(e, a, b) <==> Direct(f, a, b)
  {
    if !Direct(e, a, b) {
      var c :| Reach(e, a, c) && Reach(e, c, b);
      assert Reach(f, a, c) && Reach(f, c, b);
    }
    if !Direct(f, a, b) {
      var c :| Reach(f, a, c) && Reach(f, c, b);
      assert Reach(e, a, c) && Reach(e, c, b);
    }
  }

  /** Indirect edges can all be taken out. */
  lemma {:induction false} RemoveAllIndirect<N(!new)>(e: Edges<N>, gone: Edges<N>)
    requires Acyclic(e) && OnlyIndirect(e, gone)
    ensures SameReach(e, e - gone) && Acyclic(e - gone)
    decreases |gone|
  {
    if gone != {} {
      var p :| p in gone;
      var rest := gone - {p};
      RemoveAllIndirect(e, rest);
      var f := e - rest;
      SameIndirect(e, f, p.0, p.1);
      var c :| Reach(f, p.0, c) && Reach(f, c, p.1);
      RemoveIndirect(f, p.0, p.1, c);
      assert e - gone == f - {p};
      assert f - {p} == f - {(p.0, p.1)};
    } else {
      assert e - gone == e;
    }
  }

  /** A set with the start that every edge keeps inside holds whatever can be reached. */
  lemma {:induction false} ClosedHolds<N(!new)>(e: Edges<N>, s: set<N>, x: N, y: N, n: nat)
    requires x in s && Walk(e, x, y, n) && forall p :: p in e && p.0 in s ==> p.1 in s
    ensures y in s
  {
    if n > 0 {
      var z :| (x, z) in e && Walk(e, z, y, n - 1);
      assert (x, z).0 in s;
      ClosedHolds(e, s, z, y, n - 1);
    }
  }

  /** `b` is still to be tried as a child of `a`. */
  ghost predicate Pending<N(!new)>(stack: seq<(N, set<N>)>, a: N, b: N) {
    exists i :: 0 <= i < |stack| && stack[i].0 == a && b in stack[i].1
  }

  lemma PendingPop<N(!new)>(stack: seq<(N, set<N>)>)
    requires stack != [] && stack[|stack| - 1].1 == {}
    ensures forall a, b :: Pending(stack, a, b) ==> Pending(stack[..|stack| - 1], a, b)
  {
    var after := stack[..|stack| - 1];
    forall a, b | Pending(stack, a, b)
      ensures Pending(after, a, b)
    {
      var i :| 0 <= i < |stack| && stack[i].0 == a && b in stack[i].1;
      assert after[i] == stack[i];
    }
  }

  lemma PendingTry<N(!new)>(stack: seq<(N, set<N>)>, w: N)
    requires stack != []
    ensures var top := |stack| - 1;
            forall a, b :: Pending(stack, a, b) && b != w ==>
              Pending(stack[top := (stack[top].0, stack[top].1 - {w})], a, b)
  {
    var top := |stack| - 1;
    var after := stack[top := (stack[top].0, stack[top].1 - {w})];
    forall a, b | Pending(stack, a, b) && b != w
      ensures Pending(after, a, b)
    {
      var i :| 0 <= i < |stack| && stack[i].0 == a && b in stack[i].1;
      assert after[i].0 == a && b in after[i].1;
    }
  }

  lemma PendingPush<N(!new)>(stack: seq<(N, set<N>)>, w: N, kids: set<N>)
    ensures forall a, b :: Pending(stack, a, b) ==> Pending(stack + [(w, kids)], a, b)
    ensures forall b :: b in kids ==> Pending(stack + [(w, kids)], w, b)
  {
    var after := stack + [(w, kids)];
    forall a, b | Pending(stack, a, b)
      ensures Pending(after, a, b)
    {
      var i :| 0 <= i < |stack| && stack[i].0 == a && b in stack[i].1;
      assert after[i] == stack[i];
    }
    assert after[|stack|] == (w, kids);
  }

  /** A depth-first search from `m` in progress. */
  ghost predicate Search<N(!new)>(e: Edges<N>, m: N, visited: set<N>, stack: seq<(N, set<N>)>) {
    && m in visited
    && (forall v :: v in visited ==> ReachOrSame(e, m, v))
    && (forall i :: 0 <= i < |stack| ==> stack[i].0 in visited && stack[i].1 <= Targets(e, stack[i].0))
    && (forall p :: p in e && p.0 in visited ==> p.1 in visited || Pending(stack, p.0, p.1))
  }

  lemma SearchStart<N(!new)>(e: Edges<N>, m: N)
    ensures Search(e, m, {m}, [(m, Targets(e, m))])
  {
    PendingPush([], m, Targets(e, m));
    assert [] + [(m, Targets(e, m))] == [(m, Targets(e, m))];
  }

  lemma SearchPop<N(!new)>(e: Edges<N>, m: N, visited: set<N>, stack: seq<(N, set<N>)>)
    requires Search(e, m, visited, stack) && stack != [] && stack[|stack| - 1].1 == {}
    ensures Search(e, m, visited, stack[..|stack| - 1])
  {
    PendingPop(stack);
  }

  /** The child `w` of the node on top has been visited before. */
  lemma SearchTry<N(!new)>(e: Edges<N>, m: N, visited: set<N>, stack: seq<(N, set<N>)>, w: N)
    requires Search(e, m, visited, stack) && stack != [] && w in stack[|stack| - 1].1 && w in visited
    ensures var top := |stack| - 1;
            Search(e, m, visited, stack[top := (stack[top].0, stack[top].1 - {w})])
  {
    PendingTry(stack, w);
  }

  /** The child `w` of the node on top is new. */
  lemma SearchPush<N(!new)>(e: Edges<N>, m: N, visited: set<N>, stack: seq<(N, set<N>)>, w: N)
    requires Search(e, m, visited, stack) && stack != [] && w in stack[|stack| - 1].1
    ensures var top := |stack| - 1;
            Search(e, m, visited + {w}, stack[top := (stack[top].0, stack[top].1 - {w})] + [(w, Targets(e, w))])
  {
    var top := |stack| - 1;
    var (v, rest) := stack[top];
    assert (v, w) in e;
    EdgeReaches(e, v, w);
    ReachJoin(e, m, v, w);
    PendingTry(stack, w);
    PendingPush(stack[top := (v, rest - {w})], w, Targets(e, w));
  }

  lemma SearchDone<N(!new)>(e: Edges<N>, m: N, visited: set<N>, v: N)
    requires Search(e, m, visited, [])
    ensures v in visited <==> ReachOrSame(e, m, v)
  {
    if v != m && Reach(e, m, v) {
      var k: nat :| k > 0 && Walk(e, m, v, k);
      ClosedHolds(e, visited, m, v, k);
    }
  }

  /** The children the node on top still has to offer. */
  function Rest<N>(stack: seq<(N, set<N>)>): nat {
    if stack == [] then 0 else |stack[|stack| - 1].1|
  }

  lemma ShortcutsFound<N(!new)>(e: Edges<N>, n: N, m: N, visited: set<N>)
    requires Search(e, m, visited, [])
    ensures e - Spokes(n, visited) == e - Shortcuts(e, n, m)
  {
    forall p | p in e && p.0 == n
      ensures p in Spokes(n, visited) <==> p in Shortcuts(e, n, m)
    {
      assert p == (n, p.1);
      SearchDone(e, m, visited, p.1);
    }
  }

  lemma VisitOne<N(!new)>(e: Edges<N>, n: N, visited: set<N>, w: N)
    requires n != w
    ensures e - Spokes(n, visited) - {(n, w)} == e - Spokes(n, visited + {w})
    ensures Targets(e - Spokes(n, visited + {w}), w) == Targets(e, w)
  {
    forall x | x in Targets(e, w)
      ensures x in Targets(e - Spokes(n, visited + {w}), w)
    {
      assert (w, x) in e - Spokes(n, visited + {w});
    }
  }

  /** `e` is `from` with some indirect edges of `n` taken out. */
  ghost predicate Trimmed<N(!new)>(from: Edges<N>, e: Edges<N>, n: N) {
    && e <= from
    && SameReach(from, e)
    && Acyclic(e)
    && forall p :: p in from && p !in e ==> p.0 == n && !Direct(from, p.0, p.1)
  }

  lemma TrimMore<N(!new)>(from: Edges<N>, e: Edges<N>, n: N, v: N, m: N)
    requires Trimmed(from, e, n) && Reach(from, n, v) && Reach(from, v, m)
    ensures !ReachOrSame(e, m, n)
    ensures Trimmed(from, e - Shortcuts(e, n, m), n)
  {
    assert Reach(e, n, v) && Reach(e, v, m);
    ReachJoin(e, n, v, m);
    if ReachOrSame(e, m, n) {
      ReachJoin(e, n, m, n);
      assert false;
    }
    var gone := Shortcuts(e, n, m);
    forall p | p in gone
      ensures !Direct(e, p.0, p.1) && !Direct(from, p.0, p.1)
    {
      ReachJoin(e, v, m, p.1);
      SameIndirect(from, e, p.0, p.1);
    }
    RemoveAllIndirect(e, gone);
  }

  class DiGraph<N(==, !new)> {
    var nodes: set<N>
    var edges: Edges<N>

    ghost predicate Valid()
      reads this
    {
      forall p :: p in edges ==> p.0 in nodes && p.1 in nodes
    }

    constructor (ns: set<N>, es: Edges<N>)
      ensures nodes == ns && edges == es
    {
      nodes, edges := ns, es;
    }

    method RemoveEdge(a: N, b: N)
      requires (a, b) in edges
      modifies this`edges
      ensures edges == old(edges) - {(a, b)}
    {
      edges := edges - {(a, b)};
    }

    /** Visits `w` and tells where to go on from there. */
    method Visit(n: N, w: N, ghost e: Edges<N>, ghost visited: set<N>) returns (kids: set<N>)
      requires n != w && edges == e - Spokes(n, visited)
      modifies this`edges
      ensures edges == e - Spokes(n, visited + {w}) && kids == Targets(e, w)
    {
      VisitOne(e, n, visited, w);
      if (n, w) in edges {
        RemoveEdge(n, w);
      }
      kids := Targets(edges, w);
    }

    /** One step of the search: back from a node without children left, or on to a child. */
    method SearchOn(n: N, m: N, ghost e: Edges<N>, visited: set<N>, stack: seq<(N, set<N>)>)
      returns (visited2: set<N>, stack2: seq<(N, set<N>)>)
      requires stack != [] && Search(e, m, visited, stack) && !ReachOrSame(e, m, n)
      requires visited <= nodes && edges == e - Spokes(n, visited) && forall p :: p in e ==> p.1 in nodes
      modifies this`edges
      ensures visited2 <= nodes && edges == e - Spokes(n, visited2) && Search(e, m, visited2, stack2)
      ensures if visited2 == visited then |stack2| < |stack| || (|stack2| == |stack| && Rest(stack2) < Rest(stack))
              else |nodes - visited2| < |nodes - visited|
    {
      var top := |stack| - 1;
      var (v, rest) := stack[top];
      visited2 := visited;
      if rest == {} {
        SearchPop(e, m, visited, stack);
        stack2 := stack[..top];
      } else {
        var w :| w in rest;
        assert (v, w) in e;
        if w in visited {
          SearchTry(e, m, visited, stack, w);
          stack2 := stack[top := (v, rest - {w})];
        } else {
          SearchPush(e, m, visited, stack, w);
          assert nodes - (visited + {w}) == nodes - visited - {w};
          var kids := Visit(n, w, e, visited);
          visited2 := visited + {w};
          stack2 := stack[top := (v, rest - {w})] + [(w, kids)];
        }
      }
    }

    /** Some way of visiting depth first, from `m`, every node that can be reached; the edge from `n`
        to each visited node is removed on the way, while the graph is being walked. */
    method RemoveShortcuts(n: N, m: N)
      requires Valid() && m in nodes && !ReachOrSame(edges, m, n)
      modifies this`edges
      ensures Valid() && edges == old(edges) - Shortcuts(old(edges), n, m)
    {
      ghost var e := edges;
      var kids := Visit(n, m, e, {});
      var visited := {m};
      var stack := [(m, kids)];
      SearchStart(e, m);
      while stack != []
        invariant visited <= nodes && edges == e - Spokes(n, visited)
        invariant Search(e, m, visited, stack)
        decreases |nodes - visited|, |stack|, Rest(stack)
      {
        visited, stack := SearchOn(n, m, e, visited, stack);
      }
      ShortcutsFound(e, n, m, visited);
    }

    /** The inner loops for one successor `v` of `n`, over the successors `v` has by then. */
    method TrimVia(n: N, v: N, ghost from: Edges<N>)
      requires Valid() && Trimmed(from, edges, n) && Reach(from, n, v)
      modifies this`edges
      ensures Valid() && Trimmed(from, edges, n) && edges <= old(edges)
      ensures forall b :: (n, b) in edges ==> !Reach(from, v, b)
    {
      var next := Targets(edges, v);
      ghost var start := edges;
      var todo := next;
      while todo != {}
        invariant Valid() && Trimmed(from, edges, n) && edges <= start && todo <= next
        invariant forall m, b :: m in next && m !in todo && (n, b) in edges ==> !ReachOrSame(from, m, b)
      {
        var m :| m in todo;
        ghost var e := edges;
        assert (v, m) in start;
        EdgeReaches(start, v, m);
        TrimMore(from, e, n, v, m);
        RemoveShortcuts(n, m);
        todo := todo - {m};
        forall b | (n, b) in edges
          ensures !ReachOrSame(from, m, b)
        {
          assert (n, b) !in Shortcuts(e, n, m);
          assert (n, b).0 == n;
        }
      }
      forall b | (n, b) in edges
        ensures !Reach(from, v, b)
      {
        if Reach(from, v, b) {
          var m := FirstEdge(start, v, b);
          assert m in next;
          assert ReachOrSame(from, m, b);
        }
      }
    }

    /** The turn of node `n`: it keeps exactly its direct edges. */
    method TrimNode(n: N)
      requires Valid() && Acyclic(edges) && n in nodes
      modifies this`edges
      ensures Valid() && Trimmed(old(edges), edges, n)
      ensures forall b :: (n, b) in edges ==> Direct(old(edges), n, b)
    {
      ghost var from := edges;
      assert (n, n) !in edges by {
        if (n, n) in edges {
          EdgeReaches(edges, n, n);
        }
      }
      edges := edges - {(n, n)};
      assert edges == from;
      var next := Targets(edges, n);
      var todo := next;
      while todo != {}
        invariant Valid() && Trimmed(from, edges, n) && todo <= next
        invariant forall v, b :: v in next && v !in todo && (n, b) in edges ==> !Reach(from, v, b)
      {
        var v :| v in todo;
        assert (n, v) in from;
        EdgeReaches(from, n, v);
        TrimVia(n, v, from);
        todo := todo - {v};
      }
      forall b | (n, b) in edges
        ensures Direct(from, n, b)
      {
        if !Direct(from, n, b) {
          var c :| Reach(from, n, c) && Reach(from, c, b);
          var v := FirstEdge(from, n, c);
          assert v in next;
          ReachJoin(from, v, c, b);
        }
      }
    }

    /** For every acyclic graph and every order of visiting, what is left is exactly the edges with
        no node in between, and the same nodes can be reached from each node. */
    method TransitiveReduction()
      requires Valid() && Acyclic(edges)
      modifies this`edges
      ensures Valid() && edges == Reduced(old(edges)) && SameReach(old(edges), edges)
    {
      ghost var from := edges;
      var todo := nodes;
      while todo != {}
        invariant Valid() && Acyclic(edges) && todo <= nodes
        invariant edges <= from && SameReach(from, edges)
        invariant forall p :: p in from && p !in edges ==> !Direct(from, p.0, p.1)
        invariant forall p :: p in edges && p.0 !in todo ==> Direct(from, p.0, p.1)
      {
        var n :| n in todo;
        ghost var before := edges;
        TrimNode(n);
        todo := todo - {n};
        forall a, b
          ensures Direct(from, a, b) <==> Direct(before, a, b)
        {
          SameIndirect(from, before, a, b);
        }
      }
    }
  }
}
