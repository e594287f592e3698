/** The task graph: every thunk becomes three tasks (task.py). */
module TaskDag {
  import opened Graphs
  import opened Reduction

  /** Fetching the pages of a thunk, running it, and committing its writes. */
  datatype Task<N> = Comm(thunk: N) | Run(thunk: N) | Commit(thunk: N)

  function Stage<N>(t: Task<N>): nat {
    match t case Comm(_) => 0 case Run(_) => 1 case Commit(_) => 2
  }

  /** The tasks of one thunk, and the edges from and to the tasks of its neighbours. */
  function Around<N(==)>(e: Edges<N>, n: N): Edges<Task<N>> {
    {(Comm(n), Run(n)), (Run(n), Commit(n))}
    + (set p | p in e && p.1 == n :: (Run(p.0), Comm(n)))
    + (set p | p in e && p.0 == n :: (Commit(n), Comm(p.1)))
  }

  predicate TaskEdge<N(==)>(nodes: set<N>, e: Edges<N>, a: Task<N>, b: Task<N>) {
    if a.thunk == b.thunk && Stage(b) == Stage(a) + 1 then a.thunk in nodes
    else !a.Comm? && b.Comm? && (a.thunk, b.thunk) in e
  }

  /** Builds the task graph. */
  method Expand<N(==, !new)>(g: DiGraph<N>) returns (dag: DiGraph<Task<N>>)
    requires g.Valid()
    ensures fresh(dag) && dag.Valid()
    ensures forall t :: t in dag.nodes <==> t.thunk in g.nodes
    ensures forall a, b :: (a, b) in dag.edges <==> TaskEdge(g.nodes, g.edges, a, b)
  {
    dag := new DiGraph({}, {});
    var todo := g.nodes;
    while todo != {}
      invariant todo <= g.nodes && fresh(dag)
      invariant forall t :: t in dag.nodes <==> t.thunk in g.nodes - todo
      invariant forall p :: p in dag.edges <==> exists n :: n in g.nodes - todo && p in Around(g.edges, n)
    {
      var n :| n in todo;
      dag.nodes := dag.nodes + {Comm(n), Run(n), Commit(n)};
      dag.edges := dag.edges + Around(g.edges, n);
      todo := todo - {n};
    }
    forall a, b
      ensures (a, b) in dag.edges <==> TaskEdge(g.nodes, g.edges, a, b)
    {
      AroundEdge(g.nodes, g.edges, a, b);
    }
  }

  lemma AroundEdge<N(!new)>(nodes: set<N>, e: Edges<N>, a: Task<N>, b: Task<N>)
    requires forall p :: p in e ==> p.0 in nodes && p.1 in nodes
    ensures (exists n :: n in nodes && (a, b) in Around(e, n)) <==> TaskEdge(nodes, e, a, b)
  {
    if TaskEdge(nodes, e, a, b) {
      if a.thunk == b.thunk && Stage(b) == Stage(a) + 1 {
        assert (a, b) in Around(e, a.thunk);
      } else {
        var p := (a.thunk, b.thunk);
        assert p in e && p.0 in nodes;
        assert (a, b) in Around(e, if a.Run? then b.thunk else a.thunk);
      }
    }
  }

  /** The task graph of a graph. */
  ghost predicate TaskGraph<N(!new)>(nodes: set<N>, e: Edges<N>, te: Edges<Task<N>>) {
    forall a, b :: (a, b) in te <==> TaskEdge(nodes, e, a, b)
  }

  /** What happens after what, among tasks. */
  ghost predicate TaskAfter<N(!new)>(nodes: set<N>, e: Edges<N>, a: Task<N>, b: Task<N>) {
    (a.thunk == b.thunk && a.thunk in nodes && Stage(a) < Stage(b)) || Reach(e, a.thunk, b.thunk)
  }

  lemma {:induction false} TaskWalk<N(!new)>(nodes: set<N>, e: Edges<N>, te: Edges<Task<N>>, a: Task<N>, b: Task<N>,
                                             n: nat)
    requires TaskGraph(nodes, e, te) && n > 0 && Walk(te, a, b, n)
    ensures TaskAfter(nodes, e, a, b)
    decreases n
  {
    var c :| (a, c) in te && Walk(te, c, b, n - 1);
    assert TaskEdge(nodes, e, a, c);
    if a.thunk != c.thunk || Stage(c) != Stage(a) + 1 {
      EdgeReaches(e, a.thunk, c.thunk);
    }
    if n > 1 {
      TaskWalk(nodes, e, te, c, b, n - 1);
      if Reach(e, a.thunk, c.thunk) && Reach(e, c.thunk, b.thunk) {
        ReachJoin(e, a.thunk, c.thunk, b.thunk);
      }
    }
  }

  /** Within one thunk the stages follow each other. */
  lemma Stages<N(!new)>(nodes: set<N>, e: Edges<N>, te: Edges<Task<N>>, n: N)
    requires TaskGraph(nodes, e, te) && n in nodes
    ensures Reach(te, Comm(n), Run(n)) && Reach(te, Run(n), Commit(n)) && Reach(te, Comm(n), Commit(n))
  {
    assert TaskEdge(nodes, e, Comm(n), Run(n)) && TaskEdge(nodes, e, Run(n), Commit(n));
    EdgeReaches(te, Comm(n), Run(n));
    EdgeReaches(te, Run(n), Commit(n));
    ReachJoin(te, Comm(n), Run(n), Commit(n));
  }

  /** From every task of a thunk to every task of a later one. */
  lemma {:induction false} Onward<N(!new)>(nodes: set<N>, e: Edges<N>, te: Edges<Task<N>>, a: Task<N>, b: Task<N>,
                                           n: nat)
    requires TaskGraph(nodes, e, te) && (forall p :: p in e ==> p.0 in nodes && p.1 in nodes)
    requires n > 0 && Walk(e, a.thunk, b.thunk, n)
    ensures Reach(te, a, b)
    decreases n
  {
    var z :| (a.thunk, z) in e && Walk(e, z, b.thunk, n - 1);
    assert (a.thunk, z).0 in nodes && (a.thunk, z).1 in nodes;
    Stages(nodes, e, te, a.thunk);
    Stages(nodes, e, te, z);
    var from := if a.Comm? then Run(a.thunk) else a;
    assert !(from.thunk == z && Stage<N>(Comm(z)) == Stage(from) + 1);
    assert TaskEdge(nodes, e, from, Comm(z));
    EdgeReaches(te, from, Comm(z));
    ReachJoin(te, a, from, Comm(z));
    if n == 1 {
      ReachJoin(te, a, Comm(z), b);
    } else {
      Onward(nodes, e, te, Comm(z), b, n - 1);
      ReachJoin(te, a, Comm(z), b);
    }
  }

  /** A task comes after another exactly when its thunk does, or it is a later stage of the same
      thunk. */
  lemma TaskOrder<N(!new)>(nodes: set<N>, e: Edges<N>, te: Edges<Task<N>>, a: Task<N>, b: Task<N>)
    requires TaskGraph(nodes, e, te) && (forall p :: p in e ==> p.0 in nodes && p.1 in nodes)
    ensures Reach(te, a, b) <==> TaskAfter(nodes, e, a, b)
  {
    if Reach(te, a, b) {
      var n: nat :| n > 0 && Walk(te, a, b, n);
      TaskWalk(nodes, e, te, a, b, n);
    }
    if Reach(e, a.thunk, b.thunk) {
      var n: nat :| n > 0 && Walk(e, a.thunk, b.thunk, n);
      Onward(nodes, e, te, a, b, n);
    } else if TaskAfter(nodes, e, a, b) {
      Stages(nodes, e, te, a.thunk);
    }
  }

  /** The task graph of an acyclic graph is acyclic, and a fetch has one successor: its thunk. */
  lemma TaskGraphSound<N(!new)>(nodes: set<N>, e: Edges<N>, te: Edges<Task<N>>)
    requires TaskGraph(nodes, e, te) && (forall p :: p in e ==> p.0 in nodes && p.1 in nodes)
    ensures Acyclic(te) <==> Acyclic(e)
    ensures forall n, t :: (Comm(n), t) in te <==> n in nodes && t == Run(n)
  {
    forall t
      ensures Reach(te, t, t) <==> Reach(e, t.thunk, t.thunk)
    {
      TaskOrder(nodes, e, te, t, t);
    }
    if !Acyclic(e) {
      var x :| Reach(e, x, x);
      assert Reach(e, Run(x).thunk, Run(x).thunk);
    }
    forall n, t
      ensures (Comm(n), t) in te <==> n in nodes && t == Run(n)
    {
      assert (Comm(n), t) in te <==> TaskEdge(nodes, e, Comm(n), t);
    }
  }

  /** The trace graph is reduced and then expanded: a thunk's task comes after another's exactly when
      the thunk came after the other in the trace, and nothing is cyclic. */
  method Build<N(==, !new)>(g: DiGraph<N>) returns (dag: DiGraph<Task<N>>)
    requires g.Valid() && Acyclic(g.edges)
    modifies g`edges
    ensures g.Valid() && g.edges == Reduced(old(g.edges))
    ensures fresh(dag) && dag.Valid() && Acyclic(dag.edges)
    ensures forall t :: t in dag.nodes <==> t.thunk in g.nodes
    ensures forall n, t :: (Comm(n), t) in dag.edges <==> n in g.nodes && t == Run(n)
    ensures forall a, b :: Reach(dag.edges, a, b) <==> TaskAfter(g.nodes, old(g.edges), a, b)
    ensures forall a, b :: Reach(dag.edges, Run(a), Run(b)) <==> Reach(old(g.edges), a, b)
  {
    ghost var from := g.edges;
    g.TransitiveReduction();
    dag := Expand(g);
    assert TaskGraph(g.nodes, g.edges, dag.edges);
    assert forall p :: p in g.edges ==> p.0 in g.nodes && p.1 in g.nodes;
    TaskGraphSound(g.nodes, g.edges, dag.edges);
    forall a, b
      ensures Reach(dag.edges, a, b) <==> TaskAfter(g.nodes, from, a, b)
    {
      TaskOrder(g.nodes, g.edges, dag.edges, a, b);
    }
    forall a, b
      ensures Reach(dag.edges, Run(a), Run(b)) <==> Reach(from, a, b)
    {
      assert Reach(dag.edges, Run(a), Run(b)) <==> TaskAfter(g.nodes, from, Run(a), Run(b));
    }
  }
}
