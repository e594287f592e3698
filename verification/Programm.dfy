/** The object that reads a trace event by event, and the task graph made from it (programm.py). */
module Programm {
  import opened Graphs
  import opened Reduction
  import opened TaskDag
  import opened Trace

  class Programm {
    var thunks: set<ThunkId>
    var cur: map<int, int>
    var finished: map<int, int>
    var edges: map<ThunkId, seq<ThunkId>>
    var concurrent: map<ThunkId, set<ThunkId>>

    ghost function View(): Record
      reads this
    {
      Record(thunks, cur, finished, edges, concurrent)
    }

    constructor ()
      ensures View() == Start()
    {
      thunks, cur, finished, edges, concurrent := {}, map[], map[], map[], map[ThunkId(0, 0) := {}];
    }

    /** Refuses a thunk that is already known. */
    method Add(id: ThunkId) returns (ok: bool)
      modifies this
      ensures ok <==> id !in old(thunks)
      ensures View() == if ok then AddThunk(old(View()), id) else old(View())
    {
      ok := id !in thunks;
      if !ok {
        return;
      }
      thunks := thunks + {id};
      if id.thread in cur {
        finished := finished[id.thread := cur[id.thread]];
      }
      AddEdges(id);
      ghost var running := cur;
      cur := cur[id.thread := id.thunk];
      assert cur - {id.thread} == running - {id.thread};
      Relate(id);
    }

    /** An edge from the last finished thunk of every thread. */
    method AddEdges(id: ThunkId)
      modifies this`edges
      ensures edges == Joined(old(edges), Latest(finished), id)
    {
      var preds := Latest(finished);
      var todo := preds;
      JoinedNone(edges, id);
      assert preds - todo == {};
      while todo != {}
        invariant todo <= preds && edges == Joined(old(edges), preds - todo, id)
      {
        var x :| x in todo;
        JoinedOne(old(edges), preds - todo, id, x);
        assert preds - (todo - {x}) == preds - todo + {x};
        edges := edges[x := Out(edges, x) + [id]];
        todo := todo - {x};
      }
      assert preds - todo == preds;
    }

    /** The new thunk runs at the same time as the current thunk of every other thread. */
    method Relate(id: ThunkId)
      requires id in Latest(cur)
      modifies this`concurrent
      ensures concurrent == Related(old(concurrent), Latest(cur - {id.thread}), id)
    {
      ghost var others := Latest(cur - {id.thread});
      var todo := Latest(cur);
      RelatedNone(concurrent, id);
      assert others - todo == {};
      while todo != {}
        invariant todo <= Latest(cur) && concurrent == Related(old(concurrent), others - todo, id)
      {
        var x :| x in todo;
        if x != id {
          concurrent := concurrent[x := With(concurrent, x) + {id}];
        }
        if x.thread != id.thread {
          concurrent := concurrent[id := With(concurrent, id) + {x}];
          RelatedOne(old(concurrent), others - todo, id, x);
          assert others - (todo - {x}) == others - todo + {x};
        } else {
          assert others - (todo - {x}) == others - todo;
        }
        todo := todo - {x};
      }
      assert others - todo == others;
    }

    /** Refuses an unknown thunk; a thread that is not running makes it fail half way. */
    method FinishThunk(id: ThunkId) returns (ok: bool)
      modifies this
      ensures ok <==> id in thunks && id.thread in old(cur)
      ensures View() == if ok then AddFinish(old(View()), id)
                        else if id in thunks then old(View()).(finished := old(finished)[id.thread := id.thunk])
                        else old(View())
    {
      ok := id in thunks;
      if ok {
        finished := finished[id.thread := id.thunk];
        ok := id.thread in cur;
        if ok {
          cur := cur - {id.thread};
        }
      }
    }

    /** Reads a whole log. */
    method ReadLog(log: seq<Event>)
      requires View() == Start() && ProperLog(log)
      modifies this
      ensures View() == Read(log)
    {
      for i := 0 to |log|
        invariant ProperLog(log[..i]) && View() == Read(log[..i])
      {
        assert log[..i + 1][..i] == log[..i];
        ProperPrefix(log, i + 1);
        var ok: bool;
        match log[i] {
          case Thunk(id) => ok := Add(id);
          case Finish(id) =>
            ReadInv(log[..i]);
            ok := FinishThunk(id);
        }
      }
      assert log[..|log|] == log;
    }

    /** The task graph of the trace. */
    method StartTasks() returns (dag: DiGraph<Task<ThunkId>>)
      requires Inv(View())
      ensures fresh(dag) && dag.Valid() && Acyclic(dag.edges)
      ensures forall x, y :: Reach(dag.edges, Run(x), Run(y)) <==> Reach(EdgeSet(edges), x, y)
      ensures Exact(View(), dag.edges)
    {
      var es := set x, y | x in edges && y in edges[x] :: (x, y);
      assert es == EdgeSet(edges);
      var g := new DiGraph(edges.Keys + (set p | p in es :: p.1), es);
      dag := Build(g);
      ExactTasks(View(), dag.edges);
    }
  }

  /** Two thunks are recorded as concurrent exactly when the task graph orders their tasks in neither
      direction. */
  ghost predicate Exact(p: Record, te: Edges<Task<ThunkId>>) {
    forall x, y :: y in With(p.concurrent, x) <==>
      x in p.thunks && y in p.thunks && x != y && !Reach(te, Run(x), Run(y)) && !Reach(te, Run(y), Run(x))
  }

  lemma ExactTasks(p: Record, te: Edges<Task<ThunkId>>)
    requires Inv(p) && forall x, y :: Reach(te, Run(x), Run(y)) <==> Reach(EdgeSet(p.edges), x, y)
    ensures Exact(p, te)
  {
    forall x, y
      ensures y in With(p.concurrent, x) <==>
                x in p.thunks && y in p.thunks && x != y && !Reach(te, Run(x), Run(y)) && !Reach(te, Run(y), Run(x))
    {
      RecordedAt(p, x, y);
    }
  }

  lemma JoinedNone(edges: map<ThunkId, seq<ThunkId>>, id: ThunkId)
    ensures Joined(edges, {}, id) == edges
  {
    forall y
      ensures y in Joined(edges, {}, id) <==> y in edges
      ensures y in edges ==> Joined(edges, {}, id)[y] == edges[y]
    {
    }
  }

  lemma JoinedOne(edges: map<ThunkId, seq<ThunkId>>, preds: set<ThunkId>, id: ThunkId, x: ThunkId)
    requires x !in preds
    ensures var r := Joined(edges, preds, id); Joined(edges, preds + {x}, id) == r[x := Out(r, x) + [id]]
  {
    var r := Joined(edges, preds, id);
    var s := r[x := Out(r, x) + [id]];
    var u := Joined(edges, preds + {x}, id);
    forall y
      ensures y in s <==> y in u
      ensures y in s ==> s[y] == u[y]
    {
    }
  }

  lemma RelatedNone(concurrent: map<ThunkId, set<ThunkId>>, id: ThunkId)
    ensures Related(concurrent, {}, id) == concurrent
  {
  }

  lemma RelatedOne(concurrent: map<ThunkId, set<ThunkId>>, others: set<ThunkId>, id: ThunkId, x: ThunkId)
    requires x !in others && x != id && id !in others
    ensures var r := Related(concurrent, others, id);
            var s := r[x := With(r, x) + {id}];
            Related(concurrent, others + {x}, id) == s[id := With(s, id) + {x}]
  {
    var r := Related(concurrent, others, id);
    var s := r[x := With(r, x) + {id}];
    var u := s[id := With(s, id) + {x}];
    var v := Related(concurrent, others + {x}, id);
    assert u.Keys == v.Keys;
    forall y | y in u
      ensures u[y] == v[y]
    {
      if y == id {
        assert With(r, id) == With(concurrent, id) + others;
      } else if y == x {
        assert With(r, x) == With(concurrent, x);
      }
    }
  }

  lemma {:induction false} ProperPrefix(log: seq<Event>, k: nat)
    requires ProperLog(log) && k <= |log|
    ensures ProperLog(log[..k])
  {
    if k < |log| {
      var before := log[..|log| - 1];
      ProperPrefix(before, k);
      assert before[..k] == log[..k];
    } else {
      assert log[..k] == log;
    }
  }
}
