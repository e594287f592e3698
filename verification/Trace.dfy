/** Reading a trace: the happens-before edges and the "concurrent" relation (programm.py). */
module Trace {
  import opened Graphs

  datatype ThunkId = ThunkId(thread: int, thunk: int)

  datatype Event = Thunk(id: ThunkId) | Finish(id: ThunkId)

  /** `cur` is the current thunk of each running thread, `finished` the last finished one of each
      thread. */
  datatype Record = Record(
    thunks: set<ThunkId>, cur: map<int, int>, finished: map<int, int>,
    edges: map<ThunkId, seq<ThunkId>>, concurrent: map<ThunkId, set<ThunkId>>)

  function Latest(m: map<int, int>): (r: set<ThunkId>)
    ensures forall x :: x in r <==> x.thread in m && m[x.thread] == x.thunk
  {
    set t | t in m :: ThunkId(t, m[t])
  }

  function Out(edges: map<ThunkId, seq<ThunkId>>, x: ThunkId): seq<ThunkId> {
    if x in edges then edges[x] else []
  }

  function With(concurrent: map<ThunkId, set<ThunkId>>, x: ThunkId): set<ThunkId> {
    if x in concurrent then concurrent[x] else {}
  }

  ghost function EdgeSet(edges: map<ThunkId, seq<ThunkId>>): Edges<ThunkId> {
    set x, y | x in edges && y in edges[x] :: (x, y)
  }

  function Start(): Record {
    Record({}, map[], map[], map[], map[ThunkId(0, 0) := {}])
  }

  function FinishedBy(p: Record, id: ThunkId): map<int, int> {
    if id.thread in p.cur then p.finished[id.thread := p.cur[id.thread]] else p.finished
  }

  function Joined(edges: map<ThunkId, seq<ThunkId>>, preds: set<ThunkId>, id: ThunkId): map<ThunkId, seq<ThunkId>> {
    map x | x in edges.Keys + preds :: Out(edges, x) + if x in preds then [id] else []
  }

  function Related(concurrent: map<ThunkId, set<ThunkId>>, others: set<ThunkId>, id: ThunkId)
    : map<ThunkId, set<ThunkId>>
  {
    map x | x in concurrent.Keys + others + (if others == {} then {} else {id}) ::
      With(concurrent, x) + (if x in others then {id} else {}) + if x == id then others else {}
  }

  function AddThunk(p: Record, id: ThunkId): Record {
    var finished := FinishedBy(p, id);
    var others := Latest(p.cur - {id.thread});
    Record(p.thunks + {id}, p.cur[id.thread := id.thunk], finished,
          Joined(p.edges, Latest(finished), id), Related(p.concurrent, others, id))
  }

  function AddFinish(p: Record, id: ThunkId): Record {
    p.(finished := p.finished[id.thread := id.thunk], cur := p.cur - {id.thread})
  }

  /** Thunk ids are distinct, and a thread finishes its current thunk. */
  predicate Proper(p: Record, ev: Event) {
    match ev
    case Thunk(id) => id !in p.thunks
    case Finish(id) => id in Latest(p.cur)
  }

  function Apply(p: Record, ev: Event): Record {
    match ev
    case Thunk(id) => AddThunk(p, id)
    case Finish(id) => AddFinish(p, id)
  }

  function Read(log: seq<Event>): Record {
    if log == [] then Start() else Apply(Read(log[..|log| - 1]), log[|log| - 1])
  }

  predicate ProperLog(log: seq<Event>) {
    log != [] ==> ProperLog(log[..|log| - 1]) && Proper(Read(log[..|log| - 1]), log[|log| - 1])
  }

  // ---- The invariant ----

  ghost predicate Incomparable(e: Edges<ThunkId>, x: ThunkId, y: ThunkId) {
    x != y && !Reach(e, x, y) && !Reach(e, y, x)
  }

  /** What is true of the thunks and edges: the current thunks are the last of their threads and
      nothing leaves them yet; every other thunk leads to the finished one of its thread. */
  ghost predicate Chained(p: Record, e: Edges<ThunkId>) {
    && Latest(p.cur) + Latest(p.finished) <= p.thunks
    && (forall x :: x in e ==> x.0 in p.thunks && x.1 in p.thunks && x.0 !in Latest(p.cur))
    && (forall x :: x in p.thunks ==>
          x in Latest(p.cur)
          || (x.thread in p.finished && ReachOrSame(e, x, ThunkId(x.thread, p.finished[x.thread]))))
    && (forall t :: t in p.cur && t in p.finished ==> Reach(e, ThunkId(t, p.finished[t]), ThunkId(t, p.cur[t])))
  }

  ghost predicate Inv(p: Record) {
    var e := EdgeSet(p.edges);
    Acyclic(e) && Chained(p, e) && Recorded(p, e)
  }

  /** The recorded relation is incomparability. */
  ghost predicate Recorded(p: Record, e: Edges<ThunkId>) {
    forall x, y :: y in With(p.concurrent, x) <==> x in p.thunks && y in p.thunks && Incomparable(e, x, y)
  }

  lemma JoinedEdges(edges: map<ThunkId, seq<ThunkId>>, preds: set<ThunkId>, id: ThunkId)
    ensures EdgeSet(Joined(edges, preds, id)) == EdgeSet(edges) + Into(preds, id)
  {
    var after := Joined(edges, preds, id);
    forall x, y
      ensures (x, y) in EdgeSet(after) <==> (x, y) in EdgeSet(edges) + Into(preds, id)
    {
      assert (x, y) in EdgeSet(after) <==> y in Out(after, x);
      assert (x, y) in EdgeSet(edges) <==> y in Out(edges, x);
    }
  }

  lemma RelatedWith(concurrent: map<ThunkId, set<ThunkId>>, others: set<ThunkId>, id: ThunkId, x: ThunkId, y: ThunkId)
    ensures y in With(Related(concurrent, others, id), x) <==>
              y in With(concurrent, x) || (x in others && y == id) || (x == id && y in others)
  {
  }

  /** Nothing leads away from a current thunk, or from one that is not known yet. */
  lemma NoWayOut(p: Record, e: Edges<ThunkId>, x: ThunkId, y: ThunkId)
    requires Chained(p, e) && (x in Latest(p.cur) || x !in p.thunks)
    ensures !Reach(e, x, y)
  {
    assert forall z :: (x, z) !in e;
    NoEdgeNoReach(e, x, y);
  }

  /** A current thunk is not finished. */
  lemma CurrentNotFinished(p: Record, e: Edges<ThunkId>, x: ThunkId)
    requires Acyclic(e) && Chained(p, e) && x in Latest(p.cur)
    ensures x !in Latest(p.finished)
  {
  }

  /** Every thunk but the current ones of other threads leads to a predecessor of the new thunk. */
  lemma LeadsToNew(p: Record, e: Edges<ThunkId>, id: ThunkId, x: ThunkId)
    requires Acyclic(e) && Chained(p, e) && id !in p.thunks && x in p.thunks
    ensures var preds := Latest(FinishedBy(p, id));
            (exists f :: f in preds && ReachOrSame(e, x, f)) <==> x !in Latest(p.cur - {id.thread})
    ensures x.thread == id.thread ==>
              id.thread in FinishedBy(p, id) && ReachOrSame(e, x, ThunkId(id.thread, FinishedBy(p, id)[id.thread]))
  {
    var finished := FinishedBy(p, id);
    if x in Latest(p.cur - {id.thread}) {
      forall f | f in Latest(finished)
        ensures !ReachOrSame(e, x, f)
      {
        NoWayOut(p, e, x, f);
        CurrentNotFinished(p, e, x);
      }
    } else {
      assert x.thread in finished;
      var f := ThunkId(x.thread, finished[x.thread]);
      if x !in Latest(p.cur) && x.thread == id.thread && id.thread in p.cur {
        ReachJoin(e, x, ThunkId(x.thread, p.finished[x.thread]), f);
      }
      assert f in Latest(finished) && ReachOrSame(e, x, f);
    }
  }

  lemma ThunkReach(p: Record, id: ThunkId, x: ThunkId, y: ThunkId)
    requires Acyclic(EdgeSet(p.edges)) && Chained(p, EdgeSet(p.edges)) && id !in p.thunks
    ensures var e := EdgeSet(p.edges);
            Reach(EdgeSet(AddThunk(p, id).edges), x, y) <==>
              if y == id then x in p.thunks && x !in Latest(p.cur - {id.thread}) else Reach(e, x, y)
  {
    var e := EdgeSet(p.edges);
    var preds := Latest(FinishedBy(p, id));
    JoinedEdges(p.edges, preds, id);
    ReachExtended(e, preds, id, x, y);
    if x in p.thunks {
      LeadsToNew(p, e, id, x);
    } else {
      forall f | f in preds
        ensures !ReachOrSame(e, x, f)
      {
        NoWayOut(p, e, x, f);
      }
    }
  }

  /** A thunk has no one behind it until it has finished. */
  lemma ThunkEdges(p: Record, e: Edges<ThunkId>, id: ThunkId)
    requires Acyclic(e) && Chained(p, e) && id !in p.thunks
    ensures var r := AddThunk(p, id);
            forall x :: x in e + Into(Latest(r.finished), id) ==>
                x.0 in r.thunks && x.1 in r.thunks && x.0 !in Latest(r.cur)
  {
    var r := AddThunk(p, id);
    forall x | x in Latest(r.finished)
      ensures x in p.thunks && x !in Latest(r.cur)
    {
      if x in Latest(p.cur) {
        CurrentNotFinished(p, e, x);
      }
    }
  }

  lemma ThunkLeads(p: Record, e: Edges<ThunkId>, f: Edges<ThunkId>, id: ThunkId, x: ThunkId)
    requires Acyclic(e) && Chained(p, e) && id !in p.thunks && x in AddThunk(p, id).thunks
    requires e <= f
    ensures var r := AddThunk(p, id);
            x in Latest(r.cur) || (x.thread in r.finished && ReachOrSame(f, x, ThunkId(x.thread, r.finished[x.thread])))
  {
    if x != id {
      var r := AddThunk(p, id);
      LeadsToNew(p, e, id, x);
      if x !in Latest(r.cur) {
        var l := ThunkId(x.thread, r.finished[x.thread]);
        if x != l {
          ReachGrows(e, f, x, l);
        }
      }
    }
  }

  lemma ThunkLast(p: Record, e: Edges<ThunkId>, id: ThunkId, t: int)
    requires Chained(p, e) && t in AddThunk(p, id).cur && t in AddThunk(p, id).finished
    ensures var r := AddThunk(p, id);
            Reach(e + Into(Latest(r.finished), id), ThunkId(t, r.finished[t]), ThunkId(t, r.cur[t]))
  {
    var r := AddThunk(p, id);
    var l := ThunkId(t, r.finished[t]);
    var f := e + Into(Latest(r.finished), id);
    if t == id.thread {
      assert (l, id) in f;
      EdgeReaches(f, l, id);
    } else {
      ReachGrows(e, f, l, ThunkId(t, r.cur[t]));
    }
  }

  lemma ThunkChained(p: Record, id: ThunkId)
    requires Acyclic(EdgeSet(p.edges)) && Chained(p, EdgeSet(p.edges)) && id !in p.thunks
    ensures var r := AddThunk(p, id); Acyclic(EdgeSet(r.edges)) && Chained(r, EdgeSet(r.edges))
  {
    var e, r := EdgeSet(p.edges), AddThunk(p, id);
    var f := EdgeSet(r.edges);
    JoinedEdges(p.edges, Latest(r.finished), id);
    forall x
      ensures !Reach(f, x, x)
    {
      ThunkReach(p, id, x, x);
    }
    ThunkEdges(p, e, id);
    forall x | x in r.thunks
      ensures x in Latest(r.cur)
              || (x.thread in r.finished && ReachOrSame(f, x, ThunkId(x.thread, r.finished[x.thread])))
    {
      ThunkLeads(p, e, f, id, x);
    }
    forall t | t in r.cur && t in r.finished
      ensures Reach(f, ThunkId(t, r.finished[t]), ThunkId(t, r.cur[t]))
    {
      ThunkLast(p, e, id, t);
    }
    forall x | x in Latest(r.cur) + Latest(r.finished)
      ensures x in r.thunks
    {
      assert x == id || x in Latest(p.cur) || x in Latest(p.finished);
    }
  }

  lemma ThunkInv(p: Record, id: ThunkId)
    requires Inv(p) && id !in p.thunks
    ensures Inv(AddThunk(p, id))
  {
    var e, r := EdgeSet(p.edges), AddThunk(p, id);
    var f := EdgeSet(r.edges);
    ThunkChained(p, id);
    forall x, y
      ensures y in With(r.concurrent, x) <==> x in r.thunks && y in r.thunks && Incomparable(f, x, y)
    {
      ThunkRecorded(p, id, x, y);
    }
  }

  lemma ThunkRecorded(p: Record, id: ThunkId, x: ThunkId, y: ThunkId)
    requires Inv(p) && id !in p.thunks
    ensures var r := AddThunk(p, id);
            y in With(r.concurrent, x) <==> x in r.thunks && y in r.thunks && Incomparable(EdgeSet(r.edges), x, y)
  {
    var e := EdgeSet(p.edges);
    ThunkReach(p, id, x, y);
    ThunkReach(p, id, y, x);
    NoWayOut(p, e, id, x);
    NoWayOut(p, e, id, y);
    RelatedWith(p.concurrent, Latest(p.cur - {id.thread}), id, x, y);
    assert y in With(p.concurrent, x) <==> x in p.thunks && y in p.thunks && Incomparable(e, x, y);
  }

  lemma FinishInv(p: Record, id: ThunkId)
    requires Inv(p) && id in Latest(p.cur)
    ensures Inv(AddFinish(p, id))
  {
    var e, r := EdgeSet(p.edges), AddFinish(p, id);
    forall x | x in r.thunks && x !in Latest(r.cur)
      ensures x.thread in r.finished && ReachOrSame(e, x, ThunkId(x.thread, r.finished[x.thread]))
    {
      if x != id && x.thread == id.thread {
        ReachJoin(e, x, ThunkId(x.thread, p.finished[x.thread]), id);
      }
    }
    assert Recorded(r, e) by {
      RecordedSame(p, r, e);
    }
  }

  lemma RecordedSame(p: Record, r: Record, e: Edges<ThunkId>)
    requires Recorded(p, e) && p.thunks == r.thunks && p.concurrent == r.concurrent
    ensures Recorded(r, e)
  {
  }

  lemma {:induction false} ReadInv(log: seq<Event>)
    requires ProperLog(log)
    ensures Inv(Read(log))
  {
    if log == [] {
      assert EdgeSet(map[]) == {};
      forall x, y
        ensures !Reach<ThunkId>({}, x, y)
      {
        if Reach<ThunkId>({}, x, y) {
          var z := FirstEdge({}, x, y);
        }
      }
    } else {
      var before := log[..|log| - 1];
      ReadInv(before);
      match log[|log| - 1]
      case Thunk(id) => ThunkInv(Read(before), id);
      case Finish(id) => FinishInv(Read(before), id);
    }
  }

  // ---- What the recorded relation means ----

  /** For every log, two thunks are recorded as concurrent exactly when neither happens before the
      other; the relation is symmetric and irreflexive, and the edges are acyclic. */
  lemma ConcurrentIsIncomparable(log: seq<Event>, x: ThunkId, y: ThunkId)
    requires ProperLog(log)
    ensures var p := Read(log);
            var e := EdgeSet(p.edges);
            && (y in With(p.concurrent, x) <==>
                  x in p.thunks && y in p.thunks && x != y && !Reach(e, x, y) && !Reach(e, y, x))
            && (y in With(p.concurrent, x) <==> x in With(p.concurrent, y))
            && x !in With(p.concurrent, x)
            && !Reach(e, x, x)
  {
    ReadInv(log);
    RecordedAt(Read(log), x, y);
    RecordedAt(Read(log), y, x);
    RecordedAt(Read(log), x, x);
  }

  lemma RecordedAt(p: Record, x: ThunkId, y: ThunkId)
    requires Inv(p)
    ensures var e := EdgeSet(p.edges);
            && (y in With(p.concurrent, x) <==>
                  x in p.thunks && y in p.thunks && x != y && !Reach(e, x, y) && !Reach(e, y, x))
            && !Reach(e, x, x)
  {
    var e := EdgeSet(p.edges);
    assert Recorded(p, e);
    assert y in With(p.concurrent, x) <==> x in p.thunks && y in p.thunks && Incomparable(e, x, y);
  }

  lemma {:induction false} OtherThreads(log: seq<Event>, x: ThunkId, y: ThunkId)
    requires ProperLog(log) && y in With(Read(log).concurrent, x)
    ensures x.thread != y.thread
  {
    if log != [] {
      var before := log[..|log| - 1];
      var p := Read(before);
      match log[|log| - 1]
      case Thunk(id) =>
        RelatedWith(p.concurrent, Latest(p.cur - {id.thread}), id, x, y);
        if y in With(p.concurrent, x) {
          OtherThreads(before, x, y);
        }
      case Finish(id) => OtherThreads(before, x, y);
    }
  }

  /** The thunks of one thread form a chain. */
  lemma ThreadsAreChains(log: seq<Event>, x: ThunkId, y: ThunkId)
    requires ProperLog(log) && x in Read(log).thunks && y in Read(log).thunks && x.thread == y.thread && x != y
    ensures Reach(EdgeSet(Read(log).edges), x, y) <==> !Reach(EdgeSet(Read(log).edges), y, x)
  {
    ConcurrentIsIncomparable(log, x, y);
    if y in With(Read(log).concurrent, x) {
      OtherThreads(log, x, y);
    }
    if Reach(EdgeSet(Read(log).edges), x, y) && Reach(EdgeSet(Read(log).edges), y, x) {
      ReachJoin(EdgeSet(Read(log).edges), x, y, x);
      ConcurrentIsIncomparable(log, x, x);
    }
  }

  /** The edges follow the order of the log: what comes before a thunk is settled when it is added. */
  lemma {:induction false} PastIsSettled(log: seq<Event>, k: nat, x: ThunkId, y: ThunkId)
    requires ProperLog(log) && k <= |log| && y in Read(log[..k]).thunks
    ensures ProperLog(log[..k]) && y in Read(log).thunks
    ensures Reach(EdgeSet(Read(log).edges), x, y) <==> Reach(EdgeSet(Read(log[..k]).edges), x, y)
    ensures Reach(EdgeSet(Read(log).edges), x, y) ==> x in Read(log[..k]).thunks
  {
    if k == |log| {
      assert log[..k] == log;
      ReadInv(log);
      if x !in Read(log).thunks {
        NoWayOut(Read(log), EdgeSet(Read(log).edges), x, y);
      }
    } else {
      var before := log[..|log| - 1];
      assert before[..k] == log[..k];
      PastIsSettled(before, k, x, y);
      ReadInv(before);
      match log[|log| - 1]
      case Thunk(id) => ThunkReach(Read(before), id, x, y);
      case Finish(id) =>
    }
  }

  // ---- A thread must finish its current thunk ----

  lemma FreshThunk(known: set<ThunkId>, thread: int) returns (id: ThunkId)
    ensures id !in known && id.thread == thread
  {
    var numbers := set x | x in known :: x.thunk;
    var n := Above(numbers);
    id := ThunkId(thread, n);
    assert id in known ==> id.thunk in numbers;
  }

  lemma {:induction false} Above(numbers: set<int>) returns (n: int)
    ensures forall x :: x in numbers ==> x < n
  {
    n := 0;
    if x :| x in numbers {
      n := Above(numbers - {x});
      assert forall y :: y in numbers ==> y == x || y in numbers - {x};
      n := if x < n then n else x + 1;
    }
  }

  /** After a finish event of a running thread the relation stays exact for whatever thunk comes next
      if and only if the event named the current thunk. */
  lemma FinishNeedsCurrent(p: Record, id: ThunkId)
    requires Inv(p) && id in p.thunks && id.thread in p.cur
    ensures p.cur[id.thread] == id.thunk <==>
            forall next :: next !in p.thunks ==>
              Recorded(AddThunk(AddFinish(p, id), next), EdgeSet(AddThunk(AddFinish(p, id), next).edges))
  {
    if p.cur[id.thread] == id.thunk {
      FinishInv(p, id);
      forall next | next !in p.thunks
        ensures Recorded(AddThunk(AddFinish(p, id), next), EdgeSet(AddThunk(AddFinish(p, id), next).edges))
      {
        ThunkInv(AddFinish(p, id), next);
      }
    } else {
      var next := FreshThunk(p.thunks, id.thread + 1);
      WrongFinish(p, id, next);
    }
  }

  lemma WrongFinish(p: Record, id: ThunkId, next: ThunkId)
    requires Inv(p) && id in p.thunks && id.thread in p.cur && p.cur[id.thread] != id.thunk
    requires next !in p.thunks && next.thread != id.thread
    ensures !Recorded(AddThunk(AddFinish(p, id), next), EdgeSet(AddThunk(AddFinish(p, id), next).edges))
  {
    var e, q := EdgeSet(p.edges), AddFinish(p, id);
    var c := ThunkId(id.thread, p.cur[id.thread]);
    WrongReach(p, id, next);
    RelatedWith(p.concurrent, Latest(q.cur - {next.thread}), next, c, next);
    RecordedAt(p, c, next);
  }

  lemma WrongReach(p: Record, id: ThunkId, next: ThunkId)
    requires Inv(p) && id in p.thunks && id.thread in p.cur && p.cur[id.thread] != id.thunk
    requires next !in p.thunks && next.thread != id.thread
    ensures Incomparable(EdgeSet(AddThunk(AddFinish(p, id), next).edges), ThunkId(id.thread, p.cur[id.thread]), next)
  {
    var e, q := EdgeSet(p.edges), AddFinish(p, id);
    var c := ThunkId(id.thread, p.cur[id.thread]);
    var preds := Latest(FinishedBy(q, next));
    assert c in Latest(p.cur);
    JoinedEdges(p.edges, preds, next);
    forall f | f in preds
      ensures !ReachOrSame(e, c, f)
    {
      NoWayOut(p, e, c, f);
    }
    ReachExtended(e, preds, next, c, next);
    ReachExtended(e, preds, next, next, c);
    NoWayOut(p, e, next, c);
  }
}
