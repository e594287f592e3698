/** The simulator's main loop (execution.py): tasks become ready when their last predecessor has
    finished, and the machine says which tasks finish when. */
module Execution {
  import opened Graphs
  import opened TaskDag
  import opened Trace
  import opened Machine

  function Preds(e: Edges<Job>, t: Job): set<Job> {
    set p | p in e && p.1 == t :: p.0
  }

  function Succs(e: Edges<Job>, t: Job): set<Job> {
    set p | p in e && p.0 == t :: p.1
  }

  /** The predecessors of each task. */
  type Before = Job -> set<Job>

  function Predecessors(e: Edges<Job>): Before {
    t => Preds(e, t)
  }

  /** What a run has done, in order. */
  datatype Entry = Begun(job: Job, time: real) | Finished(job: Job, time: real)

  function BegunIn(log: seq<Entry>): set<Job> {
    if log == [] then {}
    else BegunIn(log[..|log| - 1]) + if log[|log| - 1].Begun? then {log[|log| - 1].job} else {}
  }

  function FinishedIn(log: seq<Entry>): set<Job> {
    if log == [] then {}
    else FinishedIn(log[..|log| - 1]) + if log[|log| - 1].Finished? then {log[|log| - 1].job} else {}
  }

  function LastTime(log: seq<Entry>): real {
    if log == [] then 0.0 else log[|log| - 1].time
  }

  /** A task begins once, after all its predecessors have finished, at the very time at which the last of
      them has; it finishes once, after it has begun; time does not go back. */
  predicate Allowed(preds: Before, log: seq<Entry>, x: Entry) {
    && x.time >= LastTime(log)
    && match x
       case Begun(t, b) => t !in BegunIn(log) && preds(t) <= FinishedIn(log) && DueAt(preds(t), log, b)
       case Finished(t, _) => t in BegunIn(log) && t !in FinishedIn(log)
  }

  /** One of the predecessors has finished at this time; without any, it is the start. */
  predicate DueAt(preds: set<Job>, log: seq<Entry>, time: real) {
    if preds == {} then time == 0.0 else exists p :: p in preds && Finished(p, time) in log
  }

  predicate Orderly(preds: Before, log: seq<Entry>) {
    log == [] || (Orderly(preds, log[..|log| - 1]) && Allowed(preds, log[..|log| - 1], log[|log| - 1]))
  }

  lemma OneMoreEntry(preds: Before, log: seq<Entry>, x: Entry)
    requires Orderly(preds, log) && Allowed(preds, log, x)
    ensures Orderly(preds, log + [x]) && LastTime(log + [x]) == x.time
    ensures BegunIn(log + [x]) == BegunIn(log) + if x.Begun? then {x.job} else {}
    ensures FinishedIn(log + [x]) == FinishedIn(log) + if x.Finished? then {x.job} else {}
  {
    assert (log + [x])[..|log|] == log;
  }

  /** In an orderly log every single entry was allowed when it was made. */
  lemma {:induction false} EveryEntryAllowed(preds: Before, log: seq<Entry>, i: nat)
    requires Orderly(preds, log) && i < |log|
    ensures Allowed(preds, log[..i], log[i])
  {
    if i < |log| - 1 {
      var before := log[..|log| - 1];
      EveryEntryAllowed(preds, before, i);
      assert before[..i] == log[..i];
    }
  }

  lemma {:induction false} InLog(log: seq<Entry>, t: Job, time: real)
    ensures Begun(t, time) in log ==> t in BegunIn(log)
    ensures Finished(t, time) in log ==> t in FinishedIn(log)
  {
    if log != [] {
      InLog(log[..|log| - 1], t, time);
      assert log == log[..|log| - 1] + [log[|log| - 1]];
    }
  }

  lemma {:induction false} NoneLater(preds: Before, log: seq<Entry>, x: Entry)
    requires Orderly(preds, log) && x in log
    ensures x.time <= LastTime(log)
  {
    var before, last := log[..|log| - 1], log[|log| - 1];
    assert log == before + [last];
    if x in before {
      NoneLater(preds, before, x);
    }
  }

  /** The time of the last task that has begun. */
  function LastBegun(log: seq<Entry>): real {
    if log == [] then 0.0
    else if log[|log| - 1].Begun? then log[|log| - 1].time
    else LastBegun(log[..|log| - 1])
  }

  lemma {:induction false} BegunBounds(preds: Before, log: seq<Entry>)
    requires Orderly(preds, log)
    ensures 0.0 <= LastBegun(log) <= LastTime(log)
  {
    if log != [] {
      BegunBounds(preds, log[..|log| - 1]);
    }
  }

  /** The run can get to the end. */
  ghost predicate OnlyEntryLeads(nodes: set<Job>, e: Edges<Job>, entry: Job, exit: Job) {
    forall s :: s in nodes && Preds(e, s) == {} && ReachOrSame(e, s, exit) ==> s == entry
  }

  // ---- Waiting ----

  datatype Progress = Progress(wait: map<Job, nat>, ready: set<Job>, begun: set<Job>, done: set<Job>)

  ghost predicate Graph(nodes: set<Job>, e: Edges<Job>, entry: Job, exit: Job) {
    && (forall p :: p in e ==> p.0 in nodes && p.1 in nodes)
    && Acyclic(e)
    && entry in nodes && exit in nodes && Preds(e, entry) == {} && Preds(e, exit) != {}
  }

  /** A task waits for its unfinished predecessors; it is ready or begun when there are none left.
      The tasks in `todo` have not been told yet of the last task that has finished. */
  ghost predicate Balanced(nodes: set<Job>, preds: Before, entry: Job, s: Progress, todo: set<Job>, was: set<Job>) {
    && s.wait.Keys == nodes && s.done <= s.begun
    && s.ready !! s.begun && s.ready + s.begun <= nodes
    && forall t {:trigger BalancedAt(preds, entry, s, todo, was, t)} :: t in nodes ==>
         BalancedAt(preds, entry, s, todo, was, t)
  }

  ghost predicate BalancedAt(preds: Before, entry: Job, s: Progress, todo: set<Job>, was: set<Job>, t: Job)
    requires t in s.wait
  {
    var known := if t in todo then was else s.done;
    && s.wait[t] == |preds(t) - known|
    && (t in s.ready || t in s.begun <==> MayBegin(preds, entry, known, t))
  }

  ghost predicate MayBegin(preds: Before, entry: Job, done: set<Job>, t: Job) {
    t == entry || (preds(t) != {} && preds(t) <= done)
  }

  lemma StartBalanced(nodes: set<Job>, preds: Before, entry: Job)
    requires entry in nodes && preds(entry) == {}
    ensures Balanced(nodes, preds, entry, Progress(map t | t in nodes :: |preds(t)|, {entry}, {}, {}), {}, {})
  {
    var s := Progress(map t | t in nodes :: |preds(t)|, {entry}, {}, {});
    forall t | t in nodes
      ensures BalancedAt(preds, entry, s, {}, {}, t)
    {
      assert preds(t) - {} == preds(t);
    }
  }

  lemma BeginBalanced(nodes: set<Job>, preds: Before, entry: Job, s: Progress, t: Job)
    requires Balanced(nodes, preds, entry, s, {}, {}) && t in s.ready
    ensures Balanced(nodes, preds, entry, s.(ready := s.ready - {t}, begun := s.begun + {t}), {}, {})
  {
    var r := s.(ready := s.ready - {t}, begun := s.begun + {t});
    BeginSets(nodes, s, t);
    forall u | u in nodes
      ensures BalancedAt(preds, entry, r, {}, {}, u)
    {
      assert BalancedAt(preds, entry, s, {}, {}, u);
    }
  }

  lemma BeginSets(nodes: set<Job>, s: Progress, t: Job)
    requires s.done <= s.begun && s.ready !! s.begun && s.ready + s.begun <= nodes && t in s.ready
    ensures s.done <= s.begun + {t} && s.ready - {t} !! s.begun + {t}
    ensures s.ready - {t} + (s.begun + {t}) == s.ready + s.begun
  {
  }

  lemma FinishBalanced(nodes: set<Job>, preds: Before, entry: Job, s: Progress, t: Job, succs: set<Job>)
    requires Balanced(nodes, preds, entry, s, {}, {}) && t in s.begun && t !in s.done
    requires forall u :: u in nodes && t in preds(u) ==> u in succs
    ensures Balanced(nodes, preds, entry, s.(done := s.done + {t}), succs, s.done)
  {
    var r := s.(done := s.done + {t});
    forall u | u in nodes
      ensures BalancedAt(preds, entry, r, succs, s.done, u)
    {
      assert BalancedAt(preds, entry, s, {}, {}, u);
      if u !in succs {
        assert preds(u) - r.done == preds(u) - s.done;
      }
    }
  }

  lemma SuccIsPred(e: Edges<Job>, t: Job, u: Job)
    ensures u in Succs(e, t) <==> t in Preds(e, u)
    ensures u in Succs(e, t) <==> (t, u) in e
  {
    if (t, u) in e {
      assert (t, u).0 == t && (t, u).1 == u;
    }
  }

  function Told(s: Progress, u: Job): Progress
    requires u in s.wait && s.wait[u] > 0
  {
    s.(wait := s.wait[u := s.wait[u] - 1], ready := if s.wait[u] == 1 then s.ready + {u} else s.ready)
  }

  lemma ToldBalanced(nodes: set<Job>, preds: Before, entry: Job, s: Progress, todo: set<Job>, was: set<Job>, t: Job,
                     u: Job)
    requires Balanced(nodes, preds, entry, s, todo, was) && u in todo && u in nodes && t in preds(u)
             && preds(entry) == {}
    requires s.done == was + {t} && t !in was
    ensures s.wait[u] > 0 && Balanced(nodes, preds, entry, Told(s, u), todo - {u}, was)
  {
    assert BalancedAt(preds, entry, s, todo, was, u);
    OneLess(preds(u), was, t);
    ToldSets(nodes, s, u);
    forall v | v in nodes
      ensures BalancedAt(preds, entry, Told(s, u), todo - {u}, was, v)
    {
      assert BalancedAt(preds, entry, s, todo, was, v);
      if v == u {
        ToldOne(preds, entry, s, todo, was, t, u);
      } else {
        ToldOther(preds, entry, s, todo, was, u, v);
      }
    }
  }

  lemma ToldSets(nodes: set<Job>, s: Progress, u: Job)
    requires s.wait.Keys == nodes && u in s.wait && s.wait[u] > 0
    requires s.ready !! s.begun && s.ready + s.begun <= nodes && u !in s.begun
    ensures var r := Told(s, u); r.wait.Keys == nodes && r.ready !! r.begun && r.ready + r.begun <= nodes
  {
  }

  lemma ToldOther(preds: Before, entry: Job, s: Progress, todo: set<Job>, was: set<Job>, u: Job, v: Job)
    requires u in s.wait && v in s.wait && s.wait[u] > 0 && u != v && BalancedAt(preds, entry, s, todo, was, v)
    ensures BalancedAt(preds, entry, Told(s, u), todo - {u}, was, v)
  {
  }

  lemma ToldOne(preds: Before, entry: Job, s: Progress, todo: set<Job>, was: set<Job>, t: Job, u: Job)
    requires u in s.wait && s.wait[u] > 0 && BalancedAt(preds, entry, s, todo, was, u)
    requires u in todo && t in preds(u) && t !in was && s.done == was + {t} && u != entry
    ensures BalancedAt(preds, entry, Told(s, u), todo - {u}, was, u)
  {
    OneLess(preds(u), was, t);
  }

  lemma AllTold(nodes: set<Job>, preds: Before, entry: Job, s: Progress, was: set<Job>)
    requires Balanced(nodes, preds, entry, s, {}, was)
    ensures Balanced(nodes, preds, entry, s, {}, {})
  {
    forall t | t in nodes
      ensures BalancedAt(preds, entry, s, {}, {}, t)
    {
      assert BalancedAt(preds, entry, s, {}, was, t);
    }
  }

  lemma MovedOne(a: set<Job>, b: set<Job>, t: Job)
    requires t in b
    ensures a + {t} + (b - {t}) == a + b
  {
  }

  lemma OneLess(preds: set<Job>, done: set<Job>, t: Job)
    requires t in preds && t !in done
    ensures |preds - (done + {t})| == |preds - done| - 1
    ensures |preds - (done + {t})| == 0 <==> preds <= done + {t}
    ensures !(preds <= done)
  {
    assert preds - done == preds - (done + {t}) + {t};
    if |preds - (done + {t})| == 0 {
      assert preds - (done + {t}) == {};
    }
  }

  // ---- How far a run gets ----

  /** A task begins only after everything that leads to it. */
  lemma {:induction false} LeadersHaveBegun(nodes: set<Job>, e: Edges<Job>, entry: Job, s: Progress, x: Job, u: Job,
                                            n: nat)
    requires Balanced(nodes, Predecessors(e), entry, s, {}, {}) && Preds(e, entry) == {}
    requires u in s.begun && Walk(e, x, u, n)
    ensures x in s.begun
    decreases n
  {
    if n > 0 {
      var z :| (x, z) in e && Walk(e, z, u, n - 1);
      LeadersHaveBegun(nodes, e, entry, s, z, u, n - 1);
      SuccIsPred(e, x, z);
      BegunAfter(nodes, Predecessors(e), entry, s, z);
    }
  }

  lemma BegunAfter(nodes: set<Job>, preds: Before, entry: Job, s: Progress, t: Job)
    requires Balanced(nodes, preds, entry, s, {}, {}) && t in nodes
    ensures t in s.begun ==> t == entry || (preds(t) != {} && preds(t) <= s.done)
    ensures t !in s.begun && t !in s.ready ==> t != entry && (preds(t) == {} || !(preds(t) <= s.done))
    ensures s.wait[t] == 0 <==> preds(t) <= s.done
  {
    assert BalancedAt(preds, entry, s, {}, {}, t);
    NoneMissing(preds(t), s.done);
  }

  lemma NoneMissing(a: set<Job>, b: set<Job>)
    ensures |a - b| == 0 <==> a <= b
  {
    assert a <= b ==> a - b == {};
    if |a - b| == 0 {
      forall x | x in a
        ensures x in b
      {
        assert x !in a - b;
      }
    }
  }

  ghost function Leaders(nodes: set<Job>, e: Edges<Job>, t: Job): set<Job> {
    set x | x in nodes && Reach(e, x, t)
  }

  lemma FewerLeaders(nodes: set<Job>, e: Edges<Job>, p: Job, t: Job)
    requires Acyclic(e) && (p, t) in e && p in nodes
    ensures |Leaders(nodes, e, p)| < |Leaders(nodes, e, t)|
  {
    EdgeReaches(e, p, t);
    forall x | x in Leaders(nodes, e, p)
      ensures x in Leaders(nodes, e, t)
    {
      ReachJoin(e, x, p, t);
    }
    assert p in Leaders(nodes, e, t) && p !in Leaders(nodes, e, p);
    Fewer(Leaders(nodes, e, p), Leaders(nodes, e, t), p);
  }

  lemma Fewer(a: set<Job>, b: set<Job>, x: Job)
    requires a <= b && x in b && x !in a
    ensures |a| < |b|
  {
    assert b == a + (b - a) && x in b - a;
  }

  /** When nothing is ready or at work, a task that has not begun is waiting for a start other than
      the entry. */
  lemma StuckBehind(nodes: set<Job>, e: Edges<Job>, entry: Job, exit: Job, s: Progress, t: Job) returns (start: Job)
    requires Graph(nodes, e, entry, exit) && Balanced(nodes, Predecessors(e), entry, s, {}, {})
    requires s.ready == {} && s.begun == s.done && t in nodes && t !in s.begun
    ensures start in nodes && Preds(e, start) == {} && ReachOrSame(e, start, t) && start != entry
    decreases |Leaders(nodes, e, t)|
  {
    BegunAfter(nodes, Predecessors(e), entry, s, t);
    if Preds(e, t) == {} {
      start := t;
    } else {
      var p :| p in Preds(e, t) && p !in s.done;
      assert (p, t) in e && (p, t).0 in nodes;
      FewerLeaders(nodes, e, p, t);
      start := StuckBehind(nodes, e, entry, exit, s, p);
      EdgeReaches(e, p, t);
      ReachJoin(e, start, p, t);
    }
  }

  lemma Stuck(nodes: set<Job>, e: Edges<Job>, entry: Job, exit: Job, s: Progress)
    requires Graph(nodes, e, entry, exit) && Balanced(nodes, Predecessors(e), entry, s, {}, {})
    requires s.ready == {} && s.begun == s.done && s.wait[exit] > 0
    ensures !OnlyEntryLeads(nodes, e, entry, exit)
  {
    BegunAfter(nodes, Predecessors(e), entry, s, exit);
    var start := StuckBehind(nodes, e, entry, exit, s, exit);
  }

  lemma StillAtWork(before: set<Res>, after: set<Res>, finished: seq<Job>)
    requires after <= before
    requires forall t :: t in finished <==> Of(before, t) != {} && Of(after, t) == {}
    ensures forall t :: Of(after, t) != {} <==> Of(before, t) != {} && t !in finished
  {
    forall t | Of(after, t) != {}
      ensures Of(before, t) != {}
    {
      assert Of(after, t) <= Of(before, t);
    }
  }

  lemma NewWork(before: set<Res>, after: set<Res>, t: Job, u: Job)
    requires before <= after && u != t && forall r :: r in after ==> r in before || r.event.job == t
    ensures Of(after, u) == Of(before, u)
  {
  }

  lemma FirstOut(s: seq<Job>, i: nat)
    requires i < |s|
    ensures s[i..] == [s[i]] + s[i + 1..]
    ensures forall t :: t in s[i..] <==> t == s[i] || t in s[i + 1..]
  {
  }

  lemma Smaller(a: set<Res>, b: set<Res>)
    ensures a < b ==> |a| < |b|
  {
    if a < b {
      assert b == a + (b - a) && b - a != {};
    }
  }

  lemma FewerLeft(nodes: set<Job>, begun: set<Job>, ready: set<Job>)
    requires ready <= nodes && ready !! begun
    ensures if ready == {} then |nodes - (begun + ready)| == |nodes - begun|
            else |nodes - (begun + ready)| < |nodes - begun|
  {
    assert nodes - begun == nodes - (begun + ready) + ready;
  }

  /** The exit has been reached: only the entry leads to it. */
  lemma ReachedExit(nodes: set<Job>, e: Edges<Job>, entry: Job, exit: Job, s: Progress)
    requires Graph(nodes, e, entry, exit) && Balanced(nodes, Predecessors(e), entry, s, {}, {})
    requires s.ready == {} && s.wait[exit] == 0
    ensures OnlyEntryLeads(nodes, e, entry, exit) && exit in s.begun && Preds(e, exit) <= s.done
  {
    BegunAfter(nodes, Predecessors(e), entry, s, exit);
    forall x | x in nodes && Preds(e, x) == {} && ReachOrSame(e, x, exit)
      ensures x == entry
    {
      if Reach(e, x, exit) {
        var n: nat :| n > 0 && Walk(e, x, exit, n);
        LeadersHaveBegun(nodes, e, entry, s, x, exit, n);
      }
      BegunAfter(nodes, Predecessors(e), entry, s, x);
    }
  }

  // ---- The clock ----

  /** The alarms of a task, of which this is the last. */
  ghost predicate LastDue(due: map<Res, real>, t: Job, f: real) {
    && (forall r :: r in due && r.event.job == t ==> due[r] <= f)
    && exists r :: r in due && r.event.job == t && due[r] == f
  }

  /** Each alarm comes as late after the beginning of its task as the device takes, at least. */
  ghost predicate Timely(log: seq<Entry>, due: map<Res, real>, load: Load) {
    forall r, b {:trigger Begun(r.event.job, b) in log} ::
      r in due && Begun(r.event.job, b) in log ==> b + Duration(load, r) <= due[r]
  }

  /** A task finishes with its last alarm. */
  ghost predicate Ended(log: seq<Entry>, due: map<Res, real>) {
    forall t, f {:trigger Finished(t, f) in log} :: Finished(t, f) in log ==> LastDue(due, t, f)
  }

  /** The reservations are of tasks that have begun, and each of these has had one of its own device. */
  ghost predicate Known(log: seq<Entry>, reserved: set<Res>, a: Arch, load: Load) {
    && (forall r :: r in reserved ==> r.event.job in BegunIn(log))
    && (forall t :: t in BegunIn(log) ==> HasOwn(reserved, t, OwnDevice(a, load, t)))
  }

  ghost predicate HasOwn(reserved: set<Res>, t: Job, dev: Dev) {
    exists r :: r in reserved && r.event.job == t && r.dev == dev
  }

  /** Alarms that have gone off are not later than now. */
  ghost predicate GoneBy(due: map<Res, real>, alarms: map<Res, real>, now: real) {
    forall r :: r in due && r !in alarms ==> due[r] <= now
  }

  // What a step of the run does to these.

  lemma BegunClock(log: seq<Entry>, t: Job, now: real, due: map<Res, real>, was: set<Res>, reserved: set<Res>,
                   a: Arch, load: Load)
    requires t !in BegunIn(log) && due.Keys <= was <= reserved
    requires Timely(log, due, load) && Ended(log, due) && Known(log, was, a, load)
    requires (forall r :: r in reserved && r !in was ==> r.event.job == t)
    requires HasOwn(reserved, t, OwnDevice(a, load, t))
    ensures var after := log + [Begun(t, now)];
            Timely(after, due, load) && Ended(after, due) && Known(after, reserved, a, load)
  {
    var after := log + [Begun(t, now)];
    assert BegunIn(after) == BegunIn(log) + {t} by {
      assert after[..|log|] == log;
    }
    forall r, b | r in due && Begun(r.event.job, b) in after
      ensures b + Duration(load, r) <= due[r]
    {
      assert r.event.job in BegunIn(log);
      assert Begun(r.event.job, b) in log;
    }
    forall u | u in BegunIn(after)
      ensures HasOwn(reserved, u, OwnDevice(a, load, u))
    {
      if u != t {
        assert HasOwn(was, u, OwnDevice(a, load, u));
      }
    }
    forall u, f | Finished(u, f) in after
      ensures LastDue(due, u, f)
    {
      assert Finished(u, f) in log;
    }
  }

  lemma ProgressClock(preds: Before, log: seq<Entry>, now: real, was: map<Res, real>, due: map<Res, real>,
                      pending: set<Res>, load: Load)
    requires Orderly(preds, log) && LastTime(log) <= now && Timely(log, was, load) && Ended(log, was)
    requires forall r :: r in was ==> r in due && due[r] == was[r]
    requires forall r :: r in due && r !in was ==> r in pending && due[r] == now + Duration(load, r)
    requires forall t :: t in FinishedIn(log) ==> Of(pending, t) == {}
    ensures Timely(log, due, load) && Ended(log, due)
  {
    forall r, b | r in due && Begun(r.event.job, b) in log
      ensures b + Duration(load, r) <= due[r]
    {
      NoneLater(preds, log, Begun(r.event.job, b));
    }
    forall t, f | Finished(t, f) in log
      ensures LastDue(due, t, f)
    {
      assert LastDue(was, t, f);
      InLog(log, t, f);
      forall r | r in due && r.event.job == t
        ensures r in was
      {
        assert r !in Of(pending, t);
      }
    }
  }

  lemma FinishClock(log: seq<Entry>, t: Job, now: real, due: map<Res, real>, load: Load)
    requires Timely(log, due, load) && Ended(log, due) && LastDue(due, t, now)
    ensures var after := log + [Finished(t, now)]; Timely(after, due, load) && Ended(after, due)
    ensures var after := log + [Finished(t, now)]; BegunIn(after) == BegunIn(log)
  {
    var after := log + [Finished(t, now)];
    assert after[..|log|] == log;
    forall r, b | r in due && Begun(r.event.job, b) in after
      ensures b + Duration(load, r) <= due[r]
    {
      assert Begun(r.event.job, b) in log;
    }
    forall u, f | Finished(u, f) in after
      ensures LastDue(due, u, f)
    {
      assert Finished(u, f) in log || (u == t && f == now);
    }
  }

  lemma StillDue(ready: set<Job>, preds: Before, log: seq<Entry>, x: Entry, now: real)
    requires forall t :: t in ready ==> DueAt(preds(t), log, now)
    ensures forall t :: t in ready ==> DueAt(preds(t), log + [x], now)
  {
  }

  lemma AllLastOff(due: map<Res, real>, was: map<Res, real>, alarms: map<Res, real>, active: set<Res>, now: real,
                   time: real, finished: seq<Job>)
    requires GoneBy(due, was, now) && now <= time && Kept(due, was) && Kept(was, alarms)
    requires WentOff(was, alarms.Keys, time, finished)
    requires forall t :: t in finished ==> Of(active + alarms.Keys, t) == {}
    ensures forall t :: t in finished ==> LastDue(due, t, time)
    ensures GoneBy(due, alarms, time)
  {
    forall t | t in finished
      ensures LastDue(due, t, time)
    {
      LastOff(due, was, alarms, active, now, time, t, finished);
    }
  }

  /** When its last reservation goes off, a task's alarms are all due by then. */
  lemma LastOff(due: map<Res, real>, was: map<Res, real>, alarms: map<Res, real>, active: set<Res>, now: real,
                time: real, t: Job, finished: seq<Job>)
    requires GoneBy(due, was, now) && now <= time && Kept(due, was) && Kept(was, alarms)
    requires WentOff(was, alarms.Keys, time, finished) && t in finished && Of(active + alarms.Keys, t) == {}
    ensures LastDue(due, t, time)
  {
    assert LastAt(was, alarms.Keys, t, time);
    forall r | r in due && r.event.job == t
      ensures due[r] <= time
    {
      assert r !in Of(active + alarms.Keys, t);
    }
  }

  class Execution {
    const nodes: set<Job>
    const edges: Edges<Job>
    const entry: Job
    const exit: Job
    const machine: Machine
    var wait: map<Job, nat>
    var ready: set<Job>
    var log: seq<Entry>

    ghost function State(): Progress
      reads this
    {
      Progress(wait, ready, BegunIn(log), FinishedIn(log))
    }

    /** What the loop keeps: the counts, and the log; what is ready has become so just now. */
    ghost predicate Steady(now: real)
      reads this
    {
      && Balanced(nodes, Predecessors(edges), entry, State(), {}, {})
      && Orderly(Predecessors(edges), log) && LastTime(log) <= now
      && forall t :: t in ready ==> DueAt(Predecessors(edges)(t), log, now)
    }

    /** The log and the alarms fit together. */
    ghost predicate Clocked()
      reads this`log, machine`active, machine`due
    {
      && Timely(log, machine.due, machine.load) && Ended(log, machine.due)
      && Known(log, machine.Reserved(), machine.arch, machine.load)
    }

    /** The tasks at work are those with a reservation. */
    ghost predicate AtWork(finishing: seq<Job>)
      reads this, machine
    {
      && machine.Valid() && machine.Placed()
      && forall t {:trigger Of(machine.Pending(), t)} ::
           Of(machine.Pending(), t) != {} <==> t in BegunIn(log) && t !in FinishedIn(log) && t !in finishing
    }

    /** Between the turns of the machine. */
    ghost predicate InOrder(now: real)
      reads this, machine
    {
      Steady(now) && AtWork([]) && machine.NotBefore(now) && Clocked() && GoneBy(machine.due, machine.alarms, now)
    }

    constructor (m: Machine, ns: set<Job>, es: Edges<Job>, first: Job, last: Job)
      requires m.Valid() && m.Placed() && m.Reserved() == {}
      requires Graph(ns, es, first, last)
      ensures Graph(nodes, edges, entry, exit) && InOrder(0.0) && machine == m && nodes == ns
              && edges == es && entry == first && exit == last
      ensures log == []
    {
      machine, nodes, edges, entry, exit := m, ns, es, first, last;
      wait := map t | t in ns :: |Preds(es, t)|;
      ready := {first};
      log := [];
      new;
      StartBalanced(nodes, Predecessors(edges), entry);
      assert wait == map t | t in nodes :: |Predecessors(edges)(t)|;
      assert State() == Progress(map t | t in nodes :: |Predecessors(edges)(t)|, {entry}, {}, {});
    }

    /** Everything that is ready is scheduled. */
    method ScheduleReady(now: real)
      requires InOrder(now) && Preds(edges, entry) == {}
      modifies this`ready, this`log, machine
      ensures InOrder(now)
      ensures ready == {} && BegunIn(log) == old(BegunIn(log) + ready) && FinishedIn(log) == old(FinishedIn(log))
      ensures old(ready) == {} ==> machine.Pending() == old(machine.Pending()) && log == old(log)
      ensures old(ready) != {} ==> LastBegun(log) == now
    {
      ghost var all := BegunIn(log) + ready;
      ghost var finished := FinishedIn(log);
      while ready != {}
        invariant InOrder(now)
        invariant BegunIn(log) + ready == all && FinishedIn(log) == finished
        invariant ready <= old(ready) && (ready != old(ready) ==> LastBegun(log) == now)
        invariant old(ready) == {} ==> machine.Pending() == old(machine.Pending()) && log == old(log)
        decreases ready
      {
        var t :| t in ready;
        Begin(t, now);
      }
    }

    method Begin(t: Job, now: real)
      requires InOrder(now) && t in ready && Preds(edges, entry) == {}
      modifies this`ready, this`log, machine
      ensures InOrder(now) && LastBegun(log) == now
      ensures ready == old(ready) - {t} && BegunIn(log) + ready == old(BegunIn(log) + ready)
      ensures FinishedIn(log) == old(FinishedIn(log))
    {
      assert Of(machine.Pending(), t) == {};
      MovedOne(BegunIn(log), ready, t);
      ghost var before, reserved := log, machine.Reserved();
      Record(t, now);
      Launch(t, now);
      BegunClock(before, t, now, machine.due, reserved, machine.Reserved(), machine.arch, machine.load);
    }

    method Launch(t: Job, now: real)
      requires machine.Valid() && machine.Placed() && machine.NotBefore(now) && Of(machine.Pending(), t) == {}
      modifies machine
      ensures machine.Valid() && machine.Placed() && machine.NotBefore(now)
      ensures forall u {:trigger Of(machine.Pending(), u)} ::
                Of(machine.Pending(), u) != {} <==> u == t || Of(old(machine.Pending()), u) != {}
      ensures machine.due == old(machine.due) && machine.alarms == old(machine.alarms)
      ensures old(machine.Reserved()) <= machine.Reserved()
      ensures forall r :: r in machine.Reserved() && r !in old(machine.Reserved()) ==> r.event.job == t
      ensures HasOwn(machine.Reserved(), t, OwnDevice(machine.arch, machine.load, t))
    {
      ghost var pending := machine.Pending();
      ghost var events, own := machine.Schedule(t);
      assert own in Of(machine.Pending(), t) && own in machine.Reserved();
      forall u | u != t
        ensures Of(machine.Pending(), u) == Of(pending, u)
      {
        NewWork(pending, machine.Pending(), t, u);
      }
    }

    method Record(t: Job, now: real)
      requires Steady(now) && t in ready && Preds(edges, entry) == {}
      modifies this`ready, this`log
      ensures Steady(now) && ready == old(ready) - {t} && log == old(log) + [Begun(t, now)]
      ensures BegunIn(log) == old(BegunIn(log)) + {t} && FinishedIn(log) == old(FinishedIn(log))
      ensures t !in old(BegunIn(log)) && LastBegun(log) == now
    {
      ghost var s := State();
      BeginBalanced(nodes, Predecessors(edges), entry, s, t);
      assert BalancedAt(Predecessors(edges), entry, s, {}, {}, t);
      OneMoreEntry(Predecessors(edges), log, Begun(t, now));
      StillDue(ready, Predecessors(edges), log, Begun(t, now), now);
      log := log + [Begun(t, now)];
      ready := ready - {t};
      assert State() == s.(ready := s.ready - {t}, begun := s.begun + {t});
    }

    /** The tasks that have finished make their successors ready. */
    method FinishAll(finished: seq<Job>, now: real)
      requires Graph(nodes, edges, entry, exit) && Steady(now) && AtWork(finished) && Clocked()
      requires forall t :: t in finished ==> t in BegunIn(log) && t !in FinishedIn(log) && LastDue(machine.due, t, now)
      requires forall i, j :: 0 <= i < j < |finished| ==> finished[i] != finished[j]
      modifies this`wait, this`ready, this`log
      ensures Steady(now) && AtWork([]) && Clocked() && BegunIn(log) == old(BegunIn(log))
      ensures LastBegun(log) == old(LastBegun(log))
    {
      ghost var begun := BegunIn(log);
      for i := 0 to |finished|
        invariant Steady(now) && BegunIn(log) == begun && Clocked() && LastBegun(log) == old(LastBegun(log))
        invariant machine.Valid() && machine.Placed()
        invariant forall k :: i <= k < |finished| ==> finished[k] in begun && finished[k] !in FinishedIn(log)
        invariant AtWork(finished[i..])
      {
        FirstOut(finished, i);
        FinishClock(log, finished[i], now, machine.due, machine.load);
        Finish(finished[i], now);
        NowFinished(finished, i);
      }
    }

    /** A task has finished: its successors wait for one task less. */
    method Finish(t: Job, now: real)
      requires Graph(nodes, edges, entry, exit) && Steady(now) && t in BegunIn(log) && t !in FinishedIn(log)
      modifies this`wait, this`ready, this`log
      ensures Steady(now) && BegunIn(log) == old(BegunIn(log)) && FinishedIn(log) == old(FinishedIn(log)) + {t}
      ensures log == old(log) + [Finished(t, now)] && LastBegun(log) == old(LastBegun(log))
    {
      ghost var s := State();
      forall u | u in nodes && t in Predecessors(edges)(u)
        ensures u in Succs(edges, t)
      {
        SuccIsPred(edges, t, u);
      }
      FinishBalanced(nodes, Predecessors(edges), entry, s, t, Succs(edges, t));
      OneMoreEntry(Predecessors(edges), log, Finished(t, now));
      StillDue(ready, Predecessors(edges), log, Finished(t, now), now);
      ghost var was := FinishedIn(log);
      log := log + [Finished(t, now)];
      assert State() == s.(done := s.done + {t});
      TellSuccessors(t, was);
      forall u | u in Succs(edges, t)
        ensures DueAt(Predecessors(edges)(u), log, now)
      {
        SuccIsPred(edges, t, u);
        assert Finished(t, now) == log[|log| - 1];
      }
    }

    method TellSuccessors(t: Job, ghost was: set<Job>)
      requires Graph(nodes, edges, entry, exit)
      requires Balanced(nodes, Predecessors(edges), entry, State(), Succs(edges, t), was)
      requires FinishedIn(log) == was + {t} && t !in was
      modifies this`wait, this`ready
      ensures Balanced(nodes, Predecessors(edges), entry, State(), {}, {}) && ready <= old(ready) + Succs(edges, t)
    {
      var todo := Succs(edges, t);
      while todo != {}
        invariant todo <= Succs(edges, t) && Balanced(nodes, Predecessors(edges), entry, State(), todo, was)
        invariant ready <= old(ready) + Succs(edges, t)
      {
        var u :| u in todo;
        SuccIsPred(edges, t, u);
        ghost var s := State();
        ToldBalanced(nodes, Predecessors(edges), entry, s, todo, was, t, u);
        wait := wait[u := wait[u] - 1];
        if wait[u] == 0 {
          ready := ready + {u};
        }
        assert State() == Told(s, u);
        todo := todo - {u};
      }
      AllTold(nodes, Predecessors(edges), entry, State(), was);
    }

    /** The devices go on. */
    method SetAlarms(now: real)
      requires InOrder(now)
      modifies machine
      ensures InOrder(now) && machine.Pending() == old(machine.Pending())
      ensures machine.Pending() != {} ==> machine.alarms != map[]
    {
      ghost var was, pending := machine.due, machine.Pending();
      machine.Progress(now);
      ProgressClock(Predecessors(edges), log, now, was, machine.due, pending, machine.load);
    }

    /** The next alarms go off, and the tasks they finish are recorded. */
    method NextAlarms(now: real) returns (time: real)
      requires Graph(nodes, edges, entry, exit) && InOrder(now) && machine.alarms != map[] && ready == {}
      modifies this`wait, this`ready, this`log, machine
      ensures InOrder(time) && time >= now && BegunIn(log) == old(BegunIn(log))
      ensures machine.Pending() < old(machine.Pending()) && LastBegun(log) == old(LastBegun(log))
    {
      var finished;
      time, finished := GoOn(now);
      FinishAll(finished, time);
    }

    method GoOn(now: real) returns (time: real, finished: seq<Job>)
      requires InOrder(now) && machine.alarms != map[] && ready == {}
      modifies machine
      ensures Steady(time) && AtWork(finished) && machine.NotBefore(time) && time >= now && Clocked()
      ensures GoneBy(machine.due, machine.alarms, time) && machine.Pending() < old(machine.Pending())
      ensures forall t :: t in finished ==> t in BegunIn(log) && t !in FinishedIn(log) && LastDue(machine.due, t, time)
      ensures forall i, j :: 0 <= i < j < |finished| ==> finished[i] != finished[j]
    {
      ghost var pending, was := machine.Pending(), machine.alarms;
      time, finished := machine.Complete(now);
      StillAtWork(pending, machine.Pending(), finished);
      AllLastOff(machine.due, was, machine.alarms, machine.active, now, time, finished);
    }

    /** One round: schedule what is ready, set the alarms, let the next ones go off.  Fails when there
        is no alarm. */
    method Round(now: real) returns (ok: bool, time: real)
      requires Graph(nodes, edges, entry, exit) && InOrder(now) && (wait[exit] > 0 || ready != {})
      modifies this`wait, this`ready, this`log, machine
      ensures InOrder(time) && time >= now
      ensures !ok ==> !OnlyEntryLeads(nodes, edges, entry, exit)
      ensures ok ==> Left() < old(Left()) || (Left() == old(Left()) && machine.Pending() < old(machine.Pending()))
      ensures ok && wait[exit] == 0 && ready == {} ==> LastBegun(log) == now
    {
      ScheduleAll(now);
      ok, time := Advance(now);
    }

    method ScheduleAll(now: real)
      requires Graph(nodes, edges, entry, exit) && InOrder(now) && (wait[exit] > 0 || ready != {})
      modifies this`ready, this`log, machine
      ensures InOrder(now) && ready == {} && (machine.Pending() == {} ==> wait[exit] > 0)
      ensures if old(ready) == {} then Left() == old(Left()) && machine.Pending() == old(machine.Pending())
              else Left() < old(Left())
      ensures LastBegun(log) == now || exit !in BegunIn(log)
    {
      if ready == {} {
        ExitWaits();
      } else {
        ScheduleSome(now);
      }
    }

    method ScheduleSome(now: real)
      requires InOrder(now) && Preds(edges, entry) == {} && ready != {}
      modifies this`ready, this`log, machine
      ensures InOrder(now) && ready == {} && Left() < old(Left()) && machine.Pending() != {} && LastBegun(log) == now
    {
      FewerLeft(nodes, BegunIn(log), ready);
      ghost var t :| t in ready;
      assert t !in FinishedIn(log);
      ScheduleReady(now);
      assert Of(machine.Pending(), t) != {};
    }

    /** The devices go on, and the next alarms go off. */
    method Advance(now: real) returns (ok: bool, time: real)
      requires Graph(nodes, edges, entry, exit) && InOrder(now) && ready == {}
      requires machine.Pending() == {} ==> wait[exit] > 0
      modifies this`wait, this`ready, this`log, machine
      ensures InOrder(time) && time >= now && Left() == old(Left())
      ensures if ok then machine.Pending() < old(machine.Pending()) else !OnlyEntryLeads(nodes, edges, entry, exit)
      ensures wait[exit] == 0 && ready == {} ==> LastBegun(log) == old(LastBegun(log)) && exit in old(BegunIn(log))
    {
      SetAlarms(now);
      ok := machine.alarms != map[];
      if ok {
        time := NextAlarms(now);
        ghost var begun := BegunIn(log);
        if wait[exit] == 0 && ready == {} {
          ExitReady(begun);
        }
      } else {
        time := now;
        AllFinished();
        Stuck(nodes, edges, entry, exit, State());
      }
    }

    /** The task that has just been recorded as finished need not be named any more. */
    lemma NowFinished(finished: seq<Job>, i: nat)
      requires i < |finished| && finished[i] in FinishedIn(log)
      requires machine.Valid() && machine.Placed()
      requires forall t {:trigger Of(machine.Pending(), t)} :: t != finished[i] ==>
                 (Of(machine.Pending(), t) != {} <==> t in BegunIn(log) && t !in FinishedIn(log) && t !in finished[i..])
      requires Of(machine.Pending(), finished[i]) == {}
      ensures AtWork(finished[i + 1..])
    {
      FirstOut(finished, i);
    }

    lemma AllFinished()
      requires AtWork([]) && machine.Pending() == {} && FinishedIn(log) <= BegunIn(log)
      ensures BegunIn(log) == FinishedIn(log)
    {
      forall t | t in BegunIn(log)
        ensures t in FinishedIn(log)
      {
        assert Of(machine.Pending(), t) == {};
      }
    }

    /** How many tasks have not begun. */
    ghost function Left(): nat
      reads this`log
    {
      |nodes - BegunIn(log)|
    }

    /** The exit does not become ready unnoticed. */
    lemma ExitReady(begun: set<Job>)
      requires Graph(nodes, edges, entry, exit) && Balanced(nodes, Predecessors(edges), entry, State(), {}, {})
      requires BegunIn(log) == begun && wait[exit] == 0
      ensures exit in ready || exit in begun
    {
      BegunAfter(nodes, Predecessors(edges), entry, State(), exit);
    }

    lemma ExitWaits()
      requires Graph(nodes, edges, entry, exit) && Balanced(nodes, Predecessors(edges), entry, State(), {}, {})
      requires wait[exit] > 0
      ensures exit !in BegunIn(log)
    {
      BegunAfter(nodes, Predecessors(edges), entry, State(), exit);
    }

    /** For every acyclic task graph and every choice among equal alarms, ready tasks and devices: the
        run ends, its log is orderly, and it gets to the exit if and only if no task without
        predecessors leads to the exit but the entry.  A task finishes at the time of the last of its
        alarms, each of which is due no earlier than its device allows; the time returned is that at
        which the last task has begun. */
    method Simulate() returns (ok: bool, time: real)
      requires Graph(nodes, edges, entry, exit) && InOrder(0.0)
      modifies this`wait, this`ready, this`log, machine
      ensures Orderly(Predecessors(edges), log) && machine.Valid() && machine.Placed() && Clocked()
      ensures ok <==> OnlyEntryLeads(nodes, edges, entry, exit)
      ensures ok ==> exit in BegunIn(log) && Preds(edges, exit) <= FinishedIn(log)
      ensures ok ==> time == LastBegun(log)
      ensures forall t, b, f {:trigger Begun(Run(t), b) in log, Finished(Run(t), f) in log} ::
                Begun(Run(t), b) in log && Finished(Run(t), f) in log ==> f >= b + machine.load.cputime(t)
    {
      var now := 0.0;
      ok, time := true, 0.0;
      BegunBounds(Predecessors(edges), log);
      while wait[exit] > 0 || ready != {}
        invariant InOrder(now)
        invariant wait[exit] > 0 || ready != {} || time == LastBegun(log)
        decreases Left(), |machine.Pending()|
      {
        ghost var pending := machine.Pending();
        time := now;
        ok, now := Round(now);
        assert machine.Pending() < pending ==> |machine.Pending()| < |pending| by {
          Smaller(machine.Pending(), pending);
        }
        if !ok {
          ThunksTakeTime();
          return;
        }
      }
      ReachedExit(nodes, edges, entry, exit, State());
      ThunksTakeTime();
    }

    /** A finished thunk has had the CPU for its time. */
    lemma ThunksTakeTime()
      requires AtWork([]) && Clocked()
      ensures forall t, b, f {:trigger Begun(Run(t), b) in log, Finished(Run(t), f) in log} ::
                Begun(Run(t), b) in log && Finished(Run(t), f) in log ==> f >= b + machine.load.cputime(t)
    {
      forall t, b, f | Begun(Run(t), b) in log && Finished(Run(t), f) in log
        ensures f >= b + machine.load.cputime(t)
      {
        InLog(log, Run(t), f);
        assert Of(machine.Pending(), Run(t)) == {};
        forall r | r in machine.active
          ensures r.event.job != Run(t)
        {
          assert r !in Of(machine.Pending(), Run(t));
        }
        TakesItsTime(log, machine.due, machine.active, machine.arch, machine.load, t, b, f);
      }
    }
  }

  /** What this means for a thunk: its task takes its CPU time, at least. */
  lemma TakesItsTime(log: seq<Entry>, due: map<Res, real>, active: set<Res>, a: Arch, load: Load,
                     t: ThunkId, b: real, f: real)
    requires Timely(log, due, load) && Ended(log, due) && Known(log, active + due.Keys, a, load)
    requires Begun(Run(t), b) in log && Finished(Run(t), f) in log && forall r :: r in active ==> r.event.job != Run(t)
    ensures f >= b + load.cputime(t)
  {
    InLog(log, Run(t), b);
    assert HasOwn(active + due.Keys, Run(t), OwnDevice(a, load, Run(t)));
    var r :| r in active + due.Keys && r.event.job == Run(t) && r.dev == OwnDevice(a, load, Run(t));
    assert LastDue(due, Run(t), f);
  }
}
