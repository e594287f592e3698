/** The two-phase fence with changing membership (determ.h, waitFence) as a state machine.

    A step is one critical section of the global mutex, or one look at the phase flag by a thread
    that spins outside the mutex.  A thread that finds more members than cores waits on the
    condition variable instead of spinning; it may also wake up without a broadcast. */
module Fence {
  const SIZE_MAX: nat := 0xFFFF_FFFF_FFFF_FFFF

  /** Where a thread is in `waitFence`: outside; waiting for an arrival phase (spinning, having seen
      it and about to take the mutex, or on the condition variable); counted and waiting for the
      release, in the same three ways. */
  datatype Pc =
    | Out
    | SpinArrive | LockArrive | CondArrive(woken: bool)
    | SpinLeave | LockLeave | CondLeave(woken: bool)

  /** `todo` is the number of calls still to make, the current one included.  The other fields are
      history: the first generation a member takes part in, and the last generation the thread was
      counted in and the last one it left. */
  datatype Thread = Thread(pc: Pc, member: bool, todo: nat, since: int, arrived: int, left: int)

  /** `gen` numbers the arrival phases and is history. */
  datatype State = State(cores: nat, max: nat, curr: nat, arrival: bool, threads: seq<Thread>, gen: nat)

  datatype Choice =
    | Go(t: nat)             // the next step of a thread in waitFence, or its next call
    | Wake(t: nat)           // a wakeup without a broadcast
    | More(t: nat)           // one more call to make
    | Incr(t: nat)           // incrFence for a thread that comes back
    | Decr(t: nat)           // decrFence for a thread that leaves
    | Start(ts: set<nat>)    // startFence for new children, in an arrival phase

  predicate Inside(th: Thread) {
    th.pc.SpinLeave? || th.pc.LockLeave? || th.pc.CondLeave?
  }

  predicate Member(th: Thread) {
    th.member
  }

  function Put(s: State, t: nat, th: Thread): State
    requires t < |s.threads|
  {
    s.(threads := s.threads[t := th])
  }

  function Woken(th: Thread): Thread {
    match th.pc
    case CondArrive(_) => th.(pc := CondArrive(true))
    case CondLeave(_) => th.(pc := CondLeave(true))
    case _ => th
  }

  function Broadcast(s: State): State {
    s.(threads := seq(|s.threads|, t requires 0 <= t < |s.threads| => Woken(s.threads[t])))
  }

  /** The thread as it is after its call. */
  function Gone(s: State, th: Thread): Thread {
    th.(pc := Out, left := s.gen, todo := if th.todo > 0 then th.todo - 1 else 0)
  }

  /** One thread less inside; the last one opens the next arrival phase. */
  function Leave(s: State, t: nat): State
    requires t < |s.threads|
  {
    var r := Put(s, t, Gone(s, s.threads[t])).(curr := if s.curr > 0 then s.curr - 1 else SIZE_MAX);
    if r.curr == 0 then Broadcast(r.(arrival := true, gen := s.gen + 1)) else r
  }

  /** One thread more inside; the last one to arrive releases the others. */
  function Arrive(s: State, t: nat): State
    requires t < |s.threads|
  {
    var th := s.threads[t].(arrived := s.gen);
    var n := s.curr + 1;
    if n >= s.max then
      Leave(Broadcast(Put(s, t, th.(pc := LockLeave)).(curr := n, arrival := false)), t)
    else
      Put(s, t, th.(pc := if s.max <= s.cores then SpinLeave else CondLeave(false))).(curr := n)
  }

  function GoThread(s: State, t: nat): State
    requires t < |s.threads|
  {
    var th := s.threads[t];
    match th.pc
    case Out =>
      if !th.member || th.todo == 0 then s
      else if s.arrival then Arrive(s, t)
      else Put(s, t, th.(pc := if s.max <= s.cores then SpinArrive else CondArrive(false)))
    case SpinArrive => if s.arrival then Put(s, t, th.(pc := LockArrive)) else s
    case LockArrive => Arrive(s, t)
    case CondArrive(woken) =>
      if !woken then s
      else if s.arrival then Arrive(s, t)
      else Put(s, t, th.(pc := CondArrive(false)))
    case SpinLeave => if s.arrival then s else Put(s, t, th.(pc := LockLeave))
    case LockLeave => Leave(s, t)
    case CondLeave(woken) =>
      if !woken then s
      else if s.arrival then Put(s, t, th.(pc := CondLeave(false)))
      else Leave(s, t)
  }

  function Enrolled(s: State, th: Thread): Thread {
    th.(member := true, since := if s.arrival then s.gen else s.gen + 1)
  }

  function DecrFence(s: State, t: nat): State
    requires t < |s.threads|
  {
    var r := Put(s, t, s.threads[t].(member := false)).(max := if s.max > 0 then s.max - 1 else SIZE_MAX);
    if r.curr >= r.max then Broadcast(r.(arrival := r.arrival && r.max == 0)) else r
  }

  function StartFence(s: State, ts: set<nat>): State {
    var threads := seq(|s.threads|, t requires 0 <= t < |s.threads| =>
      if t in ts then Enrolled(s, s.threads[t]) else s.threads[t]);
    Broadcast(s.(threads := threads, max := s.max + |ts|, arrival := true))
  }

  function Step(s: State, x: Choice): State {
    match x
    case Go(t) => if t < |s.threads| then GoThread(s, t) else s
    case Wake(t) => if t < |s.threads| then Put(s, t, Woken(s.threads[t])) else s
    case More(t) => if t < |s.threads| then Put(s, t, s.threads[t].(todo := s.threads[t].todo + 1)) else s
    case Incr(t) =>
      if t < |s.threads| && !s.threads[t].member then Put(s, t, Enrolled(s, s.threads[t])).(max := s.max + 1) else s
    case Decr(t) =>
      if t < |s.threads| && s.threads[t].member && s.threads[t].pc == Out then DecrFence(s, t) else s
    case Start(ts) =>
      if s.arrival && forall t :: t in ts ==> t < |s.threads| && !s.threads[t].member then StartFence(s, ts) else s
  }

  /** registerMaster: thread 0 is the only member. */
  function Init(cores: nat, n: nat): State
    requires n > 0
  {
    State(cores, 1, 0, true, seq(n, t => Thread(Out, t == 0, 0, 0, -1, -1)), 0)
  }

  function Exec(s: State, schedule: seq<Choice>): State {
    if schedule == [] then s else Step(Exec(s, schedule[..|schedule| - 1]), schedule[|schedule| - 1])
  }

  // ---- Counting ----

  function Count(threads: seq<Thread>, f: Thread -> bool): nat {
    if threads == [] then 0
    else Count(threads[..|threads| - 1], f) + if f(threads[|threads| - 1]) then 1 else 0
  }

  lemma {:induction false} CountUpdate(threads: seq<Thread>, t: nat, th: Thread, f: Thread -> bool)
    requires t < |threads|
    ensures Count(threads[t := th], f) + (if f(threads[t]) then 1 else 0) == Count(threads, f) + if f(th) then 1 else 0
  {
    var n := |threads| - 1;
    if t < n {
      assert threads[t := th][..n] == threads[..n][t := th];
      CountUpdate(threads[..n], t, th, f);
    } else {
      assert threads[t := th][..n] == threads[..n];
    }
  }

  lemma {:induction false} CountSame(a: seq<Thread>, b: seq<Thread>, f: Thread -> bool)
    requires |a| == |b| && forall t :: 0 <= t < |a| ==> f(a[t]) == f(b[t])
    ensures Count(a, f) == Count(b, f)
  {
    if a != [] {
      var n := |a| - 1;
      CountSame(a[..n], b[..n], f);
    }
  }

  /** Counts of nested sets: no more in the smaller one, and equally many only if they agree. */
  lemma {:induction false} CountNested(threads: seq<Thread>, f: Thread -> bool, g: Thread -> bool)
    requires forall t :: 0 <= t < |threads| ==> f(threads[t]) ==> g(threads[t])
    ensures Count(threads, f) <= Count(threads, g)
    ensures Count(threads, f) == Count(threads, g) ==> forall t :: 0 <= t < |threads| ==> f(threads[t]) == g(threads[t])
  {
    if threads != [] {
      var n := |threads| - 1;
      assert forall t :: 0 <= t < n ==> threads[..n][t] == threads[t];
      CountNested(threads[..n], f, g);
    }
  }

  lemma CountZero(threads: seq<Thread>, f: Thread -> bool)
    ensures Count(threads, f) == 0 <==> forall t :: 0 <= t < |threads| ==> !f(threads[t])
  {
    var none := (th: Thread) => false;
    CountNone(threads);
    CountNested(threads, none, f);
    if forall t :: 0 <= t < |threads| ==> !f(threads[t]) {
      CountSame(threads, threads, f);
      CountNested(threads, f, none);
    }
  }

  lemma {:induction false} CountNone(threads: seq<Thread>)
    ensures Count(threads, (th: Thread) => false) == 0
  {
    if threads != [] {
      CountNone(threads[..|threads| - 1]);
    }
  }

  function Added(threads: seq<Thread>, ts: set<nat>): seq<Thread> {
    seq(|threads|, t requires 0 <= t < |threads| => if t in ts then threads[t].(member := true) else threads[t])
  }

  lemma {:induction false} CountAdded(threads: seq<Thread>, ts: set<nat>)
    requires forall t :: t in ts ==> t < |threads| && !threads[t].member
    ensures Count(Added(threads, ts), Member) == Count(threads, Member) + |ts|
    decreases ts
  {
    if ts == {} {
      CountSame(Added(threads, ts), threads, Member);
    } else {
      var t :| t in ts;
      var a := Added(threads, ts - {t});
      CountAdded(threads, ts - {t});
      CountUpdate(a, t, a[t].(member := true), Member);
      assert Added(threads, ts) == a[t := a[t].(member := true)];
    }
  }

  lemma CountEnrolled(s: State, ts: set<nat>)
    requires forall t :: t in ts ==> t < |s.threads| && !s.threads[t].member
    ensures Count(StartFence(s, ts).threads, Member) == Count(s.threads, Member) + |ts|
  {
    CountAdded(s.threads, ts);
    CountSame(StartFence(s, ts).threads, Added(s.threads, ts), Member);
  }

  // ---- The invariant ----

  /** The last generation that has been released. */
  function Released(s: State): int {
    if s.arrival then s.gen - 1 else s.gen
  }

  ghost predicate ThreadOk(s: State, th: Thread) {
    && (th.pc != Out ==> th.member && th.todo > 0)
    && (Inside(th) ==> th.arrived == s.gen)
    && (th.pc == LockArrive ==> s.arrival)
    && (th.pc == LockLeave ==> !s.arrival)
    && (th.pc == CondArrive(false) ==> !s.arrival)
    && (th.pc == CondLeave(false) ==> s.arrival)
    && th.arrived <= s.gen && th.left <= Released(s)
    && (s.arrival && !Inside(th) ==> th.arrived < s.gen)
    && (th.member && th.since <= Released(s) ==> th.arrived >= Released(s))
  }

  ghost predicate ThreadsOk(s: State) {
    forall t :: 0 <= t < |s.threads| ==> ThreadOk(s, s.threads[t])
  }

  ghost predicate Inv(s: State) {
    && ThreadsOk(s)
    && s.max == Count(s.threads, Member)
    && s.curr == Count(s.threads, Inside)
    && (s.arrival ==> s.curr < s.max || s.max == 0)
    && (!s.arrival ==> s.curr > 0)
  }

  lemma BroadcastCounts(s: State)
    ensures Count(Broadcast(s).threads, Member) == Count(s.threads, Member)
    ensures Count(Broadcast(s).threads, Inside) == Count(s.threads, Inside)
  {
    CountSame(Broadcast(s).threads, s.threads, Member);
    CountSame(Broadcast(s).threads, s.threads, Inside);
  }

  /** The last thread out opens the next arrival phase. */
  lemma ReopenInv(s: State, r: State)
    requires ThreadsOk(s) && !s.arrival && |r.threads| == |s.threads|
    requires r == s.(arrival := true, gen := s.gen + 1, curr := 0, threads := r.threads)
    requires r.max == Count(r.threads, Member) && Count(r.threads, Inside) == 0
    requires forall u :: 0 <= u < |s.threads| ==>
               r.threads[u] == s.threads[u]
               || (Inside(s.threads[u]) && r.threads[u].pc == Out && r.threads[u].left == s.gen
                   && r.threads[u] == s.threads[u].(pc := Out, left := s.gen, todo := r.threads[u].todo))
    ensures Inv(Broadcast(r))
  {
    CountZero(r.threads, Inside);
    BroadcastCounts(r);
    forall u | 0 <= u < |r.threads|
      ensures ThreadOk(Broadcast(r), Broadcast(r).threads[u])
    {
      assert ThreadOk(s, s.threads[u]);
    }
  }

  lemma StillLeaving(s: State, t: nat)
    requires ThreadsOk(s) && t < |s.threads| && Inside(s.threads[t]) && !s.arrival
    requires s.curr > 0
    ensures ThreadsOk(Put(s, t, Gone(s, s.threads[t])).(curr := s.curr - 1))
  {
    var r := Put(s, t, Gone(s, s.threads[t])).(curr := s.curr - 1);
    forall u | 0 <= u < |s.threads|
      ensures ThreadOk(r, r.threads[u])
    {
      assert ThreadOk(s, s.threads[u]);
    }
  }

  /** Leaving keeps the invariant. */
  lemma LeaveInv(s: State, t: nat)
    requires Inv(s) && t < |s.threads| && Inside(s.threads[t]) && !s.arrival
    ensures Inv(Leave(s, t))
  {
    var out := Gone(s, s.threads[t]);
    CountUpdate(s.threads, t, out, Member);
    CountUpdate(s.threads, t, out, Inside);
    var r := Put(s, t, out).(curr := s.curr - 1);
    if r.curr == 0 {
      ReopenInv(s, r.(arrival := true, gen := s.gen + 1));
      assert Leave(s, t) == Broadcast(r.(arrival := true, gen := s.gen + 1));
    } else {
      StillLeaving(s, t);
      assert Leave(s, t) == r;
    }
  }

  /** When the last member arrives, every member is inside. */
  lemma ReleaseInv(s: State, r: State)
    requires |r.threads| == |s.threads| && r == s.(arrival := false, curr := r.curr, max := r.max, threads := r.threads)
    requires s.arrival && r.curr == Count(r.threads, Inside) && r.max == Count(r.threads, Member) && r.curr >= r.max > 0
    requires forall u :: 0 <= u < |s.threads| ==> ThreadOk(s, s.threads[u])
    requires forall u :: 0 <= u < |s.threads| && r.threads[u] != s.threads[u] ==>
               (r.threads[u] == s.threads[u].(member := false) && s.threads[u].pc == Out)
               || (r.threads[u] == s.threads[u].(arrived := s.gen, pc := LockLeave) && s.threads[u].member
                   && s.threads[u].todo > 0)
    ensures Inv(Broadcast(r))
  {
    BroadcastCounts(r);
    CountNested(r.threads, Inside, Member);
    forall u | 0 <= u < |r.threads|
      ensures ThreadOk(Broadcast(r), Broadcast(r).threads[u])
    {
      assert ThreadOk(s, s.threads[u]);
    }
  }

  /** The state in which the last member has arrived and the others are about to be released. */
  lemma LastArrives(s: State, t: nat)
    requires Inv(s) && t < |s.threads| && s.arrival && !Inside(s.threads[t]) && s.curr + 1 >= s.max
    requires s.threads[t].member && s.threads[t].todo > 0
    ensures var r := Put(s, t, s.threads[t].(arrived := s.gen, pc := LockLeave)).(curr := s.curr + 1, arrival := false);
            Inv(Broadcast(r)) && forall u :: 0 <= u < |r.threads| ==> Inside(r.threads[u]) == Member(r.threads[u])
  {
    var th := s.threads[t].(arrived := s.gen, pc := LockLeave);
    var r := Put(s, t, th).(curr := s.curr + 1, arrival := false);
    CountUpdate(s.threads, t, th, Member);
    CountUpdate(s.threads, t, th, Inside);
    CountZero(s.threads, Member);
    ReleaseInv(s, r);
    forall u | 0 <= u < |r.threads| && Inside(r.threads[u])
      ensures Member(r.threads[u])
    {
      assert ThreadOk(s, s.threads[u]);
    }
    CountNested(r.threads, Inside, Member);
  }

  lemma ArriveInv(s: State, t: nat)
    requires Inv(s) && t < |s.threads| && s.arrival && !Inside(s.threads[t])
    requires s.threads[t].member && s.threads[t].todo > 0
    ensures Inv(Arrive(s, t))
  {
    var th := s.threads[t].(arrived := s.gen);
    var n := s.curr + 1;
    if n >= s.max {
      var r := Put(s, t, th.(pc := LockLeave)).(curr := n, arrival := false);
      LastArrives(s, t);
      LeaveInv(Broadcast(r), t);
      assert Arrive(s, t) == Leave(Broadcast(r), t);
    } else {
      var pc := if s.max <= s.cores then SpinLeave else CondLeave(false);
      CountUpdate(s.threads, t, th.(pc := pc), Member);
      CountUpdate(s.threads, t, th.(pc := pc), Inside);
      forall u | 0 <= u < |s.threads|
        ensures ThreadOk(Arrive(s, t), Arrive(s, t).threads[u])
      {
        assert ThreadOk(s, s.threads[u]);
      }
    }
  }

  /** A step that changes one thread, but neither the counts nor the phase. */
  lemma PutInv(s: State, t: nat, th: Thread)
    requires Inv(s) && t < |s.threads| && ThreadOk(s, th)
    requires Member(th) == Member(s.threads[t]) && Inside(th) == Inside(s.threads[t])
    ensures Inv(Put(s, t, th))
  {
    CountUpdate(s.threads, t, th, Member);
    CountUpdate(s.threads, t, th, Inside);
    forall u | 0 <= u < |s.threads|
      ensures ThreadOk(Put(s, t, th), Put(s, t, th).threads[u])
    {
      assert ThreadOk(s, s.threads[u]);
    }
  }

  lemma GoInv(s: State, t: nat)
    requires Inv(s) && t < |s.threads|
    ensures Inv(GoThread(s, t))
  {
    var th := s.threads[t];
    assert ThreadOk(s, th);
    match th.pc
    case Out =>
      if th.member && th.todo > 0 {
        if s.arrival {
          ArriveInv(s, t);
        } else {
          PutInv(s, t, th.(pc := if s.max <= s.cores then SpinArrive else CondArrive(false)));
        }
      }
    case SpinArrive => if s.arrival { PutInv(s, t, th.(pc := LockArrive)); }
    case LockArrive => ArriveInv(s, t);
    case CondArrive(woken) =>
      if woken {
        if s.arrival {
          ArriveInv(s, t);
        } else {
          PutInv(s, t, th.(pc := CondArrive(false)));
        }
      }
    case SpinLeave => if !s.arrival { PutInv(s, t, th.(pc := LockLeave)); }
    case LockLeave => LeaveInv(s, t);
    case CondLeave(woken) =>
      if woken {
        if s.arrival {
          PutInv(s, t, th.(pc := CondLeave(false)));
        } else {
          LeaveInv(s, t);
        }
      }
  }

  lemma IncrInv(s: State, t: nat)
    requires Inv(s) && t < |s.threads| && !s.threads[t].member
    ensures Inv(Step(s, Incr(t)))
  {
    var th := Enrolled(s, s.threads[t]);
    CountUpdate(s.threads, t, th, Member);
    CountUpdate(s.threads, t, th, Inside);
    CountNested(s.threads, Inside, Member);
    forall u | 0 <= u < |s.threads|
      ensures ThreadOk(Step(s, Incr(t)), Step(s, Incr(t)).threads[u])
    {
      assert ThreadOk(s, s.threads[u]);
    }
  }

  /** A member leaves, and the phase stays. */
  lemma QuitInv(s: State, r: State)
    requires Inv(s) && |r.threads| == |s.threads| && r == s.(max := r.max, threads := r.threads)
    requires r.max == Count(r.threads, Member) && r.curr == Count(r.threads, Inside) <= r.max
    requires s.arrival && r.max > 0 ==> r.curr < r.max
    requires forall u :: 0 <= u < |s.threads| ==>
               r.threads[u] == s.threads[u]
               || (s.threads[u].pc == Out && r.threads[u] == s.threads[u].(member := false))
    ensures Inv(r) && Inv(Broadcast(r))
  {
    BroadcastCounts(r);
    forall u | 0 <= u < |s.threads|
      ensures ThreadOk(r, r.threads[u]) && ThreadOk(r, Broadcast(r).threads[u])
    {
      assert ThreadOk(s, s.threads[u]);
    }
  }

  /** The fence may open because the only thread still missing leaves the membership. */
  lemma DecrInv(s: State, t: nat)
    requires Inv(s) && t < |s.threads| && s.threads[t].member && s.threads[t].pc == Out
    ensures Inv(DecrFence(s, t))
  {
    var th := s.threads[t].(member := false);
    CountUpdate(s.threads, t, th, Member);
    CountUpdate(s.threads, t, th, Inside);
    var r := Put(s, t, th).(max := s.max - 1);
    forall u | 0 <= u < |r.threads| && Inside(r.threads[u])
      ensures Member(r.threads[u])
    {
      assert ThreadOk(s, s.threads[u]);
    }
    CountNested(r.threads, Inside, Member);
    if r.curr >= r.max && s.arrival && r.max > 0 {
      ReleaseInv(s, r.(arrival := false));
    } else {
      QuitInv(s, r);
      assert r.curr >= r.max ==> r.(arrival := r.arrival && r.max == 0) == r;
    }
  }

  lemma StartInv(s: State, ts: set<nat>)
    requires Inv(s) && s.arrival && forall t :: t in ts ==> t < |s.threads| && !s.threads[t].member
    ensures Inv(StartFence(s, ts))
  {
    CountEnrolled(s, ts);
    CountSame(StartFence(s, ts).threads, s.threads, Inside);
    assert s.max == 0 ==> s.curr == 0 by {
      assert forall u :: 0 <= u < |s.threads| ==> ThreadOk(s, s.threads[u]);
      CountNested(s.threads, Inside, Member);
    }
    forall u | 0 <= u < |s.threads|
      ensures ThreadOk(StartFence(s, ts), StartFence(s, ts).threads[u])
    {
      assert ThreadOk(s, s.threads[u]);
    }
  }

  lemma StepInv(s: State, x: Choice)
    requires Inv(s)
    ensures Inv(Step(s, x))
  {
    match x
    case Go(t) => if t < |s.threads| { GoInv(s, t); }
    case Wake(t) => if t < |s.threads| { assert ThreadOk(s, s.threads[t]); PutInv(s, t, Woken(s.threads[t])); }
    case More(t) =>
      if t < |s.threads| {
        assert ThreadOk(s, s.threads[t]);
        PutInv(s, t, s.threads[t].(todo := s.threads[t].todo + 1));
      }
    case Incr(t) => if t < |s.threads| && !s.threads[t].member { IncrInv(s, t); }
    case Decr(t) => if t < |s.threads| && s.threads[t].member && s.threads[t].pc == Out { DecrInv(s, t); }
    case Start(ts) =>
      if s.arrival && forall t :: t in ts ==> t < |s.threads| && !s.threads[t].member { StartInv(s, ts); }
  }

  lemma {:induction false} RunInv(cores: nat, n: nat, schedule: seq<Choice>)
    requires n > 0
    ensures Inv(Exec(Init(cores, n), schedule))
  {
    if schedule == [] {
      var s := Init(cores, n);
      var none := seq(n, t => Thread(Out, false, 0, 0, -1, -1));
      CountZero(none, Member);
      CountUpdate(none, 0, s.threads[0], Member);
      assert s.threads == none[0 := s.threads[0]];
      CountZero(s.threads, Inside);
    } else {
      RunInv(cores, n, schedule[..|schedule| - 1]);
      StepInv(Exec(Init(cores, n), schedule[..|schedule| - 1]), schedule[|schedule| - 1]);
    }
  }

  // ---- Safety ----

  /** In every state of every run: a thread that has left generation g has left it after every
      member enrolled by then had arrived in g or left the membership; and while a thread is still
      inside generation g, nobody has been counted in a later one. */
  lemma FenceSafety(cores: nat, n: nat, schedule: seq<Choice>)
    requires n > 0
    ensures var s := Exec(Init(cores, n), schedule);
            && (forall t, u :: 0 <= t < |s.threads| && 0 <= u < |s.threads| ==>
                  s.threads[u].member && s.threads[u].since <= s.threads[t].left ==>
                      s.threads[u].arrived >= s.threads[t].left)
            && (forall t, u :: 0 <= t < |s.threads| && 0 <= u < |s.threads| ==>
                  Inside(s.threads[u]) ==> s.threads[t].arrived <= s.threads[u].arrived)
  {
    RunInv(cores, n, schedule);
    var s := Exec(Init(cores, n), schedule);
    forall t | 0 <= t < |s.threads|
      ensures ThreadOk(s, s.threads[t])
    {
    }
  }

  /** Nobody misses the phase it waits for: a thread that saw the arrival phase still finds it when
      it has the mutex, one that saw the release too, and nobody sleeps on the condition variable
      while the phase it waits for lasts. */
  lemma NoMissedPhase(cores: nat, n: nat, schedule: seq<Choice>, t: nat)
    requires n > 0 && t < |Exec(Init(cores, n), schedule).threads|
    ensures var s := Exec(Init(cores, n), schedule);
            && (s.threads[t].pc == LockArrive ==> s.arrival)
            && (s.threads[t].pc == LockLeave ==> !s.arrival)
            && (s.threads[t].pc == CondArrive(false) ==> !s.arrival)
            && (s.threads[t].pc == CondLeave(false) ==> s.arrival)
            && (Inside(s.threads[t]) ==> s.threads[t].arrived == s.gen)
  {
    RunInv(cores, n, schedule);
    assert ThreadOk(Exec(Init(cores, n), schedule), Exec(Init(cores, n), schedule).threads[t]);
  }

  // ---- Progress ----

  /** How far a thread is from having made its calls. */
  function Rank(th: Thread): int {
    6 * th.todo - match th.pc
      case Out => 0
      case SpinArrive => 1
      case CondArrive(_) => 1
      case LockArrive => 2
      case SpinLeave => 3
      case CondLeave(_) => 3
      case LockLeave => 4
  }

  function Measure(threads: seq<Thread>): int {
    if threads == [] then 0 else Measure(threads[..|threads| - 1]) + Rank(threads[|threads| - 1])
  }

  lemma {:induction false} MeasureUpdate(threads: seq<Thread>, t: nat, th: Thread)
    requires t < |threads|
    ensures Measure(threads[t := th]) == Measure(threads) + Rank(th) - Rank(threads[t])
  {
    var n := |threads| - 1;
    if t < n {
      assert threads[t := th][..n] == threads[..n][t := th];
      MeasureUpdate(threads[..n], t, th);
    } else {
      assert threads[t := th][..n] == threads[..n];
    }
  }

  lemma {:induction false} MeasureSame(a: seq<Thread>, b: seq<Thread>)
    requires |a| == |b| && forall t :: 0 <= t < |a| ==> Rank(a[t]) == Rank(b[t])
    ensures Measure(a) == Measure(b)
  {
    if a != [] {
      MeasureSame(a[..|a| - 1], b[..|b| - 1]);
    }
  }

  lemma {:induction false} MeasureBounded(threads: seq<Thread>)
    requires forall t :: 0 <= t < |threads| ==> threads[t].pc != Out ==> threads[t].todo > 0
    ensures Measure(threads) >= 0
    ensures Measure(threads) == 0 <==> forall t :: 0 <= t < |threads| ==> threads[t].todo == 0
  {
    if threads != [] {
      var n := |threads| - 1;
      assert forall t :: 0 <= t < n ==> threads[..n][t] == threads[t];
      MeasureBounded(threads[..n]);
    }
  }

  lemma LeaveMeasure(s: State, t: nat)
    requires t < |s.threads| && s.threads[t].todo > 0
    ensures Measure(Leave(s, t).threads) == Measure(s.threads) + 6 * (s.threads[t].todo - 1) - Rank(s.threads[t])
  {
    var th := s.threads[t];
    var out := th.(pc := Out, left := s.gen, todo := th.todo - 1);
    MeasureUpdate(s.threads, t, out);
    MeasureSame(Leave(s, t).threads, s.threads[t := out]);
  }

  /** The release and the last thread's leaving. */
  lemma ReleaseMeasure(r: State, t: nat)
    requires t < |r.threads| && r.threads[t].todo > 0 && r.threads[t].pc == LockLeave
    ensures Measure(Leave(Broadcast(r), t).threads) == Measure(r.threads) - 2
  {
    MeasureSame(Broadcast(r).threads, r.threads);
    assert Broadcast(r).threads[t] == r.threads[t];
    LeaveMeasure(Broadcast(r), t);
  }

  lemma ArriveMeasure(s: State, t: nat)
    requires t < |s.threads| && s.threads[t].todo > 0 && !Inside(s.threads[t])
    ensures Measure(Arrive(s, t).threads) < Measure(s.threads)
  {
    var th := s.threads[t].(arrived := s.gen);
    if s.curr + 1 >= s.max {
      var r := Put(s, t, th.(pc := LockLeave)).(curr := s.curr + 1, arrival := false);
      MeasureUpdate(s.threads, t, th.(pc := LockLeave));
      ReleaseMeasure(r, t);
    } else {
      MeasureUpdate(s.threads, t, th.(pc := if s.max <= s.cores then SpinLeave else CondLeave(false)));
    }
  }

  /** The thread's next step takes it closer to the end of its calls. */
  predicate Productive(s: State, t: nat)
    requires t < |s.threads|
  {
    var th := s.threads[t];
    match th.pc
    case Out => th.member && th.todo > 0
    case SpinArrive => s.arrival
    case LockArrive => true
    case CondArrive(woken) => woken && s.arrival
    case SpinLeave => !s.arrival
    case LockLeave => true
    case CondLeave(woken) => woken && !s.arrival
  }

  lemma GoMeasure(s: State, t: nat)
    requires Inv(s) && t < |s.threads|
    ensures if Productive(s, t) then Measure(GoThread(s, t).threads) < Measure(s.threads)
            else Measure(GoThread(s, t).threads) == Measure(s.threads)
  {
    var th := s.threads[t];
    assert ThreadOk(s, th);
    if Productive(s, t) {
      match th.pc
      case Out =>
        if s.arrival {
          ArriveMeasure(s, t);
        } else {
          MeasureUpdate(s.threads, t, th.(pc := if s.max <= s.cores then SpinArrive else CondArrive(false)));
        }
      case SpinArrive => MeasureUpdate(s.threads, t, th.(pc := LockArrive));
      case LockArrive => ArriveMeasure(s, t);
      case CondArrive(_) => ArriveMeasure(s, t);
      case SpinLeave => MeasureUpdate(s.threads, t, th.(pc := LockLeave));
      case LockLeave => LeaveMeasure(s, t);
      case CondLeave(_) => LeaveMeasure(s, t);
    } else {
      MeasureSame(GoThread(s, t).threads, s.threads);
    }
  }

  /** All members are to make `k` more calls; after a release, those still inside one more than
      those that have left. */
  ghost predicate InStep(s: State, k: nat) {
    && (!s.arrival ==> k > 0)
    && forall t :: 0 <= t < |s.threads| ==>
         if !s.threads[t].member then s.threads[t].todo == 0
         else s.threads[t].todo == if s.arrival || Inside(s.threads[t]) then k else k - 1
  }

  lemma LeaveInStep(s: State, t: nat, k: nat) returns (j: nat)
    requires Inv(s) && InStep(s, k) && t < |s.threads| && Inside(s.threads[t]) && !s.arrival
    ensures InStep(Leave(s, t), j)
  {
    assert ThreadOk(s, s.threads[t]);
    var r := Leave(s, t);
    LeaveInv(s, t);
    CountZero(r.threads, Inside);
    j := if r.arrival then k - 1 else k;
    assert forall u :: 0 <= u < |s.threads| && u != t ==>
             r.threads[u] == s.threads[u] || r.threads[u] == Woken(s.threads[u]);
    assert r.arrival ==> forall u :: 0 <= u < |s.threads| && u != t ==> !Inside(s.threads[u]) by {
      if r.arrival {
        assert forall u :: 0 <= u < |s.threads| && u != t ==> Inside(r.threads[u]) == Inside(s.threads[u]);
      }
    }
  }

  lemma ArriveInStep(s: State, t: nat, k: nat) returns (j: nat)
    requires Inv(s) && InStep(s, k) && t < |s.threads| && s.arrival && !Inside(s.threads[t])
    requires s.threads[t].member && s.threads[t].todo > 0
    ensures InStep(Arrive(s, t), j)
  {
    j := k;
    if s.curr + 1 >= s.max {
      var r := Put(s, t, s.threads[t].(arrived := s.gen, pc := LockLeave)).(curr := s.curr + 1, arrival := false);
      LastArrives(s, t);
      assert InStep(Broadcast(r), k);
      j := LeaveInStep(Broadcast(r), t, k);
      assert Arrive(s, t) == Leave(Broadcast(r), t);
    }
  }

  /** Progress: with a fixed membership, all members being in step, no move leads away from the end,
      the members stay in step, and as long as a call is still to be made some thread can take a
      step that leads closer to it. */
  lemma FenceProgress(s: State, k: nat)
    requires Inv(s) && InStep(s, k)
    ensures Measure(s.threads) >= 0
    ensures forall t :: 0 <= t < |s.threads| ==> Measure(Step(s, Go(t)).threads) <= Measure(s.threads)
    ensures forall t :: 0 <= t < |s.threads| ==> Measure(Step(s, Wake(t)).threads) == Measure(s.threads)
    ensures (forall t :: 0 <= t < |s.threads| ==> s.threads[t].todo == 0)
            || exists t :: 0 <= t < |s.threads| && Measure(Step(s, Go(t)).threads) < Measure(s.threads)
  {
    assert forall t :: 0 <= t < |s.threads| ==> ThreadOk(s, s.threads[t]);
    MeasureBounded(s.threads);
    forall t | 0 <= t < |s.threads|
      ensures Measure(Step(s, Go(t)).threads) <= Measure(s.threads)
      ensures Productive(s, t) ==> Measure(Step(s, Go(t)).threads) < Measure(s.threads)
      ensures Measure(Step(s, Wake(t)).threads) == Measure(s.threads)
    {
      GoMeasure(s, t);
      MeasureSame(Step(s, Wake(t)).threads, s.threads);
    }
    if !(forall t :: 0 <= t < |s.threads| ==> s.threads[t].todo == 0) {
      var t := SomeoneProductive(s, k);
      assert Measure(Step(s, Go(t)).threads) < Measure(s.threads);
    }
  }

  lemma SomeoneProductive(s: State, k: nat) returns (t: nat)
    requires Inv(s) && InStep(s, k) && exists t :: 0 <= t < |s.threads| && s.threads[t].todo > 0
    ensures t < |s.threads| && Productive(s, t)
  {
    assert forall u :: 0 <= u < |s.threads| ==> ThreadOk(s, s.threads[u]);
    var busy :| 0 <= busy < |s.threads| && s.threads[busy].todo > 0;
    if s.arrival {
      CountZero(s.threads, Member);
      assert Member(s.threads[busy]);
      if forall u :: 0 <= u < |s.threads| ==> Inside(s.threads[u]) == Member(s.threads[u]) {
        CountNested(s.threads, Member, Inside);
        assert false;
      }
      t :| 0 <= t < |s.threads| && Inside(s.threads[t]) != Member(s.threads[t]);
    } else {
      CountZero(s.threads, Inside);
      t :| 0 <= t < |s.threads| && Inside(s.threads[t]);
    }
  }

  /** The members stay in step under every move that does not change the membership. */
  lemma StaysInStep(s: State, x: Choice, k: nat) returns (j: nat)
    requires Inv(s) && InStep(s, k) && (x.Go? || x.Wake?)
    ensures InStep(Step(s, x), j)
  {
    j := k;
    if x.t < |s.threads| {
      var th := s.threads[x.t];
      assert ThreadOk(s, th);
      if x.Go? {
        match th.pc
        case Out => if th.member && th.todo > 0 && s.arrival { j := ArriveInStep(s, x.t, k); }
        case LockArrive => j := ArriveInStep(s, x.t, k);
        case CondArrive(woken) => if woken && s.arrival { j := ArriveInStep(s, x.t, k); }
        case LockLeave => j := LeaveInStep(s, x.t, k);
        case CondLeave(woken) => if woken && !s.arrival { j := LeaveInStep(s, x.t, k); }
        case _ =>
      }
    }
  }

  // ---- Fair schedules ----

  /** While a member is still to arrive, another one's arrival does not release the others. */
  lemma NotLastToArrive(s: State, t: nat, u: nat)
    requires Inv(s) && t < |s.threads| && u < |s.threads| && t != u
    requires Member(s.threads[t]) && !Inside(s.threads[t]) && Member(s.threads[u]) && !Inside(s.threads[u])
    ensures s.curr + 1 < s.max
  {
    var inside := s.threads[u].(pc := SpinLeave);
    var more := s.threads[u := inside];
    CountUpdate(s.threads, u, inside, Inside);
    CountUpdate(s.threads, u, inside, Member);
    assert forall v :: 0 <= v < |more| ==> Inside(more[v]) ==> Member(more[v]) by {
      assert forall v :: 0 <= v < |more| ==> ThreadOk(s, s.threads[v]);
    }
    CountNested(more, Inside, Member);
    assert more[t] == s.threads[t];
  }

  /** While one is still inside, another one's leaving does not open the next arrival phase. */
  lemma NotLastToLeave(s: State, t: nat, u: nat)
    requires Inv(s) && t < |s.threads| && u < |s.threads| && t != u
    requires Inside(s.threads[t]) && Inside(s.threads[u])
    ensures s.curr > 1
  {
    var fewer := s.threads[u := s.threads[u].(pc := Out)];
    CountUpdate(s.threads, u, s.threads[u].(pc := Out), Inside);
    CountZero(fewer, Inside);
    assert fewer[t] == s.threads[t];
  }

  /** The phase does not end under a thread that can go on in it. */
  lemma PhaseLasts(s: State, x: Choice, t: nat)
    requires Inv(s) && t < |s.threads| && Productive(s, t) && s.threads[t].pc != Out
    requires x.Go? && x.t < |s.threads| && x.t != t
    ensures Step(s, x).arrival == s.arrival
    ensures Step(s, x).threads[t] == s.threads[t]
  {
    var th := s.threads[x.t];
    assert ThreadOk(s, s.threads[t]) && ThreadOk(s, th);
    if s.arrival {
      if th.pc == LockArrive || (th.pc == Out && th.member && th.todo > 0) || (th.pc.CondArrive? && th.pc.woken) {
        NotLastToArrive(s, t, x.t);
      }
    } else if th.pc == LockLeave || (th.pc.CondLeave? && th.pc.woken) {
      NotLastToLeave(s, t, x.t);
    }
  }

  /** A thread that can take a step towards its end is able to until it does, whatever the others do. */
  lemma StaysProductive(s: State, x: Choice, t: nat)
    requires Inv(s) && t < |s.threads| && Productive(s, t) && (x.Go? || x.Wake?) && x != Go(t)
    ensures t < |Step(s, x).threads| && Productive(Step(s, x), t)
  {
    if x.Go? && x.t < |s.threads| {
      if s.threads[t].pc == Out {
        OthersStay(s, x.t, t);
      } else {
        PhaseLasts(s, x, t);
      }
    }
  }

  lemma OthersStay(s: State, u: nat, t: nat)
    requires u < |s.threads| && t < |s.threads| && u != t && s.threads[t].pc == Out
    ensures GoThread(s, u).threads[t] == s.threads[t]
  {
  }

  /** The thread moves at `i` or later. */
  ghost predicate Again(f: nat -> Choice, i: nat, t: nat) {
    exists j: nat :: j >= i && f(j) == Go(t)
  }

  /** No thread is left out for ever. */
  ghost predicate Fair(f: nat -> Choice, n: nat) {
    forall i: nat, t: nat {:trigger Again(f, i, t)} :: t < n ==> Again(f, i, t)
  }

  ghost predicate Moved(run: nat -> State, f: nat -> Choice, i: nat) {
    run(i + 1) == Step(run(i), f(i)) && (f(i).Go? || f(i).Wake?)
  }

  /** The run of a schedule of moves and wakeups. */
  ghost predicate RunOf(run: nat -> State, f: nat -> Choice) {
    forall i: nat :: Moved(run, f, i)
  }

  /** The members are in step, and the measure has come down to `m` at least. */
  ghost predicate Going(s: State, n: nat, m: int) {
    Inv(s) && |s.threads| == n && Measure(s.threads) <= m && exists k: nat :: InStep(s, k)
  }

  lemma OneMove(s: State, x: Choice, n: nat, m: int, t: nat)
    requires Going(s, n, m) && (x.Go? || x.Wake?) && t < n
    ensures Going(Step(s, x), n, m)
    ensures Productive(s, t) ==>
              if x == Go(t) then Going(Step(s, x), n, m - 1)
              else |Step(s, x).threads| == n && Productive(Step(s, x), t)
  {
    var k: nat :| InStep(s, k);
    StepInv(s, x);
    var j := StaysInStep(s, x, k);
    MeasureStep(s, x, t);
    if Productive(s, t) && x != Go(t) {
      StaysProductive(s, x, t);
    }
  }

  lemma MeasureStep(s: State, x: Choice, t: nat)
    requires Inv(s) && (x.Go? || x.Wake?) && t < |s.threads|
    ensures |Step(s, x).threads| == |s.threads|
    ensures Measure(Step(s, x).threads) <= Measure(s.threads)
    ensures x == Go(t) && Productive(s, t) ==> Measure(Step(s, x).threads) < Measure(s.threads)
  {
    if x.t < |s.threads| {
      if x.Go? {
        GoMeasure(s, x.t);
      } else {
        MeasureSame(Step(s, x).threads, s.threads);
      }
    }
  }

  ghost predicate CanMove(s: State, t: nat) {
    t < |s.threads| && Productive(s, t)
  }

  lemma OneMoveAt(run: nat -> State, f: nat -> Choice, i: nat, n: nat, m: int, t: nat)
    requires Going(run(i), n, m) && Moved(run, f, i) && t < n
    ensures Going(run(i + 1), n, m)
    ensures CanMove(run(i), t) ==>
              if f(i) == Go(t) then Going(run(i + 1), n, m - 1) else CanMove(run(i + 1), t)
  {
    OneMove(run(i), f(i), n, m, t);
  }

  /** A productive thread moves in the end; by then the measure is smaller. */
  lemma {:induction false} MovesOn(run: nat -> State, f: nat -> Choice, i: nat, j: nat, n: nat, m: int, t: nat)
    requires i <= j && f(j) == Go(t) && t < n && RunOf(run, f)
    requires Going(run(i), n, m) && CanMove(run(i), t)
    ensures Going(run(j + 1), n, m - 1)
    decreases j - i
  {
    assert Moved(run, f, i);
    OneMoveAt(run, f, i, n, m, t);
    if i < j {
      if f(i) == Go(t) {
        Onward(run, f, i + 1, j + 1, n, m - 1);
      } else {
        MovesOn(run, f, i + 1, j, n, m, t);
      }
    }
  }

  /** Nothing leads back. */
  lemma {:induction false} Onward(run: nat -> State, f: nat -> Choice, i: nat, j: nat, n: nat, m: int)
    requires i <= j && n > 0 && RunOf(run, f)
    requires Going(run(i), n, m)
    ensures Going(run(j), n, m)
    decreases j - i
  {
    if i < j {
      assert Moved(run, f, i);
      OneMoveAt(run, f, i, n, m, 0);
      Onward(run, f, i + 1, j, n, m);
    }
  }

  ghost predicate AllThrough(s: State) {
    forall t :: 0 <= t < |s.threads| ==> s.threads[t].todo == 0
  }

  /** As long as calls are to be made, some thread can move on. */
  lemma SomeoneCanMove(s: State, n: nat, m: int) returns (t: nat)
    requires Going(s, n, m)
    ensures m >= 0 && (AllThrough(s) || (t < n && CanMove(s, t)))
    ensures m == 0 ==> AllThrough(s)
  {
    ThroughIsZero(s);
    t := 0;
    if !AllThrough(s) {
      var k: nat :| InStep(s, k);
      t := SomeoneProductive(s, k);
    }
  }

  lemma ThroughIsZero(s: State)
    requires Inv(s)
    ensures Measure(s.threads) >= 0 && (Measure(s.threads) == 0 <==> AllThrough(s))
  {
    assert forall t :: 0 <= t < |s.threads| ==> ThreadOk(s, s.threads[t]);
    MeasureBounded(s.threads);
  }

  lemma {:induction false} Drains(run: nat -> State, f: nat -> Choice, i: nat, n: nat, m: int) returns (d: nat)
    requires Going(run(i), n, m) && RunOf(run, f) && Fair(f, n)
    ensures Going(run(d), n, 0)
    decreases m
  {
    var t := SomeoneCanMove(run(i), n, m);
    if AllThrough(run(i)) {
      ThroughIsZero(run(i));
      d := i;
    } else {
      assert Again(f, i, t);
      var j: nat :| j >= i && f(j) == Go(t);
      MovesOn(run, f, i, j, n, m, t);
      var u := SomeoneCanMove(run(j + 1), n, m - 1);
      d := Drains(run, f, j + 1, n, m - 1);
    }
  }

  /** No starvation: on every fair schedule there comes a time from which on every member has made all
      its calls - whichever threads wake up by themselves, and however the moves interleave. */
  lemma FairRunsDrain(run: nat -> State, f: nat -> Choice, k: nat) returns (d: nat)
    requires Inv(run(0)) && InStep(run(0), k) && RunOf(run, f) && Fair(f, |run(0).threads|)
    ensures forall i: nat :: i >= d ==> AllThrough(run(i))
  {
    var n := |run(0).threads|;
    d := Drains(run, f, 0, n, Measure(run(0).threads));
    forall i: nat | i >= d
      ensures AllThrough(run(i))
    {
      if n > 0 {
        Onward(run, f, d, i, n, 0);
        var t := SomeoneCanMove(run(i), n, 0);
      } else {
        NoThreads(run, f, i);
      }
    }
  }

  lemma {:induction false} NoThreads(run: nat -> State, f: nat -> Choice, i: nat)
    requires run(0).threads == [] && RunOf(run, f)
    ensures run(i).threads == []
  {
    if i > 0 {
      NoThreads(run, f, i - 1);
      assert Moved(run, f, i - 1);
    }
  }

  /** No deadlock: from every such state there is a way on, of no more steps than the measure, on
      which every member makes all its calls. */
  lemma EveryoneGetsThrough(s: State, k: nat) returns (schedule: seq<Choice>)
    requires Inv(s) && InStep(s, k)
    ensures |schedule| <= Measure(s.threads) && forall x :: x in schedule ==> x.Go?
    ensures forall t :: 0 <= t < |Exec(s, schedule).threads| ==> Exec(s, schedule).threads[t].todo == 0
    decreases Measure(s.threads)
  {
    FenceProgress(s, k);
    if forall t :: 0 <= t < |s.threads| ==> s.threads[t].todo == 0 {
      schedule := [];
    } else {
      var t :| 0 <= t < |s.threads| && Measure(Step(s, Go(t)).threads) < Measure(s.threads);
      StepInv(s, Go(t));
      var j := StaysInStep(s, Go(t), k);
      var rest := EveryoneGetsThrough(Step(s, Go(t)), j);
      schedule := [Go(t)] + rest;
      ExecFirst(s, Go(t), rest);
    }
  }

  lemma {:induction false} ExecFirst(s: State, x: Choice, rest: seq<Choice>)
    ensures Exec(s, [x] + rest) == Exec(Step(s, x), rest)
  {
    if rest != [] {
      var n := |rest| - 1;
      var all := [x] + rest;
      ExecFirst(s, x, rest[..n]);
      ExecLast(s, all);
      ExecLast(Step(s, x), rest);
      assert all[..|all| - 1] == [x] + rest[..n] && all[|all| - 1] == rest[n];
    } else {
      ExecLast(s, [x]);
      assert [x][..0] == [] && [x] + rest == [x];
    }
  }

  lemma ExecLast(s: State, schedule: seq<Choice>)
    requires schedule != []
    ensures Exec(s, schedule) == Step(Exec(s, schedule[..|schedule| - 1]), schedule[|schedule| - 1])
  {
  }
}
