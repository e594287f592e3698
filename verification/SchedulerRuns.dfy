/** Runs of the scheduler: what every sequence of operations keeps, and in which order the token
    visits the threads that are woken up. */
module SchedulerRuns {
  import opened Options
  import opened RingList
  import opened Queues
  import opened Scheduler

  datatype Op =
    | DoRegister(t: nat, parent: nat)
    | DoStart
    | DoPut(my: nat)
    | DoWait(my: nat, c: nat)
    | DoSignal(my: nat, c: nat)
    | DoBroadcast(my: nat, c: nat)
    | DoBarrierInit(b: nat, count: nat)
    | DoBarrier(my: nat, b: nat)
    | DoJoin(my: nat, guest: nat)
    | DoWake(my: nat)
    | DoExit(my: nat)
    | DoFence(curr: nat, arrival: bool)   // whatever the threads in the fence do

  /** When an operation may happen: the holder of the token calls it, thread indices are fresh, a
      joiner is the parent, and a thread that blocks or exits is not alone in the ring. */
  ghost predicate Enabled(s: Sched, op: Op)
    requires Inv(s)
  {
    match op
    case DoRegister(t, parent) =>
      t < |s.status| && s.status[t] == Exit
      && forall u :: 0 <= u < |s.status| && s.status[u] == Joining ==> s.joinee[u] != t
    case DoStart => true
    case DoPut(my) => HoldsToken(s, my)
    case DoWait(my, c) => HoldsToken(s, my) && |TokenRing(s)| > 1
    case DoSignal(my, c) => HoldsToken(s, my)
    case DoBroadcast(my, c) => HoldsToken(s, my)
    case DoBarrierInit(b, count) => Get(s.threads, b) == 0
    case DoBarrier(my, b) => HoldsToken(s, my) && b in s.limit && (|TokenRing(s)| > 1 || s.threads[b] + 1 == s.limit[b])
    case DoJoin(my, guest) =>
      HoldsToken(s, my) && guest < |s.status| && s.parent[guest] == my
      && (|TokenRing(s)| > 1 || s.status[guest] == Exit)
    case DoWake(my) => my < |s.status| && s.status[my] == Joining
    case DoExit(my) => HoldsToken(s, my) && (|TokenRing(s)| > 1 || ParentJoins(s, my))
    case DoFence(_, _) => true
  }

  ghost function Apply(s: Sched, op: Op): Sched
    requires Inv(s)
  {
    if !Enabled(s, op) then s
    else
      match op
      case DoRegister(t, parent) => Register(s, t, parent)
      case DoStart => StartFence(s, |s.pending|)
      case DoPut(my) => PutToken(s, my)
      case DoWait(my, c) => CondWait(s, my, c)
      case DoSignal(my, c) => CondSignal(s, my, c)
      case DoBroadcast(my, c) => CondBroadcast(s, my, c)
      case DoBarrierInit(b, count) => BarrierInit(s, b, count)
      case DoBarrier(my, b) => BarrierWait(s, my, b)
      case DoJoin(my, guest) => Join(s, my, guest)
      case DoWake(my) => assert StatusOk(s, my); JoinWake(s, my)
      case DoExit(my) => Deregister(s, my)
      case DoFence(curr, arrival) => s.(curr := curr, arrival := arrival)
  }

  /** Nobody is registered yet. */
  function Empty(n: nat): Sched {
    Sched(map[], None, 0, 0, false, 0, map[], map[], map[], seq(n, _ => Exit), seq(n, _ => 0), seq(n, _ => 0), {}, {})
  }

  ghost predicate Good(s: Sched) {
    Inv(s) && (s.token == None <==> TokenRing(s) == []) && (s.token.Some? ==> TokenInRing(s))
  }

  lemma ApplyGood(s: Sched, op: Op)
    requires Good(s)
    ensures Good(Apply(s, op))
  {
    if Enabled(s, op) {
      match op
      case DoRegister(t, parent) =>
        RegisterInv(s, t, parent);
        AppendedIn(s.lists, Active, t);
      case DoStart => StartFenceInv(s);
      case DoPut(my) => PutTokenInv(s, my);
      case DoWait(my, c) => CondWaitInv(s, my, c);
      case DoSignal(my, c) => CondSignalInv(s, my, c);
      case DoBroadcast(my, c) => CondBroadcastInv(s, my, c);
      case DoBarrierInit(b, count) => BarrierInitInv(s, b, count);
      case DoBarrier(my, b) => BarrierWaitInv(s, my, b);
      case DoJoin(my, guest) => JoinInv(s, my, guest);
      case DoWake(my) =>
        assert StatusOk(s, my);
        JoinWakeInv(s, my);
      case DoExit(my) =>
        DeregisterInv(s, my);
        DeregisterToken(s, my);
      case DoFence(curr, arrival) => FenceGood(s, curr, arrival);
    }
  }

  lemma FenceGood(s: Sched, curr: nat, arrival: bool)
    requires Good(s)
    ensures Good(s.(curr := curr, arrival := arrival))
  {
    var r := s.(curr := curr, arrival := arrival);
    assert Live(r) == Live(s);
    forall u | 0 <= u < |r.status|
      ensures StatusOk(r, u)
    {
      assert StatusOk(s, u);
    }
  }

  ghost function Exec(s: Sched, ops: seq<Op>): (r: Sched)
    requires Good(s)
    ensures Good(r)
  {
    if ops == [] then s
    else
      var before := Exec(s, ops[..|ops| - 1]);
      ApplyGood(before, ops[|ops| - 1]);
      Apply(before, ops[|ops| - 1])
  }

  lemma EmptyGood(n: nat)
    ensures Good(Empty(n))
  {
    var s := Empty(n);
    assert Live(s) == {};
    assert forall u :: 0 <= u < n ==> StatusOk(s, u);
  }

  ghost function Initial(n: nat): (s: Sched)
    ensures Good(s)
  {
    EmptyGood(n);
    Empty(n)
  }

  /** In every state of every run: no thread is in two lists or twice in one, the waiter counts are
      the queue lengths, the token position is in the ring, and the ring has exactly as many threads
      as the fence counts, plus the children not yet in the fence, plus the joiners not yet awake. */
  lemma RunsKeepLists(n: nat, ops: seq<Op>)
    ensures var s := Exec(Initial(n), ops);
            && Apart(s.lists)
            && (forall c :: |At(s.lists, Cond(c))| == Get(s.waiters, c))
            && (forall b :: |At(s.lists, Bar(b))| == Get(s.threads, b))
            && (TokenRing(s) != [] ==> TokenInRing(s))
            && |TokenRing(s)| == s.max + |s.pending| + |s.rejoining|
            && s.pending !! s.rejoining
  {
  }

  /** In every state of every run: a thread's status is CondWaiting exactly if it is in the queue of a
      condition variable, so that whoever is back in the ring has left the loop in cond_wait; every other
      live thread is in the ring, at a barrier, or asleep in a join whose joinee is alive. */
  lemma RunsKeepStatus(n: nat, ops: seq<Op>, t: nat)
    requires t < n
    ensures var s := Exec(Initial(n), ops); |s.status| == n && StatusLaw(s, t)
  {
    SizeStays(n, ops);
    StatusIs(Exec(Initial(n), ops), t);
  }

  ghost predicate StatusLaw(s: Sched, t: nat) {
    && t < |s.status| == |s.joinee|
    && (s.status[t] == CondWaiting <==> exists c :: t in At(s.lists, Cond(c)))
    && (t in TokenRing(s) ==> s.status[t] != CondWaiting && s.status[t] != Exit)
    && (s.status[t] == Ready ==> t in TokenRing(s))
    && ((exists b :: t in At(s.lists, Bar(b))) ==> s.status[t] == BarrWaiting)
    && (s.status[t] == BarrWaiting ==> t in TokenRing(s) || exists b :: t in At(s.lists, Bar(b)))
    && (s.status[t] == Joining ==>
          s.joinee[t] < |s.status| && (t in TokenRing(s) <==> s.status[s.joinee[t]] == Exit))
  }

  lemma StatusIs(s: Sched, t: nat)
    requires Inv(s) && t < |s.status|
    ensures StatusLaw(s, t)
  {
    assert StatusOk(s, t);
    if t in TokenRing(s) && WaitsForCond(s, t) {
      var c :| t in At(s.lists, Cond(c));
      InOneList(s.lists, t, Active, Cond(c));
    }
  }

  lemma InOneList(m: Contents, t: nat, p: QueueId, q: QueueId)
    requires Apart(m) && t in At(m, p) && t in At(m, q)
    ensures p == q
  {
    var i :| 0 <= i < |At(m, p)| && At(m, p)[i] == t;
    var j :| 0 <= j < |At(m, q)| && At(m, q)[j] == t;
  }

  lemma {:induction false} SizeStays(n: nat, ops: seq<Op>)
    ensures |Exec(Initial(n), ops).status| == n
  {
    if ops != [] {
      SizeStays(n, ops[..|ops| - 1]);
      SameSize(Exec(Initial(n), ops[..|ops| - 1]), ops[|ops| - 1]);
    }
  }

  lemma SameSize(s: Sched, op: Op)
    requires Inv(s)
    ensures |Apply(s, op).status| == |s.status|
  {
  }

  // ---- What the fields stand for ----

  /** The parent that the thread has been registered with last. */
  ghost function ParentGiven(n: nat, ops: seq<Op>, t: nat): nat {
    if ops == [] then 0
    else
      var last, before := ops[|ops| - 1], ops[..|ops| - 1];
      if last.DoRegister? && last.t == t && Enabled(Exec(Initial(n), before), last) then last.parent
      else ParentGiven(n, before, t)
  }

  /** The number of threads that the barrier has been set up for last. */
  ghost function CountGiven(n: nat, ops: seq<Op>, b: nat): Option<nat> {
    if ops == [] then None
    else
      var last, before := ops[|ops| - 1], ops[..|ops| - 1];
      if last.DoBarrierInit? && last.b == b && Enabled(Exec(Initial(n), before), last) then Some(last.count)
      else CountGiven(n, before, b)
  }

  lemma OnlyRegistered(s: Sched, op: Op, t: nat)
    requires Inv(s) && t < |s.status|
    ensures var r := Apply(s, op);
            t < |r.parent|
            && r.parent[t] == if op.DoRegister? && op.t == t && Enabled(s, op) then op.parent else s.parent[t]
  {
  }

  lemma OnlySetUp(s: Sched, op: Op)
    requires Inv(s)
    ensures Apply(s, op).limit == if op.DoBarrierInit? && Enabled(s, op) then s.limit[op.b := op.count] else s.limit
  {
    if Enabled(s, op) && !op.DoBarrierInit? {
      Untouched(s, op);
    }
  }

  /** Only the set-up of a barrier changes its count. */
  lemma Untouched(s: Sched, op: Op)
    requires Inv(s) && Enabled(s, op) && !op.DoBarrierInit?
    ensures Apply(s, op).limit == s.limit
  {
    match op
    case DoExit(my) => ExitLimit(s, my);
    case DoBarrier(my, b) => BarrierLimit(s, my, b);
    case DoJoin(my, guest) => JoinLimit(s, my, guest);
    case _ =>
  }

  lemma ExitLimit(s: Sched, my: nat)
    requires my in TokenRing(s) && my < |s.status| == |s.parent| == |s.joinee|
    ensures Deregister(s, my).limit == s.limit
  {
  }

  lemma BarrierLimit(s: Sched, my: nat, b: nat)
    requires my in TokenRing(s) && my < |s.status| && b in s.limit && b in s.threads
    ensures BarrierWait(s, my, b).limit == s.limit
  {
  }

  lemma JoinLimit(s: Sched, my: nat, guest: nat)
    requires my in TokenRing(s) && my < |s.status| == |s.joinee| && guest < |s.status|
    ensures Join(s, my, guest).limit == s.limit
  {
  }

  /** In every run a thread's parent is the one it was registered with, and a barrier's limit the count it
      was set up for. */
  lemma {:induction false} RunsRemember(n: nat, ops: seq<Op>, t: nat, b: nat)
    requires t < n
    ensures var s := Exec(Initial(n), ops);
            && |s.status| == n && s.parent[t] == ParentGiven(n, ops, t)
            && CountGiven(n, ops, b) == if b in s.limit then Some(s.limit[b]) else None
  {
    SizeStays(n, ops);
    if ops != [] {
      RunsRemember(n, ops[..|ops| - 1], t, b);
      OnlyRegistered(Exec(Initial(n), ops[..|ops| - 1]), ops[|ops| - 1], t);
      OnlySetUp(Exec(Initial(n), ops[..|ops| - 1]), ops[|ops| - 1]);
    }
  }

  /** So a thread that comes to a barrier finds its queue empty afterwards, and has opened it, exactly if it
      is the last of as many as the barrier was set up for; otherwise it is at the end of the queue. */
  lemma BarrierCounts(n: nat, ops: seq<Op>, my: nat, b: nat, count: nat)
    requires my < n && CountGiven(n, ops, b) == Some(count) && HoldsToken(Exec(Initial(n), ops), my)
    ensures var s := Exec(Initial(n), ops);
            && b in s.limit && b in s.threads
            && At(BarrierWait(s, my, b).lists, Bar(b)) ==
               if |At(s.lists, Bar(b))| + 1 == count then [] else At(s.lists, Bar(b)) + [my]
  {
    RunsRemember(n, ops, my, b);
  }

  /** When the thread has last started to wait, or come to a barrier. */
  ghost function WaitsSince(n: nat, ops: seq<Op>, t: nat): int {
    if ops == [] then -1
    else
      var last, before := ops[|ops| - 1], ops[..|ops| - 1];
      if (last.DoWait? || last.DoBarrier?) && last.my == t && Enabled(Exec(Initial(n), before), last) then |before|
      else WaitsSince(n, before, t)
  }

  lemma {:induction false} SinceBound(n: nat, ops: seq<Op>, t: nat)
    ensures WaitsSince(n, ops, t) < |ops|
  {
    if ops != [] {
      SinceBound(n, ops[..|ops| - 1], t);
    }
  }

  ghost predicate Blocks(s: Sched, op: Op)
    requires Inv(s)
  {
    (op.DoWait? || op.DoBarrier?) && Enabled(s, op)
  }

  /** A queue stays, loses its first thread or all, or gets the caller at its end. */
  ghost predicate QueueMoves(s: Sched, op: Op, a: seq<nat>, b: seq<nat>)
    requires Inv(s)
  {
    b == a || b == [] || (a != [] && b == a[1..]) || (Blocks(s, op) && b == a + [op.my])
  }

  lemma QueueStep(s: Sched, op: Op, q: QueueId)
    requires Inv(s) && q != Active
    ensures QueueMoves(s, op, At(s.lists, q), At(Apply(s, op).lists, q))
  {
    if op.DoExit? {
      ExitQueues(s, op.my, q);
    } else if Enabled(s, op) && (op.DoWait? || op.DoBarrier? || op.DoJoin?) {
      BlockQueues(s, op, q);
    }
  }

  lemma ExitQueues(s: Sched, my: nat, q: QueueId)
    requires Inv(s) && q != Active
    ensures At(Apply(s, DoExit(my)).lists, q) == At(s.lists, q)
  {
    if Enabled(s, DoExit(my)) {
      DeregisterLists(s, my);
    }
  }

  lemma BlockQueues(s: Sched, op: Op, q: QueueId)
    requires Inv(s) && q != Active && Enabled(s, op) && (op.DoWait? || op.DoBarrier? || op.DoJoin?)
    ensures QueueMoves(s, op, At(s.lists, q), At(Apply(s, op).lists, q))
  {
  }

  ghost function Since(n: nat, ops: seq<Op>): nat -> int {
    (t: nat) => WaitsSince(n, ops, t)
  }

  ghost predicate InOrder(queue: seq<nat>, since: nat -> int) {
    forall i, j :: 0 <= i < j < |queue| ==> since(queue[i]) < since(queue[j])
  }

  lemma StaysInOrder(a: seq<nat>, b: seq<nat>, my: nat, blocks: bool, was: nat -> int, now: nat -> int, top: int)
    requires InOrder(a, was) && (blocks ==> my !in a)
    requires b == a || b == [] || (a != [] && b == a[1..]) || (blocks && b == a + [my])
    requires forall t: nat :: was(t) < top && now(t) == if blocks && t == my then top else was(t)
    ensures InOrder(b, now)
  {
    if b == a + [my] && b != a {
      assert forall i :: 0 <= i < |a| ==> b[i] == a[i];
    }
  }

  /** In every run the queues are in the order in which their threads have started to wait. */
  lemma {:induction false} QueuesInOrder(n: nat, ops: seq<Op>, q: QueueId)
    requires q != Active
    ensures InOrder(At(Exec(Initial(n), ops).lists, q), Since(n, ops))
  {
    if ops != [] {
      var op, before := ops[|ops| - 1], ops[..|ops| - 1];
      QueuesInOrder(n, before, q);
      OrderStep(n, before, op, q);
      assert ops == before + [op];
    }
  }

  lemma ExecStep(n: nat, before: seq<Op>, op: Op)
    ensures Exec(Initial(n), before + [op]) == Apply(Exec(Initial(n), before), op)
  {
    assert (before + [op])[..|before|] == before;
  }

  lemma SinceStep(n: nat, before: seq<Op>, op: Op, t: nat)
    ensures WaitsSince(n, before + [op], t) ==
            if Blocks(Exec(Initial(n), before), op) && op.my == t then |before| else WaitsSince(n, before, t)
  {
    assert (before + [op])[..|before|] == before;
  }

  lemma OrderStep(n: nat, before: seq<Op>, op: Op, q: QueueId)
    requires q != Active && InOrder(At(Exec(Initial(n), before).lists, q), Since(n, before))
    ensures InOrder(At(Exec(Initial(n), before + [op]).lists, q), Since(n, before + [op]))
  {
    var s := Exec(Initial(n), before);
    var a, b := At(s.lists, q), At(Apply(s, op).lists, q);
    var blocks := Blocks(s, op);
    ExecStep(n, before, op);
    QueueStep(s, op, q);
    var my := if blocks then op.my else 0;
    if blocks && my in a {
      InOneList(s.lists, my, Active, q);
    }
    forall t: nat
      ensures WaitsSince(n, before, t) < |before|
      ensures WaitsSince(n, before + [op], t) == if blocks && t == my then |before| else WaitsSince(n, before, t)
    {
      SinceBound(n, before, t);
      SinceStep(n, before, op, t);
    }
    StaysInOrder(a, b, my, blocks, Since(n, before), Since(n, before + [op]), |before|);
  }

  // ---- Where the token goes ----

  function Wrap(i: nat, n: nat): nat {
    if i < n then i else i - n
  }

  /** Who holds the token after it has been put `k` times. */
  ghost function TokenAfter(s: Sched, k: nat): nat
    requires TokenInRing(s)
    decreases k
  {
    if k == 0 then s.token.value
    else
      TokenAfter(PutToken(s, s.token.value), k - 1)
  }

  /** The token walks along the ring, and round it. */
  lemma {:induction false} TokenWalks(s: Sched, i: nat, k: nat)
    requires Apart(s.lists) && TokenInRing(s) && i < |TokenRing(s)| && TokenRing(s)[i] == s.token.value
    requires k <= |TokenRing(s)|
    ensures TokenAfter(s, k) == TokenRing(s)[Wrap(i + k, |TokenRing(s)|)]
    decreases k
  {
    if k > 0 {
      assert Position(TokenRing(s), s.token.value) == i;
      TokenWalks(PutToken(s, s.token.value), Wrap(i + 1, |TokenRing(s)|), k - 1);
    }
  }

  /** When the holder has left the ring, the token goes to the others as if it had only put it. */
  lemma OthersGoOn(s: Sched, r: Sched, my: nat, k: nat)
    requires Inv(s) && HoldsToken(s, my) && k + 1 < |TokenRing(s)| && Apart(r.lists)
    requires TokenRing(r) == Without(TokenRing(s), Position(TokenRing(s), my)) && r.token == Some(Next(s, my))
    ensures TokenInRing(r) && TokenAfter(r, k) == TokenAfter(s, k + 1)
  {
    var ring, i := TokenRing(s), Position(TokenRing(s), my);
    var j := if i + 1 < |ring| then i else 0;
    assert TokenRing(r)[j] == r.token.value;
    TokenWalks(s, i, k + 1);
    TokenWalks(r, j, k);
  }

  /** A thread that blocks, whether in cond_wait, at a barrier or in a join, passes the token on to the
      others in the order of the ring. */
  lemma BlockedOrder(s: Sched, op: Op, k: nat)
    requires Inv(s) && Enabled(s, op) && (op.DoWait? || op.DoBarrier? || op.DoJoin?) && k + 1 < |TokenRing(s)|
    requires op.my !in TokenRing(Apply(s, op))
    ensures TokenInRing(Apply(s, op)) && TokenAfter(Apply(s, op), k) == TokenAfter(s, k + 1)
  {
    BlockedRing(s, op);
    OthersGoOn(s, Apply(s, op), op.my, k);
  }

  lemma BlockedRing(s: Sched, op: Op)
    requires Inv(s) && Enabled(s, op) && (op.DoWait? || op.DoBarrier? || op.DoJoin?)
    requires op.my !in TokenRing(Apply(s, op))
    ensures var r := Apply(s, op);
            && Apart(r.lists) && r.token == Some(Next(s, op.my))
            && TokenRing(r) == Without(TokenRing(s), Position(TokenRing(s), op.my))
  {
    match op {
      case DoWait(my, c) => CondWaitInv(s, my, c);
      case DoBarrier(my, b) => BarrierRing(s, my, b);
      case DoJoin(my, guest) => JoinRing(s, my, guest);
    }
  }

  lemma BarrierRing(s: Sched, my: nat, b: nat)
    requires Inv(s) && HoldsToken(s, my) && b in s.limit
    requires my !in TokenRing(BarrierWait(s, my, b))
    ensures var r := BarrierWait(s, my, b);
            && Apart(r.lists) && r.token == Some(Next(s, my))
            && TokenRing(r) == Without(TokenRing(s), Position(TokenRing(s), my))
  {
    BarrierWaitInv(s, my, b);
    MovedIn(s.lists, Active, Position(TokenRing(s), my), Bar(b));
  }

  lemma JoinRing(s: Sched, my: nat, guest: nat)
    requires Inv(s) && HoldsToken(s, my) && guest < |s.status| && s.parent[guest] == my && |TokenRing(s)| > 1
    requires s.status[guest] != Exit
    ensures var r := Join(s, my, guest);
            && Apart(r.lists) && r.token == Some(Next(s, my))
            && TokenRing(r) == Without(TokenRing(s), Position(TokenRing(s), my))
  {
    JoinInv(s, my, guest);
  }

  /** The released threads `At(s.lists, q)` stand behind `my` in the ring of `r`. */
  lemma ReleasedOrder(s: Sched, r: Sched, my: nat, q: QueueId, i: nat, k: nat)
    requires Apart(s.lists) && i < |TokenRing(s)| && TokenRing(s)[i] == my && q != Active && k <= |At(s.lists, q)|
    requires TokenRing(r) == InsertedAfter(TokenRing(s), i, At(s.lists, q))
    ensures i < |TokenRing(r)| && TokenRing(r)[i] == my && i + k + 1 <= |TokenRing(r)|
    ensures TokenRing(r)[if i + k + 1 < |TokenRing(r)| then i + k + 1 else 0] ==
            if k < |At(s.lists, q)| then At(s.lists, q)[k] else Next(s, my)
  {
    var xs := At(s.lists, q);
    assert Position(TokenRing(s), my) == i;
    InsertedIndex(TokenRing(s), i, xs, i);
    if i + k + 1 < |TokenRing(r)| {
      InsertedIndex(TokenRing(s), i, xs, i + k + 1);
    } else {
      InsertedIndex(TokenRing(s), i, xs, 0);
    }
  }

  /** After a broadcast the token visits the waiters first, in the order in which they started to
      wait, and then goes on where it would have gone. */
  lemma BroadcastOrder(s: Sched, my: nat, c: nat, k: nat)
    requires Inv(s) && HoldsToken(s, my) && k <= |At(s.lists, Cond(c))|
    ensures var r := CondBroadcast(s, my, c);
            var waiters := At(s.lists, Cond(c));
            Inv(r) && TokenInRing(r) && At(r.lists, Cond(c)) == []
            && (forall t: nat :: t < |s.status| ==> r.status[t] == if t in waiters then Ready else s.status[t])
            && TokenAfter(r, k + 1) == if k < |waiters| then waiters[k] else Next(s, my)
  {
    var r := CondBroadcast(s, my, c);
    CondBroadcastInv(s, my, c);
    BroadcastRing(s, my, c);
    ReleasedWalk(s, r, my, Cond(c), Position(TokenRing(s), my), k);
  }

  lemma BroadcastRing(s: Sched, my: nat, c: nat)
    requires my in TokenRing(s) && |At(s.lists, Cond(c))| == Get(s.waiters, c)
    ensures TokenRing(CondBroadcast(s, my, c)) ==
              InsertedAfter(TokenRing(s), Position(TokenRing(s), my), At(s.lists, Cond(c)))
  {
  }

  lemma ReleasedWalk(s: Sched, r: Sched, my: nat, q: QueueId, i: nat, k: nat)
    requires Apart(s.lists) && i < |TokenRing(s)| && TokenRing(s)[i] == my && q != Active && k <= |At(s.lists, q)|
    requires TokenRing(r) == InsertedAfter(TokenRing(s), i, At(s.lists, q))
    requires Apart(r.lists) && TokenInRing(r) && r.token == Some(my)
    ensures TokenAfter(r, k + 1) == if k < |At(s.lists, q)| then At(s.lists, q)[k] else Next(s, my)
  {
    ReleasedOrder(s, r, my, q, i, k);
    TokenWalks(r, i, k + 1);
  }

  /** A signal gives the token to the thread that has waited longest, right after the caller. */
  lemma SignalOrder(s: Sched, my: nat, c: nat)
    requires Inv(s) && HoldsToken(s, my)
    ensures var r := CondSignal(s, my, c);
            var waiters := At(s.lists, Cond(c));
            Inv(r) && TokenInRing(r)
            && TokenAfter(r, 1) == (if waiters == [] then Next(s, my) else waiters[0])
            && At(r.lists, Cond(c)) == (if waiters == [] then [] else waiters[1..])
            && forall t: nat :: t < |s.status| ==>
                 r.status[t] == if waiters != [] && t == waiters[0] then Ready else s.status[t]
  {
    var r := CondSignal(s, my, c);
    CondSignalInv(s, my, c);
    SignalQueue(s, my, c);
    if At(s.lists, Cond(c)) == [] {
      TokenWalks(r, Position(TokenRing(s), my), 1);
    } else {
      SignalledNext(s, my, c);
    }
  }

  lemma SignalQueue(s: Sched, my: nat, c: nat)
    requires Inv(s) && my in TokenRing(s)
    ensures var r := CondSignal(s, my, c);
            var waiters := At(s.lists, Cond(c));
            && |r.status| == |s.status| && (waiters == [] ==> r == s)
            && At(r.lists, Cond(c)) == (if waiters == [] then [] else waiters[1..])
            && forall t: nat :: t < |s.status| ==>
                 r.status[t] == if waiters != [] && t == waiters[0] then Ready else s.status[t]
  {
  }

  lemma SignalledNext(s: Sched, my: nat, c: nat)
    requires Inv(s) && HoldsToken(s, my) && At(s.lists, Cond(c)) != []
    requires Apart(CondSignal(s, my, c).lists) && TokenInRing(CondSignal(s, my, c))
    ensures TokenAfter(CondSignal(s, my, c), 1) == At(s.lists, Cond(c))[0]
  {
    var r := CondSignal(s, my, c);
    var i, x := Position(TokenRing(s), my), At(s.lists, Cond(c))[0];
    InsertedIndex(TokenRing(s), i, [x], i);
    InsertedIndex(TokenRing(s), i, [x], i + 1);
    assert TokenRing(r) == InsertedAfter(TokenRing(s), i, [x]);
    TokenWalks(r, i, 1);
  }

  /** The last thread to reach a barrier passes the token to those it releases, in order of arrival,
      and then to the thread that was next. */
  lemma BarrierOrder(s: Sched, my: nat, b: nat, k: nat)
    requires Inv(s) && HoldsToken(s, my) && b in s.limit && s.threads[b] + 1 == s.limit[b] && k <= |At(s.lists, Bar(b))|
    ensures var r := BarrierWait(s, my, b);
            var waiters := At(s.lists, Bar(b));
            Inv(r) && TokenInRing(r) && At(r.lists, Bar(b)) == []
            && TokenAfter(r, k) == if k < |waiters| then waiters[k] else Next(s, my)
  {
    var r := BarrierWait(s, my, b);
    var i := Position(TokenRing(s), my);
    BarrierWaitInv(s, my, b);
    ReleasedOrder(s, r, my, Bar(b), i, 0);
    ReleasedOrder(s, r, my, Bar(b), i, k);
    if i + 1 < |TokenRing(r)| {
      TokenWalks(r, i + 1, k);
    } else {
      assert k == 0;
    }
  }
}
