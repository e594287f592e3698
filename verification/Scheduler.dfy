/** What the scheduler's operations do to the lists, the token, the fence count and the thread
    states, and what every run of them keeps. */
module Scheduler {
  import opened Options
  import opened RingList
  import opened Queues
  import Fence

  const SIZE_MAX: nat := 0xFFFF_FFFF_FFFF_FFFF

  datatype Status = CondWaiting | BarrWaiting | Ready | Exit | Joining

  /** `max` is `_maxthreads`, `curr` is `_currthreads`.  `pending` (children that are registered but
      not yet in the fence) and `rejoining` (joiners that are back in the ring but not yet awake)
      are history. */
  datatype Sched = Sched(
    lists: Contents, token: Option<nat>, max: nat, curr: nat, arrival: bool, alive: nat,
    waiters: map<nat, nat>, limit: map<nat, nat>, threads: map<nat, nat>,
    status: seq<Status>, parent: seq<nat>, joinee: seq<nat>,
    pending: set<nat>, rejoining: set<nat>)

  function TokenRing(s: Sched): seq<nat> {
    At(s.lists, Active)
  }

  function Get(m: map<nat, nat>, k: nat): nat {
    if k in m then m[k] else 0
  }

  function Live(s: Sched): set<nat> {
    set t | 0 <= t < |s.status| && s.status[t] != Exit
  }

  function DecrFence(s: Sched): Sched {
    var max := if s.max > 0 then s.max - 1 else SIZE_MAX;
    s.(max := max, arrival := s.arrival && !(s.curr >= max && max != 0))
  }

  /** The part of the scheduler that the fence has, too. */
  ghost predicate SameFence(s: Sched, f: Fence.State) {
    s.max == f.max && s.curr == f.curr && s.arrival == f.arrival
  }

  /** The fence's steps of leaving, coming back and starting do to this part what the scheduler does. */
  lemma FenceAgrees(s: Sched, f: Fence.State, t: nat, ts: set<nat>)
    requires SameFence(s, f) && t < |f.threads|
    ensures SameFence(DecrFence(s), Fence.DecrFence(f, t))
    ensures !f.threads[t].member ==> SameFence(s.(max := s.max + 1), Fence.Step(f, Fence.Incr(t)))
    ensures SameFence(StartFence(s, |ts|), Fence.StartFence(f, ts))
  {
  }

  ghost predicate HoldsToken(s: Sched, my: nat) {
    my < |s.status| && s.token == Some(my) && my in TokenRing(s) && my !in s.pending && my !in s.rejoining
  }

  ghost predicate TokenInRing(s: Sched) {
    s.token.Some? && s.token.value in TokenRing(s)
  }

  ghost function Next(s: Sched, my: nat): nat
    requires my in TokenRing(s)
  {
    Successor(TokenRing(s), Position(TokenRing(s), my))
  }

  // ---- The operations ----

  ghost function Register(s: Sched, t: nat, parent: nat): Sched
    requires t < |s.status| == |s.parent|
  {
    s.(token := if s.token == None then Some(t) else s.token,
       lists := Appended(s.lists, Active, t),
       status := s.status[t := Ready], parent := s.parent[t := parent],
       pending := s.pending + {t})
  }

  ghost function StartFence(s: Sched, n: nat): Sched {
    s.(max := s.max + n, alive := s.alive + n, arrival := true, pending := {})
  }

  ghost function PutToken(s: Sched, my: nat): Sched
    requires my in TokenRing(s)
  {
    s.(token := Some(Next(s, my)))
  }

  ghost function CondWait(s: Sched, my: nat, c: nat): Sched
    requires my in TokenRing(s) && my < |s.status|
  {
    var i := Position(TokenRing(s), my);
    DecrFence(s.(lists := Appended(Removed(s.lists, Active, i), Cond(c), my),
                 waiters := s.waiters[c := Get(s.waiters, c) + 1],
                 status := s.status[my := CondWaiting],
                 token := Some(Next(s, my))))
  }

  ghost function CondSignal(s: Sched, my: nat, c: nat): Sched
    requires my in TokenRing(s)
  {
    if Get(s.waiters, c) == 0 || At(s.lists, Cond(c)) == [] then s
    else
      var x := At(s.lists, Cond(c))[0];
      s.(lists := Inserted(Removed(s.lists, Cond(c), 0), Active, Position(TokenRing(s), my), x),
         waiters := s.waiters[c := s.waiters[c] - 1],
         status := Woken(s.status, [x]),
         max := s.max + 1)
  }

  function Woken(status: seq<Status>, xs: seq<nat>): seq<Status> {
    seq(|status|, t requires 0 <= t < |status| => if t in xs then Ready else status[t])
  }

  ghost function CondBroadcast(s: Sched, my: nat, c: nat): Sched
    requires my in TokenRing(s)
  {
    if Get(s.waiters, c) == 0 then s
    else
      s.(lists := Moved(s.lists, Active, Position(TokenRing(s), my), Cond(c)),
         waiters := s.waiters[c := 0],
         status := Woken(s.status, At(s.lists, Cond(c))),
         max := s.max + s.waiters[c])
  }

  ghost function BarrierInit(s: Sched, b: nat, count: nat): Sched {
    s.(limit := s.limit[b := count], threads := s.threads[b := 0])
  }

  ghost function BarrierWait(s: Sched, my: nat, b: nat): Sched
    requires my in TokenRing(s) && my < |s.status| && b in s.limit && b in s.threads
  {
    var i := Position(TokenRing(s), my);
    if s.threads[b] + 1 == s.limit[b] then
      var lists := Moved(s.lists, Active, i, Bar(b));
      s.(lists := lists, threads := s.threads[b := 0], max := s.max + s.limit[b] - 1,
         token := Some(Successor(At(lists, Active), i)))
    else
      DecrFence(s.(lists := Appended(Removed(s.lists, Active, i), Bar(b), my),
                   threads := s.threads[b := s.threads[b] + 1],
                   status := s.status[my := BarrWaiting],
                   token := Some(Next(s, my))))
  }

  /** join: goes on if the joinee has exited, otherwise leaves the ring and passes the token. */
  ghost function Join(s: Sched, my: nat, guest: nat): Sched
    requires my in TokenRing(s) && my < |s.status| == |s.joinee| && guest < |s.status|
  {
    if s.status[guest] == Exit then s.(status := s.status[my := Ready])
    else
      var lists := Removed(s.lists, Active, Position(TokenRing(s), my));
      DecrFence(s.(lists := lists,
                   status := s.status[my := Joining], joinee := s.joinee[my := guest],
                   token := if At(lists, Active) == [] then s.token else Some(Next(s, my))))
  }

  /** A joiner wakes up; it sleeps again unless its joinee has exited. */
  ghost function JoinWake(s: Sched, my: nat): Sched
    requires my < |s.status| == |s.joinee| && s.joinee[my] < |s.status|
  {
    var r := s.(max := s.max + 1);
    if s.status[s.joinee[my]] == Exit then r.(status := s.status[my := Ready], rejoining := s.rejoining - {my})
    else DecrFence(r)
  }

  ghost predicate ParentJoins(s: Sched, my: nat)
    requires my < |s.status| == |s.parent| == |s.joinee|
  {
    s.parent[my] < |s.status| && s.status[s.parent[my]] == Joining && s.joinee[s.parent[my]] == my
  }

  /** The ring just before the exiting thread leaves it. */
  ghost function WithParent(s: Sched, my: nat): Contents
    requires my in TokenRing(s) && my < |s.status| == |s.parent| == |s.joinee|
  {
    if ParentJoins(s, my) then Inserted(s.lists, Active, Position(TokenRing(s), my), s.parent[my]) else s.lists
  }

  ghost function Deregister(s: Sched, my: nat): Sched
    requires my in TokenRing(s) && my < |s.status| == |s.parent| == |s.joinee|
  {
    var i := Position(TokenRing(s), my);
    var lists := WithParent(s, my);
    var r := s.(lists := Removed(lists, Active, i),
                status := s.status[my := Exit],
                rejoining := if ParentJoins(s, my) then s.rejoining + {s.parent[my]} else s.rejoining,
                token := Some(Successor(At(lists, Active), i)));
    if s.alive > 0 then DecrFence(r.(alive := s.alive - 1)) else r
  }

  // ---- The invariant ----

  /** The fence counts every thread in the ring but the children not yet in the fence and the joiners
      not yet awake. */
  ghost predicate Conserved(s: Sched) {
    && (forall t :: t in s.pending ==> t in TokenRing(s) && t < |s.status|)
    && (forall t :: t in s.rejoining ==> t in TokenRing(s) && t !in s.pending)
    && |TokenRing(s)| == s.max + |s.pending| + |s.rejoining|
    && s.alive + |s.pending| == |Live(s)|
  }

  ghost predicate WaitsForCond(s: Sched, t: nat) {
    exists c :: t in At(s.lists, Cond(c))
  }

  ghost predicate WaitsAtBarrier(s: Sched, t: nat) {
    exists b :: t in At(s.lists, Bar(b))
  }

  /** A thread waits for a condition variable exactly if it is in the queue of one; one in the queue of a
      barrier waits at it, and keeps that status when it is back in the ring; a ready one is in the ring.
      Exited threads are in no list; a joiner is in the ring if its joinee has exited, and in no list
      otherwise. */
  ghost predicate StatusOk(s: Sched, t: nat)
    requires t < |s.status| == |s.joinee| == |s.parent|
  {
    && (s.status[t] == CondWaiting <==> WaitsForCond(s, t))
    && (WaitsAtBarrier(s, t) ==> s.status[t] == BarrWaiting)
    && (s.status[t] == BarrWaiting ==> WaitsAtBarrier(s, t) || t in TokenRing(s))
    && (s.status[t] == Ready ==> t in TokenRing(s))
    && (s.status[t] == Exit ==> forall q :: t !in At(s.lists, q))
    && (s.status[t] == Joining ==>
          s.joinee[t] < |s.status| && s.parent[s.joinee[t]] == t
          && (t in s.rejoining <==> s.status[s.joinee[t]] == Exit)
          && forall q :: t in At(s.lists, q) ==> q == Active && t in s.rejoining)
    && (t in s.rejoining ==> s.status[t] == Joining)
  }

  ghost predicate Inv(s: Sched) {
    && |s.status| == |s.parent| == |s.joinee|
    && Fits(s.lists, |s.status|)
    && (forall c :: |At(s.lists, Cond(c))| == Get(s.waiters, c))
    && (forall b :: |At(s.lists, Bar(b))| == Get(s.threads, b))
    && s.limit.Keys == s.threads.Keys
    && Conserved(s)
    && (forall t :: 0 <= t < |s.status| ==> StatusOk(s, t))
  }

  // ---- Every operation keeps it ----

  function Elems(xs: seq<nat>): set<nat> {
    set x | x in xs
  }

  lemma {:induction false} ElementCount(xs: seq<nat>)
    requires forall i, j :: 0 <= i < j < |xs| ==> xs[i] != xs[j]
    ensures |Elems(xs)| == |xs|
  {
    if xs == [] {
      assert Elems(xs) == {};
    } else {
      var n := |xs| - 1;
      ElementCount(xs[..n]);
      assert Elems(xs) == Elems(xs[..n]) + {xs[n]};
      assert xs[n] !in Elems(xs[..n]);
    }
  }

  lemma RingCount(s: Sched)
    requires Inv(s)
    ensures |Elems(TokenRing(s))| == |TokenRing(s)|
  {
    ElementCount(TokenRing(s));
  }

  /** The caller is a member of the fence, and it is alive. */
  lemma CallerCounted(s: Sched, my: nat)
    requires Inv(s) && HoldsToken(s, my)
    ensures s.max > 0 && s.alive > 0
  {
    RingCount(s);
    var counted := s.pending + s.rejoining + {my};
    assert |counted| == |s.pending + s.rejoining| + 1;
    assert s.pending !! s.rejoining;
    assert |s.pending + s.rejoining| == |s.pending| + |s.rejoining|;
    Larger(Elems(TokenRing(s)), counted);
    PendingLive(s, my);
    Larger(Live(s), s.pending + {my});
  }

  lemma PendingLive(s: Sched, my: nat)
    requires Inv(s) && HoldsToken(s, my)
    ensures s.pending + {my} <= Live(s)
  {
    forall t | t in s.pending + {my}
      ensures t in Live(s)
    {
      assert StatusOk(s, t) && t in At(s.lists, Active);
    }
  }

  lemma Larger(a: set<nat>, b: set<nat>)
    requires b <= a
    ensures |b| <= |a|
  {
    assert a == b + (a - b);
  }

  /** A thread that is in the ring and stays alive leaves it for a waiting queue. */
  lemma BlockInv(s: Sched, r: Sched, my: nat, q: QueueId, st: Status)
    requires Inv(s) && HoldsToken(s, my) && q != Active && |r.status| == |r.parent| == |r.joinee|
    requires r.lists == Appended(Removed(s.lists, Active, Position(TokenRing(s), my)), q, my)
    requires st == (if q.Cond? then CondWaiting else BarrWaiting) && r.status == s.status[my := st]
    requires r.joinee == s.joinee && r.parent == s.parent && r.pending == s.pending && r.rejoining == s.rejoining
             && r.alive == s.alive
    requires r.max == s.max - 1 && r.limit.Keys == r.threads.Keys
    requires forall c :: Get(r.waiters, c) == Get(s.waiters, c) + if q == Cond(c) then 1 else 0
    requires forall b :: Get(r.threads, b) == Get(s.threads, b) + if q == Bar(b) then 1 else 0
    ensures Inv(r)
  {
    BlockLists(s, my, q);
    BlockLengths(s, r, my, q);
    assert StatusOk(s, my);
    BlockStatus(s, r, my, q, st);
    BlockConserved(s, r, my, st);
  }

  lemma BlockConserved(s: Sched, r: Sched, my: nat, st: Status)
    requires Conserved(s) && my < |s.status| && s.status[my] != Exit && st != Exit && my !in s.pending
             && my !in s.rejoining
    requires r.status == s.status[my := st] && r.pending == s.pending && r.rejoining == s.rejoining
             && r.alive == s.alive
    requires r.max == s.max - 1 && |TokenRing(r)| == |TokenRing(s)| - 1
    requires forall x :: x in TokenRing(r) <==> x in TokenRing(s) && x != my
    ensures Conserved(r)
  {
    assert Live(r) == Live(s);
  }

  lemma BlockStatus(s: Sched, r: Sched, my: nat, q: QueueId, st: Status)
    requires my < |s.status| == |s.joinee| == |s.parent| && s.status[my] != Exit && my !in s.rejoining
    requires forall t :: 0 <= t < |s.status| ==> StatusOk(s, t)
    requires q != Active && st == (if q.Cond? then CondWaiting else BarrWaiting) && r.status == s.status[my := st]
    requires r.joinee == s.joinee && r.parent == s.parent && r.rejoining == s.rejoining
    requires forall p, x {:trigger x in At(r.lists, p)} :: x in At(r.lists, p) <==>
               if x == my then p == q else x in At(s.lists, p)
    ensures forall t :: 0 <= t < |r.status| ==> StatusOk(r, t)
  {
    forall t | 0 <= t < |r.status|
      ensures StatusOk(r, t)
    {
      assert StatusOk(s, t);
      if t != my {
        StatusStays(s, r, t);
      }
    }
  }

  lemma BlockLengths(s: Sched, r: Sched, my: nat, q: QueueId)
    requires my in TokenRing(s) && q != Active
    requires r.lists == Appended(Removed(s.lists, Active, Position(TokenRing(s), my)), q, my)
    ensures |TokenRing(r)| == |TokenRing(s)| - 1
    ensures forall p :: p != Active ==> |At(r.lists, p)| == |At(s.lists, p)| + if p == q then 1 else 0
  {
    assert TokenRing(r) == Without(TokenRing(s), Position(TokenRing(s), my));
  }

  /** The lists when `my` moves from the ring to the waiting queue `q`. */
  lemma BlockLists(s: Sched, my: nat, q: QueueId)
    requires Fits(s.lists, |s.status|) && my in TokenRing(s) && q != Active
    ensures var m := Appended(Removed(s.lists, Active, Position(TokenRing(s), my)), q, my);
            && Fits(m, |s.status|)
            && (forall p, x {:trigger x in At(m, p)} :: x in At(m, p) <==>
                  if x == my then p == q else x in At(s.lists, p))
  {
    var i := Position(TokenRing(s), my);
    var m := Removed(s.lists, Active, i);
    RemovedFits(s.lists, |s.status|, Active, i);
    RemovedIn(s.lists, |s.status|, Active, i);
    AppendedFits(m, |s.status|, q, my);
    AppendedIn(m, q, my);
  }

  lemma CondWaitInv(s: Sched, my: nat, c: nat)
    requires Inv(s) && HoldsToken(s, my)
    ensures Inv(CondWait(s, my, c))
    ensures TokenInRing(CondWait(s, my, c)) <==> |TokenRing(s)| > 1
  {
    CallerCounted(s, my);
    BlockInv(s, CondWait(s, my, c), my, Cond(c), CondWaiting);
    LeavesRing(s, my);
  }

  /** The successor of an element that is taken out is still there, unless it was alone. */
  lemma SuccessorStays(xs: seq<nat>, i: nat)
    requires i < |xs| && forall j :: 0 <= j < |xs| && xs[j] == xs[i] ==> j == i
    ensures Successor(xs, i) in Without(xs, i) <==> |xs| > 1
  {
    if |xs| > 1 {
      var j := if i + 1 < |xs| then i + 1 else 0;
      assert Without(xs, i)[if j < i then j else j - 1] == xs[j];
    }
  }

  lemma LeavesRing(s: Sched, my: nat)
    requires Inv(s) && my in TokenRing(s)
    ensures Next(s, my) in Without(TokenRing(s), Position(TokenRing(s), my)) <==> |TokenRing(s)| > 1
  {
    SuccessorStays(TokenRing(s), Position(TokenRing(s), my));
  }

  lemma RegisterStatus(s: Sched, r: Sched, t: nat, u: nat)
    requires u < |s.status| == |s.joinee| == |s.parent| && StatusOk(s, u) && t < |s.status| && t != u
    requires s.status[t] == Exit && (s.status[u] == Joining ==> s.joinee[u] != t)
    requires r.status == s.status[t := Ready] && r.joinee == s.joinee && r.rejoining == s.rejoining
    requires |r.parent| == |s.parent| && forall v :: 0 <= v < |s.parent| && v != t ==> r.parent[v] == s.parent[v]
    requires forall q :: u in At(r.lists, q) <==> u in At(s.lists, q)
    ensures StatusOk(r, u)
  {
  }

  lemma RegisterLists(s: Sched, t: nat)
    requires Fits(s.lists, |s.status|) && t < |s.status| && forall q :: t !in At(s.lists, q)
    ensures var m := Appended(s.lists, Active, t);
            && Fits(m, |s.status|)
            && (forall q :: q != Active ==> At(m, q) == At(s.lists, q))
            && (forall q, u :: u != t ==> (u in At(m, q) <==> u in At(s.lists, q)))
            && t in At(m, Active)
  {
    assert forall q, i :: 0 <= i < |At(s.lists, q)| ==> At(s.lists, q)[i] in At(s.lists, q);
    AppendedFits(s.lists, |s.status|, Active, t);
    AppendedIn(s.lists, Active, t);
  }

  lemma RegisterLive(s: Sched, t: nat, parent: nat)
    requires t < |s.status| == |s.parent| && s.status[t] == Exit
    ensures |Live(Register(s, t, parent))| == |Live(s)| + 1
  {
    assert Live(Register(s, t, parent)) == Live(s) + {t};
    assert t !in Live(s);
  }

  lemma RegisterConserved(s: Sched, t: nat, parent: nat)
    requires |s.status| == |s.parent| && Conserved(s) && t < |s.status| && s.status[t] == Exit && t !in TokenRing(s)
    ensures Conserved(Register(s, t, parent))
  {
    var r := Register(s, t, parent);
    assert TokenRing(r) == TokenRing(s) + [t];
    RegisterLive(s, t, parent);
    assert t !in s.pending;
    assert forall u :: u in r.pending + r.rejoining ==> u in TokenRing(s) || u == t;
  }

  lemma RegisterInv(s: Sched, t: nat, parent: nat)
    requires Inv(s) && t < |s.status| && s.status[t] == Exit
    requires forall u :: 0 <= u < |s.status| && s.status[u] == Joining ==> s.joinee[u] != t
    ensures Inv(Register(s, t, parent))
  {
    var r := Register(s, t, parent);
    assert StatusOk(s, t);
    RegisterLists(s, t);
    RegisterConserved(s, t, parent);
    forall u | 0 <= u < |r.status|
      ensures StatusOk(r, u)
    {
      assert StatusOk(s, u);
      if u != t {
        RegisterStatus(s, r, t, u);
      }
    }
  }

  lemma StartFenceInv(s: Sched)
    requires Inv(s)
    ensures Inv(StartFence(s, |s.pending|))
  {
    var r := StartFence(s, |s.pending|);
    assert Live(r) == Live(s);
    forall u | 0 <= u < |r.status|
      ensures StatusOk(r, u)
    {
      assert StatusOk(s, u);
    }
  }

  lemma PutTokenInv(s: Sched, my: nat)
    requires Inv(s) && my in TokenRing(s)
    ensures Inv(PutToken(s, my)) && TokenInRing(PutToken(s, my))
  {
    var r := PutToken(s, my);
    assert Live(r) == Live(s);
    forall u | 0 <= u < |r.status|
      ensures StatusOk(r, u)
    {
      assert StatusOk(s, u);
    }
  }

  /** The threads `xs`, all of waiting queue `q`, come back into the ring. */
  lemma ReleaseInv(s: Sched, r: Sched, q: QueueId, xs: seq<nat>)
    requires Inv(s) && q != Active && Fits(r.lists, |s.status|)
    requires r.status == if q.Cond? then Woken(s.status, xs) else s.status
    requires |r.parent| == |s.parent| && r.parent == s.parent && r.joinee == s.joinee
    requires r.pending == s.pending && r.rejoining == s.rejoining && r.alive == s.alive
             && r.limit.Keys == r.threads.Keys
    requires forall x :: x in xs ==> x in At(s.lists, q)
    requires forall p, x {:trigger x in At(r.lists, p)} :: x in At(r.lists, p) <==>
               if x in xs then p == Active else x in At(s.lists, p)
    requires |TokenRing(r)| == |TokenRing(s)| + |xs| && r.max == s.max + |xs|
    requires forall c :: |At(r.lists, Cond(c))| == Get(r.waiters, c)
    requires forall b :: |At(r.lists, Bar(b))| == Get(r.threads, b)
    ensures Inv(r)
  {
    forall x | x in xs
      ensures x < |s.status| && s.status[x] != Exit && s.status[x] != Joining
    {
      assert x in At(s.lists, q) && StatusOk(s, x);
    }
    assert Live(r) == Live(s);
    forall t | 0 <= t < |r.status|
      ensures StatusOk(r, t)
    {
      assert StatusOk(s, t);
      ReleaseStatus(s, r, q, xs, t);
    }
  }

  lemma ReleaseStatus(s: Sched, r: Sched, q: QueueId, xs: seq<nat>, t: nat)
    requires t < |s.status| == |s.parent| == |s.joinee| && StatusOk(s, t) && q != Active
    requires r.status == if q.Cond? then Woken(s.status, xs) else s.status
    requires r.parent == s.parent && r.joinee == s.joinee && r.rejoining == s.rejoining
    requires forall x :: x in xs ==>
               x in At(s.lists, q) && x < |s.status| && s.status[x] != Exit && s.status[x] != Joining
    requires forall p :: t in At(r.lists, p) <==> if t in xs then p == Active else t in At(s.lists, p)
    ensures StatusOk(r, t)
  {
    if t !in xs {
      StatusStays(s, r, t);
    }
  }

  lemma CondSignalInv(s: Sched, my: nat, c: nat)
    requires Inv(s) && my in TokenRing(s)
    ensures Inv(CondSignal(s, my, c)) && (TokenInRing(s) ==> TokenInRing(CondSignal(s, my, c)))
  {
    var r := CondSignal(s, my, c);
    if r != s {
      var x := At(s.lists, Cond(c))[0];
      SignalLists(s, my, c);
      ReleaseInv(s, r, Cond(c), [x]);
    }
  }

  /** The lists when the first waiter of `c` moves behind `my` in the ring. */
  lemma SignalLists(s: Sched, my: nat, c: nat)
    requires Fits(s.lists, |s.status|) && my in TokenRing(s) && At(s.lists, Cond(c)) != []
    ensures var x := At(s.lists, Cond(c))[0];
            var m := Inserted(Removed(s.lists, Cond(c), 0), Active, Position(TokenRing(s), my), x);
            && Fits(m, |s.status|)
            && (forall p, y {:trigger y in At(m, p)} :: y in At(m, p) <==>
                  if y == x then p == Active else y in At(s.lists, p))
            && |At(m, Active)| == |TokenRing(s)| + 1 && |At(m, Cond(c))| == |At(s.lists, Cond(c))| - 1
            && forall p :: p != Active && p != Cond(c) ==> At(m, p) == At(s.lists, p)
  {
    var x := At(s.lists, Cond(c))[0];
    var m := Removed(s.lists, Cond(c), 0);
    var i := Position(TokenRing(s), my);
    RemovedFits(s.lists, |s.status|, Cond(c), 0);
    RemovedIn(s.lists, |s.status|, Cond(c), 0);
    InsertedFits(m, |s.status|, Active, i, x);
    InsertedIn(m, Active, i, x);
  }

  lemma CondBroadcastInv(s: Sched, my: nat, c: nat)
    requires Inv(s) && my in TokenRing(s)
    ensures Inv(CondBroadcast(s, my, c)) && (TokenInRing(s) ==> TokenInRing(CondBroadcast(s, my, c)))
  {
    var r := CondBroadcast(s, my, c);
    if r != s {
      var i := Position(TokenRing(s), my);
      MovedFits(s.lists, |s.status|, Active, i, Cond(c));
      MovedIn(s.lists, Active, i, Cond(c));
      ReleaseInv(s, r, Cond(c), At(s.lists, Cond(c)));
    }
  }

  lemma BarrierInitInv(s: Sched, b: nat, count: nat)
    requires Inv(s) && Get(s.threads, b) == 0
    ensures Inv(BarrierInit(s, b, count))
  {
    var r := BarrierInit(s, b, count);
    assert Live(r) == Live(s);
    forall u | 0 <= u < |r.status|
      ensures StatusOk(r, u)
    {
      assert StatusOk(s, u);
    }
  }

  lemma BarrierWaitInv(s: Sched, my: nat, b: nat)
    requires Inv(s) && HoldsToken(s, my) && b in s.limit
    ensures Inv(BarrierWait(s, my, b))
    ensures TokenInRing(BarrierWait(s, my, b)) <==> |TokenRing(s)| > 1 || s.threads[b] + 1 == s.limit[b]
  {
    if s.threads[b] + 1 == s.limit[b] {
      OpenBarrierInv(s, my, b);
    } else {
      CallerCounted(s, my);
      BlockInv(s, BarrierWait(s, my, b), my, Bar(b), BarrWaiting);
      LeavesRing(s, my);
    }
  }

  lemma OpenBarrierInv(s: Sched, my: nat, b: nat)
    requires Inv(s) && HoldsToken(s, my) && b in s.limit && s.threads[b] + 1 == s.limit[b]
    ensures Inv(BarrierWait(s, my, b)) && TokenInRing(BarrierWait(s, my, b))
  {
    var i := Position(TokenRing(s), my);
    MovedFits(s.lists, |s.status|, Active, i, Bar(b));
    MovedIn(s.lists, Active, i, Bar(b));
    assert |At(s.lists, Bar(b))| == s.threads[b];
    ReleaseInv(s, BarrierWait(s, my, b), Bar(b), At(s.lists, Bar(b)));
  }

  /** A thread nothing has happened to. */
  lemma StatusStays(s: Sched, r: Sched, u: nat)
    requires u < |s.status| == |s.joinee| == |s.parent| && StatusOk(s, u)
    requires |r.status| == |r.joinee| == |r.parent| == |s.status| && r.parent == s.parent
    requires r.status[u] == s.status[u] && r.joinee[u] == s.joinee[u]
    requires forall q :: u in At(r.lists, q) <==> u in At(s.lists, q)
    requires s.status[u] != Joining ==> u !in r.rejoining
    requires s.status[u] == Joining ==> (u in r.rejoining <==> u in s.rejoining)
    requires s.status[u] == Joining ==> (r.status[s.joinee[u]] == Exit <==> s.status[s.joinee[u]] == Exit)
    ensures StatusOk(r, u)
  {
  }

  lemma JoinBlockInv(s: Sched, my: nat, guest: nat)
    requires Inv(s) && HoldsToken(s, my) && guest < |s.status| && s.parent[guest] == my && s.status[guest] != Exit
    ensures Inv(Join(s, my, guest))
  {
    var r := Join(s, my, guest);
    var i := Position(TokenRing(s), my);
    CallerCounted(s, my);
    RemovedFits(s.lists, |s.status|, Active, i);
    RemovedIn(s.lists, |s.status|, Active, i);
    assert StatusOk(s, my) && s.status[my] != Exit;
    assert Live(r) == Live(s);
    forall u | 0 <= u < |r.status|
      ensures StatusOk(r, u)
    {
      assert StatusOk(s, u);
      if u != my {
        StatusStays(s, r, u);
      } else {
        assert forall q :: my !in At(r.lists, q);
      }
    }
  }

  lemma JoinInv(s: Sched, my: nat, guest: nat)
    requires Inv(s) && HoldsToken(s, my) && guest < |s.status| && s.parent[guest] == my
    ensures Inv(Join(s, my, guest))
    ensures TokenInRing(Join(s, my, guest)) <==> |TokenRing(s)| > 1 || s.status[guest] == Exit
  {
    var r := Join(s, my, guest);
    if s.status[guest] == Exit {
      assert StatusOk(s, my);
      assert Live(r) == Live(s);
      forall u | 0 <= u < |r.status|
        ensures StatusOk(r, u)
      {
        assert StatusOk(s, u);
        if u != my {
          StatusStays(s, r, u);
        }
      }
    } else {
      JoinBlockInv(s, my, guest);
      LeavesRing(s, my);
      assert TokenRing(r) == Without(TokenRing(s), Position(TokenRing(s), my));
    }
  }

  lemma JoinWakeInv(s: Sched, my: nat)
    requires Inv(s) && my < |s.status| && s.status[my] == Joining && s.joinee[my] < |s.status|
    ensures Inv(JoinWake(s, my)) && (TokenInRing(s) ==> TokenInRing(JoinWake(s, my)))
  {
    var r := JoinWake(s, my);
    assert StatusOk(s, my);
    assert Live(r) == Live(s);
    forall u | 0 <= u < |r.status|
      ensures StatusOk(r, u)
    {
      assert StatusOk(s, u);
      if u != my {
        StatusStays(s, r, u);
      }
    }
  }

  lemma WithParentInv(s: Sched, my: nat)
    requires Inv(s) && HoldsToken(s, my)
    ensures var m := WithParent(s, my);
            && Fits(m, |s.status|)
            && (forall q, x {:trigger x in At(m, q)} :: x in At(m, q) <==>
                  x in At(s.lists, q) || (ParentJoins(s, my) && q == Active && x == s.parent[my]))
            && |At(m, Active)| == |TokenRing(s)| + (if ParentJoins(s, my) then 1 else 0)
            && (forall q :: q != Active ==> At(m, q) == At(s.lists, q))
            && At(m, Active)[Position(TokenRing(s), my)] == my
            && (ParentJoins(s, my) ==>
                  s.parent[my] != my && s.parent[my] !in s.rejoining && s.parent[my] !in TokenRing(s))
  {
    if ParentJoins(s, my) {
      var p := s.parent[my];
      assert StatusOk(s, p) && StatusOk(s, my);
      forall q, i | 0 <= i < |At(s.lists, q)|
        ensures At(s.lists, q)[i] != p
      {
        assert At(s.lists, q)[i] in At(s.lists, q);
      }
      InsertedFits(s.lists, |s.status|, Active, Position(TokenRing(s), my), p);
      InsertedIn(s.lists, Active, Position(TokenRing(s), my), p);
    }
  }

  lemma DeregisterLists(s: Sched, my: nat)
    requires Inv(s) && HoldsToken(s, my)
    ensures var r := Deregister(s, my);
            && Fits(r.lists, |s.status|)
            && (forall q :: q != Active ==> At(r.lists, q) == At(s.lists, q))
            && |TokenRing(r)| == |TokenRing(s)| - 1 + (if ParentJoins(s, my) then 1 else 0)
            && (forall q, x {:trigger x in At(r.lists, q)} :: x in At(r.lists, q) <==>
                  x != my && (x in At(s.lists, q) || (ParentJoins(s, my) && q == Active && x == s.parent[my])))
  {
    var m := WithParent(s, my);
    var i := Position(TokenRing(s), my);
    WithParentInv(s, my);
    RemovedFits(m, |s.status|, Active, i);
    RemovedIn(m, |s.status|, Active, i);
  }

  lemma DeregisterInv(s: Sched, my: nat)
    requires Inv(s) && HoldsToken(s, my)
    ensures Inv(Deregister(s, my))
  {
    var r := Deregister(s, my);
    CallerCounted(s, my);
    DeregisterLists(s, my);
    assert StatusOk(s, my);
    assert Live(s) == Live(r) + {my} && my !in Live(r);
    DeregisterConserved(s, r, my);
    DeregisterStatus(s, r, my);
  }

  lemma DeregisterConserved(s: Sched, r: Sched, my: nat)
    requires Inv(s) && HoldsToken(s, my) && |Live(s)| == |Live(r)| + 1
    requires r.pending == s.pending && r.max == s.max - 1 && r.alive == s.alive - 1 && |r.status| == |s.status|
    requires r.rejoining == if ParentJoins(s, my) then s.rejoining + {s.parent[my]} else s.rejoining
    requires |TokenRing(r)| == |TokenRing(s)| - 1 + (if ParentJoins(s, my) then 1 else 0)
    requires forall x {:trigger x in TokenRing(r)} :: x in TokenRing(r) <==>
               x != my && (x in TokenRing(s) || (ParentJoins(s, my) && x == s.parent[my]))
    ensures Conserved(r)
  {
    if ParentJoins(s, my) {
      WithParentInv(s, my);
      assert |r.rejoining| == |s.rejoining| + 1;
    }
  }

  lemma DeregisterStatus(s: Sched, r: Sched, my: nat)
    requires Inv(s) && my < |s.status| && s.status[my] != Joining && my !in s.rejoining
    requires r.status == s.status[my := Exit] && r.joinee == s.joinee && r.parent == s.parent
    requires r.rejoining == if ParentJoins(s, my) then s.rejoining + {s.parent[my]} else s.rejoining
    requires s.status[my] != Exit
    requires forall q, x {:trigger x in At(r.lists, q)} :: x in At(r.lists, q) <==>
               x != my && (x in At(s.lists, q) || (ParentJoins(s, my) && q == Active && x == s.parent[my]))
    ensures forall u :: 0 <= u < |s.status| ==> StatusOk(r, u)
  {
    forall u | 0 <= u < |s.status|
      ensures StatusOk(r, u)
    {
      assert StatusOk(s, u);
      if u != my && !(ParentJoins(s, my) && u == s.parent[my]) {
        StatusStays(s, r, u);
      }
    }
  }

  /** An exiting child hands the token to the parent that joins it; otherwise the token goes to its
      successor, which is still in the ring unless the child was alone. */
  lemma DeregisterToken(s: Sched, my: nat)
    requires Inv(s) && HoldsToken(s, my)
    ensures TokenInRing(Deregister(s, my)) <==> |TokenRing(s)| > 1 || ParentJoins(s, my)
    ensures Deregister(s, my).token == Some(if ParentJoins(s, my) then s.parent[my] else Next(s, my))
  {
    var ring := At(WithParent(s, my), Active);
    var i := Position(TokenRing(s), my);
    WithParentInv(s, my);
    SuccessorStays(ring, i);
    HandOver(s, my);
  }

  lemma HandOver(s: Sched, my: nat)
    requires my in TokenRing(s) && my < |s.status| == |s.parent| == |s.joinee|
    ensures var i := Position(TokenRing(s), my);
            var ring := At(WithParent(s, my), Active);
            && i < |ring|
            && Successor(ring, i) == (if ParentJoins(s, my) then s.parent[my] else Next(s, my))
            && TokenRing(Deregister(s, my)) == Without(ring, i)
            && Deregister(s, my).token == Some(Successor(ring, i))
  {
    var i := Position(TokenRing(s), my);
    if ParentJoins(s, my) {
      InsertedIndex(TokenRing(s), i, [s.parent[my]], i + 1);
    }
  }
}
