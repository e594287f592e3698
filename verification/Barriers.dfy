/** The opening of a barrier (determ.h, barrier_wait) and what can come after it.

    The last thread to reach a barrier has the token and has committed.  In one critical section it
    puts the waiters into the ring right behind itself, resets the twin counter and gives the token to
    the next in the ring; then it and the waiters run on without a fence, while threads that have not
    had the token in this round still wait for it, and those that have had it wait at the second fence.
    So from here on the threads need not be in step: the machine has the ring, the token, and one fence
    for both uses (xrun.h: before a thread gets the token, and after it has put it). */
module Barriers {
  import opened Pages
  import opened TwinBitmap
  import opened Persist
  import opened CommitRuns

  /** The phases are those of the commit rounds: Running outside fences and token, Waiting from the
      first fence to the put, Done at the second fence.  The threads in `past` have left the first
      fence; of these, the one at `token` has the token. */
  datatype Net = Net(s: State, ring: seq<nat>, token: nat, past: set<nat>)

  datatype Move = Act(t: nat, action: Action) | OpenFence(keep: bool)

  /** Each thread is in the ring, once. */
  ghost predicate IsRing(ring: seq<nat>, threads: nat) {
    && |ring| == threads
    && (forall i :: 0 <= i < |ring| ==> ring[i] < threads)
    && (forall i, j :: 0 <= i < j < |ring| ==> ring[i] != ring[j])
    && (forall u: nat :: u < threads ==> u in ring)
  }

  ghost predicate NetSized(c: Config, n: Net) {
    WellSized(c, n.s) && IsRing(n.ring, c.threads) && n.token < |n.ring|
  }

  /** The thread waits for everybody else to arrive. */
  ghost predicate AtFence(n: Net, u: nat)
    requires u < |n.s.threads|
  {
    n.s.threads[u].phase == Done || (n.s.threads[u].phase == Waiting && u !in n.past)
  }

  ghost predicate HasToken(n: Net, u: nat)
    requires u < |n.s.threads| && n.token < |n.ring|
  {
    n.s.threads[u].phase == Waiting && u in n.past && n.ring[n.token] == u
  }

  ghost predicate MayMove(c: Config, n: Net, u: nat)
    requires NetSized(c, n)
  {
    u < c.threads && (n.s.threads[u].phase == Running || HasToken(n, u))
  }

  ghost function Acted(c: Config, n: Net, u: nat, action: Action): (r: Net)
    requires NetSized(c, n)
    ensures NetSized(c, r) && r.ring == n.ring
  {
    if !MayMove(c, n, u) then n
    else
      var th := n.s.threads[u];
      match action
      case Write(p, at, value, next) => n.(s := StepWrite(c, n.s, u, p, at, value, next))
      case Sync(next) =>
        if th.phase == Running then n.(s := Update(n.s, u, th.(regs := next, phase := Waiting))) else n
      case Commit(next) => n.(s := StepCommit(c, n.s, u, next))
      case Begin(next) => if th.cursor == c.pages then n.(s := Update(n.s, u, Clean(th).(regs := next))) else n
      case Put(next) =>
        if th.phase == Waiting && (th.cursor == c.pages || (th.dirty == map[] && th.cursor == 0)) then
          Yielded(n, u, next, c.threads)
        else n
  }

  /** The token goes to the next in the ring; the thread begins anew and waits at the second fence. */
  ghost function Yielded(n: Net, u: nat, next: Regs, threads: nat): Net
    requires u < |n.s.threads|
  {
    var s := Update(n.s, u, Clean(n.s.threads[u]).(regs := next, phase := Done));
    n.(s := s.(turn := if s.turn < threads then s.turn + 1 else s.turn),
       token := if n.token + 1 < |n.ring| then n.token + 1 else 0,
       past := n.past - {u})
  }

  ghost function AllWaiting(s: State): (r: set<nat>)
    ensures forall u: nat :: u in r <==> u < |s.threads| && s.threads[u].phase == Waiting
  {
    set u: nat | u < |s.threads| && s.threads[u].phase == Waiting
  }

  /** When all have arrived, the fence opens: those at the first go on to the token, those at the second
      run on.  The last to leave resets the twin counter, unless it is one at the first. */
  ghost function Opened(c: Config, n: Net, keep: bool): (r: Net)
    requires NetSized(c, n)
    ensures NetSized(c, r) && r.ring == n.ring
  {
    var waiting := AllWaiting(n.s);
    var last := if keep then Waiting else Done;
    if (exists u: nat :: u < c.threads && !AtFence(n, u))
       || !(exists u: nat :: u < c.threads && n.s.threads[u].phase == last) then n
    else if forall u: nat :: u < c.threads ==> u in waiting then n.(past := waiting)
    else
      var threads := seq(c.threads, u requires 0 <= u < c.threads =>
        if n.s.threads[u].phase == Done then n.s.threads[u].(phase := Running) else n.s.threads[u]);
      n.(s := State(if keep then n.s.sh else n.s.sh.(cur := 1), threads, 0, n.s.round + 1, n.s.sh.mem), past := waiting)
  }

  ghost function After(c: Config, n: Net, x: Move): (r: Net)
    requires NetSized(c, n)
    ensures NetSized(c, r) && r.ring == n.ring
  {
    match x
    case Act(u, action) => Acted(c, n, u, action)
    case OpenFence(keep) => Opened(c, n, keep)
  }

  ghost function Moves(c: Config, n: Net, xs: seq<Move>): (r: Net)
    requires NetSized(c, n)
    ensures NetSized(c, r) && r.ring == n.ring
  {
    if xs == [] then n else After(c, Moves(c, n, xs[..|xs| - 1]), xs[|xs| - 1])
  }

  /** Everybody waits, at a fence that not everybody is at, or for a token that does not come. */
  ghost predicate Deadlocked(c: Config, n: Net)
    requires NetSized(c, n)
  {
    && (forall u: nat :: u < c.threads ==> n.s.threads[u].phase != Running && !HasToken(n, u))
    && exists u: nat :: u < c.threads && !AtFence(n, u)
  }

  /** What the thread with the token commits is compared with its own fault-time pages. */
  ghost predicate Right(c: Config, n: Net)
    requires NetSized(c, n)
  {
    forall u: nat, p: nat | u < c.threads && p < c.pages && HasToken(n, u) && Uncommitted(n.s.threads[u], p) ::
      WithTwin(n.s.sh, p).cur <= MAX_TWINS + 1 ==>
        CommitBase(n.s.sh, p, n.s.threads[u].dirty[p].version) == n.s.threads[u].dirty[p].snap
  }

  ghost predicate Within(c: Config, n: Net, xs: seq<Move>)
    requires NetSized(c, n)
  {
    Healthy(Moves(c, n, xs).s) && (xs == [] || Within(c, n, xs[..|xs| - 1]))
  }

  /** Whatever the threads do from here, short of another barrier: there is no deadlock, and within the
      limits every commit is right. */
  ghost predicate Harmless(c: Config, n: Net)
    requires NetSized(c, n)
  {
    forall xs: seq<Move> ::
      !Deadlocked(c, Moves(c, n, xs)) && (Within(c, n, xs) ==> Right(c, Moves(c, n, xs)))
  }

  // ---- The barrier ----

  /** Thread `t` has the token, has committed and comes to a barrier as its last thread.  In the ring,
      which starts at `t` here, the waiters will be next; then come the threads that have not had the
      token in this round, and those that have. */
  ghost predicate Opens(c: Config, s: State, t: nat, waiters: seq<nat>, pending: seq<nat>, done: seq<nat>) {
    && WellSized(c, s) && t < c.threads && IsRing([t] + waiters + pending + done, c.threads)
    && s.threads[t].phase == Waiting && s.threads[t].cursor == c.pages
    && (forall u: nat :: u < c.threads ==>
          if u in pending then s.threads[u].phase == Waiting && s.threads[u].cursor == 0
          else u == t || (s.threads[u].phase == Done && forall p: nat :: p < c.pages ==> !Uncommitted(s.threads[u], p)))
    && (forall u: nat, p :: u < c.threads && p in s.threads[u].dirty ==> p < c.pages)
    && UsersOk(c, s)
    && (forall p :: 0 <= p < c.pages && s.sh.index[p] != 0 ==> s.sh.users[p] > 0)
  }

  /** Those that wait for the token keep their copies. */
  ghost function AfterBarrier(c: Config, s: State, t: nat, waiters: seq<nat>, pending: seq<nat>, done: seq<nat>)
    : (n: Net)
    requires Opens(c, s, t, waiters, pending, done)
    ensures NetSized(c, n)
  {
    var threads := seq(c.threads, u requires 0 <= u < c.threads =>
      if u in pending then s.threads[u]
      else Clean(s.threads[u]).(phase := if u in done then Done else Running));
    Net(State(s.sh.(cur := 1), threads, 0, s.round + 1, s.sh.mem),
        [t] + waiters + pending + done, if c.threads > 1 then 1 else 0, set u | u in pending)
  }

  lemma NobodyCopies(c: Config, s: State)
    requires WellSized(c, s) && UsersOk(c, s)
    requires forall u: nat, p: nat :: u < c.threads && p < c.pages ==> !Uncommitted(s.threads[u], p)
    ensures forall p :: 0 <= p < c.pages ==> s.sh.users[p] == 0
  {
    forall p: nat | p < c.pages
      ensures s.sh.users[p] == 0
    {
      WritersPositive(s.threads, p);
    }
  }

  lemma {:induction false} MovesOn(c: Config, n: Net, a: seq<Move>, b: seq<Move>)
    requires NetSized(c, n)
    ensures Moves(c, n, a + b) == Moves(c, Moves(c, n, a), b)
  {
    if b == [] {
      assert a + b == a;
    } else {
      var k := |b| - 1;
      MovesOn(c, n, a, b[..k]);
      assert (a + b)[..|a + b| - 1] == a + b[..k] && (a + b)[|a + b| - 1] == b[k];
    }
  }

  lemma {:induction false} WithinThen(c: Config, n: Net, a: seq<Move>, b: seq<Move>)
    requires NetSized(c, n) && Within(c, n, a) && Within(c, Moves(c, n, a), b)
    ensures Within(c, n, a + b)
  {
    if b == [] {
      assert a + b == a;
    } else {
      var k := |b| - 1;
      WithinThen(c, n, a, b[..k]);
      MovesOn(c, n, a, b);
      assert (a + b)[..|a + b| - 1] == a + b[..k];
    }
  }

  lemma MovesThen(c: Config, n: Net, a: seq<Move>, b: seq<Move>)
    requires NetSized(c, n)
    ensures Moves(c, n, a + b) == Moves(c, Moves(c, n, a), b)
    ensures Within(c, n, a) && Within(c, Moves(c, n, a), b) ==> Within(c, n, a + b)
  {
    MovesOn(c, n, a, b);
    if Within(c, n, a) && Within(c, Moves(c, n, a), b) {
      WithinThen(c, n, a, b);
    }
  }

  lemma OneMove(c: Config, n: Net, x: Move)
    requires NetSized(c, n)
    ensures Moves(c, n, [x]) == After(c, n, x)
    ensures Healthy(n.s) && Healthy(After(c, n, x).s) ==> Within(c, n, [x])
  {
    assert [x][..0] == [] && Moves(c, n, []) == n;
  }
}
