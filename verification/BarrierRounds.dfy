/** A barrier that all threads in the fence take part in ends the round: everything afterwards is again
    a run of the commit rounds. */
module BarrierRounds {
  import opened Pages
  import opened TwinBitmap
  import opened Persist
  import opened CommitRuns
  import opened CommitInvariant
  import opened CommitTheorems
  import opened Barriers

  /** The ring, read from its `k`-th entry on. */
  function Rotated(ring: seq<nat>, k: nat): seq<nat>
    requires k < |ring|
  {
    ring[k..] + ring[..k]
  }

  function Wrap(x: nat, n: nat): nat {
    if x >= n then x - n else x
  }

  /** The rounds in which the token goes along the ring from its `k`-th entry. */
  function InRing(c: Config, ring: seq<nat>, k: nat): Config
    requires k < |ring|
  {
    c.(order := (r: nat) => Rotated(ring, k))
  }

  lemma RotatedAt(ring: seq<nat>, k: nat, i: nat)
    requires k < |ring| && i < |ring|
    ensures |Rotated(ring, k)| == |ring| && Wrap(k + i, |ring|) < |ring|
    ensures Rotated(ring, k)[i] == ring[Wrap(k + i, |ring|)]
  {
  }

  lemma InRingValid(c: Config, ring: seq<nat>, k: nat)
    requires 0 < c.pages && IsRing(ring, c.threads) && k < |ring|
    ensures InRing(c, ring, k).Valid()
    ensures forall u: nat :: u < c.threads ==> u in Rotated(ring, k)
  {
    var o := Rotated(ring, k);
    assert |o| == |ring|;
    forall i | 0 <= i < |o|
      ensures o[i] < c.threads
    {
      RotatedAt(ring, k, i);
    }
    forall i, j | 0 <= i < j < |o|
      ensures o[i] != o[j]
    {
      RotatedAt(ring, k, i);
      RotatedAt(ring, k, j);
    }
    forall u: nat | u < c.threads
      ensures u in o
    {
      assert u in ring;
      var i :| 0 <= i < |ring| && ring[i] == u;
      assert i >= k ==> o[i - k] == u;
      assert i < k ==> o[|ring| - k + i] == u;
    }
  }

  /** In step: either all are before the first fence, or all have left it; the threads have their turns
      along the ring. */
  ghost predicate InStep(c: Config, n: Net, k: nat) {
    && NetSized(c, n) && k < |n.ring|
    && n.token == (if n.s.turn < |n.ring| then Wrap(k + n.s.turn, |n.ring|) else k)
    && (forall i :: 0 <= i < c.threads ==> (n.s.threads[Rotated(n.ring, k)[i]].phase == Done <==> i < n.s.turn))
    && (forall u: nat :: u < c.threads ==> n.s.threads[u].phase != Waiting ==> n.s.threads[u].cursor == 0)
    && (forall u: nat :: u < c.threads ==> n.s.threads[u].phase == Done ==> n.s.threads[u].dirty == map[])
    && (n.past == {} || AllArrived(n.s))
    && (n.s.turn > 0 ==> AllArrived(n.s))
    && (forall u: nat :: u in n.past ==> u < c.threads && n.s.threads[u].phase == Waiting)
    && (n.past != {} || n.s.turn > 0 ==>
          forall u: nat :: u < c.threads && n.s.threads[u].phase == Waiting ==> u in n.past)
  }

  lemma RoundSized(c: Config, n: Net, k: nat)
    requires InStep(c, n, k)
    ensures WellSized(InRing(c, n.ring, k), n.s)
  {
    InRingValid(c, n.ring, k);
  }

  /** The thread with the token is the one whose turn it is. */
  lemma TokenHolder(c: Config, n: Net, k: nat, u: nat)
    requires InStep(c, n, k) && u < c.threads && HasToken(n, u)
    ensures WellSized(InRing(c, n.ring, k), n.s) && Holder(InRing(c, n.ring, k), n.s, u)
    ensures n.s.turn < c.threads && Rotated(n.ring, k)[n.s.turn] == u
  {
    RoundSized(c, n, k);
    RotatedAt(n.ring, k, if n.s.turn < c.threads then n.s.turn else 0);
  }

  lemma PutInStep(c: Config, n: Net, k: nat, u: nat, next: Regs)
    requires InStep(c, n, k) && u < c.threads && HasToken(n, u)
    ensures InStep(c, Yielded(n, u, next, c.threads), k)
  {
    var r := Yielded(n, u, next, c.threads);
    TokenHolder(c, n, k, u);
    InRingValid(c, n.ring, k);
    var o := Rotated(n.ring, k);
    forall i | 0 <= i < c.threads
      ensures r.s.threads[o[i]].phase == Done <==> i < r.s.turn
    {
      assert i != n.s.turn ==> o[i] != u;
    }
  }

  lemma ActInStep(c: Config, n: Net, k: nat, u: nat, action: Action)
    requires InStep(c, n, k)
    ensures InStep(c, Acted(c, n, u, action), k)
  {
    if MayMove(c, n, u) {
      match action
      case Put(next) =>
        if Acted(c, n, u, action) != n {
          PutInStep(c, n, k, u, next);
        }
      case _ => SamePhaseInStep(c, n, k, u, action);
    }
  }

  lemma SamePhaseInStep(c: Config, n: Net, k: nat, u: nat, action: Action)
    requires InStep(c, n, k) && MayMove(c, n, u) && !action.Put?
    ensures InStep(c, Acted(c, n, u, action), k)
  {
    var r := Acted(c, n, u, action);
    assert forall v: nat :: v < c.threads && v != u ==> r.s.threads[v] == n.s.threads[v];
    assert r.s.turn == n.s.turn && r.token == n.token && r.past == n.past;
    InRingValid(c, n.ring, k);
  }

  /** Some thread is still to have its turn; after the last turn, all are at the second fence. */
  lemma DoneAre(c: Config, n: Net, k: nat)
    requires InStep(c, n, k)
    ensures n.s.turn == c.threads <==> forall u: nat :: u < c.threads ==> n.s.threads[u].phase == Done
    ensures n.s.turn == 0 <==> forall u: nat :: u < c.threads ==> n.s.threads[u].phase != Done
  {
    InRingValid(c, n.ring, k);
    var o := Rotated(n.ring, k);
    if n.s.turn == c.threads {
      forall u: nat | u < c.threads
        ensures n.s.threads[u].phase == Done
      {
        assert u in o;
        var i :| 0 <= i < |o| && o[i] == u;
      }
    } else {
      assert n.s.threads[o[n.s.turn]].phase != Done;
    }
    if n.s.turn == 0 {
      forall u: nat | u < c.threads
        ensures n.s.threads[u].phase != Done
      {
        assert u in o;
        var i :| 0 <= i < |o| && o[i] == u;
      }
    } else {
      assert n.s.threads[o[0]].phase == Done;
    }
  }

  /** When the fence opens, all are at the first one or all at the second. */
  lemma FenceInStep(c: Config, n: Net, k: nat, keep: bool)
    requires InStep(c, n, k) && Opened(c, n, keep) != n
    ensures var r := Opened(c, n, keep);
            || (n.s.turn == 0 && AllArrived(n.s) && r == n.(past := r.past)
                && forall u: nat :: u in r.past <==> u < c.threads && n.s.threads[u].phase == Waiting)
            || (n.s.turn == c.threads && r.past == {} && r.token == n.token && r.s.turn == 0
                && r.s.sh == n.s.sh.(cur := 1) && r.s.start == n.s.sh.mem && r.s.round == n.s.round + 1
                && forall u: nat :: u < c.threads ==>
                     n.s.threads[u].phase == Done && r.s.threads[u] == n.s.threads[u].(phase := Running))
  {
    DoneAre(c, n, k);
    assert forall u: nat :: u < c.threads ==> AtFence(n, u);
    forall u: nat | u < c.threads
      ensures n.s.threads[u].phase == if n.s.turn == 0 then Waiting else Done
    {
      assert AtFence(n, u);
    }
  }

  lemma OpenInStep(c: Config, n: Net, k: nat, keep: bool)
    requires InStep(c, n, k)
    ensures InStep(c, Opened(c, n, keep), k)
  {
    var r := Opened(c, n, keep);
    if r != n {
      InRingValid(c, n.ring, k);
      FenceInStep(c, n, k, keep);
      RotatedAt(n.ring, k, 0);
    }
  }

  lemma {:induction false} MovesInStep(c: Config, n: Net, k: nat, xs: seq<Move>)
    requires InStep(c, n, k)
    ensures InStep(c, Moves(c, n, xs), k)
  {
    if xs != [] {
      var m := Moves(c, n, xs[..|xs| - 1]);
      MovesInStep(c, n, k, xs[..|xs| - 1]);
      match xs[|xs| - 1]
      case Act(u, action) => ActInStep(c, m, k, u, action);
      case OpenFence(keep) => OpenInStep(c, m, k, keep);
    }
  }

  /** Threads in step do not get stuck. */
  lemma NoDeadlock(c: Config, n: Net, k: nat)
    requires InStep(c, n, k)
    ensures !Deadlocked(c, n)
  {
    DoneAre(c, n, k);
    if n.s.turn < c.threads {
      RotatedAt(n.ring, k, n.s.turn);
      var v := Rotated(n.ring, k)[n.s.turn];
      assert n.s.threads[v].phase != Done && v == n.ring[n.token];
      assert n.s.threads[v].phase == Waiting && n.past != {} ==> HasToken(n, v);
    }
  }

  // ---- The commit invariant ----

  /** In step, with the commit rounds' invariant. */
  ghost predicate InRounds(c: Config, n: Net, k: nat) {
    InStep(c, n, k) && Inv(InRing(c, n.ring, k), n.s)
  }

  lemma MayMoveMayRun(c: Config, n: Net, k: nat, u: nat)
    requires InRounds(c, n, k) && MayMove(c, n, u)
    ensures MayRun(InRing(c, n.ring, k), n.s, u)
    ensures n.s.threads[u].phase == Waiting ==> Holder(InRing(c, n.ring, k), n.s, u)
  {
    if HasToken(n, u) {
      TokenHolder(c, n, k, u);
    }
  }

  lemma PutInRounds(c: Config, n: Net, k: nat, u: nat, next: Regs)
    requires InRounds(c, n, k) && MayMove(c, n, u) && n.s.threads[u].phase == Waiting
    requires n.s.threads[u].cursor == c.pages || (n.s.threads[u].dirty == map[] && n.s.threads[u].cursor == 0)
    ensures Inv(InRing(c, n.ring, k), Yielded(n, u, next, c.threads).s)
  {
    var d := InRing(c, n.ring, k);
    MayMoveMayRun(c, n, k, u);
    PutInv(d, n.s, u, next);
    var p := StepPut(d, n.s, u, next);
    TokenHolder(c, n, k, u);
    if n.s.threads[u].cursor == c.pages {
      BeginInv(d, p, u, next);
      assert Yielded(n, u, next, c.threads).s == Update(p, u, Clean(p.threads[u]).(regs := next));
    } else {
      assert Yielded(n, u, next, c.threads).s == p;
    }
  }

  lemma WriteInRounds(c: Config, n: Net, k: nat, u: nat, p: nat, at: nat, value: Byte, next: Regs)
    requires InRounds(c, n, k) && MayMove(c, n, u) && Healthy(n.s)
    ensures Inv(InRing(c, n.ring, k), StepWrite(c, n.s, u, p, at, value, next))
  {
    var d := InRing(c, n.ring, k);
    MayMoveMayRun(c, n, k, u);
    WriteInv(d, n.s, u, p, at, value, next);
    assert StepWrite(d, n.s, u, p, at, value, next) == StepWrite(c, n.s, u, p, at, value, next);
  }

  lemma CommitInRounds(c: Config, n: Net, k: nat, u: nat, next: Regs)
    requires InRounds(c, n, k) && MayMove(c, n, u) && Healthy(StepCommit(c, n.s, u, next))
    ensures Inv(InRing(c, n.ring, k), StepCommit(c, n.s, u, next))
  {
    var d := InRing(c, n.ring, k);
    MayMoveMayRun(c, n, k, u);
    assert StepCommit(d, n.s, u, next) == StepCommit(c, n.s, u, next);
    if n.s.threads[u].phase == Waiting && n.s.threads[u].cursor < c.pages {
      CommitInv(d, n.s, u, next);
    }
  }

  lemma ActInRounds(c: Config, n: Net, k: nat, u: nat, action: Action)
    requires InRounds(c, n, k) && Healthy(n.s) && Healthy(Acted(c, n, u, action).s)
    ensures InRounds(c, Acted(c, n, u, action), k)
  {
    ActInStep(c, n, k, u, action);
    if MayMove(c, n, u) {
      var d := InRing(c, n.ring, k);
      var th := n.s.threads[u];
      MayMoveMayRun(c, n, k, u);
      match action
      case Write(p, at, value, next) => WriteInRounds(c, n, k, u, p, at, value, next);
      case Sync(next) => if th.phase == Running { SyncInv(d, n.s, u, next); }
      case Commit(next) => CommitInRounds(c, n, k, u, next);
      case Begin(next) => if th.cursor == c.pages { BeginInv(d, n.s, u, next); }
      case Put(next) => if Acted(c, n, u, action) != n { PutInRounds(c, n, k, u, next); }
    }
  }

  lemma OpenInRounds(c: Config, n: Net, k: nat, keep: bool)
    requires InRounds(c, n, k)
    ensures InRounds(c, Opened(c, n, keep), k)
  {
    OpenInStep(c, n, k, keep);
    var r := Opened(c, n, keep);
    if r != n {
      FenceInStep(c, n, k, keep);
      var d := InRing(c, n.ring, k);
      if n.s.turn == c.threads {
        RoundInv(d, n.s);
        assert r.s == StepRound(d, n.s);
      }
    }
  }

  lemma {:induction false} MovesInRounds(c: Config, n: Net, k: nat, xs: seq<Move>)
    requires InRounds(c, n, k) && Within(c, n, xs)
    ensures InRounds(c, Moves(c, n, xs), k)
  {
    if xs != [] {
      var before := xs[..|xs| - 1];
      var m := Moves(c, n, before);
      MovesInRounds(c, n, k, before);
      assert Healthy(m.s);
      match xs[|xs| - 1]
      case Act(u, action) => ActInRounds(c, m, k, u, action);
      case OpenFence(keep) => OpenInRounds(c, m, k, keep);
    }
  }

  lemma InRoundsRight(c: Config, n: Net, k: nat)
    requires InRounds(c, n, k)
    ensures Right(c, n)
  {
    var d := InRing(c, n.ring, k);
    forall u: nat, p: nat | u < c.threads && p < c.pages && HasToken(n, u) && Uncommitted(n.s.threads[u], p)
                            && WithTwin(n.s.sh, p).cur <= MAX_TWINS + 1
      ensures CommitBase(n.s.sh, p, n.s.threads[u].dirty[p].version) == n.s.threads[u].dirty[p].snap
    {
      TokenHolder(c, n, k, u);
      BaseIsSnapshot(d, n.s, u, p);
    }
  }

  // ---- The barrier of all threads ----

  /** After a barrier of all threads a round starts, in which the first waiter has the token first. */
  lemma RoundStarts(c: Config, s: State, t: nat, waiters: seq<nat>)
    requires Opens(c, s, t, waiters, [], [])
    ensures InRounds(c, AfterBarrier(c, s, t, waiters, [], []), if c.threads > 1 then 1 else 0)
  {
    var n := AfterBarrier(c, s, t, waiters, [], []);
    var k := if c.threads > 1 then 1 else 0;
    InRingValid(c, n.ring, k);
    NobodyCopies(c, s);
    forall p: nat | p < c.pages
      ensures n.s.sh.users[p] == Writers(n.s.threads, p) && n.s.sh.index[p] == 0
    {
      WritersPositive(n.s.threads, p);
    }
  }

  /** Such a barrier is harmless. */
  lemma FullBarrier(c: Config, s: State, t: nat, waiters: seq<nat>)
    requires Opens(c, s, t, waiters, [], [])
    ensures Harmless(c, AfterBarrier(c, s, t, waiters, [], []))
  {
    var n := AfterBarrier(c, s, t, waiters, [], []);
    var k := if c.threads > 1 then 1 else 0;
    RoundStarts(c, s, t, waiters);
    forall xs: seq<Move>
      ensures !Deadlocked(c, Moves(c, n, xs)) && (Within(c, n, xs) ==> Right(c, Moves(c, n, xs)))
    {
      MovesInStep(c, n, k, xs);
      NoDeadlock(c, Moves(c, n, xs), k);
      if Within(c, n, xs) {
        MovesInRounds(c, n, k, xs);
        InRoundsRight(c, Moves(c, n, xs), k);
      }
    }
  }
}
