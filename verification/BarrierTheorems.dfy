/** Exactly which barriers are harmless. */
module BarrierTheorems {
  import opened Pages
  import opened TwinBitmap
  import opened Persist
  import opened CommitRuns
  import opened CommitInvariant
  import opened Barriers
  import BarrierRounds
  import CommitOrder
  import opened BarrierFailures


  /** There are no more pages than twins, and the versions have room for a round. */
  ghost predicate HasRoom(c: Config, s: State)
    requires WellSized(c, s)
  {
    c.pages <= MAX_TWINS && forall p :: 0 <= p < c.pages ==> s.sh.versions[p] + c.threads + 1 < INT_RANGE
  }

  /** A barrier that some thread in the fence does not take part in is not harmless. */
  lemma PartialBarrier(c: Config, s: State, t: nat, waiters: seq<nat>, pending: seq<nat>, done: seq<nat>)
    requires Opens(c, s, t, waiters, pending, done) && HasRoom(c, s) && pending + done != []
    ensures !Harmless(c, AfterBarrier(c, s, t, waiters, pending, done))
  {
    var n := AfterBarrier(c, s, t, waiters, pending, done);
    var a, b := 1 + |waiters|, 1 + |waiters| + |pending|;
    var look := Starts(c, s, t, waiters, pending, done);
    if waiters != [] && pending != [] {
      var xs := WaitersBlockPending(c, n, look, a, b);
    } else if waiters != [] {
      var xs := WaitersBlockCaller(c, n, look, a);
    } else if done != [] {
      var xs := CallerBlocked(c, n, look, b);
    } else {
      CommitOrder.SubsetSize(Wanted(look.sh), c.pages);
      var xs, r := CallerLosesAWrite(c, n, look);
    }
  }

  /** For every state in a serial phase in which a barrier opens: afterwards no deadlock and no wrong
      commit can come about, whatever the threads do, if and only if every thread in the fence takes part
      in the barrier. */
  lemma BarrierExact(c: Config, s: State, t: nat, waiters: seq<nat>, pending: seq<nat>, done: seq<nat>)
    requires Opens(c, s, t, waiters, pending, done) && HasRoom(c, s)
    ensures Harmless(c, AfterBarrier(c, s, t, waiters, pending, done)) <==> pending == [] && done == []
  {
    if pending == [] && done == [] {
      BarrierRounds.FullBarrier(c, s, t, waiters);
    } else {
      PartialBarrier(c, s, t, waiters, pending, done);
    }
  }

  /** So in every state of every run of the commit rounds, for the thread whose turn it is. */
  lemma BarrierInEveryRun(
    c: Config, mem: seq<Page>, regs: seq<Regs>, area: Area, schedule: seq<Choice>,
    t: nat, waiters: seq<nat>, pending: seq<nat>, done: seq<nat>)
    requires c.Valid() && |mem| == c.pages && |regs| == c.threads
    requires HealthyRun(c, Init(c, mem, regs, area), schedule)
    requires var s := Exec(c, Init(c, mem, regs, area), schedule);
             && t < c.threads && Holder(c, s, t) && s.threads[t].cursor == c.pages && HasRoom(c, s)
             && IsRing([t] + waiters + pending + done, c.threads) && pending == c.order(s.round)[s.turn + 1..]
    ensures var s := Exec(c, Init(c, mem, regs, area), schedule);
            && Opens(c, s, t, waiters, pending, done)
            && (Harmless(c, AfterBarrier(c, s, t, waiters, pending, done)) <==> |waiters| + 1 == c.threads)
  {
    InitInv(c, mem, regs, area);
    RunInv(c, Init(c, mem, regs, area), schedule);
    var s := Exec(c, Init(c, mem, regs, area), schedule);
    TurnOpens(c, s, t, waiters, pending, done);
    BarrierExact(c, s, t, waiters, pending, done);
  }

  lemma TurnOpens(c: Config, s: State, t: nat, waiters: seq<nat>, pending: seq<nat>, done: seq<nat>)
    requires Inv(c, s) && t < c.threads && Holder(c, s, t) && s.threads[t].cursor == c.pages
    requires IsRing([t] + waiters + pending + done, c.threads) && pending == c.order(s.round)[s.turn + 1..]
    ensures Opens(c, s, t, waiters, pending, done)
  {
    var o := c.order(s.round);
    forall u: nat | u < c.threads
      ensures if u in pending then s.threads[u].phase == Waiting && s.threads[u].cursor == 0
              else u == t || (s.threads[u].phase == Done
                              && forall p: nat :: p < c.pages ==> !Uncommitted(s.threads[u], p))
    {
      assert ThreadDisciplined(c, s, u) && u in o;
      var i :| 0 <= i < |o| && o[i] == u;
      if u in pending {
        var j :| 0 <= j < |pending| && pending[j] == u;
        assert o[s.turn + 1 + j] == u;
      }
      assert i > s.turn ==> pending[i - s.turn - 1] == u;
    }
    forall u: nat, p | u < c.threads && p in s.threads[u].dirty
      ensures p < c.pages
    {
      assert ThreadDisciplined(c, s, u);
    }
  }
}
