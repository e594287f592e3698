/** The invariant of the twin-page commit holds in every state of every schedule. */
module CommitInvariant {
  import opened Pages
  import opened TwinBitmap
  import opened Persist
  import opened CommitRuns

  lemma InitInv(c: Config, mem: seq<Page>, regs: seq<Regs>, area: Area)
    requires c.Valid() && |mem| == c.pages && |regs| == c.threads
    ensures Inv(c, Init(c, mem, regs, area))
  {
    var s := Init(c, mem, regs, area);
    forall p | 0 <= p < c.pages
      ensures Writers(s.threads, p) == 0
    {
      WritersPositive(s.threads, p);
    }
  }

  /** A step of `t` that keeps its phase and turn keeps the control state of the others. */
  lemma SamePhase(c: Config, s: State, t: nat, th: Thread, sh: Shared)
    requires WellSized(c, s) && Disciplined(c, s) && MayRun(c, s, t) && th.phase == s.threads[t].phase
    requires sh.WellSized() && |sh.mem| == c.pages
    requires th.cursor <= c.pages && (forall p :: p in th.dirty ==> p < c.pages)
    requires th.phase == Running ==> th.cursor == 0
    requires th.phase == Done && th.cursor < c.pages ==> th.cursor == 0 && th.dirty == map[]
    ensures var r := Update(s, t, th).(sh := sh);
            Disciplined(c, r) && (AllArrived(r) <==> AllArrived(s))
            && forall u :: 0 <= u ==> (Holder(c, r, u) <==> Holder(c, s, u))
  {
    var r := Update(s, t, th).(sh := sh);
    assert forall u :: 0 <= u < c.threads ==> r.threads[u].phase == s.threads[u].phase;
    forall u | 0 <= u < c.threads
      ensures ThreadDisciplined(c, r, u)
    {
      assert ThreadDisciplined(c, s, u);
    }
  }

  /** Pages whose writers stay the same keep their count. */
  lemma SameWriters(c: Config, s: State, t: nat, th: Thread)
    requires WellSized(c, s) && UsersOk(c, s) && t < c.threads
    ensures forall p :: 0 <= p < c.pages && Uncommitted(th, p) == Uncommitted(s.threads[t], p) ==>
              Writers(s.threads[t := th], p) == s.sh.users[p]
  {
    forall p | 0 <= p < c.pages && Uncommitted(th, p) == Uncommitted(s.threads[t], p)
      ensures Writers(s.threads[t := th], p) == s.sh.users[p]
    {
      WritersUpdate(s.threads, t, th, p);
    }
  }

  lemma FaultInv(c: Config, s: State, t: nat, p: nat)
    requires Inv(c, s) && Healthy(s) && MayRun(c, s, t) && p < c.pages
    requires s.threads[t].phase != Done && s.threads[t].cursor == 0 && p !in s.threads[t].dirty
    ensures var e := Entry(Stamp(s.sh.versions[p]), s.sh.mem[p], s.sh.mem[p]);
            Inv(c, Update(s, t, s.threads[t].(dirty := s.threads[t].dirty[p := e])).(sh := AddUser(s.sh, p)))
  {
    var th := s.threads[t];
    var e := Entry(Stamp(s.sh.versions[p]), s.sh.mem[p], s.sh.mem[p]);
    var th' := th.(dirty := th.dirty[p := e]);
    var r := Update(s, t, th').(sh := AddUser(s.sh, p));
    assert ThreadDisciplined(c, s, t);
    SamePhase(c, s, t, th', AddUser(s.sh, p));
    SameWriters(c, s, t, th');
    WritersUpdate(s.threads, t, th', p);
    forall u, q | 0 <= u < c.threads && 0 <= q < c.pages && Uncommitted(r.threads[u], q)
      ensures EntryOk(c, r, u, q)
    {
      if u != t || q != p {
        assert Uncommitted(s.threads[u], q) && EntryOk(c, s, u, q);
      }
    }
  }

  lemma StoreInv(c: Config, s: State, t: nat, p: nat, e: Entry, next: Regs)
    requires Inv(c, s) && MayRun(c, s, t) && p < c.pages
    requires s.threads[t].phase != Done && s.threads[t].cursor == 0 && p in s.threads[t].dirty
    requires e == s.threads[t].dirty[p].(local := e.local)
    ensures Inv(c, Update(s, t, s.threads[t].(regs := next, dirty := s.threads[t].dirty[p := e])))
  {
    var th := s.threads[t].(regs := next, dirty := s.threads[t].dirty[p := e]);
    var r := Update(s, t, th);
    assert ThreadDisciplined(c, s, t);
    SamePhase(c, s, t, th, s.sh);
    SameWriters(c, s, t, th);
    assert r == Update(s, t, th).(sh := s.sh);
    forall u, q | 0 <= u < c.threads && 0 <= q < c.pages && Uncommitted(r.threads[u], q)
      ensures EntryOk(c, r, u, q)
    {
      assert Uncommitted(s.threads[u], q) && EntryOk(c, s, u, q);
    }
  }

  lemma SyncInv(c: Config, s: State, t: nat, next: Regs)
    requires Inv(c, s) && MayRun(c, s, t) && s.threads[t].phase == Running
    ensures Inv(c, Update(s, t, s.threads[t].(regs := next, phase := Waiting)))
  {
    var th := s.threads[t].(regs := next, phase := Waiting);
    var r := Update(s, t, th);
    SameWriters(c, s, t, th);
    assert ThreadDisciplined(c, s, t);
    forall u | 0 <= u < c.threads
      ensures ThreadDisciplined(c, r, u)
    {
      assert ThreadDisciplined(c, s, u);
    }
    forall u, q | 0 <= u < c.threads && 0 <= q < c.pages && Uncommitted(r.threads[u], q)
      ensures EntryOk(c, r, u, q)
    {
      assert Uncommitted(s.threads[u], q) && EntryOk(c, s, u, q);
    }
  }

  /** Whoever makes a twin makes it from the memory at the start of the round: another thread has
      an uncommitted copy, from the parallel phase, and its fault-time page is still in place. */
  lemma TwinIsStart(c: Config, s: State, t: nat, p: nat)
    requires Inv(c, s) && Holder(c, s, t) && p < c.pages && Uncommitted(s.threads[t], p)
    requires s.sh.users[p] > 1 && s.sh.index[p] == 0
    ensures s.sh.mem[p] == s.start[p]
  {
    OtherWriters(s.threads, t, p);
    var u: nat :| u < c.threads && u != t && Uncommitted(s.threads[u], p);
    assert EntryOk(c, s, u, p);
  }

  /** Making a twin disturbs no other twin. */
  lemma TwinMade(c: Config, s: State, t: nat, p: nat)
    requires Inv(c, s) && Holder(c, s, t) && p < c.pages && Uncommitted(s.threads[t], p)
    requires WithTwin(s.sh, p).cur <= MAX_TWINS + 1
    ensures var w := s.(sh := WithTwin(s.sh, p)); TwinsOk(c, w) && (w.sh.users[p] > 1 ==> w.sh.index[p] != 0)
  {
    if s.sh.users[p] > 1 && s.sh.index[p] == 0 {
      TwinIsStart(c, s, t, p);
      var index := s.sh.cur;
      assert index <= MAX_TWINS;
      var area := PutSlot(s.sh.area, index, s.sh.mem[p]);
      SlotStored(s.sh.area, index, s.sh.mem[p]);
      VersionKeepsSlots(area, index);
      var w := s.(sh := WithTwin(s.sh, p));
      assert w.sh.index == s.sh.index[p := index];
      forall q | 0 <= q < c.pages && w.sh.index[q] != 0
        ensures w.sh.index[q] < w.sh.cur && w.sh.users[q] > 0 && Slot(w.sh.area, w.sh.index[q]) == w.start[q]
      {
        assert Slot(w.sh.area, w.sh.index[q]) == Slot(area, w.sh.index[q]);
        if q != p {
          assert s.sh.index[q] < index;
        }
      }
    }
  }

  /** Committing a page leaves every remaining writer a twin equal to its fault-time page. */
  lemma CommittedEntries(c: Config, s: State, t: nat, next: Regs)
    requires Inv(c, s) && Holder(c, s, t) && s.threads[t].phase == Waiting
    requires Uncommitted(s.threads[t], s.threads[t].cursor) && s.threads[t].cursor < c.pages
    requires Healthy(StepCommit(c, s, t, next))
    ensures EntriesOk(c, StepCommit(c, s, t, next))
  {
    var p := s.threads[t].cursor;
    var r := StepCommit(c, s, t, next);
    TwinMade(c, s, t, p);
    OtherWriters(s.threads, t, p);
    forall u, q | 0 <= u < c.threads && 0 <= q < c.pages && Uncommitted(r.threads[u], q)
      ensures EntryOk(c, r, u, q)
    {
      assert Uncommitted(s.threads[u], q) && EntryOk(c, s, u, q);
      assert Holder(c, r, u) <==> Holder(c, s, u) by {
        assert forall v :: 0 <= v < c.threads ==> r.threads[v].phase == s.threads[v].phase;
      }
    }
  }

  lemma CommittedTwins(c: Config, s: State, t: nat, next: Regs)
    requires Inv(c, s) && Holder(c, s, t) && s.threads[t].phase == Waiting
    requires Uncommitted(s.threads[t], s.threads[t].cursor) && s.threads[t].cursor < c.pages
    requires Healthy(StepCommit(c, s, t, next))
    ensures TwinsOk(c, StepCommit(c, s, t, next))
  {
    var p := s.threads[t].cursor;
    TwinMade(c, s, t, p);
    var w := s.(sh := WithTwin(s.sh, p));
    var r := StepCommit(c, s, t, next);
    OtherWriters(s.threads, t, p);
    assert r.sh.area == w.sh.area && r.sh.cur == w.sh.cur && r.start == w.start;
    forall q | 0 <= q < c.pages && r.sh.index[q] != 0
      ensures r.sh.index[q] == w.sh.index[q] && r.sh.users[q] > 0
    {
    }
  }

  /** The heart of the matter: committing one page. */
  lemma CommitInv(c: Config, s: State, t: nat, next: Regs)
    requires Inv(c, s) && Holder(c, s, t) && s.threads[t].phase == Waiting && s.threads[t].cursor < c.pages
    requires Healthy(StepCommit(c, s, t, next))
    ensures Inv(c, StepCommit(c, s, t, next))
  {
    var p := s.threads[t].cursor;
    var r := StepCommit(c, s, t, next);
    assert ThreadDisciplined(c, s, t);
    SamePhase(c, s, t, r.threads[t], r.sh);
    if p in s.threads[t].dirty {
      CommittedEntries(c, s, t, next);
      CommittedTwins(c, s, t, next);
      CommittedUsers(c, s, t, next);
    } else {
      SameWriters(c, s, t, r.threads[t]);
      forall u, q | 0 <= u < c.threads && 0 <= q < c.pages && Uncommitted(r.threads[u], q)
        ensures EntryOk(c, r, u, q)
      {
        assert Uncommitted(s.threads[u], q) && EntryOk(c, s, u, q);
      }
    }
  }

  lemma CommittedUsers(c: Config, s: State, t: nat, next: Regs)
    requires Inv(c, s) && Holder(c, s, t) && s.threads[t].phase == Waiting
    requires Uncommitted(s.threads[t], s.threads[t].cursor) && s.threads[t].cursor < c.pages
    ensures UsersOk(c, StepCommit(c, s, t, next))
  {
    var p := s.threads[t].cursor;
    var r := StepCommit(c, s, t, next);
    SameWriters(c, s, t, r.threads[t]);
    WritersUpdate(s.threads, t, r.threads[t], p);
  }

  lemma BeginInv(c: Config, s: State, t: nat, next: Regs)
    requires Inv(c, s) && MayRun(c, s, t) && s.threads[t].cursor == c.pages
    ensures Inv(c, Update(s, t, Clean(s.threads[t]).(regs := next)))
  {
    var th := Clean(s.threads[t]).(regs := next);
    var r := Update(s, t, th);
    assert ThreadDisciplined(c, s, t);
    SamePhase(c, s, t, th, s.sh);
    SameWriters(c, s, t, th);
    assert r == Update(s, t, th).(sh := s.sh);
    forall u, q | 0 <= u < c.threads && 0 <= q < c.pages && Uncommitted(r.threads[u], q)
      ensures EntryOk(c, r, u, q)
    {
      assert Uncommitted(s.threads[u], q) && EntryOk(c, s, u, q);
    }
  }

  lemma PutInv(c: Config, s: State, t: nat, next: Regs)
    requires Inv(c, s) && Holder(c, s, t)
    ensures Inv(c, StepPut(c, s, t, next))
  {
    var r := StepPut(c, s, t, next);
    if r != s {
      SameWriters(c, s, t, r.threads[t]);
      forall u | 0 <= u < c.threads
        ensures ThreadDisciplined(c, r, u)
      {
        assert ThreadDisciplined(c, s, u);
        assert Holder(c, s, u) ==> u == t;
      }
      forall u, q | 0 <= u < c.threads && 0 <= q < c.pages && Uncommitted(r.threads[u], q)
        ensures EntryOk(c, r, u, q)
      {
        assert Uncommitted(s.threads[u], q) && EntryOk(c, s, u, q);
        assert Holder(c, s, u) ==> u == t;
      }
    }
  }

  lemma RoundInv(c: Config, s: State)
    requires Inv(c, s)
    ensures Inv(c, StepRound(c, s))
  {
    var r := StepRound(c, s);
    if RoundOver(c, s) {
      forall t | 0 <= t < c.threads
        ensures s.threads[t].dirty == map[]
      {
        assert ThreadDisciplined(c, s, t);
      }
      forall p | 0 <= p < c.pages
        ensures s.sh.users[p] == 0 && s.sh.index[p] == 0 && Writers(r.threads, p) == 0
      {
        WritersPositive(s.threads, p);
        WritersPositive(r.threads, p);
      }
      forall t | 0 <= t < c.threads
        ensures ThreadDisciplined(c, r, t)
      {
        assert ThreadDisciplined(c, s, t);
      }
    }
  }

  lemma StepInv(c: Config, s: State, x: Choice)
    requires Inv(c, s) && Healthy(s) && Healthy(Step(c, s, x))
    ensures Inv(c, Step(c, s, x))
  {
    match x
    case EndRound => RoundInv(c, s);
    case Run(t) =>
      if MayRun(c, s, t) {
        var th := s.threads[t];
        assert ThreadDisciplined(c, s, t);
        if th.phase == Done {
          if th.cursor == c.pages {
            assert Clean(th).(regs := th.regs) == Clean(th);
            BeginInv(c, s, t, th.regs);
          }
        } else {
          match c.program(t, th.regs, Seen(s.sh.mem, th))
          case Write(p, at, value, next) =>
            WriteInv(c, s, t, p, at, value, next);
          case Sync(next) => if th.phase == Running { SyncInv(c, s, t, next); }
          case Commit(next) => if th.phase == Waiting && th.cursor < c.pages { CommitInv(c, s, t, next); }
          case Begin(next) => if th.cursor == c.pages { BeginInv(c, s, t, next); }
          case Put(next) => if th.phase == Waiting { PutInv(c, s, t, next); }
        }
      }
  }

  lemma WriteInv(c: Config, s: State, t: nat, p: nat, at: nat, value: Byte, next: Regs)
    requires Inv(c, s) && Healthy(s) && MayRun(c, s, t) && s.threads[t].phase != Done
    ensures Inv(c, StepWrite(c, s, t, p, at, value, next))
  {
    var th := s.threads[t];
    if th.cursor == 0 && p < c.pages && at < PAGE_SIZE {
      if p !in th.dirty {
        FaultInv(c, s, t, p);
      } else {
        StoreInv(c, s, t, p, th.dirty[p].(local := th.dirty[p].local[at := value]), next);
      }
    }
  }

  /** The invariant holds after every schedule that stays within the limits. */
  lemma {:induction false} RunInv(c: Config, s: State, schedule: seq<Choice>)
    requires Inv(c, s) && HealthyRun(c, s, schedule)
    ensures Inv(c, Exec(c, s, schedule))
  {
    if schedule != [] {
      var before := schedule[..|schedule| - 1];
      RunInv(c, s, before);
      assert Healthy(Exec(c, s, before));
      StepInv(c, Exec(c, s, before), schedule[|schedule| - 1]);
    }
  }
}
