/** What the twin-page commit means: every commit is the byte overlay of the committing thread's
    own writes, and the memory after every round depends on nothing but the memory before it, the
    programs and the token order. */
module CommitTheorems {
  import opened Options
  import opened Pages
  import opened TwinBitmap
  import opened Persist
  import opened CommitRuns
  import opened CommitInvariant

  // ---- Every commit is the overlay ----

  /** The page a commit compares with is the committer's own fault-time page. */
  lemma BaseIsSnapshot(c: Config, s: State, t: nat, p: nat)
    requires Inv(c, s) && Holder(c, s, t) && p < c.pages && Uncommitted(s.threads[t], p)
    requires WithTwin(s.sh, p).cur <= MAX_TWINS + 1
    ensures CommitBase(s.sh, p, s.threads[t].dirty[p].version) == s.threads[t].dirty[p].snap
  {
    assert EntryOk(c, s, t, p);
    TwinMade(c, s, t, p);
  }

  /** The token holder's commit of a page changes that page byte by byte: its own value where it differs
      from the page as it was at its fault, the shared byte elsewhere.  Every other page stays as it
      is. */
  lemma CommitPublishesOwnWrites(c: Config, s: State, t: nat, next: Regs)
    requires Inv(c, s) && Holder(c, s, t) && s.threads[t].phase == Waiting
    requires s.threads[t].cursor < c.pages && s.threads[t].cursor in s.threads[t].dirty
    requires Healthy(StepCommit(c, s, t, next))
    ensures var p := s.threads[t].cursor;
            var e := s.threads[t].dirty[p];
            StepCommit(c, s, t, next).sh.mem == s.sh.mem[p := Overlay(e.local, e.snap, s.sh.mem[p])]
  {
    var p := s.threads[t].cursor;
    var e := s.threads[t].dirty[p];
    BaseIsSnapshot(c, s, t, p);
    CommitIsOverlay(s.sh, p, e.version, e.snap);
    assert CommitEntry(s.sh, p, Dirty(e.version, e.local)).mem[p] == Overlay(e.local, e.snap, s.sh.mem[p]);
  }

  /** So in every state of every run. */
  lemma BaseInEveryRun(
    c: Config, mem: seq<Page>, regs: seq<Regs>, area: Area, schedule: seq<Choice>, t: nat, p: nat)
    requires c.Valid() && |mem| == c.pages && |regs| == c.threads
    requires HealthyRun(c, Init(c, mem, regs, area), schedule)
    requires var s := Exec(c, Init(c, mem, regs, area), schedule);
             Holder(c, s, t) && p < c.pages && Uncommitted(s.threads[t], p) && WithTwin(s.sh, p).cur <= MAX_TWINS + 1
    ensures var s := Exec(c, Init(c, mem, regs, area), schedule);
            CommitBase(s.sh, p, s.threads[t].dirty[p].version) == s.threads[t].dirty[p].snap
  {
    InitInv(c, mem, regs, area);
    RunInv(c, Init(c, mem, regs, area), schedule);
    BaseIsSnapshot(c, Exec(c, Init(c, mem, regs, area), schedule), t, p);
  }

  /** In every run, a step that commits a page publishes the committing thread's own writes. */
  lemma EveryCommitPublishes(
    c: Config, mem: seq<Page>, regs: seq<Regs>, area: Area, schedule: seq<Choice>, t: nat)
    requires c.Valid() && |mem| == c.pages && |regs| == c.threads
    requires HealthyRun(c, Init(c, mem, regs, area), schedule + [Run(t)])
    requires Commits(c, Exec(c, Init(c, mem, regs, area), schedule), t)
    ensures var s := Exec(c, Init(c, mem, regs, area), schedule);
            var p := s.threads[t].cursor;
            var e := s.threads[t].dirty[p];
            Exec(c, Init(c, mem, regs, area), schedule + [Run(t)]).sh.mem ==
            s.sh.mem[p := Overlay(e.local, e.snap, s.sh.mem[p])]
  {
    var i := Init(c, mem, regs, area);
    assert (schedule + [Run(t)])[..|schedule|] == schedule;
    InitInv(c, mem, regs, area);
    RunInv(c, i, schedule);
    var s := Exec(c, i, schedule);
    var action := c.program(t, s.threads[t].regs, Seen(s.sh.mem, s.threads[t]));
    assert Exec(c, i, schedule + [Run(t)]) == StepCommit(c, s, t, action.next);
    CommitPublishesOwnWrites(c, s, t, action.next);
  }

  /** The thread's next step commits a page. */
  ghost predicate Commits(c: Config, s: State, t: nat)
    requires WellSized(c, s)
  {
    && MayRun(c, s, t) && s.threads[t].phase == Waiting
    && s.threads[t].cursor < c.pages && s.threads[t].cursor in s.threads[t].dirty
    && c.program(t, s.threads[t].regs, Seen(s.sh.mem, s.threads[t])).Commit?
  }

  /** Twin bookkeeping over all runs: the user count of a page is the number of uncommitted copies,
      a stale copy always has a twin, which equals its fault-time page and shares its slot with no
      other page, and when a round is over no page has users or a twin. */
  lemma TwinBookkeeping(c: Config, mem: seq<Page>, regs: seq<Regs>, area: Area, schedule: seq<Choice>)
    requires c.Valid() && |mem| == c.pages && |regs| == c.threads
    requires HealthyRun(c, Init(c, mem, regs, area), schedule)
    ensures var s := Exec(c, Init(c, mem, regs, area), schedule);
            && (forall p :: 0 <= p < c.pages ==> s.sh.users[p] == Writers(s.threads, p))
            && (forall t, p | 0 <= t < c.threads && 0 <= p < c.pages && Uncommitted(s.threads[t], p) ::
                  s.threads[t].dirty[p].version != s.sh.versions[p] ==>
                    s.sh.index[p] != 0 && Slot(s.sh.area, s.sh.index[p]) == s.threads[t].dirty[p].snap)
            && (forall p, q :: 0 <= p < q < c.pages && s.sh.index[p] != 0 ==> s.sh.index[p] != s.sh.index[q])
            && (RoundOver(c, s) ==> forall p :: 0 <= p < c.pages ==> s.sh.users[p] == 0 && s.sh.index[p] == 0)
  {
    InitInv(c, mem, regs, area);
    RunInv(c, Init(c, mem, regs, area), schedule);
    var s := Exec(c, Init(c, mem, regs, area), schedule);
    forall t, p | 0 <= t < c.threads && 0 <= p < c.pages && Uncommitted(s.threads[t], p)
      ensures EntryOk(c, s, t, p)
    {
    }
    if RoundOver(c, s) {
      forall t | 0 <= t < c.threads
        ensures s.threads[t].dirty == map[]
      {
        assert ThreadDisciplined(c, s, t);
      }
      forall p | 0 <= p < c.pages
        ensures s.sh.users[p] == 0 && s.sh.index[p] == 0
      {
        WritersPositive(s.threads, p);
      }
    }
  }

  // ---- A thread on its own ----

  /** The thread without the versions, which only the twin mechanism looks at. */
  function Erase(th: Thread): Thread {
    th.(dirty := map p | p in th.dirty :: th.dirty[p].(version := 0))
  }

  /** One step of thread `t` against memory `mem`, with the overlay in place of the twins. */
  ghost function Turn(c: Config, t: nat, mem: seq<Page>, th: Thread): (r: (seq<Page>, Thread))
    requires |mem| == c.pages
    ensures |r.0| == c.pages
  {
    if th.phase == Done then (mem, if th.cursor == c.pages then Clean(th) else th)
    else
      match c.program(t, th.regs, Seen(mem, th))
      case Write(p, at, value, next) =>
        if th.cursor != 0 || p >= c.pages || at >= PAGE_SIZE then (mem, th)
        else if p !in th.dirty then (mem, th.(dirty := th.dirty[p := Entry(0, mem[p], mem[p])]))
        else
          var e := th.dirty[p];
          (mem, th.(regs := next, dirty := th.dirty[p := e.(local := e.local[at := value])]))
      case Sync(next) => (mem, if th.phase == Running then th.(regs := next, phase := Waiting) else th)
      case Commit(next) =>
        if th.phase != Waiting || th.cursor >= c.pages then (mem, th)
        else
          var p := th.cursor;
          (if p in th.dirty then mem[p := Overlay(th.dirty[p].local, th.dirty[p].snap, mem[p])] else mem,
           th.(cursor := p + 1, regs := if p + 1 == c.pages then next else th.regs))
      case Begin(next) => (mem, if th.cursor == c.pages then Clean(th).(regs := next) else th)
      case Put(next) =>
        (mem, if th.phase != Waiting || !(th.cursor == c.pages || (th.dirty == map[] && th.cursor == 0)) then th
              else th.(regs := next, phase := Done))
  }

  /** A step of the machine is a step of the moving thread on its own; nobody else changes. */
  lemma StepIsTurn(c: Config, s: State, t: nat)
    requires Inv(c, s) && Healthy(s) && Healthy(StepThread(c, s, t)) && MayRun(c, s, t)
    ensures var r := StepThread(c, s, t);
            && (r.sh.mem, Erase(r.threads[t])) == Turn(c, t, s.sh.mem, Erase(s.threads[t]))
            && (forall u :: 0 <= u < c.threads && u != t ==> r.threads[u] == s.threads[u])
            && r.round == s.round && r.start == s.start
            && r.turn == s.turn + (if s.threads[t].phase == Waiting && r.threads[t].phase == Done then 1 else 0)
  {
    var th := s.threads[t];
    assert Seen(s.sh.mem, Erase(th)) == Seen(s.sh.mem, th);
    StepFrame(c, s, t);
    if th.phase == Done {
      assert Erase(th).dirty.Keys == th.dirty.Keys;
    } else {
      match c.program(t, th.regs, Seen(s.sh.mem, th))
      case Commit(next) => CommitIsTurn(c, s, t, next);
      case Write(p, at, value, next) => WriteIsTurn(c, s, t, p, at, value, next);
      case _ => ControlIsTurn(c, s, t);
    }
  }

  lemma StepFrame(c: Config, s: State, t: nat)
    requires WellSized(c, s) && MayRun(c, s, t)
    ensures var r := StepThread(c, s, t);
            && (forall u :: 0 <= u < c.threads && u != t ==> r.threads[u] == s.threads[u])
            && r.round == s.round && r.start == s.start
            && r.turn == s.turn + (if s.threads[t].phase == Waiting && r.threads[t].phase == Done then 1 else 0)
  {
  }

  lemma ControlIsTurn(c: Config, s: State, t: nat)
    requires WellSized(c, s) && MayRun(c, s, t) && s.threads[t].phase != Done
    requires s.turn < c.threads || s.threads[t].phase != Waiting
    requires Seen(s.sh.mem, Erase(s.threads[t])) == Seen(s.sh.mem, s.threads[t])
    requires var action := c.program(t, s.threads[t].regs, Seen(s.sh.mem, s.threads[t]));
             !action.Commit? && !action.Write?
    ensures var r := StepThread(c, s, t);
            (r.sh.mem, Erase(r.threads[t])) == Turn(c, t, s.sh.mem, Erase(s.threads[t]))
  {
    assert Erase(s.threads[t]).dirty.Keys == s.threads[t].dirty.Keys;
    assert Erase(Clean(s.threads[t])).dirty == map[];
  }

  lemma CommitIsTurn(c: Config, s: State, t: nat, next: Regs)
    requires Inv(c, s) && MayRun(c, s, t) && s.threads[t].phase != Done && Healthy(StepCommit(c, s, t, next))
    requires c.program(t, s.threads[t].regs, Seen(s.sh.mem, Erase(s.threads[t]))) == Commit(next)
    ensures var r := StepCommit(c, s, t, next);
            && (r.sh.mem, Erase(r.threads[t])) == Turn(c, t, s.sh.mem, Erase(s.threads[t]))
            && r.threads[t].phase == s.threads[t].phase
  {
    var th := s.threads[t];
    assert Erase(th).dirty.Keys == th.dirty.Keys;
    if th.phase == Waiting && th.cursor < c.pages && th.cursor in th.dirty {
      CommitPublishesOwnWrites(c, s, t, next);
    }
  }

  lemma WriteIsTurn(c: Config, s: State, t: nat, p: nat, at: nat, value: Byte, next: Regs)
    requires WellSized(c, s) && t < c.threads
    requires c.program(t, s.threads[t].regs, Seen(s.sh.mem, Erase(s.threads[t]))) == Write(p, at, value, next)
    requires s.threads[t].phase != Done
    ensures var r := StepWrite(c, s, t, p, at, value, next);
            && (r.sh.mem, Erase(r.threads[t])) == Turn(c, t, s.sh.mem, Erase(s.threads[t]))
            && r.threads[t].phase == s.threads[t].phase
  {
    var th := s.threads[t];
    var r := StepWrite(c, s, t, p, at, value, next);
    assert Erase(r.threads[t]).dirty == Turn(c, t, s.sh.mem, Erase(th)).1.dirty;
  }

  /** `k` steps of a thread on its own, as long as it stays in phase `ph`. */
  ghost function Until(c: Config, t: nat, mem: seq<Page>, th: Thread, ph: Phase, k: nat): (r: (seq<Page>, Thread))
    requires |mem| == c.pages
    ensures |r.0| == c.pages
  {
    if k == 0 then (mem, th)
    else
      var (m, x) := Until(c, t, mem, th, ph, k - 1);
      if x.phase == ph then Turn(c, t, m, x) else (m, x)
  }

  /** Where the thread leaves phase `ph`, if it ever does. */
  ghost function Leave(c: Config, t: nat, mem: seq<Page>, th: Thread, ph: Phase): Option<(seq<Page>, Thread)>
    requires |mem| == c.pages
  {
    if k: nat :| Until(c, t, mem, th, ph, k).1.phase != ph then Some(Until(c, t, mem, th, ph, k)) else None
  }

  lemma UntilStep(c: Config, t: nat, mem: seq<Page>, th: Thread, ph: Phase, k: nat, m: seq<Page>, x: Thread)
    requires |mem| == c.pages == |m| && Until(c, t, mem, th, ph, k) == (m, x) && x.phase == ph
    ensures Until(c, t, mem, th, ph, k + 1) == Turn(c, t, m, x)
  {
  }

  lemma {:induction false} UntilStays(c: Config, t: nat, mem: seq<Page>, th: Thread, ph: Phase, k: nat, j: nat)
    requires |mem| == c.pages && k <= j && Until(c, t, mem, th, ph, k).1.phase != ph
    ensures Until(c, t, mem, th, ph, j) == Until(c, t, mem, th, ph, k)
    decreases j
  {
    if k < j {
      UntilStays(c, t, mem, th, ph, k, j - 1);
    }
  }

  lemma LeaveUnique(c: Config, t: nat, mem: seq<Page>, th: Thread, ph: Phase, k: nat)
    requires |mem| == c.pages && Until(c, t, mem, th, ph, k).1.phase != ph
    ensures Leave(c, t, mem, th, ph) == Some(Until(c, t, mem, th, ph, k))
  {
    var j: nat :| Until(c, t, mem, th, ph, j).1.phase != ph
                  && Leave(c, t, mem, th, ph) == Some(Until(c, t, mem, th, ph, j));
    if j <= k {
      UntilStays(c, t, mem, th, ph, j, k);
    } else {
      UntilStays(c, t, mem, th, ph, k, j);
    }
  }

  // ---- What a round computes ----

  function Fresh(regs: Regs): Thread {
    Thread(regs, map[], 0, Running)
  }

  /** The memory before the `i`-th turn of round `r`. */
  ghost function Before(c: Config, r: nat, mem: seq<Page>, regs: seq<Regs>, i: nat): (m: Option<seq<Page>>)
    requires c.Valid() && |mem| == c.pages && |regs| == c.threads && i <= c.threads
    ensures m.Some? ==> |m.value| == c.pages
    decreases i, 0
  {
    if i == 0 then Some(mem)
    else match Outcome(c, r, mem, regs, i - 1) case None => None case Some(o) => Some(o.0)
  }

  /** The memory and the thread after the `i`-th turn: the thread runs against the memory at the
      start of the round until it synchronises, and against the memory left by the turns before
      its own until it passes the token. */
  ghost function Outcome(c: Config, r: nat, mem: seq<Page>, regs: seq<Regs>, i: nat): (o: Option<(seq<Page>, Thread)>)
    requires c.Valid() && |mem| == c.pages && |regs| == c.threads && i < c.threads
    ensures o.Some? ==> |o.value.0| == c.pages
    decreases i, 1
  {
    var t := c.order(r)[i];
    match Before(c, r, mem, regs, i)
    case None => None
    case Some(m) =>
      match Leave(c, t, mem, Fresh(regs[t]), Running)
      case None => None
      case Some(w) => Leave(c, t, m, w.1, Waiting)
  }

  ghost function Position(c: Config, r: nat, t: nat): (i: nat)
    requires c.Valid() && t < c.threads
    ensures i < c.threads && c.order(r)[i] == t
  {
    assert t in c.order(r);
    var i :| 0 <= i < c.threads && c.order(r)[i] == t;
    i
  }

  ghost predicate EveryTurnEnds(c: Config, r: nat, mem: seq<Page>, regs: seq<Regs>)
    requires c.Valid() && |mem| == c.pages && |regs| == c.threads
  {
    && Before(c, r, mem, regs, c.threads).Some?
    && forall i :: 0 <= i < c.threads ==> Outcome(c, r, mem, regs, i).Some?
  }

  /** Memory and registers after round `r`. */
  ghost function RoundResult(c: Config, r: nat, mem: seq<Page>, regs: seq<Regs>): (o: Option<(seq<Page>, seq<Regs>)>)
    requires c.Valid() && |mem| == c.pages && |regs| == c.threads
    ensures o.Some? ==> |o.value.0| == c.pages && |o.value.1| == c.threads
  {
    if EveryTurnEnds(c, r, mem, regs) then
      Some((Before(c, r, mem, regs, c.threads).value,
            seq(c.threads, t requires 0 <= t < c.threads => Outcome(c, r, mem, regs, Position(c, r, t)).value.1.regs)))
    else None
  }

  /** Memory and registers at the start of round `r`. */
  ghost function RoundStart(c: Config, mem: seq<Page>, regs: seq<Regs>, r: nat): (o: Option<(seq<Page>, seq<Regs>)>)
    requires c.Valid() && |mem| == c.pages && |regs| == c.threads
    ensures o.Some? ==> |o.value.0| == c.pages && |o.value.1| == c.threads
  {
    if r == 0 then Some((mem, regs))
    else
      match RoundStart(c, mem, regs, r - 1)
      case None => None
      case Some(b) => RoundResult(c, r - 1, b.0, b.1)
  }

  // ---- Every schedule computes it ----

  /** A thread that has not had the token yet has run on its own from the start of the round. */
  ghost predicate OnItsOwn(c: Config, s: State, regs: seq<Regs>, t: nat)
    requires WellSized(c, s) && |regs| == c.threads && t < c.threads
  {
    exists k: nat :: Until(c, t, s.start, Fresh(regs[t]), Running, k) == (s.start, Erase(s.threads[t]))
  }

  /** The holder has run on its own since it received the token. */
  ghost predicate Holding(c: Config, s: State, regs: seq<Regs>, t: nat)
    requires WellSized(c, s) && |regs| == c.threads && t < c.threads
  {
    var m := Before(c, s.round, s.start, regs, s.turn);
    var w := Leave(c, t, s.start, Fresh(regs[t]), Running);
    m.Some? && w.Some? && w.value.0 == s.start
    && exists k: nat :: Until(c, t, m.value, w.value.1, Waiting, k) == (s.sh.mem, Erase(s.threads[t]))
  }

  ghost predicate Passed(c: Config, s: State, regs: seq<Regs>, i: nat)
    requires WellSized(c, s) && |regs| == c.threads && i < c.threads
  {
    var o := Outcome(c, s.round, s.start, regs, i);
    var th := Erase(s.threads[c.order(s.round)[i]]);
    o.Some? && (th == o.value.1 || th == Clean(o.value.1))
  }

  ghost predicate Tracked(c: Config, s: State, regs: seq<Regs>) {
    && WellSized(c, s) && |regs| == c.threads
    && (forall t :: 0 <= t < c.threads && s.threads[t].phase != Done && !Holder(c, s, t) ==> OnItsOwn(c, s, regs, t))
    && (forall t :: 0 <= t < c.threads && Holder(c, s, t) ==> Holding(c, s, regs, t))
    && (forall i :: 0 <= i < s.turn ==> Passed(c, s, regs, i))
    && ((!AllArrived(s) || s.turn == c.threads) ==> Before(c, s.round, s.start, regs, s.turn) == Some(s.sh.mem))
  }

  /** A thread that has just become the holder. */
  lemma BecomesHolder(c: Config, s: State, regs: seq<Regs>, t: nat)
    requires WellSized(c, s) && |regs| == c.threads && Holder(c, s, t) && s.threads[t].phase == Waiting
    requires OnItsOwn(c, s, regs, t)
    requires Before(c, s.round, s.start, regs, s.turn) == Some(s.sh.mem)
    ensures Holding(c, s, regs, t)
  {
    var k: nat :| Until(c, t, s.start, Fresh(regs[t]), Running, k) == (s.start, Erase(s.threads[t]));
    LeaveUnique(c, t, s.start, Fresh(regs[t]), Running, k);
    assert Until(c, t, s.sh.mem, Erase(s.threads[t]), Waiting, 0) == (s.sh.mem, Erase(s.threads[t]));
  }

  /** The step from `s` to `r` is thread `t`'s own turn. */
  ghost predicate Moved(c: Config, s: State, r: State, t: nat) {
    && WellSized(c, s) && WellSized(c, r) && t < c.threads
    && (r.sh.mem, Erase(r.threads[t])) == Turn(c, t, s.sh.mem, Erase(s.threads[t]))
    && (forall u :: 0 <= u < c.threads && u != t ==> r.threads[u] == s.threads[u])
    && r.round == s.round && r.start == s.start
    && (forall i :: 0 <= i < c.threads ==> (r.threads[c.order(r.round)[i]].phase == Done <==> i < r.turn))
  }

  lemma RunningTracked(c: Config, s: State, r: State, regs: seq<Regs>, t: nat)
    requires Moved(c, s, r, t) && Tracked(c, s, regs)
    requires s.threads[t].phase == Running && s.turn == r.turn == 0 && r.sh.mem == s.sh.mem == s.start
    ensures Tracked(c, r, regs)
  {
    assert OnItsOwn(c, s, regs, t);
    var k: nat :| Until(c, t, s.start, Fresh(regs[t]), Running, k) == (s.start, Erase(s.threads[t]));
    UntilStep(c, t, s.start, Fresh(regs[t]), Running, k, s.start, Erase(s.threads[t]));
    forall u | 0 <= u < c.threads && r.threads[u].phase != Done
      ensures OnItsOwn(c, r, regs, u)
    {
      if u != t {
        assert OnItsOwn(c, s, regs, u);
      }
    }
    forall u | 0 <= u < c.threads && Holder(c, r, u)
      ensures Holding(c, r, regs, u)
    {
      BecomesHolder(c, r, regs, u);
    }
  }

  /** The threads that have passed the token, and those that have not had it, are where they were. */
  lemma OthersTracked(c: Config, s: State, r: State, regs: seq<Regs>, t: nat)
    requires Moved(c, s, r, t) && Tracked(c, s, regs) && s.turn <= r.turn
    requires s.turn < c.threads && c.order(s.round)[s.turn] == t
    ensures forall u :: 0 <= u < c.threads && u != t && r.threads[u].phase != Done ==> OnItsOwn(c, r, regs, u)
    ensures forall i :: 0 <= i < s.turn ==> Passed(c, r, regs, i)
  {
    forall u | 0 <= u < c.threads && u != t && r.threads[u].phase != Done
      ensures OnItsOwn(c, r, regs, u)
    {
      assert !Holder(c, s, u);
      assert OnItsOwn(c, s, regs, u);
    }
    forall i | 0 <= i < s.turn
      ensures Passed(c, r, regs, i)
    {
      assert Passed(c, s, regs, i) && c.order(s.round)[i] != t;
    }
  }

  lemma HolderKeeps(c: Config, s: State, r: State, regs: seq<Regs>, t: nat)
    requires Moved(c, s, r, t) && Tracked(c, s, regs) && AllArrived(r) && r.turn == s.turn
    requires s.threads[t].phase == Waiting && Holder(c, s, t)
    ensures Tracked(c, r, regs)
  {
    OthersTracked(c, s, r, regs, t);
    assert Holding(c, s, regs, t);
    var m := Before(c, s.round, s.start, regs, s.turn).value;
    var w := Leave(c, t, s.start, Fresh(regs[t]), Running).value.1;
    var k: nat :| Until(c, t, m, w, Waiting, k) == (s.sh.mem, Erase(s.threads[t]));
    UntilStep(c, t, m, w, Waiting, k, s.sh.mem, Erase(s.threads[t]));
    assert Holding(c, r, regs, t);
  }

  /** Passing the token ends the turn, as the round prescribes. */
  lemma TurnEnds(c: Config, s: State, r: State, regs: seq<Regs>, t: nat)
    requires Moved(c, s, r, t) && |regs| == c.threads && Holder(c, s, t) && Holding(c, s, regs, t)
    requires s.threads[t].phase == Waiting && r.threads[t].phase == Done
    ensures Outcome(c, s.round, s.start, regs, s.turn) == Some((r.sh.mem, Erase(r.threads[t])))
    ensures Before(c, s.round, s.start, regs, s.turn + 1) == Some(r.sh.mem)
  {
    var m := Before(c, s.round, s.start, regs, s.turn).value;
    var w := Leave(c, t, s.start, Fresh(regs[t]), Running).value.1;
    var k: nat :| Until(c, t, m, w, Waiting, k) == (s.sh.mem, Erase(s.threads[t]));
    UntilStep(c, t, m, w, Waiting, k, s.sh.mem, Erase(s.threads[t]));
    LeaveUnique(c, t, m, w, Waiting, k + 1);
    OutcomeIs(c, s.round, s.start, regs, s.turn, m, w, (r.sh.mem, Erase(r.threads[t])));
  }

  lemma OutcomeIs(c: Config, r: nat, mem: seq<Page>, regs: seq<Regs>, i: nat, m: seq<Page>, w: Thread,
                  o: (seq<Page>, Thread))
    requires c.Valid() && |mem| == c.pages == |m| && |regs| == c.threads && i < c.threads
    requires Before(c, r, mem, regs, i) == Some(m)
    requires var l := Leave(c, c.order(r)[i], mem, Fresh(regs[c.order(r)[i]]), Running); l.Some? && l.value.1 == w
    requires Leave(c, c.order(r)[i], m, w, Waiting) == Some(o)
    ensures Outcome(c, r, mem, regs, i) == Some(o) && Before(c, r, mem, regs, i + 1) == Some(o.0)
  {
  }

  lemma HolderPuts(c: Config, s: State, r: State, regs: seq<Regs>, t: nat)
    requires Moved(c, s, r, t) && Tracked(c, s, regs) && AllArrived(r) && r.turn == s.turn + 1
    requires s.threads[t].phase == Waiting && r.threads[t].phase == Done && Holder(c, s, t)
    ensures Tracked(c, r, regs)
  {
    OthersTracked(c, s, r, regs, t);
    TurnEnds(c, s, r, regs, t);
    assert Passed(c, r, regs, s.turn);
    NextHolderTracked(c, r, regs);
  }

  /** The token has just been passed on. */
  lemma NextHolderTracked(c: Config, r: State, regs: seq<Regs>)
    requires WellSized(c, r) && |regs| == c.threads && AllArrived(r)
    requires forall i :: 0 <= i < c.threads ==> (r.threads[c.order(r.round)[i]].phase == Done <==> i < r.turn)
    requires forall u :: 0 <= u < c.threads && r.threads[u].phase != Done ==> OnItsOwn(c, r, regs, u)
    requires forall i :: 0 <= i < r.turn ==> Passed(c, r, regs, i)
    requires Before(c, r.round, r.start, regs, r.turn) == Some(r.sh.mem)
    ensures Tracked(c, r, regs)
  {
    if r.turn < c.threads {
      BecomesHolder(c, r, regs, c.order(r.round)[r.turn]);
    }
  }

  lemma DoneTracked(c: Config, s: State, r: State, regs: seq<Regs>, t: nat)
    requires WellSized(c, s) && WellSized(c, r) && Tracked(c, s, regs) && t < c.threads
    requires s.threads[t].phase == Done && !Holder(c, s, t)
    requires r == Update(s, t, Clean(s.threads[t]))
    ensures Tracked(c, r, regs)
  {
    assert Erase(Clean(s.threads[t])) == Clean(Erase(s.threads[t]));
    assert forall v :: 0 <= v < c.threads ==> r.threads[v].phase == s.threads[v].phase;
    forall i | 0 <= i < s.turn
      ensures Passed(c, r, regs, i)
    {
      assert Passed(c, s, regs, i);
    }
    forall u | 0 <= u < c.threads && r.threads[u].phase != Done && !Holder(c, r, u)
      ensures OnItsOwn(c, r, regs, u)
    {
      assert OnItsOwn(c, s, regs, u);
    }
    forall u | 0 <= u < c.threads && Holder(c, r, u)
      ensures Holding(c, r, regs, u)
    {
      assert Holding(c, s, regs, u);
    }
  }

  lemma StepMoves(c: Config, s: State, t: nat)
    requires Inv(c, s) && Healthy(s) && Healthy(StepThread(c, s, t)) && MayRun(c, s, t) && s.threads[t].phase != Done
    ensures var r := StepThread(c, s, t);
            && Moved(c, s, r, t)
            && r.turn == s.turn + (if s.threads[t].phase == Waiting && r.threads[t].phase == Done then 1 else 0)
            && (if s.threads[t].phase == Running then s.turn == 0 && r.sh.mem == s.sh.mem == s.start else AllArrived(r))
  {
    var r := StepThread(c, s, t);
    StepInv(c, s, Run(t));
    StepIsTurn(c, s, t);
    if s.threads[t].phase == Waiting {
      forall u | 0 <= u < c.threads
        ensures r.threads[u].phase != Running
      {
      }
    }
  }

  lemma StepTracked(c: Config, s: State, regs: seq<Regs>, t: nat)
    requires Inv(c, s) && Healthy(s) && Healthy(StepThread(c, s, t)) && Tracked(c, s, regs)
    ensures Tracked(c, StepThread(c, s, t), regs)
    ensures StepThread(c, s, t).round == s.round && StepThread(c, s, t).start == s.start
  {
    var r := StepThread(c, s, t);
    if MayRun(c, s, t) && r != s {
      match s.threads[t].phase
      case Done => DoneTracked(c, s, r, regs, t);
      case Running =>
        StepMoves(c, s, t);
        RunningTracked(c, s, r, regs, t);
      case Waiting =>
        StepMoves(c, s, t);
        if r.turn == s.turn {
          HolderKeeps(c, s, r, regs, t);
        } else {
          HolderPuts(c, s, r, regs, t);
        }
    }
  }

  /** What a schedule has computed when it has finished a round is what the round computes. */
  lemma RoundTracked(c: Config, s: State, mem: seq<Page>, first: seq<Regs>, regs: seq<Regs>)
    requires Inv(c, s) && Tracked(c, s, regs) && RoundOver(c, s)
    requires |mem| == c.pages && |first| == c.threads
    requires RoundStart(c, mem, first, s.round) == Some((s.start, regs))
    ensures var next := seq(c.threads, t requires 0 <= t < c.threads => s.threads[t].regs);
            RoundStart(c, mem, first, s.round + 1) == Some((s.sh.mem, next)) && Tracked(c, StepRound(c, s), next)
  {
    var next := seq(c.threads, t requires 0 <= t < c.threads => s.threads[t].regs);
    forall i | 0 <= i < c.threads
      ensures Outcome(c, s.round, s.start, regs, i).Some?
      ensures Outcome(c, s.round, s.start, regs, i).value.1.regs == s.threads[c.order(s.round)[i]].regs
    {
      assert Passed(c, s, regs, i);
    }
    var r := StepRound(c, s);
    forall t | 0 <= t < c.threads
      ensures OnItsOwn(c, r, next, t)
    {
      assert ThreadDisciplined(c, s, t);
      assert Erase(r.threads[t]) == Fresh(next[t]);
      assert Until(c, t, r.start, Fresh(next[t]), Running, 0) == (r.start, Erase(r.threads[t]));
    }
    assert c.threads > 0 ==> r.threads[0].phase == Running;
    assert RoundStart(c, mem, first, s.round + 1).value.1 == next;
  }

  lemma InitTracked(c: Config, mem: seq<Page>, first: seq<Regs>, area: Area)
    requires c.Valid() && |mem| == c.pages && |first| == c.threads
    ensures Tracked(c, Init(c, mem, first, area), first)
  {
    var s := Init(c, mem, first, area);
    forall t | 0 <= t < c.threads
      ensures OnItsOwn(c, s, first, t)
    {
      assert Erase(s.threads[t]) == Fresh(first[t]);
      assert Until(c, t, s.start, Fresh(first[t]), Running, 0) == (s.start, Erase(s.threads[t]));
    }
    assert c.threads > 0 ==> s.threads[0].phase == Running;
  }

  lemma {:induction false} RunTracked(c: Config, mem: seq<Page>, first: seq<Regs>, area: Area, schedule: seq<Choice>)
    returns (regs: seq<Regs>)
    requires c.Valid() && |mem| == c.pages && |first| == c.threads
    requires HealthyRun(c, Init(c, mem, first, area), schedule)
    ensures Inv(c, Exec(c, Init(c, mem, first, area), schedule))
    ensures Tracked(c, Exec(c, Init(c, mem, first, area), schedule), regs)
    ensures RoundStart(c, mem, first, Exec(c, Init(c, mem, first, area), schedule).round)
            == Some((Exec(c, Init(c, mem, first, area), schedule).start, regs))
  {
    var i := Init(c, mem, first, area);
    InitInv(c, mem, first, area);
    if schedule == [] {
      regs := first;
      InitTracked(c, mem, first, area);
    } else {
      var before := schedule[..|schedule| - 1];
      var x := schedule[|schedule| - 1];
      regs := RunTracked(c, mem, first, area, before);
      assert Healthy(Exec(c, i, before)) && Healthy(Exec(c, i, schedule));
      StepInv(c, Exec(c, i, before), x);
      regs := AnyStepTracked(c, Exec(c, i, before), x, mem, first, regs);
    }
  }

  lemma AnyStepTracked(c: Config, s: State, x: Choice, mem: seq<Page>, first: seq<Regs>, regs: seq<Regs>)
    returns (after: seq<Regs>)
    requires Inv(c, s) && Healthy(s) && Healthy(Step(c, s, x)) && Tracked(c, s, regs)
    requires |mem| == c.pages && |first| == c.threads && RoundStart(c, mem, first, s.round) == Some((s.start, regs))
    ensures Tracked(c, Step(c, s, x), after)
    ensures RoundStart(c, mem, first, Step(c, s, x).round) == Some((Step(c, s, x).start, after))
  {
    after := regs;
    match x
    case Run(t) => StepTracked(c, s, regs, t);
    case EndRound =>
      if RoundOver(c, s) {
        RoundTracked(c, s, mem, first, regs);
        after := seq(c.threads, t requires 0 <= t < c.threads => s.threads[t].regs);
      }
  }

  lemma RoundEnds(c: Config, s: State, mem: seq<Page>, first: seq<Regs>, regs: seq<Regs>)
    requires Inv(c, s) && Tracked(c, s, regs) && |mem| == c.pages && |first| == c.threads
    requires RoundStart(c, mem, first, s.round) == Some((s.start, regs))
    ensures RoundStart(c, mem, first, s.round).Some? && s.start == RoundStart(c, mem, first, s.round).value.0
    ensures RoundOver(c, s) ==>
              RoundStart(c, mem, first, s.round + 1).Some? && s.sh.mem == RoundStart(c, mem, first, s.round + 1).value.0
  {
    if RoundOver(c, s) {
      RoundTracked(c, s, mem, first, regs);
    }
  }

  /** Determinism: for every schedule, the memory with which a round starts and the memory with
      which it ends are functions of the initial memory and registers, the programs and the token
      orders. */
  lemma RoundsAreDeterministic(c: Config, mem: seq<Page>, first: seq<Regs>, area: Area, schedule: seq<Choice>)
    requires c.Valid() && |mem| == c.pages && |first| == c.threads
    requires HealthyRun(c, Init(c, mem, first, area), schedule)
    ensures var s := Exec(c, Init(c, mem, first, area), schedule);
            && RoundStart(c, mem, first, s.round).Some?
            && s.start == RoundStart(c, mem, first, s.round).value.0
            && (RoundOver(c, s) ==>
                  RoundStart(c, mem, first, s.round + 1).Some?
                  && s.sh.mem == RoundStart(c, mem, first, s.round + 1).value.0)
  {
    var regs := RunTracked(c, mem, first, area, schedule);
    RoundEnds(c, Exec(c, Init(c, mem, first, area), schedule), mem, first, regs);
  }
}
