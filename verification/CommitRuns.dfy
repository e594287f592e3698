/** Rounds of the twin-page commit as a state machine over all schedules.

    A round has a parallel phase, in which every thread faults and writes, and a serial phase, in
    which the threads hold the token one after the other in token order.  Only the token holder
    commits, and it has nothing uncommitted left when it passes the token (xrun.h).  A schedule
    picks the thread that moves next; a pick that is not allowed changes nothing. */
module CommitRuns {
  import opened Pages
  import opened TwinBitmap
  import opened Persist

  type Regs = seq<int>

  /** What a thread does next, with its registers afterwards. */
  datatype Action =
    | Write(page: nat, at: nat, value: Byte, next: Regs)
    | Sync(next: Regs)
    | Commit(next: Regs)
    | Begin(next: Regs)
    | Put(next: Regs)

  /** The threads, the pages, the program of each thread (a function of its registers and of the
      memory it sees) and the token order of each round. */
  datatype Config = Config(
    threads: nat, pages: nat, program: (nat, Regs, seq<Page>) -> Action, order: nat -> seq<nat>)
  {
    ghost predicate Valid() {
      && 0 < pages
      && (forall r: nat :: |order(r)| == threads)
      && (forall r: nat, i :: 0 <= i < threads ==> order(r)[i] < threads)
      && (forall r: nat, i, j :: 0 <= i < j < threads ==> order(r)[i] != order(r)[j])
      && (forall r: nat, t :: 0 <= t < threads ==> t in order(r))
    }
  }

  /** A private page.  `snap`, the page as it was at the fault, is a history variable: no step
      looks at it. */
  datatype Entry = Entry(version: nat, snap: Page, local: Page)

  datatype Phase = Running | Waiting | Done

  /** Pages below `cursor` are committed. */
  datatype Thread = Thread(regs: Regs, dirty: map<nat, Entry>, cursor: nat, phase: Phase)

  /** `start`, the memory at the start of the round, is a history variable. */
  datatype State = State(sh: Shared, threads: seq<Thread>, turn: nat, round: nat, start: seq<Page>)

  datatype Choice = Run(t: nat) | EndRound

  ghost predicate WellSized(c: Config, s: State) {
    && c.Valid()
    && s.sh.WellSized()
    && |s.sh.mem| == |s.start| == c.pages
    && |s.threads| == c.threads
    && s.turn <= c.threads
  }

  /** The memory a thread sees: its private pages, and the shared ones elsewhere. */
  function Seen(mem: seq<Page>, th: Thread): seq<Page> {
    seq(|mem|, p requires 0 <= p < |mem| => if p in th.dirty then th.dirty[p].local else mem[p])
  }

  ghost predicate AllArrived(s: State) {
    forall t :: 0 <= t < |s.threads| ==> s.threads[t].phase != Running
  }

  ghost predicate Holder(c: Config, s: State, t: nat)
    requires WellSized(c, s)
  {
    AllArrived(s) && s.turn < c.threads && c.order(s.round)[s.turn] == t
  }

  /** In the serial phase only the token holder moves; a thread that has passed the token only
      drops its private pages. */
  ghost predicate MayRun(c: Config, s: State, t: nat)
    requires WellSized(c, s)
  {
    t < c.threads && (s.threads[t].phase == Waiting ==> Holder(c, s, t))
  }

  ghost function Update(s: State, t: nat, th: Thread): State
    requires t < |s.threads|
  {
    s.(threads := s.threads[t := th])
  }

  function Clean(th: Thread): Thread {
    th.(dirty := map[], cursor := 0)
  }

  ghost function StepWrite(c: Config, s: State, t: nat, p: nat, at: nat, value: Byte, next: Regs): State
    requires WellSized(c, s) && t < c.threads
  {
    var th := s.threads[t];
    if th.cursor != 0 || p >= c.pages || at >= PAGE_SIZE then s
    else if p !in th.dirty then
      var e := Entry(Stamp(s.sh.versions[p]), s.sh.mem[p], s.sh.mem[p]);
      Update(s, t, th.(dirty := th.dirty[p := e])).(sh := AddUser(s.sh, p))
    else
      var e := th.dirty[p];
      Update(s, t, th.(regs := next, dirty := th.dirty[p := e.(local := e.local[at := value])]))
  }

  ghost function StepCommit(c: Config, s: State, t: nat, next: Regs): State
    requires WellSized(c, s) && t < c.threads
  {
    var th := s.threads[t];
    if th.phase != Waiting || th.cursor >= c.pages then s
    else
      var p := th.cursor;
      var sh := if p in th.dirty then CommitEntry(s.sh, p, Dirty(th.dirty[p].version, th.dirty[p].local)) else s.sh;
      Update(s, t, th.(cursor := p + 1, regs := if p + 1 == c.pages then next else th.regs)).(sh := sh)
  }

  ghost function StepPut(c: Config, s: State, t: nat, next: Regs): State
    requires WellSized(c, s) && t < c.threads
  {
    var th := s.threads[t];
    if th.phase != Waiting || s.turn >= c.threads
       || !(th.cursor == c.pages || (th.dirty == map[] && th.cursor == 0)) then s
    else Update(s, t, th.(regs := next, phase := Done)).(turn := s.turn + 1)
  }

  ghost function StepThread(c: Config, s: State, t: nat): State
    requires WellSized(c, s)
  {
    if !MayRun(c, s, t) then s
    else
      var th := s.threads[t];
      if th.phase == Done then
        if th.cursor == c.pages then Update(s, t, Clean(th)) else s
      else
        match c.program(t, th.regs, Seen(s.sh.mem, th))
        case Write(p, at, value, next) => StepWrite(c, s, t, p, at, value, next)
        case Sync(next) => if th.phase == Running then Update(s, t, th.(regs := next, phase := Waiting)) else s
        case Commit(next) => StepCommit(c, s, t, next)
        case Begin(next) => if th.cursor == c.pages then Update(s, t, Clean(th).(regs := next)) else s
        case Put(next) => StepPut(c, s, t, next)
  }

  ghost predicate RoundOver(c: Config, s: State)
    requires WellSized(c, s)
  {
    && s.turn == c.threads
    && forall t :: 0 <= t < c.threads ==> s.threads[t].phase == Done && s.threads[t].cursor == 0
  }

  /** The last thread to leave the second fence resets the twin slots; the next round begins. */
  ghost function StepRound(c: Config, s: State): State
    requires WellSized(c, s)
  {
    if !RoundOver(c, s) then s
    else
      var threads := seq(c.threads, t requires 0 <= t < c.threads => s.threads[t].(phase := Running));
      State(s.sh.(cur := 1), threads, 0, s.round + 1, s.sh.mem)
  }

  ghost function Step(c: Config, s: State, x: Choice): (r: State)
    requires WellSized(c, s)
    ensures WellSized(c, r)
  {
    match x
    case Run(t) => StepThread(c, s, t)
    case EndRound => StepRound(c, s)
  }

  ghost function Init(c: Config, mem: seq<Page>, regs: seq<Regs>, area: Area): State
    requires |mem| == c.pages && |regs| == c.threads
  {
    var zeros := seq(c.pages, _ => 0);
    State(Shared(mem, zeros, zeros, zeros, 1, area), FreshThreads(c, regs), 0, 0, mem)
  }

  ghost function FreshThreads(c: Config, regs: seq<Regs>): seq<Thread>
    requires |regs| == c.threads
  {
    seq(c.threads, t requires 0 <= t < c.threads => Thread(regs[t], map[], 0, Running))
  }

  /** The state after a schedule. */
  ghost function Exec(c: Config, s: State, schedule: seq<Choice>): (r: State)
    requires WellSized(c, s)
    ensures WellSized(c, r)
  {
    if schedule == [] then s
    else Step(c, Exec(c, s, schedule[..|schedule| - 1]), schedule[|schedule| - 1])
  }

  lemma {:induction false} ExecThen(c: Config, s: State, a: seq<Choice>, b: seq<Choice>)
    requires WellSized(c, s)
    ensures Exec(c, s, a + b) == Exec(c, Exec(c, s, a), b)
  {
    if b == [] {
      assert a + b == a;
    } else {
      var n := |b| - 1;
      ExecThen(c, s, a, b[..n]);
      assert (a + b)[..|a + b| - 1] == a + b[..n] && (a + b)[|a + b| - 1] == b[n];
    }
  }

  /** The limits of the representation: 32 bits for a remembered version, and no more twins in a
      round than the version table has room for in front of the slots. */
  ghost predicate Healthy(s: State) {
    && s.sh.cur <= MAX_TWINS + 1
    && forall p :: 0 <= p < |s.sh.versions| ==> s.sh.versions[p] < INT_RANGE
  }

  ghost predicate HealthyRun(c: Config, s: State, schedule: seq<Choice>)
    requires WellSized(c, s)
  {
    Healthy(Exec(c, s, schedule)) && (schedule == [] || HealthyRun(c, s, schedule[..|schedule| - 1]))
  }

  // ---- The invariant ----

  predicate Uncommitted(th: Thread, p: nat) {
    p in th.dirty && th.cursor <= p
  }

  /** How many threads have an uncommitted copy of page `p`. */
  function Writers(threads: seq<Thread>, p: nat): nat {
    if threads == [] then 0
    else Writers(threads[..|threads| - 1], p) + if Uncommitted(threads[|threads| - 1], p) then 1 else 0
  }

  lemma {:induction false} WritersUpdate(threads: seq<Thread>, t: nat, th: Thread, p: nat)
    requires t < |threads|
    ensures Writers(threads[t := th], p) + (if Uncommitted(threads[t], p) then 1 else 0)
         == Writers(threads, p) + (if Uncommitted(th, p) then 1 else 0)
  {
    var n := |threads| - 1;
    if t < n {
      assert threads[t := th][..n] == threads[..n][t := th];
      WritersUpdate(threads[..n], t, th, p);
    } else {
      assert threads[t := th][..n] == threads[..n];
    }
  }

  lemma {:induction false} WritersPositive(threads: seq<Thread>, p: nat)
    ensures Writers(threads, p) > 0 <==> exists t: nat :: t < |threads| && Uncommitted(threads[t], p)
  {
    if threads != [] {
      var n := |threads| - 1;
      WritersPositive(threads[..n], p);
      if t: nat :| t < |threads| && Uncommitted(threads[t], p) {
        assert t < n ==> threads[..n][t] == threads[t];
      }
      if t: nat :| t < n && Uncommitted(threads[..n][t], p) {
        assert threads[..n][t] == threads[t];
      }
    }
  }

  /** A writer is alone if and only if the count is one. */
  lemma OtherWriters(threads: seq<Thread>, t: nat, p: nat)
    requires t < |threads| && Uncommitted(threads[t], p)
    ensures Writers(threads, p) >= 1
    ensures Writers(threads, p) > 1 <==> exists u: nat :: u < |threads| && u != t && Uncommitted(threads[u], p)
  {
    var rest := threads[t := Clean(threads[t])];
    WritersUpdate(threads, t, Clean(threads[t]), p);
    WritersPositive(rest, p);
    if u: nat :| u < |threads| && u != t && Uncommitted(threads[u], p) {
      assert Uncommitted(rest[u], p);
    }
    if u: nat :| u < |rest| && Uncommitted(rest[u], p) {
      assert u != t && Uncommitted(threads[u], p);
    }
  }

  /** The control state: before the token arrives nothing is committed, after it has left
      everything is. */
  ghost predicate Disciplined(c: Config, s: State)
    requires WellSized(c, s)
  {
    && (s.turn > 0 ==> AllArrived(s))
    && (forall i :: 0 <= i < c.threads ==> (s.threads[c.order(s.round)[i]].phase == Done <==> i < s.turn))
    && (forall t :: 0 <= t < c.threads ==> ThreadDisciplined(c, s, t))
  }

  ghost predicate ThreadDisciplined(c: Config, s: State, t: nat)
    requires WellSized(c, s) && t < c.threads
  {
    var th := s.threads[t];
    && th.cursor <= c.pages
    && (forall p :: p in th.dirty ==> p < c.pages)
    && (th.phase != Done && !Holder(c, s, t) ==> th.cursor == 0)
    && (th.phase == Done && th.cursor < c.pages ==> th.cursor == 0 && th.dirty == map[])
  }

  /** The base of an uncommitted copy: the shared page while nobody has committed it since the
      fault, the twin afterwards. */
  ghost predicate EntryOk(c: Config, s: State, t: nat, p: nat)
    requires WellSized(c, s) && t < c.threads && p < c.pages && p in s.threads[t].dirty
  {
    var e := s.threads[t].dirty[p];
    && e.version <= s.sh.versions[p]
    && (e.version == s.sh.versions[p] ==> e.snap == s.sh.mem[p])
    && (e.version < s.sh.versions[p] ==> s.sh.index[p] != 0)
    && (e.snap == s.start[p] || (Holder(c, s, t) && e.version == s.sh.versions[p]))
  }

  ghost predicate EntriesOk(c: Config, s: State)
    requires WellSized(c, s)
  {
    forall t, p :: 0 <= t < c.threads && 0 <= p < c.pages && Uncommitted(s.threads[t], p) ==> EntryOk(c, s, t, p)
  }

  /** A twin holds the page as it was when the round began, in a slot of its own. */
  ghost predicate TwinsOk(c: Config, s: State)
    requires WellSized(c, s)
  {
    && (forall p :: 0 <= p < c.pages && s.sh.index[p] != 0 ==>
          s.sh.index[p] < s.sh.cur && s.sh.users[p] > 0 && Slot(s.sh.area, s.sh.index[p]) == s.start[p])
    && (forall p, q :: 0 <= p < q < c.pages && s.sh.index[p] != 0 ==> s.sh.index[p] != s.sh.index[q])
  }

  ghost predicate UsersOk(c: Config, s: State)
    requires WellSized(c, s)
  {
    forall p :: 0 <= p < c.pages ==> s.sh.users[p] == Writers(s.threads, p)
  }

  ghost predicate Inv(c: Config, s: State) {
    && WellSized(c, s)
    && Disciplined(c, s)
    && EntriesOk(c, s)
    && TwinsOk(c, s)
    && UsersOk(c, s)
    && (!AllArrived(s) ==> s.sh.mem == s.start && s.sh.cur == 1)
  }
}
