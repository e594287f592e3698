/** Runs from the start of the program in which a barrier that only one thread waits for loses a write. */
module CommitFailure {
  import opened Pages
  import opened TwinBitmap
  import opened Persist
  import opened CommitRuns
  import opened Barriers
  import opened BarrierFailures

  /** All threads run; the first one of the token order will have the token first. */
  ghost function AtStart(c: Config, mem: seq<Page>, regs: seq<Regs>, area: Area): (n: Net)
    requires c.Valid() && c.threads > 0 && |mem| == c.pages && |regs| == c.threads
    ensures NetSized(c, n)
  {
    Net(Init(c, mem, regs, area), c.order(0), 0, {})
  }

  ghost function StartLook(c: Config, mem: seq<Page>, area: Area): Look {
    var zeros := seq(c.pages, _ => 0);
    Look(Shared(mem, zeros, zeros, zeros, 1, area), 0, seq(c.threads, _ => View(Free, map[], 0)))
  }

  lemma StartLooks(c: Config, mem: seq<Page>, regs: seq<Regs>, area: Area)
    requires c.Valid() && c.threads > 0 && |mem| == c.pages && |regs| == c.threads
    ensures var n := AtStart(c, mem, regs, area);
            Looks(c, n, StartLook(c, mem, area)) && Books(c, n.s) && Healthy(n.s)
  {
    var s := Init(c, mem, regs, area);
    forall p: nat | p < c.pages
      ensures Writers(s.threads, p) == 0
    {
      WritersPositive(s.threads, p);
    }
  }

  // ---- The books are kept ----

  lemma FaultBooks(c: Config, s: State, u: nat, p: nat, at: nat, value: Byte, next: Regs)
    requires Books(c, s) && u < c.threads
    ensures Books(c, StepWrite(c, s, u, p, at, value, next))
  {
    var r := StepWrite(c, s, u, p, at, value, next);
    forall q: nat | q < c.pages
      ensures Writers(r.threads, q) == r.sh.users[q]
    {
      if r != s {
        WritersUpdate(s.threads, u, r.threads[u], q);
      }
    }
  }

  lemma SameBooks(c: Config, s: State, r: State)
    requires Books(c, s) && WellSized(c, r)
    requires r.sh.users == s.sh.users && r.sh.index == s.sh.index
    requires forall u: nat :: u < c.threads ==>
               r.threads[u].dirty == s.threads[u].dirty && r.threads[u].cursor == s.threads[u].cursor
    ensures Books(c, r)
  {
    forall p: nat | p < c.pages
      ensures Writers(r.threads, p) == r.sh.users[p]
    {
      SameCopies(s.threads, r.threads, p);
    }
  }

  lemma AfterBooks(c: Config, n: Net, x: Move)
    requires NetSized(c, n) && Books(c, n.s)
    ensures Books(c, After(c, n, x).s)
  {
    match x
    case OpenFence(keep) => SameBooks(c, n.s, Opened(c, n, keep).s);
    case Act(u, action) =>
      if MayMove(c, n, u) {
        var th := n.s.threads[u];
        match action
        case Write(p, at, value, next) => FaultBooks(c, n.s, u, p, at, value, next);
        case Sync(next) => SameBooks(c, n.s, Acted(c, n, u, action).s);
        case Commit(next) =>
          if th.phase == Waiting && th.cursor < c.pages {
            CommitBooks(c, n.s, u, next);
          }
        case Begin(next) =>
          if th.cursor == c.pages {
            CleanBooks(c, n.s, u, Clean(th).(regs := next), n.s.turn);
          }
        case Put(next) => PutBooks(c, n, u, next);
      }
  }

  lemma PutBooks(c: Config, n: Net, u: nat, next: Regs)
    requires NetSized(c, n) && Books(c, n.s) && MayMove(c, n, u)
    ensures Books(c, Acted(c, n, u, Action.Put(next)).s)
  {
    var r := Acted(c, n, u, Action.Put(next));
    if r != n {
      forall q: nat | q < c.pages
        ensures Writers(r.s.threads, q) == n.s.sh.users[q]
      {
        WritersUpdate(n.s.threads, u, r.s.threads[u], q);
      }
    }
  }

  lemma {:induction false} MovesBooks(c: Config, n: Net, xs: seq<Move>)
    requires NetSized(c, n) && Books(c, n.s)
    ensures Books(c, Moves(c, n, xs).s)
  {
    if xs != [] {
      MovesBooks(c, n, xs[..|xs| - 1]);
      AfterBooks(c, Moves(c, n, xs[..|xs| - 1]), xs[|xs| - 1]);
    }
  }

  // ---- Up to the barrier ----

  /** All have come to the first fence, which has opened, and the first thread has committed. */
  ghost predicate AtBarrier(c: Config, look: Look) {
    && look.token == 0 && |look.views| > 0 && look.views[0].place == Queue && look.views[0].cursor == c.pages
    && forall i :: 0 < i < |look.views| ==> look.views[i].place == Queue && look.views[i].cursor == 0
  }

  /** A barrier of one thread: the first of the ring. */
  lemma OpensAlone(c: Config, n: Net, look: Look)
    requires Looks(c, n, look) && AtBarrier(c, look) && Books(c, n.s)
    ensures Opens(c, n.s, n.ring[0], [], n.ring[1..], [])
  {
    var ring := n.ring;
    assert [ring[0]] + [] + ring[1..] + [] == ring;
    forall u: nat | u < c.threads
      ensures if u in ring[1..] then n.s.threads[u].phase == Waiting && n.s.threads[u].cursor == 0
              else u == ring[0]
    {
      assert u in ring;
      var i :| 0 <= i < |ring| && ring[i] == u;
      assert ViewOf(n, ring[i]) == look.views[i];
      if i > 0 {
        assert ring[1..][i - 1] == u;
      }
    }
    assert ViewOf(n, ring[0]) == look.views[0];
  }

  /** Everybody comes to the fence, which opens. */
  lemma ToSerial(c: Config, n: Net, look: Look) returns (xs: seq<Move>, r: Net)
    requires Looks(c, n, look) && look.token == 0 && |look.views| > 0 && Healthy(n.s)
    requires forall i :: 0 <= i < |look.views| ==> look.views[i].place == Free
    ensures Kept(c, n, xs, r) && Within(c, n, xs) && Healthy(r.s)
    ensures var views := seq(|look.views|, i requires 0 <= i < |look.views| => look.views[i].(place := Queue));
            Looks(c, r, look.(views := views))
  {
    var m := |look.views|;
    var x1, n1 := SyncAll(c, n, look, 0, m);
    var l1 := look.(views := Arrived(look.views, 0, m));
    var x2, n2 := DoOpen(c, n1, l1, true, 0);
    assert Open(l1, true).views == seq(m, i requires 0 <= i < m => look.views[i].(place := Queue));
    Joined(c, n, x1, n1, x2, n2);
    xs, r := x1 + x2, n2;
  }

  /** From the start of every program of at least two threads: the first thread calls the barrier at its
      first synchronisation, and a write of the second is lost. */
  lemma RefaultLosesAWrite(c: Config, mem: seq<Page>, regs: seq<Regs>, area: Area)
    returns (before: seq<Move>, after: seq<Move>)
    requires c.Valid() && 1 < c.threads < INT_RANGE - 2 && |mem| == c.pages && |regs| == c.threads
    ensures var n := AtStart(c, mem, regs, area);
            var s := Moves(c, n, before).s;
            && Within(c, n, before) && Opens(c, s, n.ring[0], [], n.ring[1..], [])
            && var b := AfterBarrier(c, s, n.ring[0], [], n.ring[1..], []);
               Within(c, b, after) && LosesAWrite(c, Moves(c, b, after), 0)
  {
    var n, look := AtStart(c, mem, regs, area), StartLook(c, mem, area);
    StartLooks(c, mem, regs, area);
    var x1, n1 := ToSerial(c, n, look);
    var l1 := look.(views := seq(c.threads, i => View(Queue, map[], 0)));
    var x2, n2, sh := Sweep(c, n1, l1, 0, 0);
    Joined(c, n, x1, n1, x2, n2);
    before := x1 + x2;
    MovesBooks(c, n, before);
    var l2 := Look(sh, 0, l1.views[0 := View(Queue, map[], c.pages)]);
    OpensAlone(c, n2, l2);
    after := GoesOn(c, n2);
  }

  lemma GoesOn(c: Config, n: Net) returns (xs: seq<Move>)
    requires Sound(c, n) && 1 < c.threads < INT_RANGE - 2 && 0 < c.pages
    requires Opens(c, n.s, n.ring[0], [], n.ring[1..], [])
    requires forall p :: 0 <= p < c.pages ==> n.s.sh.versions[p] == n.s.sh.users[p] == 0
    ensures var b := AfterBarrier(c, n.s, n.ring[0], [], n.ring[1..], []);
            Within(c, b, xs) && LosesAWrite(c, Moves(c, b, xs), 0)
  {
    var first := Starts(c, n.s, n.ring[0], [], n.ring[1..], []);
    assert Wanted(first.sh) == {};
    var b := AfterBarrier(c, n.s, n.ring[0], [], n.ring[1..], []);
    var r;
    xs, r := CallerLosesAWrite(c, b, first);
  }

  // ---- A slot that is given out twice ----

  lemma AfterAlone(c: Config, n: Net, look: Look)
    requires Looks(c, n, look) && AtBarrier(c, look) && |look.views| > 1
    requires Opens(c, n.s, n.ring[0], [], n.ring[1..], [])
    ensures Looks(c, AfterBarrier(c, n.s, n.ring[0], [], n.ring[1..], []),
                  Look(look.sh.(cur := 1), 1, look.views[0 := View(Free, map[], 0)]))
  {
    var b := AfterBarrier(c, n.s, n.ring[0], [], n.ring[1..], []);
    assert b.ring == n.ring;
    forall i | 0 <= i < |n.ring|
      ensures ViewOf(b, n.ring[i]) == look.views[0 := View(Free, map[], 0)][i]
    {
      assert ViewOf(n, n.ring[i]) == look.views[i];
      NotFirst(n.ring, i);
    }
  }

  lemma NotFirst(ring: seq<nat>, i: nat)
    requires i < |ring| && forall j, k :: 0 <= j < k < |ring| ==> ring[j] != ring[k]
    ensures ring[i] in ring[1..] <==> i > 0
  {
    assert i > 0 ==> ring[1..][i - 1] == ring[i];
  }

  /** Three threads write: the first to page 0, the second to page 1, the third to both. */
  function Writing(look: Look, value: Byte): Look
    requires look.sh.WellSized() && |look.sh.mem| > 1 && |look.views| > 2
  {
    Wrote(Wrote(Wrote(Wrote(look, 0, 0, 0, value), 1, 1, 1, look.sh.mem[1][1]), 2, 0, 1, look.sh.mem[0][1]),
          2, 1, 1, look.sh.mem[1][1])
  }

  lemma AllWrite(c: Config, n: Net, look: Look, value: Byte) returns (xs: seq<Move>, r: Net)
    requires Looks(c, n, look) && |look.views| > 2 && c.pages > 1 && Healthy(n.s)
    requires forall i :: 0 <= i < |look.views| ==> look.views[i] == View(Free, map[], 0)
    ensures Kept(c, n, xs, r) && Within(c, n, xs) && Healthy(r.s) && Looks(c, r, Writing(look, value))
  {
    var x1, n1 := DoWrite(c, n, look, 0, 0, 0, value);
    var l1 := Wrote(look, 0, 0, 0, value);
    var x2, n2 := DoWrite(c, n1, l1, 1, 1, 1, look.sh.mem[1][1]);
    var l2 := Wrote(l1, 1, 1, 1, look.sh.mem[1][1]);
    Joined(c, n, x1, n1, x2, n2);
    var x3, n3 := DoWrite(c, n2, l2, 2, 0, 1, look.sh.mem[0][1]);
    var l3 := Wrote(l2, 2, 0, 1, look.sh.mem[0][1]);
    Joined(c, n, x1 + x2, n2, x3, n3);
    var x4, n4 := DoWrite(c, n3, l3, 2, 1, 1, look.sh.mem[1][1]);
    Joined(c, n, x1 + x2 + x3, n3, x4, n4);
    xs, r := x1 + x2 + x3 + x4, n4;
  }

  function Copy(page: Page, at: nat, value: Byte): Entry
    requires at < PAGE_SIZE
  {
    Entry(0, page, page[at := value])
  }

  /** What they have written, everybody being past the first fence. */
  ghost predicate Written(c: Config, look: Look, mem: seq<Page>, area: Area, value: Byte) {
    && |mem| == c.pages > 1 && |look.views| > 2 && look.token == 0
    && look.views[0] == View(Queue, map[0 := Copy(mem[0], 0, value)], 0)
    && look.views[1] == View(Queue, map[1 := Copy(mem[1], 1, mem[1][1])], 0)
    && look.views[2] == View(Queue, map[0 := Copy(mem[0], 1, mem[0][1]), 1 := Copy(mem[1], 1, mem[1][1])], 0)
    && (forall i :: 2 < i < |look.views| ==> look.views[i] == View(Queue, map[], 0))
    && look.sh.WellSized() && look.sh.mem == mem && look.sh.area == area && look.sh.cur == 1
    && (forall p :: 0 <= p < c.pages ==> look.sh.versions[p] == look.sh.index[p] == 0)
    && look.sh.users[0] == 2 && look.sh.users[1] == 2
  }

  lemma WritingIs(c: Config, mem: seq<Page>, area: Area, value: Byte)
    requires |mem| == c.pages > 1 && c.threads > 2
    ensures var w := Writing(StartLook(c, mem, area), value);
            (forall i :: 0 <= i < c.threads ==> w.views[i].place == Free)
            && Written(c, w.(views := seq(|w.views|, i requires 0 <= i < |w.views| => w.views[i].(place := Queue))),
                       mem, area, value)
  {
  }

  /** The first commit, and the reset. */
  function FirstMerged(sh: Shared, value: Byte): (r: Shared)
    requires sh.WellSized() && |sh.mem| > 0
    ensures r.WellSized() && |r.mem| == |sh.mem|
  {
    CommitEntry(sh, 0, Dirty(0, sh.mem[0][0 := value])).(cur := 1)
  }

  /** The second commit. */
  function SecondMerged(sh: Shared, value: Byte): (r: Shared)
    requires sh.WellSized() && |sh.mem| > 1
    ensures r.WellSized() && |r.mem| == |sh.mem|
  {
    CommitEntry(FirstMerged(sh, value), 1, Dirty(0, sh.mem[1]))
  }

  lemma MergedWrong(c: Config, look: Look, mem: seq<Page>, area: Area, value: Byte)
    requires Written(c, look, mem, area, value) && mem[0][0] != mem[1][0] && value != mem[0][0]
    ensures var a, b := FirstMerged(look.sh, value), SecondMerged(look.sh, value);
            && Limits(a) && Limits(a.(cur := 2)) && Limits(b)
            && b.mem[0][0] == value && CommitEntry(b, 0, Dirty(0, mem[0])).mem[0][0] == mem[0][0]
            && CommitEntry(look.sh, 0, Dirty(0, mem[0][0 := value])).cur == 2
  {
    var a, b := FirstMerged(look.sh, value), SecondMerged(look.sh, value);
    assert a.index[0] == 1 && a.index[1] == 0 && a.users[1] == 2 && a.versions[0] == 1 && a.mem[1] == mem[1];
    SlotTakenOver(a, 0, 1, Dirty(0, mem[1]), 0, mem[1]);
    var local: Page := mem[0];
    assert CommitEntry(b, 0, Dirty(0, local)).mem[0] == Overlay(local, mem[1], b.mem[0]);
  }

  /** The first thread has committed. */
  function FirstDone(look: Look, value: Byte, pages: nat): Look
    requires look.sh.WellSized() && |look.sh.mem| > 0 && |look.views| > 0
  {
    Look(CommitEntry(look.sh, 0, Dirty(0, look.sh.mem[0][0 := value])), 0,
         look.views[0 := look.views[0].(cursor := pages)])
  }

  lemma ToBarrier(c: Config, n: Net, look: Look, mem: seq<Page>, area: Area, value: Byte)
    returns (xs: seq<Move>, r: Net)
    requires Looks(c, n, look) && Written(c, look, mem, area, value) && Healthy(n.s)
    requires mem[0][0] != mem[1][0] && value != mem[0][0]
    ensures Kept(c, n, xs, r) && Within(c, n, xs) && Looks(c, r, FirstDone(look, value, c.pages))
  {
    MergedWrong(c, look, mem, area, value);
    var x1, n1 := DoCommit(c, n, look, 0, 0);
    WithinEnds(c, n, x1);
    var l1 := Committed(look, 0);
    var x2, n2, sh := Sweep(c, n1, l1, 0, 0);
    Joined(c, n, x1, n1, x2, n2);
    assert l1.views[0 := l1.views[0].(cursor := c.pages)] == FirstDone(look, value, c.pages).views;
    xs, r := x1 + x2, n2;
  }

  /** The barrier has opened. */
  function Reopened(look: Look, value: Byte): Look
    requires look.sh.WellSized() && |look.sh.mem| > 0 && |look.views| > 0
  {
    Look(FirstMerged(look.sh, value), 1, look.views[0 := View(Free, map[], 0)])
  }

  /** The second thread has had its turn. */
  function SecondDone(look: Look, value: Byte): Look
    requires look.sh.WellSized() && |look.sh.mem| > 1 && |look.views| > 2
  {
    Look(SecondMerged(look.sh, value), 2, look.views[0 := View(Free, map[], 0)][1 := View(Second, map[], 0)])
  }

  lemma SecondTurn(c: Config, n: Net, look: Look, mem: seq<Page>, area: Area, value: Byte)
    returns (xs: seq<Move>, r: Net)
    requires Written(c, look, mem, area, value) && mem[0][0] != mem[1][0] && value != mem[0][0]
    requires Looks(c, n, Reopened(look, value))
    ensures Kept(c, n, xs, r) && Within(c, n, xs) && Looks(c, r, SecondDone(look, value))
  {
    MergedWrong(c, look, mem, area, value);
    var l0 := Reopened(look, value);
    assert Healthy(n.s);
    var x1, n1 := DoCommit(c, n, l0, 1, 0);
    WithinEnds(c, n, x1);
    var l1 := Committed(l0, 1);
    assert l1.sh == l0.sh && mem[1][1 := mem[1][1]] == mem[1];
    var x2, n2 := DoCommit(c, n1, l1, 1, 0);
    Joined(c, n, x1, n1, x2, n2);
    var l2 := Committed(l1, 1);
    var x3, n3, sh := Sweep(c, n2, l2, 1, 0);
    Joined(c, n, x1 + x2, n2, x3, n3);
    var l3 := Look(sh, 1, l2.views[1 := l2.views[1].(cursor := c.pages)]);
    var x4, n4 := DoPut(c, n3, l3, 1);
    Joined(c, n, x1 + x2 + x3, n3, x4, n4);
    assert Yielding(l3, 1).views == SecondDone(look, value).views;
    xs, r := x1 + x2 + x3 + x4, n4;
  }

  lemma ThirdWrong(c: Config, n: Net, look: Look, mem: seq<Page>, area: Area, value: Byte)
    requires Written(c, look, mem, area, value) && mem[0][0] != mem[1][0] && value != mem[0][0]
    requires Looks(c, n, SecondDone(look, value))
    ensures LosesAWrite(c, n, 2)
  {
    MergedWrong(c, look, mem, area, value);
    assert ViewOf(n, n.ring[2]) == SecondDone(look, value).views[2] == look.views[2];
    assert mem[0][1 := mem[0][1]] == mem[0];
  }

  /** From the start of every program of at least three threads on a memory with two pages that differ:
      the slot of page 0's twin is given out again for page 1, and a write of the first thread is lost. */
  lemma ResetLosesAWrite(c: Config, mem: seq<Page>, regs: seq<Regs>, area: Area)
    returns (before: seq<Move>, after: seq<Move>)
    requires c.Valid() && 2 < c.threads && |mem| == c.pages > 1 && |regs| == c.threads && mem[0][0] != mem[1][0]
    ensures var n := AtStart(c, mem, regs, area);
            var s := Moves(c, n, before).s;
            && Within(c, n, before) && Opens(c, s, n.ring[0], [], n.ring[1..], [])
            && var b := AfterBarrier(c, s, n.ring[0], [], n.ring[1..], []);
               Within(c, b, after) && LosesAWrite(c, Moves(c, b, after), 2)
  {
    var n := AtStart(c, mem, regs, area);
    var value, other := TwoOthers(mem[0][0]);
    var r, q;
    before, r, q := WriteAndCommit(c, mem, regs, area, value);
    MovesBooks(c, n, before);
    var l := FirstDone(q, value, c.pages);
    OpensAlone(c, r, l);
    AfterAlone(c, r, l);
    assert l.views[0 := View(Free, map[], 0)] == Reopened(q, value).views;
    var b, e := AfterBarrier(c, r.s, n.ring[0], [], n.ring[1..], []), r;
    after, e := SecondTurn(c, b, q, mem, area, value);
    ThirdWrong(c, e, q, mem, area, value);
  }

  lemma WriteAndCommit(c: Config, mem: seq<Page>, regs: seq<Regs>, area: Area, value: Byte)
    returns (xs: seq<Move>, r: Net, look: Look)
    requires c.Valid() && 2 < c.threads && |mem| == c.pages > 1 && |regs| == c.threads
    requires mem[0][0] != mem[1][0] && value != mem[0][0]
    ensures var n := AtStart(c, mem, regs, area); Kept(c, n, xs, r) && Within(c, n, xs) && Books(c, n.s)
    ensures Written(c, look, mem, area, value) && Looks(c, r, FirstDone(look, value, c.pages))
  {
    var n, start := AtStart(c, mem, regs, area), StartLook(c, mem, area);
    StartLooks(c, mem, regs, area);
    var x1, n1 := AllWrite(c, n, start, value);
    WritingIs(c, mem, area, value);
    var w := Writing(start, value);
    var x2, n2 := ToSerial(c, n1, w);
    Joined(c, n, x1, n1, x2, n2);
    look := w.(views := seq(|w.views|, i requires 0 <= i < |w.views| => w.views[i].(place := Queue)));
    var x3, n3 := ToBarrier(c, n2, look, mem, area, value);
    Joined(c, n, x1 + x2, n2, x3, n3);
    xs, r := x1 + x2 + x3, n3;
  }
}
