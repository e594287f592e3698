/** The token order and the result of a round; how many twins a round makes. */
module CommitOrder {
  import opened Options
  import opened Pages
  import opened TwinBitmap
  import opened Persist
  import opened CommitRuns
  import opened CommitInvariant
  import opened CommitTheorems

  // ---- The last committer wins ----

  type Copies = map<nat, Entry>

  /** Every private page merged into `mem`. */
  function Publish(mem: seq<Page>, d: Copies): seq<Page> {
    seq(|mem|, p requires 0 <= p < |mem| => if p in d then Overlay(d[p].local, d[p].snap, mem[p]) else mem[p])
  }

  /** The threads' private pages merged in the given order. */
  function PublishAll(mem: seq<Page>, copies: seq<Copies>, order: seq<nat>): (r: seq<Page>)
    requires forall i :: 0 <= i < |order| ==> order[i] < |copies|
    ensures |r| == |mem|
  {
    if order == [] then mem
    else Publish(PublishAll(mem, copies, order[..|order| - 1]), copies[order[|order| - 1]])
  }

  /** The thread changed this byte. */
  predicate Changes(d: Copies, p: nat, i: nat)
    requires i < PAGE_SIZE
  {
    p in d && d[p].local[i] != d[p].snap[i]
  }

  /** A byte has the value of the last thread, in token order, that changed it; a byte nobody
      changed keeps its value. */
  lemma {:induction false} LastCommitterWins(mem: seq<Page>, copies: seq<Copies>, order: seq<nat>, p: nat, i: nat,
                                             k: nat)
    requires forall j :: 0 <= j < |order| ==> order[j] < |copies|
    requires p < |mem| && i < PAGE_SIZE && k <= |order|
    requires forall j :: k <= j < |order| ==> !Changes(copies[order[j]], p, i)
    ensures PublishAll(mem, copies, order)[p][i] ==
            if k == 0 then mem[p][i]
            else if Changes(copies[order[k - 1]], p, i) then copies[order[k - 1]][p].local[i]
            else PublishAll(mem, copies, order[..k])[p][i]
  {
    var n := |order| - 1;
    if k <= n {
      LastCommitterWins(mem, copies, order[..n], p, i, k);
      assert order[..n][..k] == order[..k];
    } else {
      assert order[..k] == order;
    }
  }

  ghost predicate Disjoint(copies: seq<Copies>) {
    forall t, u, p: nat, i: nat :: 0 <= t < u < |copies| && i < PAGE_SIZE ==>
        !(Changes(copies[t], p, i) && Changes(copies[u], p, i))
  }

  predicate IsOrder(order: seq<nat>, n: nat) {
    && (forall i :: 0 <= i < |order| ==> order[i] < n)
    && (forall i, j :: 0 <= i < j < |order| ==> order[i] != order[j])
    && (forall t :: 0 <= t < n ==> t in order)
  }

  /** The value of a byte when at most one thread changes it. */
  function Winner(mem: seq<Page>, copies: seq<Copies>, p: nat, i: nat, t: nat): Byte
    requires p < |mem| && i < PAGE_SIZE
  {
    if t < |copies| && Changes(copies[t], p, i) then copies[t][p].local[i] else mem[p][i]
  }

  lemma OnlyCommitterWins(mem: seq<Page>, copies: seq<Copies>, order: seq<nat>, p: nat, i: nat, t: nat)
    requires IsOrder(order, |copies|) && Disjoint(copies) && p < |mem| && i < PAGE_SIZE
    requires forall u :: 0 <= u < |copies| && Changes(copies[u], p, i) ==> u == t
    ensures PublishAll(mem, copies, order)[p][i] == Winner(mem, copies, p, i, t)
  {
    if t < |copies| && Changes(copies[t], p, i) {
      assert t in order;
      var j :| 0 <= j < |order| && order[j] == t;
      LastCommitterWins(mem, copies, order, p, i, j + 1);
    } else {
      LastCommitterWins(mem, copies, order, p, i, 0);
    }
  }

  /** When no byte is changed by two threads, every token order gives the same memory. */
  lemma OrderIrrelevant(mem: seq<Page>, copies: seq<Copies>, a: seq<nat>, b: seq<nat>)
    requires IsOrder(a, |copies|) && IsOrder(b, |copies|) && Disjoint(copies)
    ensures PublishAll(mem, copies, a) == PublishAll(mem, copies, b)
  {
    forall p | 0 <= p < |mem|
      ensures PublishAll(mem, copies, a)[p] == PublishAll(mem, copies, b)[p]
    {
      forall i | 0 <= i < PAGE_SIZE
        ensures PublishAll(mem, copies, a)[p][i] == PublishAll(mem, copies, b)[p][i]
      {
        var t: nat := if t: nat :| t < |copies| && Changes(copies[t], p, i) then t else 0;
        OnlyCommitterWins(mem, copies, a, p, i, t);
        OnlyCommitterWins(mem, copies, b, p, i, t);
      }
    }
  }

  // ---- Rounds in which a turn is nothing but a commit ----

  /** The thread commits and passes the token, whatever it sees. */
  ghost predicate OnlyCommits(c: Config, t: nat, w: Thread) {
    && w.phase == Waiting && w.cursor == 0 && (forall p :: p in w.dirty ==> p < c.pages)
    && exists a, b :: CommitsThenPuts(c, t, w.regs, a, b)
  }

  ghost predicate CommitsThenPuts(c: Config, t: nat, regs: Regs, a: Regs, b: Regs) {
    && (forall mem :: c.program(t, regs, mem) == Action.Commit(a))
    && (forall mem :: c.program(t, a, mem) == Action.Put(b))
  }

  /** The pages below `k` merged. */
  function PublishBelow(mem: seq<Page>, d: Copies, k: nat): seq<Page> {
    seq(|mem|, p requires 0 <= p < |mem| => if p in d && p < k then Overlay(d[p].local, d[p].snap, mem[p]) else mem[p])
  }

  lemma OneCommit(c: Config, t: nat, mem: seq<Page>, w: Thread, a: Regs, k: nat)
    requires k < c.pages == |mem| && w.phase == Waiting && forall m :: c.program(t, w.regs, m) == Action.Commit(a)
    ensures Turn(c, t, PublishBelow(mem, w.dirty, k), w.(cursor := k))
            == (PublishBelow(mem, w.dirty, k + 1), w.(cursor := k + 1, regs := if k + 1 == c.pages then a else w.regs))
  {
    var before := PublishBelow(mem, w.dirty, k);
    assert c.program(t, w.regs, Seen(before, w.(cursor := k))) == Action.Commit(a);
    PublishNext(mem, w.dirty, k);
  }

  lemma PublishNext(mem: seq<Page>, d: Copies, k: nat)
    requires k < |mem|
    ensures var before := PublishBelow(mem, d, k);
            PublishBelow(mem, d, k + 1) ==
            if k in d then before[k := Overlay(d[k].local, d[k].snap, before[k])] else before
  {
    var before, after := PublishBelow(mem, d, k), PublishBelow(mem, d, k + 1);
    forall p | 0 <= p < |mem|
      ensures after[p] == if p == k && k in d then Overlay(d[k].local, d[k].snap, before[k]) else before[p]
    {
      assert p == k ==> before[p] == mem[p];
    }
    assert |after| == |before|;
  }

  lemma {:induction false} CommitTurn(c: Config, t: nat, mem: seq<Page>, w: Thread, a: Regs, b: Regs, k: nat)
    requires 0 < c.pages == |mem| && k <= c.pages && w.phase == Waiting && w.cursor == 0
    requires CommitsThenPuts(c, t, w.regs, a, b)
    ensures Until(c, t, mem, w, Waiting, k)
            == (PublishBelow(mem, w.dirty, k), w.(cursor := k, regs := if k == c.pages then a else w.regs))
  {
    if k > 0 {
      CommitTurn(c, t, mem, w, a, b, k - 1);
      var before := PublishBelow(mem, w.dirty, k - 1);
      UntilStep(c, t, mem, w, Waiting, k - 1, before, w.(cursor := k - 1));
      OneCommit(c, t, mem, w, a, k - 1);
    } else {
      assert PublishBelow(mem, w.dirty, 0) == mem;
    }
  }

  lemma CommitTurnEnds(c: Config, t: nat, mem: seq<Page>, w: Thread)
    requires 0 < c.pages == |mem| && OnlyCommits(c, t, w)
    ensures Leave(c, t, mem, w, Waiting).Some? && Leave(c, t, mem, w, Waiting).value.0 == Publish(mem, w.dirty)
  {
    var a, b :| CommitsThenPuts(c, t, w.regs, a, b);
    CommitTurn(c, t, mem, w, a, b, c.pages);
    var x := Until(c, t, mem, w, Waiting, c.pages);
    assert Until(c, t, mem, w, Waiting, c.pages + 1) == Turn(c, t, x.0, x.1);
    LeaveUnique(c, t, mem, w, Waiting, c.pages + 1);
    assert PublishBelow(mem, w.dirty, c.pages) == Publish(mem, w.dirty);
  }

  /** Each thread reaches the fence with these private pages and then only commits. */
  ghost predicate Arrives(c: Config, mem: seq<Page>, regs: seq<Regs>, copies: seq<Copies>)
    requires |mem| == c.pages
  {
    && |regs| == |copies| == c.threads
    && forall t :: 0 <= t < c.threads ==>
         var w := Leave(c, t, mem, Fresh(regs[t]), Running);
         w.Some? && OnlyCommits(c, t, w.value.1) && w.value.1.dirty == copies[t]
  }

  /** The memory before turn `i` is the round-start memory with the copies of the threads before it
      merged in token order. */
  lemma {:induction false} RoundPublishes(c: Config, r: nat, mem: seq<Page>, regs: seq<Regs>, copies: seq<Copies>,
                                          i: nat)
    requires c.Valid() && |mem| == c.pages && Arrives(c, mem, regs, copies) && i <= c.threads
    ensures Before(c, r, mem, regs, i) == Some(PublishAll(mem, copies, c.order(r)[..i]))
  {
    if i > 0 {
      RoundPublishes(c, r, mem, regs, copies, i - 1);
      var t := c.order(r)[i - 1];
      var m := PublishAll(mem, copies, c.order(r)[..i - 1]);
      CommitTurnEnds(c, t, m, Leave(c, t, mem, Fresh(regs[t]), Running).value.1);
      assert c.order(r)[..i][..i - 1] == c.order(r)[..i - 1];
    }
  }

  /** Two token orders, threads that only commit when they hold the token, and no byte changed by
      two threads: the round ends with the same memory. */
  lemma RoundIgnoresOrder(c: Config, order: nat -> seq<nat>, r: nat, mem: seq<Page>, regs: seq<Regs>,
                          copies: seq<Copies>)
    requires c.Valid() && c.(order := order).Valid() && |mem| == c.pages
    requires Arrives(c, mem, regs, copies) && Disjoint(copies)
    ensures Before(c, r, mem, regs, c.threads) == Before(c.(order := order), r, mem, regs, c.threads)
  {
    var d := c.(order := order);
    SameLeave(c, d, mem, regs, copies);
    RoundPublishes(c, r, mem, regs, copies, c.threads);
    RoundPublishes(d, r, mem, regs, copies, c.threads);
    assert c.order(r)[..c.threads] == c.order(r) && d.order(r)[..c.threads] == d.order(r);
    OrderIrrelevant(mem, copies, c.order(r), d.order(r));
  }

  /** A thread on its own knows nothing of the token order. */
  lemma SameLeave(c: Config, d: Config, mem: seq<Page>, regs: seq<Regs>, copies: seq<Copies>)
    requires d == c.(order := d.order) && |mem| == c.pages && Arrives(c, mem, regs, copies)
    ensures Arrives(d, mem, regs, copies)
  {
    forall t | 0 <= t < c.threads
      ensures Leave(d, t, mem, Fresh(regs[t]), Running) == Leave(c, t, mem, Fresh(regs[t]), Running)
      ensures OnlyCommits(d, t, Leave(c, t, mem, Fresh(regs[t]), Running).value.1)
    {
      var w := Leave(c, t, mem, Fresh(regs[t]), Running).value.1;
      var k: nat :| Until(c, t, mem, Fresh(regs[t]), Running, k).1.phase != Running
                    && Until(c, t, mem, Fresh(regs[t]), Running, k).1 == w;
      SameUntil(c, d, t, mem, Fresh(regs[t]), Running, k);
      LeaveUnique(c, t, mem, Fresh(regs[t]), Running, k);
      LeaveUnique(d, t, mem, Fresh(regs[t]), Running, k);
      var a, b :| CommitsThenPuts(c, t, w.regs, a, b);
      assert CommitsThenPuts(d, t, w.regs, a, b);
    }
  }

  lemma {:induction false} SameUntil(c: Config, d: Config, t: nat, mem: seq<Page>, th: Thread, ph: Phase, k: nat)
    requires d == c.(order := d.order) && |mem| == c.pages
    ensures Until(c, t, mem, th, ph, k) == Until(d, t, mem, th, ph, k)
  {
    if k > 0 {
      SameUntil(c, d, t, mem, th, ph, k - 1);
    }
  }

  // ---- Twins per round ----

  /** The pages that have had a twin in this round.  Once such a page has lost its twin, nobody who
      still waits for the token has an uncommitted copy of it. */
  ghost predicate Twinned(c: Config, s: State, pages: set<nat>) {
    && WellSized(c, s)
    && s.sh.cur == |pages| + 1
    && (forall p :: p in pages ==> p < c.pages)
    && (forall p :: 0 <= p < c.pages && s.sh.index[p] != 0 ==> p in pages)
    && (forall p, t :: p in pages && s.sh.index[p] == 0 && 0 <= t < c.threads && Uncommitted(s.threads[t], p) ==>
          Holder(c, s, t))
  }

  lemma SubsetSize(pages: set<nat>, n: nat)
    requires forall p :: p in pages ==> p < n
    ensures |pages| <= n
  {
    if n == 0 {
      assert pages == {};
    } else {
      SubsetSize(pages - {n - 1}, n - 1);
    }
  }

  /** A step that only moves thread `t` keeps the set, unless it lets a thread other than the holder
      have a copy of a page in the set. */
  lemma TwinnedThread(c: Config, s: State, t: nat, th: Thread, turn: nat, pages: set<nat>)
    requires Inv(c, s) && Twinned(c, s, pages) && t < c.threads && turn <= c.threads && MayRun(c, s, t)
    requires th.phase == Running ==> s.threads[t].phase == Running
    requires turn == s.turn
             || (th.phase == Done && Holder(c, s, t) && forall p :: 0 <= p < c.pages ==> !Uncommitted(th, p))
    requires forall p :: p in pages && Uncommitted(th, p) && !Uncommitted(s.threads[t], p) ==> Holder(c, s, t)
    ensures Twinned(c, Update(s, t, th).(turn := turn), pages)
  {
    var r := Update(s, t, th).(turn := turn);
    if AllArrived(s) {
      assert AllArrived(r);
    } else {
      assert pages == {};
    }
  }

  lemma TwinnedCommit(c: Config, s: State, t: nat, next: Regs, pages: set<nat>) returns (after: set<nat>)
    requires Inv(c, s) && Twinned(c, s, pages) && Healthy(s) && Holder(c, s, t)
    requires s.threads[t].phase == Waiting && s.threads[t].cursor < c.pages
    ensures Twinned(c, StepCommit(c, s, t, next), after)
  {
    var p := s.threads[t].cursor;
    var r := StepCommit(c, s, t, next);
    if p in s.threads[t].dirty {
      after := TwinnedPage(c, s, t, pages);
      TwinnedAfter(c, s, r, t, p, pages, after);
    } else {
      after := pages;
      TwinnedThread(c, s, t, r.threads[t], s.turn, pages);
    }
  }

  /** The set grows by the page exactly when a twin is made, and then the page was not in it. */
  lemma TwinnedPage(c: Config, s: State, t: nat, pages: set<nat>) returns (after: set<nat>)
    requires Inv(c, s) && Twinned(c, s, pages) && Healthy(s) && Holder(c, s, t)
    requires s.threads[t].cursor < c.pages && s.threads[t].cursor in s.threads[t].dirty
    ensures var p := s.threads[t].cursor;
            && after == (if WithTwin(s.sh, p) == s.sh then pages else pages + {p})
            && WithTwin(s.sh, p).cur == |after| + 1
            && (WithTwin(s.sh, p).index[p] != 0 ==> p in after)
            && (s.sh.users[p] == 1 ==> forall u: nat :: u < c.threads && u != t ==> !Uncommitted(s.threads[u], p))
            && (s.sh.users[p] > 1 ==> WithTwin(s.sh, p).index[p] != 0)
            && s.sh.users[p] >= 1
  {
    var p := s.threads[t].cursor;
    OtherWriters(s.threads, t, p);
    after := pages;
    if s.sh.users[p] > 1 && s.sh.index[p] == 0 {
      var u: nat :| u < c.threads && u != t && Uncommitted(s.threads[u], p);
      assert !Holder(c, s, u);
      assert p !in pages;
      after := pages + {p};
    }
  }

  lemma TwinnedAfter(c: Config, s: State, r: State, t: nat, p: nat, pages: set<nat>, after: set<nat>)
    requires WellSized(c, s) && WellSized(c, r) && Twinned(c, s, pages) && Holder(c, s, t) && p < c.pages
    requires r.sh.cur == |after| + 1 && (after == pages || after == pages + {p})
    requires r.turn == s.turn && r.round == s.round
    requires forall q :: 0 <= q < c.pages && q != p ==> r.sh.index[q] == s.sh.index[q]
    requires r.sh.index[p] != 0 ==> p in after
    requires r.sh.index[p] == 0 ==> forall u: nat :: u < c.threads && u != t ==> !Uncommitted(s.threads[u], p)
    requires forall u :: 0 <= u < c.threads ==> r.threads[u].phase == s.threads[u].phase
    requires forall u, q :: 0 <= u < c.threads && Uncommitted(r.threads[u], q) ==> Uncommitted(s.threads[u], q)
    ensures Twinned(c, r, after)
  {
  }

  lemma TwinnedRound(c: Config, s: State)
    requires Inv(c, s) && RoundOver(c, s)
    ensures Twinned(c, StepRound(c, s), {})
  {
    forall t | 0 <= t < c.threads
      ensures s.threads[t].dirty == map[]
    {
      assert ThreadDisciplined(c, s, t);
    }
    forall p | 0 <= p < c.pages
      ensures s.sh.index[p] == 0
    {
      WritersPositive(s.threads, p);
    }
  }

  lemma TwinnedStep(c: Config, s: State, x: Choice, pages: set<nat>) returns (after: set<nat>)
    requires Inv(c, s) && Twinned(c, s, pages) && Healthy(s)
    ensures Twinned(c, Step(c, s, x), after)
  {
    after := pages;
    match x
    case EndRound =>
      if RoundOver(c, s) {
        after := {};
        TwinnedRound(c, s);
      }
    case Run(t) =>
      if MayRun(c, s, t) {
        var th := s.threads[t];
        assert ThreadDisciplined(c, s, t);
        if th.phase == Done {
          TwinnedThread(c, s, t, StepThread(c, s, t).threads[t], s.turn, pages);
        } else {
          match c.program(t, th.regs, Seen(s.sh.mem, th))
          case Commit(next) =>
            if th.phase == Waiting && th.cursor < c.pages {
              after := TwinnedCommit(c, s, t, next, pages);
            }
          case _ => TwinnedOther(c, s, t, pages);
        }
      }
  }

  lemma TwinnedOther(c: Config, s: State, t: nat, pages: set<nat>)
    requires Inv(c, s) && Twinned(c, s, pages) && MayRun(c, s, t)
    requires s.threads[t].phase != Done && !c.program(t, s.threads[t].regs, Seen(s.sh.mem, s.threads[t])).Commit?
    ensures Twinned(c, StepThread(c, s, t), pages)
  {
    assert ThreadDisciplined(c, s, t);
    var r := StepThread(c, s, t);
    var th, turn := r.threads[t], r.turn;
    match c.program(t, s.threads[t].regs, Seen(s.sh.mem, s.threads[t]))
    case Write(p, at, value, next) => TwinnedWrite(c, s, t, p, at, value, next, pages);
    case _ => TwinnedThread(c, s, t, th, turn, pages);
  }

  lemma TwinnedWrite(c: Config, s: State, t: nat, p: nat, at: nat, value: Byte, next: Regs, pages: set<nat>)
    requires Inv(c, s) && Twinned(c, s, pages) && MayRun(c, s, t) && s.threads[t].phase != Done
    ensures Twinned(c, StepWrite(c, s, t, p, at, value, next), pages)
  {
    TwinnedThread(c, s, t, StepWrite(c, s, t, p, at, value, next).threads[t], s.turn, pages);
  }

  ghost predicate VersionsFit(s: State) {
    forall p :: 0 <= p < |s.sh.versions| ==> s.sh.versions[p] < INT_RANGE
  }

  ghost predicate FittingRun(c: Config, s: State, schedule: seq<Choice>)
    requires WellSized(c, s)
  {
    VersionsFit(Exec(c, s, schedule)) && (schedule == [] || FittingRun(c, s, schedule[..|schedule| - 1]))
  }

  /** A page gets at most one twin in a round, so a heap and globals of at most 3070 pages together
      never run out of room for twins in the bitmap they share: such a run stays within the limits as
      long as the versions fit. */
  lemma {:induction false} OneTwinPerPage(
    c: Config, heap: seq<Page>, globals: seq<Page>, regs: seq<Regs>, area: Area, schedule: seq<Choice>)
    returns (pages: set<nat>)
    requires c.Valid() && |heap| + |globals| == c.pages <= MAX_TWINS && |regs| == c.threads
    requires FittingRun(c, Init(c, heap + globals, regs, area), schedule)
    ensures HealthyRun(c, Init(c, heap + globals, regs, area), schedule)
    ensures Twinned(c, Exec(c, Init(c, heap + globals, regs, area), schedule), pages)
  {
    var i := Init(c, heap + globals, regs, area);
    InitInv(c, heap + globals, regs, area);
    if schedule == [] {
      pages := {};
    } else {
      var before := schedule[..|schedule| - 1];
      var x := schedule[|schedule| - 1];
      pages := OneTwinPerPage(c, heap, globals, regs, area, before);
      RunInv(c, i, before);
      assert Healthy(Exec(c, i, before));
      pages := TwinnedStep(c, Exec(c, i, before), x, pages);
    }
    SubsetSize(pages, c.pages);
  }
}
