/** A barrier that a thread in the fence does not take part in: in every case the threads can go on so
    that they deadlock, or that a commit is wrong. */
module BarrierFailures {
  import opened Pages
  import opened TwinBitmap
  import opened Persist
  import opened CommitRuns
  import opened Barriers

  /** Outside fences and token; at the first fence; past it; at the second fence. */
  datatype Place = Free | First | Queue | Second

  datatype View = View(place: Place, dirty: map<nat, Entry>, cursor: nat)

  /** What the failures depend on, the threads in the order of the ring. */
  datatype Look = Look(sh: Shared, token: nat, views: seq<View>)

  ghost function ViewOf(n: Net, u: nat): View
    requires u < |n.s.threads|
  {
    var th := n.s.threads[u];
    View(match th.phase
         case Running => Free
         case Waiting => if u in n.past then Queue else First
         case Done => Second,
         th.dirty, th.cursor)
  }

  /** The limits of a run, on the shared state. */
  ghost predicate Limits(sh: Shared) {
    && sh.cur <= MAX_TWINS + 1
    && forall p :: 0 <= p < |sh.versions| ==> sh.versions[p] < INT_RANGE
  }

  ghost predicate Sound(c: Config, n: Net) {
    NetSized(c, n) && forall u :: u in n.past ==> u < c.threads && n.s.threads[u].phase == Waiting
  }

  ghost predicate Looks(c: Config, n: Net, look: Look) {
    && Sound(c, n)
    && |look.views| == |n.ring| && look.sh == n.s.sh && look.token == n.token
    && forall i {:trigger ViewOf(n, n.ring[i])} :: 0 <= i < |look.views| ==> ViewOf(n, n.ring[i]) == look.views[i]
  }

  /** The thread can fault and store: it is free, or has the token. */
  predicate CanMove(look: Look, i: nat) {
    i < |look.views| && (look.views[i].place == Free || (look.views[i].place == Queue && look.token == i))
  }

  predicate HoldsToken(look: Look, i: nat) {
    i < |look.views| && look.views[i].place == Queue && look.token == i
  }

  function Next(look: Look): nat {
    if look.token + 1 < |look.views| then look.token + 1 else 0
  }

  function Synced(look: Look, i: nat): Look
    requires i < |look.views|
  {
    look.(views := look.views[i := look.views[i].(place := First)])
  }

  lemma DoSync(c: Config, n: Net, look: Look, i: nat) returns (xs: seq<Move>, r: Net)
    requires Looks(c, n, look) && i < |look.views| && look.views[i].place == Free
    ensures Kept(c, n, xs, r) && (Healthy(n.s) ==> Within(c, n, xs))
    ensures Looks(c, r, Synced(look, i))
  {
    assert ViewOf(n, n.ring[i]) == look.views[i];
    var u := n.ring[i];
    var x := Act(u, Action.Sync(n.s.threads[u].regs));
    OneMove(c, n, x);
    xs, r := [x], After(c, n, x);
    forall j | 0 <= j < |n.ring|
      ensures ViewOf(r, r.ring[j]) == Synced(look, i).views[j]
    {
      assert ViewOf(n, n.ring[j]) == look.views[j];
    }
  }

  function Faulted(look: Look, i: nat, p: nat): Look
    requires look.sh.WellSized() && i < |look.views| && p < |look.sh.mem|
  {
    var e := Entry(Stamp(look.sh.versions[p]), look.sh.mem[p], look.sh.mem[p]);
    var v := look.views[i];
    Look(AddUser(look.sh, p), look.token, look.views[i := v.(dirty := v.dirty[p := e])])
  }

  lemma DoFault(c: Config, n: Net, look: Look, i: nat, p: nat) returns (xs: seq<Move>, r: Net)
    requires Looks(c, n, look) && CanMove(look, i) && p < c.pages
    requires look.views[i].cursor == 0 && p !in look.views[i].dirty
    ensures Kept(c, n, xs, r) && (Healthy(n.s) ==> Within(c, n, xs))
    ensures Looks(c, r, Faulted(look, i, p))
  {
    assert ViewOf(n, n.ring[i]) == look.views[i];
    var x := Act(n.ring[i], Action.Write(p, 0, 0, []));
    OneMove(c, n, x);
    xs, r := [x], After(c, n, x);
    forall j | 0 <= j < |n.ring|
      ensures ViewOf(r, r.ring[j]) == Faulted(look, i, p).views[j]
    {
      assert ViewOf(n, n.ring[j]) == look.views[j];
    }
  }

  function Stored(look: Look, i: nat, p: nat, at: nat, value: Byte): Look
    requires i < |look.views| && p in look.views[i].dirty && at < PAGE_SIZE
  {
    var v := look.views[i];
    var e := v.dirty[p];
    look.(views := look.views[i := v.(dirty := v.dirty[p := e.(local := e.local[at := value])])])
  }

  lemma DoStore(c: Config, n: Net, look: Look, i: nat, p: nat, at: nat, value: Byte) returns (xs: seq<Move>, r: Net)
    requires Looks(c, n, look) && CanMove(look, i) && p < c.pages && at < PAGE_SIZE
    requires look.views[i].cursor == 0 && p in look.views[i].dirty
    ensures Kept(c, n, xs, r) && (Healthy(n.s) ==> Within(c, n, xs))
    ensures Looks(c, r, Stored(look, i, p, at, value))
  {
    assert ViewOf(n, n.ring[i]) == look.views[i];
    var u := n.ring[i];
    var x := Act(u, Action.Write(p, at, value, n.s.threads[u].regs));
    OneMove(c, n, x);
    xs, r := [x], After(c, n, x);
    forall j | 0 <= j < |n.ring|
      ensures ViewOf(r, r.ring[j]) == Stored(look, i, p, at, value).views[j]
    {
      assert ViewOf(n, n.ring[j]) == look.views[j];
    }
  }

  /** The shared state after the thread's next page has been committed. */
  function Merged(sh: Shared, v: View): Shared
    requires sh.WellSized() && v.cursor < |sh.mem|
  {
    var p := v.cursor;
    if p in v.dirty then CommitEntry(sh, p, Dirty(v.dirty[p].version, v.dirty[p].local)) else sh
  }

  function Committed(look: Look, i: nat): Look
    requires look.sh.WellSized() && i < |look.views| && look.views[i].cursor < |look.sh.mem|
  {
    var v := look.views[i];
    Look(Merged(look.sh, v), look.token, look.views[i := v.(cursor := v.cursor + 1)])
  }

  lemma DoCommit(c: Config, n: Net, look: Look, i: nat, k: nat) returns (xs: seq<Move>, r: Net)
    requires Looks(c, n, look) && HoldsToken(look, i) && look.views[i].cursor < c.pages
    ensures Kept(c, n, xs, r)
    ensures Looks(c, r, Committed(look, i))
    ensures Healthy(n.s) && Limits(Committed(look, i).sh) ==> Within(c, n, xs)
    ensures Books(c, n.s) ==> Books(c, r.s)
    ensures Books(c, n.s) && Room(look.sh, look.views[i].cursor, k) ==>
              Within(c, n, xs) && Room(Committed(look, i).sh, look.views[i].cursor + 1, k)
  {
    assert ViewOf(n, n.ring[i]) == look.views[i];
    var u := n.ring[i];
    var x := Act(u, Action.Commit(n.s.threads[u].regs));
    OneMove(c, n, x);
    xs, r := [x], After(c, n, x);
    forall j | 0 <= j < |n.ring|
      ensures ViewOf(r, r.ring[j]) == Committed(look, i).views[j]
    {
      assert ViewOf(n, n.ring[j]) == look.views[j];
    }
    if Books(c, n.s) {
      CommitBooks(c, n.s, u, n.s.threads[u].regs);
      if Room(look.sh, look.views[i].cursor, k) {
        MergedRoom(look.sh, look.views[i], k);
        RoomHealthy(n.s, look.views[i].cursor, k);
        RoomHealthy(r.s, look.views[i].cursor + 1, k);
      }
    }
  }

  function Yielding(look: Look, i: nat): Look
    requires i < |look.views|
  {
    Look(look.sh, Next(look), look.views[i := View(Second, map[], 0)])
  }

  lemma DoPut(c: Config, n: Net, look: Look, i: nat) returns (xs: seq<Move>, r: Net)
    requires Looks(c, n, look) && HoldsToken(look, i) && look.views[i].cursor == c.pages
    ensures Kept(c, n, xs, r) && (Healthy(n.s) ==> Within(c, n, xs))
    ensures Looks(c, r, Yielding(look, i))
    ensures Books(c, n.s) ==> Books(c, r.s)
  {
    assert ViewOf(n, n.ring[i]) == look.views[i];
    var u := n.ring[i];
    var x := Act(u, Action.Put(n.s.threads[u].regs));
    OneMove(c, n, x);
    xs, r := [x], After(c, n, x);
    forall j | 0 <= j < |n.ring|
      ensures ViewOf(r, r.ring[j]) == Yielding(look, i).views[j]
    {
      assert ViewOf(n, n.ring[j]) == look.views[j];
    }
    if Books(c, n.s) {
      CleanBooks(c, n.s, u, r.s.threads[u], r.s.turn);
    }
  }

  function Open(look: Look, keep: bool): Look {
    Look(if keep then look.sh else look.sh.(cur := 1), look.token,
         seq(|look.views|, i requires 0 <= i < |look.views| =>
           look.views[i].(place := if look.views[i].place == First then Queue else Free)))
  }

  lemma OpenedAre(c: Config, n: Net, keep: bool, w: nat)
    requires NetSized(c, n) && forall u: nat :: u < c.threads ==> AtFence(n, u)
    requires w < c.threads && n.s.threads[w].phase == if keep then Waiting else Done
    ensures var r := Opened(c, n, keep);
            && r.s.sh == (if keep then n.s.sh else n.s.sh.(cur := 1)) && r.token == n.token && r.past == AllWaiting(n.s)
            && forall u: nat :: u < c.threads ==>
                 r.s.threads[u] == if n.s.threads[u].phase == Done then n.s.threads[u].(phase := Running)
                                   else n.s.threads[u]
  {
  }

  lemma DoOpen(c: Config, n: Net, look: Look, keep: bool, w: nat) returns (xs: seq<Move>, r: Net)
    requires Looks(c, n, look) && w < |look.views| && look.views[w].place == if keep then First else Second
    requires forall i :: 0 <= i < |look.views| ==> look.views[i].place in {First, Second}
    ensures Kept(c, n, xs, r) && (Healthy(n.s) ==> Within(c, n, xs))
    ensures Looks(c, r, Open(look, keep))
  {
    assert ViewOf(n, n.ring[w]) == look.views[w];
    var x := OpenFence(keep);
    OneMove(c, n, x);
    xs, r := [x], After(c, n, x);
    forall v: nat | v < c.threads
      ensures AtFence(n, v)
    {
      assert v in n.ring;
      var i :| 0 <= i < |look.views| && n.ring[i] == v;
      assert ViewOf(n, n.ring[i]) == look.views[i] && look.views[i].place in {First, Second};
    }
    OpenedAre(c, n, keep, n.ring[w]);
    forall j | 0 <= j < |n.ring|
      ensures ViewOf(r, r.ring[j]) == Open(look, keep).views[j]
    {
      assert ViewOf(n, n.ring[j]) == look.views[j];
    }
  }

  // ---- Bookkeeping ----

  /** The user counts are right, and a page has a twin only while it has users. */
  ghost predicate Books(c: Config, s: State) {
    && WellSized(c, s) && UsersOk(c, s)
    && (forall p :: 0 <= p < c.pages && s.sh.index[p] != 0 ==> s.sh.users[p] > 0)
    && (forall u: nat, p :: u < c.threads && p in s.threads[u].dirty ==> p < c.pages)
  }

  /** The pages that can still get a twin. */
  function Wanted(sh: Shared): set<nat>
    requires |sh.users| == |sh.index| == |sh.mem|
  {
    set q: nat | q < |sh.mem| && sh.index[q] == 0 && sh.users[q] > 0
  }

  /** Room for all of these, for one more commit of the pages from `cursor` on, and for `k` more of each. */
  ghost predicate Room(sh: Shared, cursor: nat, k: nat) {
    && sh.WellSized()
    && sh.cur + |Wanted(sh)| <= MAX_TWINS + 1
    && forall p :: 0 <= p < |sh.versions| ==> sh.versions[p] + k + (if p >= cursor then 1 else 0) < INT_RANGE
  }

  lemma Fewer(a: set<nat>, b: set<nat>)
    requires a <= b
    ensures |a| <= |b| && (a != b ==> |a| < |b|)
  {
    assert b == a + (b - a);
    assert a != b ==> b - a != {};
  }

  lemma CommitRoom(sh: Shared, p: nat, e: Dirty, k: nat)
    requires p < |sh.mem| && Room(sh, p, k) && sh.users[p] > 0
    ensures Room(CommitEntry(sh, p, e), p + 1, k)
  {
    var r := CommitEntry(sh, p, e);
    if r.cur > sh.cur {
      assert p in Wanted(sh) && p !in Wanted(r);
    }
    Fewer(Wanted(r), Wanted(sh));
  }

  lemma MergedRoom(sh: Shared, v: View, k: nat)
    requires v.cursor < |sh.mem| && Room(sh, v.cursor, k) && (v.cursor in v.dirty ==> sh.users[v.cursor] > 0)
    ensures Room(Merged(sh, v), v.cursor + 1, k)
  {
    if v.cursor in v.dirty {
      CommitRoom(sh, v.cursor, Dirty(v.dirty[v.cursor].version, v.dirty[v.cursor].local), k);
    }
  }

  lemma RoomHealthy(s: State, cursor: nat, k: nat)
    requires Room(s.sh, cursor, k)
    ensures Healthy(s)
  {
  }

  lemma CommitBooks(c: Config, s: State, u: nat, next: Regs)
    requires Books(c, s) && u < c.threads && s.threads[u].phase == Waiting && s.threads[u].cursor < c.pages
    ensures Books(c, StepCommit(c, s, u, next))
    ensures s.threads[u].cursor in s.threads[u].dirty ==> s.sh.users[s.threads[u].cursor] > 0
  {
    var p := s.threads[u].cursor;
    var r := StepCommit(c, s, u, next);
    if p in s.threads[u].dirty {
      OtherWriters(s.threads, u, p);
    }
    forall q: nat | q < c.pages
      ensures r.sh.users[q] == Writers(r.threads, q)
    {
      WritersUpdate(s.threads, u, r.threads[u], q);
    }
  }

  lemma CleanBooks(c: Config, s: State, u: nat, th: Thread, turn: nat)
    requires Books(c, s) && u < c.threads && s.threads[u].cursor == c.pages
    requires th.dirty == map[] && turn <= c.threads
    ensures Books(c, Update(s, u, th).(turn := turn))
  {
    forall q: nat | q < c.pages
      ensures Writers(s.threads[u := th], q) == s.sh.users[q]
    {
      WritersUpdate(s.threads, u, th, q);
    }
  }

  // ---- Turns ----

  ghost predicate NothingLeft(c: Config, v: View) {
    forall p :: v.cursor <= p < c.pages ==> p !in v.dirty
  }

  /** The moves lead from one state to the other. */
  ghost predicate Kept(c: Config, n: Net, xs: seq<Move>, r: Net) {
    NetSized(c, n) && r == Moves(c, n, xs) && r.ring == n.ring
  }

  /** The thread with the token commits. */
  lemma {:induction false} Sweep(c: Config, n: Net, look: Look, i: nat, k: nat)
    returns (xs: seq<Move>, r: Net, sh: Shared)
    requires Looks(c, n, look) && HoldsToken(look, i) && look.views[i].cursor <= c.pages
    ensures Kept(c, n, xs, r)
    ensures Looks(c, r, Look(sh, look.token, look.views[i := look.views[i].(cursor := c.pages)]))
    ensures NothingLeft(c, look.views[i]) ==> sh == look.sh && (Healthy(n.s) ==> Within(c, n, xs))
    ensures Books(c, n.s) ==> Books(c, r.s)
    ensures Books(c, n.s) && Room(look.sh, look.views[i].cursor, k) ==> Within(c, n, xs) && Room(sh, c.pages, k)
    decreases c.pages - look.views[i].cursor
  {
    var v := look.views[i];
    if v.cursor == c.pages {
      xs, r, sh := [], n, look.sh;
      assert look.views == look.views[i := v];
    } else {
      var ys, m := DoCommit(c, n, look, i, k);
      var zs;
      zs, r, sh := Sweep(c, m, Committed(look, i), i, k);
      xs := ys + zs;
      MovesThen(c, n, ys, zs);
    }
  }

  /** The thread with the token commits and puts it. */
  lemma TakeTurn(c: Config, n: Net, look: Look, i: nat, k: nat) returns (xs: seq<Move>, r: Net, sh: Shared)
    requires Looks(c, n, look) && HoldsToken(look, i) && look.views[i].cursor == 0
    ensures Kept(c, n, xs, r)
    ensures Looks(c, r, Yielding(look, i).(sh := sh))
    ensures NothingLeft(c, look.views[i]) ==> sh == look.sh && (Healthy(n.s) ==> Within(c, n, xs))
    ensures Books(c, n.s) ==> Books(c, r.s)
    ensures Books(c, n.s) && Room(look.sh, 0, k) ==> Within(c, n, xs) && Room(sh, c.pages, k)
  {
    var ys, m;
    ys, m, sh := Sweep(c, n, look, i, k);
    var swept := Look(sh, look.token, look.views[i := look.views[i].(cursor := c.pages)]);
    var zs;
    zs, r := DoPut(c, m, swept, i);
    xs := ys + zs;
    MovesThen(c, n, ys, zs);
    assert Yielding(swept, i) == Yielding(look, i).(sh := sh);
  }

  /** The threads from the `i`-th to the `m`-th have had their turns. */
  function Turned(views: seq<View>, i: nat, m: nat): seq<View> {
    seq(|views|, j requires 0 <= j < |views| => if i <= j < m then View(Second, map[], 0) else views[j])
  }

  lemma TurnedOne(views: seq<View>, i: nat, m: nat, after: seq<View>)
    requires i < m <= |views| && after == views[i := View(Second, map[], 0)]
    ensures Turned(after, i + 1, m) == Turned(views, i, m)
    ensures m == i + 1 ==> after == Turned(views, i, m)
  {
  }

  /** The token goes from thread to thread, until the `m`-th has it. */
  lemma {:induction false} PassAll(c: Config, n: Net, look: Look, m: nat, k: nat)
    returns (xs: seq<Move>, r: Net, sh: Shared)
    requires Looks(c, n, look) && look.token <= m <= |look.views|
    requires forall j :: look.token <= j < m ==> look.views[j].place == Queue && look.views[j].cursor == 0
    requires look.token < |look.views|
    ensures Kept(c, n, xs, r)
    ensures Looks(c, r, Look(sh, if m < |look.views| then m else 0, Turned(look.views, look.token, m)))
    ensures (forall j :: look.token <= j < m ==> NothingLeft(c, look.views[j])) ==>
              sh == look.sh && (Healthy(n.s) ==> Within(c, n, xs))
    ensures Books(c, n.s) ==> Books(c, r.s)
    ensures Books(c, n.s) && Room(look.sh, c.pages, m - look.token + k) ==> Within(c, n, xs) && Room(sh, c.pages, k)
    decreases m - look.token
  {
    var i := look.token;
    if i == m {
      xs, r, sh := [], n, look.sh;
      assert look.views == Turned(look.views, m, m);
    } else {
      var ys, q, mid := TakeTurn(c, n, look, i, m - i - 1 + k);
      var after := Yielding(look, i).(sh := mid);
      TurnedOne(look.views, i, m, after.views);
      if i + 1 == |look.views| {
        xs, r, sh := ys, q, mid;
      } else {
        var zs;
        zs, r, sh := PassAll(c, q, after, m, k);
        xs := ys + zs;
        MovesThen(c, n, ys, zs);
      }
    }
  }

  /** The threads from the `i`-th to the `m`-th have come to the first fence. */
  function Arrived(views: seq<View>, i: nat, m: nat): seq<View> {
    seq(|views|, j requires 0 <= j < |views| => if i <= j < m then views[j].(place := First) else views[j])
  }

  lemma ArrivedOne(views: seq<View>, i: nat, m: nat)
    requires i < m <= |views|
    ensures Arrived(views[i := views[i].(place := First)], i + 1, m) == Arrived(views, i, m)
  {
  }

  lemma {:induction false} SyncAll(c: Config, n: Net, look: Look, i: nat, m: nat) returns (xs: seq<Move>, r: Net)
    requires Looks(c, n, look) && i <= m <= |look.views|
    requires forall j :: i <= j < m ==> look.views[j].place == Free
    ensures Kept(c, n, xs, r) && (Healthy(n.s) ==> Within(c, n, xs))
    ensures Looks(c, r, look.(views := Arrived(look.views, i, m)))
    decreases m - i
  {
    if i == m {
      xs, r := [], n;
      assert look.views == Arrived(look.views, i, m);
    } else {
      var ys, q := DoSync(c, n, look, i);
      var zs;
      zs, r := SyncAll(c, q, Synced(look, i), i + 1, m);
      xs := ys + zs;
      MovesThen(c, n, ys, zs);
      ArrivedOne(look.views, i, m);
    }
  }

  // ---- Deadlocks ----

  /** Nobody is free, the token is at a thread that is not past the first fence, and not all are at a
      fence. */
  lemma Stuck(c: Config, n: Net, look: Look, i: nat)
    requires Looks(c, n, look) && look.token < |look.views| && look.views[look.token].place != Queue
    requires forall j :: 0 <= j < |look.views| ==> look.views[j].place != Free
    requires i < |look.views| && look.views[i].place == Queue
    ensures Deadlocked(c, n)
  {
    assert ViewOf(n, n.ring[i]).place == Queue;
    assert ViewOf(n, n.ring[n.token]).place != Queue;
    assert !AtFence(n, n.ring[i]);
    forall v: nat | v < c.threads
      ensures n.s.threads[v].phase != Running && !HasToken(n, v)
    {
      assert v in n.ring;
      var j :| 0 <= j < |n.ring| && n.ring[j] == v;
      assert ViewOf(n, n.ring[j]).place != Free;
    }
  }

  /** Where the threads are when the barrier has opened: first those at the barrier, then those that wait
      for the token, then those at the second fence. */
  ghost predicate Starting(c: Config, look: Look, a: nat, b: nat) {
    && 1 <= a <= b <= |look.views| && look.token == (if |look.views| > 1 then 1 else 0)
    && forall i :: 0 <= i < |look.views| ==>
         && look.views[i].place == (if i < a then Free else if i < b then Queue else Second)
         && look.views[i].cursor == 0 && (i < a || i >= b ==> look.views[i].dirty == map[])
  }

  lemma Starts(c: Config, s: State, t: nat, waiters: seq<nat>, pending: seq<nat>, done: seq<nat>) returns (look: Look)
    requires Opens(c, s, t, waiters, pending, done)
    ensures var n := AfterBarrier(c, s, t, waiters, pending, done);
            Looks(c, n, look) && Books(c, n.s)
    ensures look.sh == s.sh.(cur := 1) && |look.views| == 1 + |waiters| + |pending| + |done|
    ensures Starting(c, look, 1 + |waiters|, 1 + |waiters| + |pending|)
  {
    var n := AfterBarrier(c, s, t, waiters, pending, done);
    var ring := n.ring;
    var a, b := 1 + |waiters|, 1 + |waiters| + |pending|;
    forall u | u in pending
      ensures u < c.threads
    {
      assert u in ring;
    }
    forall i | 0 <= i < |ring|
      ensures ring[i] in pending <==> a <= i < b
      ensures ring[i] in done <==> b <= i
    {
      InPart([t] + waiters, pending, done, i);
    }
    forall p: nat | p < c.pages
      ensures n.s.sh.users[p] == Writers(n.s.threads, p)
    {
      SameCopies(s.threads, n.s.threads, p);
    }
    look := Look(n.s.sh, n.token, seq(|ring|, i requires 0 <= i < |ring| => ViewOf(n, ring[i])));
  }

  lemma InPart(a: seq<nat>, b: seq<nat>, d: seq<nat>, i: nat)
    requires i < |a + b + d| && forall j, k :: 0 <= j < k < |a + b + d| ==> (a + b + d)[j] != (a + b + d)[k]
    ensures (a + b + d)[i] in b <==> |a| <= i < |a| + |b|
    ensures (a + b + d)[i] in d <==> |a| + |b| <= i
  {
    var r := a + b + d;
    assert forall j :: 0 <= j < |b| ==> r[|a| + j] == b[j];
    assert forall j :: 0 <= j < |d| ==> r[|a| + |b| + j] == d[j];
  }

  lemma {:induction false} SameCopies(a: seq<Thread>, b: seq<Thread>, p: nat)
    requires |a| == |b| && forall u :: 0 <= u < |a| ==> Uncommitted(a[u], p) == Uncommitted(b[u], p)
    ensures Writers(a, p) == Writers(b, p)
  {
    if a != [] {
      SameCopies(a[..|a| - 1], b[..|b| - 1], p);
    }
  }

  /** Released waiters have the token next, and there is a thread that still waits for it: the waiters
      cannot get to it through the fence, and the thread cannot get to the fence. */
  lemma WaitersBlockPending(c: Config, n: Net, look: Look, a: nat, b: nat) returns (xs: seq<Move>)
    requires Looks(c, n, look) && Starting(c, look, a, b) && 1 < a < b
    ensures Deadlocked(c, Moves(c, n, xs))
  {
    var r;
    xs, r := SyncAll(c, n, look, 0, a);
    Stuck(c, r, look.(views := Arrived(look.views, 0, a)), a);
  }

  /** Released waiters, nobody waits for the token, somebody waits at the second fence: the fence lets the
      waiters to the token and the others on; after the waiters the token is at one of these, which waits
      for the caller at the first fence, while the caller waits for the token. */
  lemma WaitersBlockCaller(c: Config, n: Net, look: Look, a: nat) returns (xs: seq<Move>)
    requires Looks(c, n, look) && Starting(c, look, a, a) && 1 < a < |look.views|
    ensures Deadlocked(c, Moves(c, n, xs))
  {
    var m := |look.views|;
    var x1, n1 := SyncAll(c, n, look, 0, a);
    var l1 := look.(views := Arrived(look.views, 0, a));
    var x2, n2 := DoOpen(c, n1, l1, true, 0);
    var l2 := Open(l1, true);
    var x3, n3 := SyncAll(c, n2, l2, a, m);
    var l3 := l2.(views := Arrived(l2.views, a, m));
    var x4, n4, sh := PassAll(c, n3, l3, a, 0);
    Stuck(c, n4, Look(sh, a, Turned(l3.views, 1, a)), 0);
    MovesThen(c, n, x1, x2);
    MovesThen(c, n, x1 + x2, x3);
    MovesThen(c, n, x1 + x2 + x3, x4);
    xs := x1 + x2 + x3 + x4;
  }

  /** No waiters, and somebody has had the token before the caller: once those that wait for it have had
      it, the token is at one that runs on, which waits for the caller as before. */
  lemma CallerBlocked(c: Config, n: Net, look: Look, b: nat) returns (xs: seq<Move>)
    requires Looks(c, n, look) && Starting(c, look, 1, b) && b < |look.views|
    ensures Deadlocked(c, Moves(c, n, xs))
  {
    var m := |look.views|;
    var x1, n1, sh := PassAll(c, n, look, b, 0);
    var l1 := Look(sh, b, Turned(look.views, 1, b));
    var x2, n2 := DoSync(c, n1, l1, 0);
    var l2 := Synced(l1, 0);
    var x3, n3 := DoOpen(c, n2, l2, true, 0);
    var l3 := Open(l2, true);
    var x4, n4 := SyncAll(c, n3, l3, 1, m);
    Stuck(c, n4, l3.(views := Arrived(l3.views, 1, m)), 0);
    MovesThen(c, n, x1, x2);
    MovesThen(c, n, x1 + x2, x3);
    MovesThen(c, n, x1 + x2 + x3, x4);
    xs := x1 + x2 + x3 + x4;
  }

  // ---- A wrong commit ----

  ghost predicate FreshPage(sh: Shared) {
    && sh.WellSized() && 0 < |sh.mem| && sh.cur == 1 && sh.users[0] == 0 && sh.index[0] == 0
    && forall p :: 0 <= p < |sh.versions| ==> sh.versions[p] + 2 < INT_RANGE
  }

  /** Nobody has a copy; the first thread of the ring has the token, the others run. */
  ghost predicate Slate(look: Look) {
    && |look.views| > 1 && look.token == 0 && FreshPage(look.sh)
    && forall i :: 0 <= i < |look.views| ==> look.views[i] == View(if i == 0 then Queue else Free, map[], 0)
  }

  lemma AllClean(c: Config, n: Net, look: Look)
    requires Looks(c, n, look) && forall i :: 0 <= i < |look.views| ==> look.views[i].dirty == map[]
    ensures forall u: nat, p: nat :: u < c.threads && p < c.pages ==> !Uncommitted(n.s.threads[u], p)
  {
    forall u: nat, p: nat | u < c.threads && p < c.pages
      ensures !Uncommitted(n.s.threads[u], p)
    {
      assert u in n.ring;
      var j :| 0 <= j < |n.ring| && n.ring[j] == u;
      assert ViewOf(n, n.ring[j]) == look.views[j];
    }
  }

  /** The caller had the token first in the round and nobody waits at the second fence: it reaches the first
      fence when the others have had the token, and when the fence opens it has the token while they run. */
  lemma OutOfStep(c: Config, n: Net, look: Look) returns (xs: seq<Move>, r: Net, slate: Look)
    requires Looks(c, n, look) && Starting(c, look, 1, |look.views|) && |look.views| > 1 && Books(c, n.s)
    requires Room(look.sh, c.pages, |look.views| + 1)
    ensures Kept(c, n, xs, r) && Within(c, n, xs) && Looks(c, r, slate) && Slate(slate)
  {
    var m := |look.views|;
    var x1, n1, sh := PassAll(c, n, look, m, 2);
    var l1 := Look(sh, 0, Turned(look.views, 1, m));
    AllClean(c, n1, l1);
    NobodyCopies(c, n1.s);
    RoomHealthy(n1.s, c.pages, 2);
    var x2, n2 := DoSync(c, n1, l1, 0);
    var l2 := Synced(l1, 0);
    var x3, n3 := DoOpen(c, n2, l2, false, 1);
    slate, r := Open(l2, false), n3;
    MovesThen(c, n, x1, x2);
    MovesThen(c, n, x1 + x2, x3);
    xs := x1 + x2 + x3;
  }

  /** A turn in which the only page to commit is page 0. */
  lemma TurnOfPage(c: Config, n: Net, look: Look, i: nat) returns (xs: seq<Move>, r: Net)
    requires Looks(c, n, look) && HoldsToken(look, i) && look.views[i].cursor == 0
    requires look.views[i].dirty.Keys == {0} && Healthy(n.s) && Limits(Merged(look.sh, look.views[i]))
    ensures Kept(c, n, xs, r) && Within(c, n, xs)
    ensures Looks(c, r, Yielding(look, i).(sh := Merged(look.sh, look.views[i])))
  {
    var x1, n1 := DoCommit(c, n, look, i, 0);
    var l1 := Committed(look, i);
    var x2, n2, sh := Sweep(c, n1, l1, i, 0);
    var l2 := Look(sh, look.token, l1.views[i := l1.views[i].(cursor := c.pages)]);
    var x3, n3 := DoPut(c, n2, l2, i);
    assert Yielding(l2, i) == Yielding(look, i).(sh := Merged(look.sh, look.views[i]));
    r := n3;
    MovesThen(c, n, x1, x2);
    MovesThen(c, n, x1 + x2, x3);
    xs := x1 + x2 + x3;
  }

  /** The copies of page 0 in the story below: with byte 0 changed. */
  function Changed(version: nat, page: Page, value: Byte): map<nat, Entry> {
    map[0 := Entry(version, page, page[0 := value])]
  }

  /** Two faults, and the first commit. */
  function AfterFirst(sh: Shared, x: Byte): (r: Shared)
    requires sh.WellSized() && 0 < |sh.mem|
    ensures r.WellSized() && |r.mem| == |sh.mem|
  {
    CommitEntry(AddUser(AddUser(sh, 0), 0), 0, Dirty(Stamp(sh.versions[0]), sh.mem[0][0 := x]))
  }

  /** Another fault, and the second commit, of a copy as old as the first. */
  function AfterSecond(sh: Shared, x: Byte, y: Byte): (r: Shared)
    requires sh.WellSized() && 0 < |sh.mem|
    ensures r.WellSized() && |r.mem| == |sh.mem|
  {
    CommitEntry(AddUser(AfterFirst(sh, x), 0), 0, Dirty(Stamp(sh.versions[0]), sh.mem[0][0 := y]))
  }

  lemma FirstCommit(sh: Shared, x: Byte)
    requires FreshPage(sh)
    ensures var r := AfterFirst(sh, x);
            && r.mem[0] == sh.mem[0][0 := x] && r.versions == sh.versions[0 := sh.versions[0] + 1]
            && r.users[0] == 1 && r.index[0] == 1 && r.cur == 2 && Slot(r.area, 1) == sh.mem[0] && Limits(r)
  {
    TwinStored(AddUser(AddUser(sh, 0), 0), 0);
  }

  /** The third copy, made between the two commits, is compared with the page as it was before both. */
  lemma SecondCommit(sh: Shared, x: Byte, y: Byte)
    requires FreshPage(sh) && x != sh.mem[0][0] && y != sh.mem[0][0]
    ensures var r := AfterSecond(sh, x, y);
            var snap := sh.mem[0][0 := x];
            && Limits(r) && r.mem[0][0] == y
            && CommitBase(r, 0, sh.versions[0] + 1) == sh.mem[0]
            && CommitEntry(r, 0, Dirty(sh.versions[0] + 1, snap)).mem[0][0] == x
  {
    FirstCommit(sh, x);
    var a := AddUser(AfterFirst(sh, x), 0);
    var r := AfterSecond(sh, x, y);
    assert CommitBase(a, 0, sh.versions[0]) == sh.mem[0];
    CommitIsOverlay(a, 0, sh.versions[0], sh.mem[0]);
    var local: Page := sh.mem[0][0 := y];
    assert CommitEntry(a, 0, Dirty(sh.versions[0], local)).mem[0] == Overlay(local, sh.mem[0], a.mem[0]);
    assert r.versions[0] == sh.versions[0] + 2 && r.index[0] == 1 && r.area == a.area;
    CommitIsOverlay(r, 0, sh.versions[0] + 1, sh.mem[0]);
    var again: Page := sh.mem[0][0 := x];
    assert CommitEntry(r, 0, Dirty(sh.versions[0] + 1, again)).mem[0] == Overlay(again, sh.mem[0], r.mem[0]);
  }

  /** The thread has faulted on a page and written a byte of it. */
  function Wrote(look: Look, i: nat, p: nat, at: nat, value: Byte): Look
    requires look.sh.WellSized() && p < |look.sh.mem| && i < |look.views| && at < PAGE_SIZE
  {
    var e := Entry(Stamp(look.sh.versions[p]), look.sh.mem[p], look.sh.mem[p][at := value]);
    var v := look.views[i];
    Look(AddUser(look.sh, p), look.token, look.views[i := v.(dirty := v.dirty[p := e])])
  }

  lemma DoWrite(c: Config, n: Net, look: Look, i: nat, p: nat, at: nat, value: Byte) returns (xs: seq<Move>, r: Net)
    requires Looks(c, n, look) && CanMove(look, i) && p < c.pages && at < PAGE_SIZE && Healthy(n.s)
    requires look.views[i].cursor == 0 && p !in look.views[i].dirty
    ensures Kept(c, n, xs, r) && Within(c, n, xs) && Healthy(r.s) && Looks(c, r, Wrote(look, i, p, at, value))
  {
    var x1, n1 := DoFault(c, n, look, i, p);
    var l1 := Faulted(look, i, p);
    var x2, n2 := DoStore(c, n1, l1, i, p, at, value);
    var e := l1.views[i].dirty[p].(local := look.sh.mem[p][at := value]);
    assert l1.views[i].dirty[p := e] == look.views[i].dirty[p := e];
    assert Stored(l1, i, p, at, value).views == Wrote(look, i, p, at, value).views;
    r := n2;
    MovesThen(c, n, x1, x2);
    xs := x1 + x2;
  }

  /** Page 0 is merged from a copy with byte 0 changed. */
  lemma MergedIs(sh: Shared, place: Place, version: nat, page: Page, value: Byte)
    requires sh.WellSized() && 0 < |sh.mem|
    ensures Merged(sh, View(place, Changed(version, page, value), 0)) ==
            CommitEntry(sh, 0, Dirty(version, page[0 := value]))
  {
  }

  /** The second thread has written to the page, then the caller to the same byte; the caller has
      committed. */
  function HalfWay(look: Look, x: Byte, y: Byte): Look
    requires look.sh.WellSized() && 0 < |look.sh.mem|
  {
    var version := Stamp(look.sh.versions[0]);
    Look(AfterFirst(look.sh, x), 1, seq(|look.views|, i requires 0 <= i < |look.views| =>
      if i == 0 then View(Second, map[], 0)
      else View(Free, if i == 1 then Changed(version, look.sh.mem[0], y) else map[], 0)))
  }

  lemma HalfWayIs(look: Look, x: Byte, y: Byte, l: Look)
    requires Slate(look) && l == Wrote(Wrote(look, 1, 0, 0, y), 0, 0, 0, x)
    ensures l.views[0] == View(Queue, Changed(Stamp(look.sh.versions[0]), look.sh.mem[0], x), 0)
    ensures Yielding(l, 0).(sh := AfterFirst(look.sh, x)) == HalfWay(look, x, y)
  {
    forall i | 0 <= i < |look.views|
      ensures Yielding(l, 0).views[i] == HalfWay(look, x, y).views[i]
    {
      assert look.views[i] == View(if i == 0 then Queue else Free, map[], 0);
      assert i == 0 ==> Yielding(l, 0).views[i] == View(Second, map[], 0);
      assert i == 1 ==> l.views[1].dirty == Changed(Stamp(look.sh.versions[0]), look.sh.mem[0], y);
      assert i > 1 ==> l.views[i] == look.views[i];
    }
    assert Yielding(l, 0).token == 1;
  }

  lemma FirstHalf(c: Config, n: Net, look: Look, x: Byte, y: Byte) returns (xs: seq<Move>, r: Net)
    requires Looks(c, n, look) && Slate(look) && Healthy(n.s)
    ensures Kept(c, n, xs, r) && Within(c, n, xs) && Looks(c, r, HalfWay(look, x, y))
  {
    FirstCommit(look.sh, x);
    var x1, n1 := DoWrite(c, n, look, 1, 0, 0, y);
    var l1 := Wrote(look, 1, 0, 0, y);
    var x2, n2 := DoWrite(c, n1, l1, 0, 0, 0, x);
    var l2 := Wrote(l1, 0, 0, 0, x);
    MergedIs(l2.sh, Queue, Stamp(look.sh.versions[0]), look.sh.mem[0], x);
    HalfWayIs(look, x, y, l2);
    var x3, n3 := TurnOfPage(c, n2, l2, 0);
    r := n3;
    MovesThen(c, n, x1, x2);
    MovesThen(c, n, x1 + x2, x3);
    xs := x1 + x2 + x3;
  }

  /** The fence has opened: the caller is free again, the others are past the first fence. */
  function Between(look: Look, x: Byte, y: Byte): Look
    requires look.sh.WellSized() && 0 < |look.sh.mem|
  {
    var version := Stamp(look.sh.versions[0]);
    Look(AfterFirst(look.sh, x), 1, seq(|look.views|, i requires 0 <= i < |look.views| =>
      if i == 0 then View(Free, map[], 0)
      else View(Queue, if i == 1 then Changed(version, look.sh.mem[0], y) else map[], 0)))
  }

  lemma ToBetween(c: Config, n: Net, look: Look, x: Byte, y: Byte) returns (xs: seq<Move>, r: Net)
    requires Slate(look) && Looks(c, n, HalfWay(look, x, y)) && Healthy(n.s)
    ensures Kept(c, n, xs, r) && Within(c, n, xs) && Looks(c, r, Between(look, x, y))
  {
    var m, l0 := |look.views|, HalfWay(look, x, y);
    var x1, n1 := SyncAll(c, n, l0, 1, m);
    var l1 := l0.(views := Arrived(l0.views, 1, m));
    var x2, n2 := DoOpen(c, n1, l1, true, 1);
    assert Open(l1, true) == Between(look, x, y);
    r := n2;
    MovesThen(c, n, x1, x2);
    xs := x1 + x2;
  }

  /** The caller has faulted on the page again, for another byte, and then the second thread has
      committed. */
  function Stale(look: Look, x: Byte, y: Byte): Look
    requires look.sh.WellSized() && 0 < |look.sh.mem|
  {
    var page := AfterFirst(look.sh, x).mem[0];
    var version := Stamp(AfterFirst(look.sh, x).versions[0]);
    Look(AfterSecond(look.sh, x, y), if |look.views| > 2 then 2 else 0,
         seq(|look.views|, i requires 0 <= i < |look.views| =>
           if i == 0 then View(Free, map[0 := Entry(version, page, page)], 0)
           else View(if i == 1 then Second else Queue, map[], 0)))
  }

  lemma ToStale(c: Config, n: Net, look: Look, x: Byte, y: Byte) returns (xs: seq<Move>, r: Net)
    requires Slate(look) && Looks(c, n, Between(look, x, y)) && Healthy(n.s)
    requires x != look.sh.mem[0][0] && y != look.sh.mem[0][0]
    ensures Kept(c, n, xs, r) && Within(c, n, xs) && Looks(c, r, Stale(look, x, y))
  {
    var l0 := Between(look, x, y);
    SecondCommit(look.sh, x, y);
    var page := l0.sh.mem[0];
    assert page[1 := page[1]] == page;
    var x1, n1 := DoWrite(c, n, l0, 0, 0, 1, page[1]);
    var l1 := Wrote(l0, 0, 0, 1, page[1]);
    MergedIs(l1.sh, Queue, Stamp(look.sh.versions[0]), look.sh.mem[0], y);
    var x2, n2 := TurnOfPage(c, n1, l1, 1);
    assert Yielding(l1, 1).(sh := AfterSecond(look.sh, x, y)) == Stale(look, x, y);
    r := n2;
    MovesThen(c, n, x1, x2);
    xs := x1 + x2;
  }

  /** The others have had their turns; the fence has opened; the caller has the token. */
  function Last(look: Look, x: Byte, y: Byte): Look
    requires look.sh.WellSized() && 0 < |look.sh.mem|
  {
    var page := AfterFirst(look.sh, x).mem[0];
    var version := Stamp(AfterFirst(look.sh, x).versions[0]);
    Look(AfterSecond(look.sh, x, y), 0, seq(|look.views|, i requires 0 <= i < |look.views| =>
      if i == 0 then View(Queue, map[0 := Entry(version, page, page)], 0) else View(Free, map[], 0)))
  }

  lemma ToLast(c: Config, n: Net, look: Look, x: Byte, y: Byte) returns (xs: seq<Move>, r: Net)
    requires Slate(look) && Looks(c, n, Stale(look, x, y)) && Healthy(n.s)
    ensures Kept(c, n, xs, r) && Within(c, n, xs) && Looks(c, r, Last(look, x, y))
  {
    var m, l0 := |look.views|, Stale(look, x, y);
    var x1, n1 := Rest(c, n, l0);
    var l1 := Look(l0.sh, 0, Turned(l0.views, 2, m));
    var x2, n2 := DoSync(c, n1, l1, 0);
    var l2 := Synced(l1, 0);
    var x3, n3 := DoOpen(c, n2, l2, true, 0);
    assert Open(l2, true) == Last(look, x, y);
    r := n3;
    MovesThen(c, n, x1, x2);
    MovesThen(c, n, x1 + x2, x3);
    xs := x1 + x2 + x3;
  }

  /** The turns of the threads after the first two. */
  lemma Rest(c: Config, n: Net, look: Look) returns (xs: seq<Move>, r: Net)
    requires Looks(c, n, look) && |look.views| > 1 && look.token == (if |look.views| > 2 then 2 else 0)
    requires forall i :: 2 <= i < |look.views| ==> look.views[i] == View(Queue, map[], 0)
    requires Healthy(n.s)
    ensures Kept(c, n, xs, r) && Within(c, n, xs)
    ensures Looks(c, r, Look(look.sh, 0, Turned(look.views, 2, |look.views|)))
  {
    if |look.views| > 2 {
      var sh;
      xs, r, sh := PassAll(c, n, look, |look.views|, 0);
    } else {
      xs, r := [], n;
      assert look == Look(look.sh, 0, Turned(look.views, 2, 2));
    }
  }

  /** The `i`-th thread of the ring comes to its next commit with a copy of page 0 in which it has not
      written to byte 0 since its fault; somebody has published another value there, and the commit puts
      the fault-time value back. */
  ghost predicate LosesAWrite(c: Config, n: Net, i: nat) {
    && NetSized(c, n) && i < |n.ring| && HasToken(n, n.ring[i])
    && var th := n.s.threads[n.ring[i]];
       && th.cursor == 0 && 0 in th.dirty && th.dirty[0].local[0] == th.dirty[0].snap[0] != n.s.sh.mem[0][0]
       && Acted(c, n, n.ring[i], Action.Commit([])).s.sh.mem[0][0] == th.dirty[0].snap[0]
  }

  lemma TwoOthers(b: Byte) returns (x: Byte, y: Byte)
    ensures x != b && y != b && x != y
  {
    x := if b != 1 then 1 else 2;
    y := if b != 3 then 3 else 4;
  }

  /** No waiters, and the caller has had the token first in the round: a write can be lost.  The copy in
      question is of a page that the caller has faulted on after its own commit and before the second
      thread's, which has an older copy of it. */
  lemma CallerLosesAWrite(c: Config, n: Net, look: Look) returns (xs: seq<Move>, r: Net)
    requires Looks(c, n, look) && Starting(c, look, 1, |look.views|) && |look.views| > 1 && Books(c, n.s)
    requires Room(look.sh, c.pages, |look.views| + 1)
    ensures Kept(c, n, xs, r) && Within(c, n, xs)
    ensures LosesAWrite(c, r, 0) && !Right(c, r)
  {
    var x1, n1, slate := OutOfStep(c, n, look);
    var x, y := TwoOthers(slate.sh.mem[0][0]);
    WithinEnds(c, n, x1);
    var x2, n2 := FromSlate(c, n1, slate, x, y);
    Joined(c, n, x1, n1, x2, n2);
    xs, r := x1 + x2, n2;
    WrongBase(c, r, slate, x, y);
  }

  lemma WithinEnds(c: Config, n: Net, xs: seq<Move>)
    requires NetSized(c, n) && Within(c, n, xs)
    ensures Healthy(Moves(c, n, xs).s)
  {
  }

  lemma Joined(c: Config, n: Net, x1: seq<Move>, m: Net, x2: seq<Move>, r: Net)
    requires Kept(c, n, x1, m) && Within(c, n, x1) && Kept(c, m, x2, r) && Within(c, m, x2)
    ensures Kept(c, n, x1 + x2, r) && Within(c, n, x1 + x2) && Healthy(r.s)
  {
    MovesThen(c, n, x1, x2);
  }

  lemma FromSlate(c: Config, n: Net, slate: Look, x: Byte, y: Byte) returns (xs: seq<Move>, r: Net)
    requires Looks(c, n, slate) && Slate(slate) && Healthy(n.s)
    requires x != slate.sh.mem[0][0] && y != slate.sh.mem[0][0]
    ensures Kept(c, n, xs, r) && Within(c, n, xs) && Looks(c, r, Last(slate, x, y))
  {
    var x1, n1 := FirstHalf(c, n, slate, x, y);
    WithinEnds(c, n, x1);
    var x2, n2 := ToBetween(c, n1, slate, x, y);
    Joined(c, n, x1, n1, x2, n2);
    var x3, n3 := ToStale(c, n2, slate, x, y);
    Joined(c, n, x1 + x2, n2, x3, n3);
    var x4, n4 := ToLast(c, n3, slate, x, y);
    Joined(c, n, x1 + x2 + x3, n3, x4, n4);
    xs, r := x1 + x2 + x3 + x4, n4;
  }

  lemma WrongBase(c: Config, n: Net, slate: Look, x: Byte, y: Byte)
    requires Slate(slate) && Looks(c, n, Last(slate, x, y))
    requires x != slate.sh.mem[0][0] && y != slate.sh.mem[0][0] && x != y
    ensures LosesAWrite(c, n, 0) && !Right(c, n)
  {
    FirstCommit(slate.sh, x);
    SecondCommit(slate.sh, x, y);
    var u := n.ring[0];
    assert ViewOf(n, u) == Last(slate, x, y).views[0];
    var e := n.s.threads[u].dirty[0];
    assert e.version == slate.sh.versions[0] + 1 && e.snap == slate.sh.mem[0][0 := x];
    assert Uncommitted(n.s.threads[u], 0) && WithTwin(n.s.sh, 0).cur <= MAX_TWINS + 1;
    assert CommitBase(n.s.sh, 0, e.version)[0] != e.snap[0];
  }
}
