/** The heap and the globals: two persistent regions that save their twins in one bitmap (xmemory.h). */
module Memory {
  import opened Pages
  import opened TwinBitmap
  import opened Persist

  /** Two regions as one, the heap's pages first; the bitmap is the heap's. */
  function Join(h: Shared, g: Shared): (r: Shared)
    requires h.WellSized() && g.WellSized()
    ensures r.WellSized() && |r.mem| == |h.mem| + |g.mem|
  {
    Shared(h.mem + g.mem, h.versions + g.versions, h.users + g.users, h.index + g.index, h.cur, h.area)
  }

  /** The region with another one's bitmap. */
  function With(s: Shared, bitmap: Shared): (r: Shared)
    requires s.WellSized() && bitmap.WellSized()
    ensures r.WellSized() && |r.mem| == |s.mem|
  {
    s.(cur := bitmap.cur, area := bitmap.area)
  }

  /** The dirty lists of regions of `n` and `m` pages as one. */
  function JoinDirty(h: map<nat, Dirty>, g: map<nat, Dirty>, n: nat, m: nat): map<nat, Dirty> {
    map p: nat | p < n + m && (if p < n then p in h else p - n in g) :: if p < n then h[p] else g[p - n]
  }

  lemma TwinInHeap(h: Shared, g: Shared, p: nat)
    requires h.WellSized() && g.WellSized() && p < |h.mem|
    ensures WithTwin(Join(h, g), p) == Join(WithTwin(h, p), g)
  {
    assert Join(h, g).mem[p] == h.mem[p] && Join(h, g).versions[p] == h.versions[p];
    assert Join(h, g).users[p] == h.users[p] && Join(h, g).index[p] == h.index[p];
  }

  lemma CommitInHeap(h: Shared, g: Shared, p: nat, e: Dirty)
    requires h.WellSized() && g.WellSized() && p < |h.mem|
    ensures CommitEntry(Join(h, g), p, e) == Join(CommitEntry(h, p, e), g)
  {
    TwinInHeap(h, g, p);
  }

  lemma TwinInGlobals(h: Shared, g: Shared, p: nat)
    requires h.WellSized() && g.WellSized() && p < |g.mem|
    ensures var r := WithTwin(With(g, h), p); WithTwin(Join(h, g), |h.mem| + p) == Join(With(h, r), r)
  {
    var j, n := Join(h, g), |h.mem|;
    assert j.mem[n + p] == g.mem[p] && j.versions[n + p] == g.versions[p];
    assert j.users[n + p] == g.users[p] && j.index[n + p] == g.index[p];
  }

  lemma CommitInGlobals(h: Shared, g: Shared, p: nat, e: Dirty)
    requires h.WellSized() && g.WellSized() && p < |g.mem|
    ensures var r := CommitEntry(With(g, h), p, e); CommitEntry(Join(h, g), |h.mem| + p, e) == Join(With(h, r), r)
  {
    TwinInGlobals(h, g, p);
    var r := CommitEntry(With(g, h), p, e);
    var j := CommitEntry(Join(h, g), |h.mem| + p, e);
    assert j.mem == h.mem + r.mem && j.versions == h.versions + r.versions;
    assert j.users == h.users + r.users && j.index == h.index + r.index;
  }

  lemma {:induction false} HeapFrom(h: Shared, g: Shared, dh: map<nat, Dirty>, dg: map<nat, Dirty>, p: nat)
    requires h.WellSized() && g.WellSized() && p <= |h.mem|
    ensures var d := JoinDirty(dh, dg, |h.mem|, |g.mem|);
            CommitFrom(Join(h, g), d, p) == CommitFrom(Join(CommitFrom(h, dh, p), g), d, |h.mem|)
    decreases |h.mem| - p
  {
    if p < |h.mem| {
      if p in dh {
        CommitInHeap(h, g, p, dh[p]);
        HeapFrom(CommitEntry(h, p, dh[p]), g, dh, dg, p + 1);
      } else {
        HeapFrom(h, g, dh, dg, p + 1);
      }
    }
  }

  lemma {:induction false} GlobalsFrom(h: Shared, g: Shared, dh: map<nat, Dirty>, dg: map<nat, Dirty>, p: nat)
    requires h.WellSized() && g.WellSized() && p <= |g.mem|
    requires g.cur == h.cur && g.area == h.area
    ensures var r := CommitFrom(g, dg, p);
            CommitFrom(Join(h, g), JoinDirty(dh, dg, |h.mem|, |g.mem|), |h.mem| + p) == Join(With(h, r), r)
    decreases |g.mem| - p
  {
    assert With(g, h) == g && With(h, g) == h;
    if p < |g.mem| {
      var d := JoinDirty(dh, dg, |h.mem|, |g.mem|);
      assert |h.mem| + p in d <==> p in dg;
      if p in dg {
        CommitInGlobals(h, g, p, dg[p]);
        var r := CommitEntry(g, p, dg[p]);
        GlobalsFrom(With(h, r), r, dh, dg, p + 1);
      } else {
        GlobalsFrom(h, g, dh, dg, p + 1);
      }
    }
  }

  /** Committing the heap, and then the globals with the bitmap the heap has left, commits the pages of
      both as one region. */
  lemma TwoRegions(h: Shared, g: Shared, dh: map<nat, Dirty>, dg: map<nat, Dirty>)
    requires h.WellSized() && g.WellSized() && g.cur == h.cur && g.area == h.area
    ensures var first := CommitFrom(h, dh, 0);
            var second := CommitFrom(With(g, first), dg, 0);
            CommitFrom(Join(h, g), JoinDirty(dh, dg, |h.mem|, |g.mem|), 0) == Join(With(first, second), second)
  {
    var first := CommitFrom(h, dh, 0);
    HeapFrom(h, g, dh, dg, 0);
    assert Join(first, g) == Join(first, With(g, first));
    GlobalsFrom(first, With(g, first), dh, dg, 0);
  }

  /** A fault in one region is a fault in both as one. */
  lemma UserInHeap(h: Shared, g: Shared, dh: map<nat, Dirty>, dg: map<nat, Dirty>, p: nat)
    requires h.WellSized() && g.WellSized() && p < |h.mem|
    ensures AddUser(Join(h, g), p) == Join(AddUser(h, p), g)
    ensures var s := Join(h, g);
            JoinDirty(dh[p := Dirty(Stamp(h.versions[p]), h.mem[p])], dg, |h.mem|, |g.mem|) ==
            JoinDirty(dh, dg, |h.mem|, |g.mem|)[p := Dirty(Stamp(s.versions[p]), s.mem[p])]
  {
  }

  lemma UserInGlobals(h: Shared, g: Shared, dh: map<nat, Dirty>, dg: map<nat, Dirty>, p: nat)
    requires h.WellSized() && g.WellSized() && p < |g.mem|
    ensures AddUser(Join(h, g), |h.mem| + p) == Join(h, AddUser(g, p))
    ensures var s := Join(h, g);
            JoinDirty(dh, dg[p := Dirty(Stamp(g.versions[p]), g.mem[p])], |h.mem|, |g.mem|) ==
            JoinDirty(dh, dg, |h.mem|, |g.mem|)[|h.mem| + p :=
              Dirty(Stamp(s.versions[|h.mem| + p]), s.mem[|h.mem| + p])]
  {
    var s, n := Join(h, g), |h.mem|;
    assert s.users[n + p] == g.users[p] && s.versions[n + p] == g.versions[p] && s.mem[n + p] == g.mem[p];
    assert h.users + g.users[p := g.users[p] + 1] == s.users[n + p := g.users[p] + 1];
    var e := Dirty(Stamp(g.versions[p]), g.mem[p]);
    assert JoinDirty(dh, dg[p := e], n, |g.mem|) == JoinDirty(dh, dg, n, |g.mem|)[n + p := e];
  }

  class XMemory {
    const bitmap: XBitmap
    const heap: XPersist
    const globals: XPersist

    ghost predicate Valid()
      reads heap, heap.bitmapIndex, globals, globals.bitmapIndex, bitmap
    {
      && heap.bitmap == globals.bitmap == bitmap && heap != globals
      && heap.Valid() && globals.Valid()
      && heap.Arrays() !! globals.Arrays()
    }

    /** Both regions as one. */
    ghost function View(): (s: Shared)
      reads heap, heap.Arrays(), globals, globals.Arrays(), bitmap, bitmap.area
      requires Valid()
      ensures s.WellSized() && |s.mem| == heap.pages + globals.pages
    {
      Join(heap.View(), globals.View())
    }

    ghost function DirtyPages(): map<nat, Dirty>
      reads heap, heap.Arrays(), globals, globals.Arrays(), bitmap
      requires Valid()
    {
      JoinDirty(heap.DirtyPages(), globals.DirtyPages(), heap.pages, globals.pages)
    }

    constructor (heapContents: seq<Byte>, n: nat, globalContents: seq<Byte>, m: nat)
      requires |heapContents| == n * PAGE_SIZE && |globalContents| == m * PAGE_SIZE
      ensures Valid() && heap.pages == n && globals.pages == m && DirtyPages() == map[]
      ensures View().mem == PagesOf(heapContents, n) + PagesOf(globalContents, m) && View().cur == 1
    {
      var twins := new XBitmap();
      bitmap := twins;
      heap := new XPersist(heapContents, n, twins);
      globals := new XPersist(globalContents, m, twins);
    }

    /** A write fault goes to the region that has the page. */
    method HandleWrite(p: nat)
      requires Valid() && p < heap.pages + globals.pages && p !in DirtyPages()
      modifies heap`dirtied, heap.users, heap.transient, globals`dirtied, globals.users, globals.transient
      ensures Valid() && View() == AddUser(old(View()), p)
      ensures DirtyPages() == old(DirtyPages())[p := Dirty(Stamp(old(View()).versions[p]), old(View()).mem[p])]
    {
      ghost var h, g, dh, dg := heap.View(), globals.View(), heap.DirtyPages(), globals.DirtyPages();
      if p < heap.pages {
        HandleInHeap(p);
        UserInHeap(h, g, dh, dg, p);
      } else {
        HandleInGlobals(p - heap.pages);
        UserInGlobals(h, g, dh, dg, p - heap.pages);
      }
    }

    method HandleInHeap(p: nat)
      requires Valid() && p < heap.pages && p !in heap.dirtied
      modifies heap`dirtied, heap.users, heap.transient
      ensures Valid() && heap.View() == AddUser(old(heap.View()), p) && globals.View() == old(globals.View())
      ensures heap.DirtyPages() ==
              old(heap.DirtyPages())[p := Dirty(Stamp(old(heap.View()).versions[p]), old(heap.View()).mem[p])]
      ensures globals.DirtyPages() == old(globals.DirtyPages())
    {
      heap.HandleWrite(p);
    }

    method HandleInGlobals(p: nat)
      requires Valid() && p < globals.pages && p !in globals.dirtied
      modifies globals`dirtied, globals.users, globals.transient
      ensures Valid() && globals.View() == AddUser(old(globals.View()), p) && heap.View() == old(heap.View())
      ensures globals.DirtyPages() ==
              old(globals.DirtyPages())[p := Dirty(Stamp(old(globals.View()).versions[p]), old(globals.View()).mem[p])]
      ensures heap.DirtyPages() == old(heap.DirtyPages())
    {
      globals.HandleWrite(p);
    }

    /** The heap commits first; the globals go on with the twins it has made. */
    method Commit()
      requires Valid()
      modifies heap.Arrays(), globals.Arrays(), bitmap`cur, bitmap.area
      ensures Valid()
      ensures View() == CommitFrom(old(View()), old(DirtyPages()), 0)
    {
      ghost var h, g, dh, dg := heap.View(), globals.View(), heap.DirtyPages(), globals.DirtyPages();
      TwoRegions(h, g, dh, dg);
      CommitHeap();
      CommitGlobals();
    }

    method CommitHeap()
      requires Valid()
      modifies heap.Arrays(), bitmap`cur, bitmap.area
      ensures Valid() && heap.View() == CommitFrom(old(heap.View()), old(heap.DirtyPages()), 0)
      ensures globals.View() == With(old(globals.View()), heap.View())
              && globals.DirtyPages() == old(globals.DirtyPages())
    {
      heap.CheckAndCommit();
    }

    method CommitGlobals()
      requires Valid()
      modifies globals.Arrays(), bitmap`cur, bitmap.area
      ensures Valid() && globals.View() == CommitFrom(old(globals.View()), old(globals.DirtyPages()), 0)
      ensures heap.View() == With(old(heap.View()), globals.View())
    {
      globals.CheckAndCommit();
    }
  }
}
