/** Page faults and commits on a shared region (xpersist.h).

    Every process sees the region through a private copy-on-write mapping and through a shared
    one.  The first write to a page faults; the handler counts the process as a user of the page
    and remembers the version of the page.  A commit merges the private pages into the shared
    mapping, one page after the other. */
module Persist {
  import opened Pages
  import opened TwinBitmap

  // `unsigned short`, the type of `users` and `bitmapIndex`; `unsigned int`, the type of a
  // remembered version.
  const SHORT_RANGE: nat := 0x1_0000
  const INT_RANGE: nat := 0x1_0000_0000

  /** What all processes share: the pages, their versions, how many processes have an uncommitted
      copy, the twin index of each page (0 means none), and the twin area with its counter. */
  datatype Shared = Shared(mem: seq<Page>, versions: seq<nat>, users: seq<nat>, index: seq<nat>, cur: nat, area: Area)
  {
    ghost predicate WellSized() {
      && |versions| == |users| == |index| == |mem|
      && 1 <= cur < INITIAL_PAGES
      && (forall p :: 0 <= p < |mem| ==> index[p] < SHORT_RANGE)
    }
  }

  /** A dirtied page: the remembered version and the private copy. */
  datatype Dirty = Dirty(version: nat, local: Page)

  /** The version as the fault handler stores it. */
  function Stamp(v: nat): nat {
    v % INT_RANGE
  }

  /** A write fault on page `p`: one more user. */
  function AddUser(s: Shared, p: nat): Shared
    requires s.WellSized() && p < |s.mem|
  {
    s.(users := s.users[p := s.users[p] + 1])
  }

  /** Saves the shared page in a fresh twin slot. */
  function CreateTwin(s: Shared, p: nat): Shared
    requires s.WellSized() && p < |s.mem|
  {
    var index := if s.cur + 1 < INITIAL_PAGES then s.cur else 0;
    s.(cur := if s.cur + 1 < INITIAL_PAGES then s.cur + 1 else s.cur,
       index := s.index[p := index % SHORT_RANGE],
       area := PutVersion(PutSlot(s.area, index, s.mem[p]), index, s.versions[p]))
  }

  /** The state in which the page is merged: several users and no twin yet make a twin. */
  function WithTwin(s: Shared, p: nat): (r: Shared)
    requires s.WellSized() && p < |s.mem|
    ensures r.WellSized() && r.mem == s.mem && r.versions == s.versions && r.users == s.users
    ensures forall q :: 0 <= q < |s.mem| && q != p ==> r.index[q] == s.index[q]
  {
    if s.users[p] > 1 && s.index[p] == 0 then CreateTwin(s, p) else s
  }

  /** Commits one dirtied page. */
  function CommitEntry(s: Shared, p: nat, e: Dirty): (r: Shared)
    requires s.WellSized() && p < |s.mem|
    ensures r.WellSized() && |r.mem| == |s.mem|
  {
    var t := WithTwin(s, p);
    var page := if e.version == t.versions[p] then e.local else Overlay(e.local, Slot(t.area, t.index[p]), t.mem[p]);
    t.(mem := t.mem[p := page],
       index := if t.users[p] == 1 then t.index[p := 0] else t.index,
       users := t.users[p := if t.users[p] > 0 then t.users[p] - 1 else SHORT_RANGE - 1],
       versions := t.versions[p := t.versions[p] + 1])
  }

  /** Commits the dirtied pages from page `p` on, in ascending order. */
  function CommitFrom(s: Shared, d: map<nat, Dirty>, p: nat): (r: Shared)
    requires s.WellSized() && p <= |s.mem|
    ensures r.WellSized() && |r.mem| == |s.mem|
    decreases |s.mem| - p
  {
    if p == |s.mem| then s
    else CommitFrom(if p in d then CommitEntry(s, p, d[p]) else s, d, p + 1)
  }

  /** The page a commit compares the private copy with. */
  function CommitBase(s: Shared, p: nat, version: nat): Page
    requires s.WellSized() && p < |s.mem|
  {
    if version == s.versions[p] then s.mem[p] else Slot(WithTwin(s, p).area, WithTwin(s, p).index[p])
  }

  /** A commit publishes the bytes in which the private copy differs from `snap`, whatever the
      copy, if and only if `snap` is the page the commit compares with. */
  lemma CommitIsOverlay(s: Shared, p: nat, version: nat, snap: Page)
    requires s.WellSized() && p < |s.mem|
    ensures (forall local: Page :: CommitEntry(s, p, Dirty(version, local)).mem[p] == Overlay(local, snap, s.mem[p]))
            <==> snap == CommitBase(s, p, version)
  {
    var base := CommitBase(s, p, version);
    forall local: Page
      ensures CommitEntry(s, p, Dirty(version, local)).mem[p] == Overlay(local, base, s.mem[p])
    {
      WholeCopyIsOverlay(local, s.mem[p]);
    }
    OverlayDeterminesBase(base, snap, s.mem[p]);
    if forall local: Page :: Overlay(local, base, s.mem[p]) == Overlay(local, snap, s.mem[p]) {
      forall local: seq<Byte> | |local| == |s.mem[p]|
        ensures Overlay(local, base, s.mem[p]) == Overlay(local, snap, s.mem[p])
      {
        var page: Page := local;
        assert Overlay(page, base, s.mem[p]) == Overlay(page, snap, s.mem[p]);
      }
    }
  }

  /** Versions have 64 bits, the remembered one has 32: the only writer of a page, nobody having
      committed the page since its fault, publishes its copy as long as the version fits; past
      that it compares with slot 0, which holds no twin. */
  lemma SoleWriterNeedsSmallVersion(s: Shared, p: nat)
    requires s.WellSized() && p < |s.mem| && s.users[p] == 1 && s.index[p] == 0
    ensures (forall local: Page :: CommitEntry(s, p, Dirty(Stamp(s.versions[p]), local)).mem[p] == local)
            <==> s.versions[p] < INT_RANGE || Slot(s.area, 0) == s.mem[p]
  {
    var v := Stamp(s.versions[p]);
    CommitIsOverlay(s, p, v, s.mem[p]);
    assert v == s.versions[p] <==> s.versions[p] < INT_RANGE;
    forall local: Page ensures Overlay(local, s.mem[p], s.mem[p]) == local {
      WholeCopyIsOverlay(local, s.mem[p]);
    }
  }

  /** A slot is given out again while page `p` still has its twin there: once the next commit makes a
      twin of page `q` in it, a stale writer of `p` publishes its own writes, whatever they are, if and
      only if its snapshot happens to equal page `q`. */
  lemma SlotTakenOver(s: Shared, p: nat, q: nat, e: Dirty, version: nat, snap: Page)
    requires s.WellSized() && p < |s.mem| && q < |s.mem| && p != q
    requires s.index[p] == s.cur <= MAX_TWINS && s.index[q] == 0 && s.users[q] > 1 && version != s.versions[p]
    ensures var r := CommitEntry(s, q, e);
            r.index[p] == r.index[q] && CommitBase(r, p, version) == s.mem[q]
            && ((forall local: Page :: CommitEntry(r, p, Dirty(version, local)).mem[p] ==
                  Overlay(local, snap, r.mem[p]))
                <==> snap == s.mem[q])
  {
    TwinStored(s, q);
    var r := CommitEntry(s, q, e);
    assert r.area == CreateTwin(s, q).area && r.index[p] == s.cur && r.versions[p] == s.versions[p];
    CommitIsOverlay(r, p, version, snap);
  }

  lemma TwinStored(s: Shared, q: nat)
    requires s.WellSized() && q < |s.mem| && s.cur <= MAX_TWINS
    ensures CreateTwin(s, q).index[q] == s.cur && Slot(CreateTwin(s, q).area, s.cur) == s.mem[q]
  {
    SlotStored(s.area, s.cur, s.mem[q]);
    VersionKeepsSlots(PutSlot(s.area, s.cur, s.mem[q]), s.cur);
  }

  /** A twin past the limit: its version entry overwrites four bytes of an earlier slot.  A stale writer
      whose page has its twin there compares with these bytes changed; its commit is right for every
      write if and only if the four bytes of its snapshot happen to be the version of the other page. */
  lemma TwinPastLimit(s: Shared, p: nat, q: nat, e: Dirty, version: nat)
    requires s.WellSized() && p < |s.mem| && q < |s.mem| && p != q
    requires MAX_TWINS < s.cur && s.cur + 1 < INITIAL_PAGES && s.index[q] == 0 && s.users[q] > 1
    requires s.index[p] == HitSlot(s.cur) && version != s.versions[p]
    ensures HitAt(s.cur) + INT_SIZE <= PAGE_SIZE
    ensures var r := CommitEntry(s, q, e);
            var snap := CommitBase(s, p, version);
            && CommitBase(r, p, version) == Blit(snap, HitAt(s.cur), IntBytes(s.versions[q]))
            && ((forall local: Page ::
                   CommitEntry(r, p, Dirty(version, local)).mem[p] == Overlay(local, snap, r.mem[p]))
                <==> snap[HitAt(s.cur)..HitAt(s.cur) + INT_SIZE] == IntBytes(s.versions[q]))
  {
    var w, r := CreateTwin(s, q), CommitEntry(s, q, e);
    var area := PutSlot(s.area, s.cur, s.mem[q]);
    VersionHitsSlot(area, s.cur, s.versions[q]);
    SlotStored(s.area, s.cur, s.mem[q]);
    assert WithTwin(s, p) == s;
    var snap, at, bytes := CommitBase(s, p, version), HitAt(s.cur), IntBytes(s.versions[q]);
    assert r.area == w.area && r.index[p] == s.index[p] && r.versions[p] == s.versions[p] && WithTwin(r, p) == r;
    CommitIsOverlay(r, p, version, snap);
    BlitSame(snap, at, bytes);
  }

  lemma BlitSame(page: Page, at: nat, bytes: seq<Byte>)
    requires at + |bytes| <= PAGE_SIZE
    ensures Blit(page, at, bytes) == page <==> page[at..at + |bytes|] == bytes
  {
    var b := Blit(page, at, bytes);
    assert forall i :: 0 <= i < |bytes| ==> b[at + i] == bytes[i];
    if page[at..at + |bytes|] == bytes {
      forall k | 0 <= k < PAGE_SIZE
        ensures b[k] == page[k]
      {
        assert at <= k < at + |bytes| ==> page[k] == page[at..at + |bytes|][k - at];
      }
    }
  }

  /** The pages of a flat region. */
  function PagesOf(region: seq<Byte>, n: nat): seq<Page>
    requires |region| == n * PAGE_SIZE
  {
    seq(n, i requires 0 <= i < n => region[i * PAGE_SIZE..(i + 1) * PAGE_SIZE])
  }

  lemma BlitPage(region: seq<Byte>, n: nat, p: nat, page: Page)
    requires |region| == n * PAGE_SIZE && p < n
    ensures PagesOf(Blit(region, p * PAGE_SIZE, page), n) == PagesOf(region, n)[p := page]
  {
    var after := Blit(region, p * PAGE_SIZE, page);
    forall i | 0 <= i < n
      ensures PagesOf(after, n)[i] == PagesOf(region, n)[p := page][i]
    {
      assert forall k: nat | i * PAGE_SIZE <= k < (i + 1) * PAGE_SIZE ::
          after[k] == if i == p then page[k - p * PAGE_SIZE] else region[k];
    }
  }

  /** What the fault handler remembers about a dirtied page. */
  datatype PageInfo = PageInfo(version: nat, release: bool)

  /** One process's handle on the region. */
  class XPersist {
    const pages: nat
    const persistent: array<Byte>
    const versions: array<nat>
    const users: array<nat>
    const bitmapIndex: array<nat>
    const bitmap: XBitmap

    const transient: array<Byte>
    var dirtied: map<nat, PageInfo>

    ghost predicate Valid()
      reads this, bitmap, bitmapIndex
    {
      && persistent.Length == transient.Length == pages * PAGE_SIZE
      && versions.Length == users.Length == bitmapIndex.Length == pages
      && bitmap.Valid()
      && persistent != transient && persistent != bitmap.area && transient != bitmap.area
      && versions != users && users != bitmapIndex && versions != bitmapIndex
      && (forall p :: 0 <= p < pages ==> bitmapIndex[p] < SHORT_RANGE)
      && (forall p :: p in dirtied ==> p < pages)
    }

    /** The bitmap is the same for all regions. */
    constructor (contents: seq<Byte>, n: nat, twins: XBitmap)
      requires |contents| == n * PAGE_SIZE && twins.Valid()
      ensures Valid() && pages == n && bitmap == twins && DirtyPages() == map[]
      ensures View().mem == PagesOf(contents, n) && View().cur == twins.cur && View().area == twins.Contents()
      ensures forall p :: 0 <= p < n ==> View().users[p] == View().index[p] == View().versions[p] == 0
      ensures forall a :: a in Arrays() ==> fresh(a)
    {
      pages := n;
      persistent := new Byte[|contents|](i requires 0 <= i < |contents| => contents[i]);
      transient := new Byte[|contents|](_ => 0);
      versions := new nat[n](_ => 0);
      users := new nat[n](_ => 0);
      bitmapIndex := new nat[n](_ => 0);
      bitmap := twins;
      dirtied := map[];
      new;
      assert persistent[..] == contents;
    }

    ghost function Arrays(): set<object> {
      {persistent as object, transient, versions, users, bitmapIndex}
    }

    /** The shared state. */
    ghost function View(): (s: Shared)
      reads this, persistent, versions, users, bitmapIndex, bitmap, bitmap.area
      requires Valid()
      ensures s.WellSized() && |s.mem| == pages
    {
      Shared(PagesOf(persistent[..], pages), versions[..], users[..], bitmapIndex[..], bitmap.cur, bitmap.Contents())
    }

    ghost function LocalPage(p: nat): Page
      reads transient
      requires transient.Length == pages * PAGE_SIZE && p < pages
    {
      transient[p * PAGE_SIZE..(p + 1) * PAGE_SIZE]
    }

    /** The dirty list with the private copies. */
    ghost function DirtyPages(): map<nat, Dirty>
      reads this, transient, bitmap, bitmapIndex
      requires Valid()
    {
      map p | p in dirtied :: Dirty(dirtied[p].version, LocalPage(p))
    }

    /** A write to a protected page: count the user, remember the version, and let the kernel
        make the private copy. */
    method HandleWrite(p: nat)
      requires Valid() && p < pages && p !in dirtied
      modifies this`dirtied, users, transient
      ensures Valid()
      ensures View() == AddUser(old(View()), p)
      ensures DirtyPages() == old(DirtyPages())[p := Dirty(Stamp(old(View()).versions[p]), old(View()).mem[p])]
    {
      users[p] := users[p] + 1;
      dirtied := dirtied[p := PageInfo(versions[p] % INT_RANGE, true)];
      LoadPage(p);
    }

    /** The kernel's copy on write. */
    method LoadPage(p: nat)
      requires Valid() && p < pages
      modifies transient
      ensures forall q: nat :: q < pages ==> LocalPage(q) == if q == p then View().mem[p] else old(LocalPage(q))
    {
      ghost var was := transient[..];
      CopyPage(persistent, p * PAGE_SIZE, transient, p * PAGE_SIZE);
      BlitPage(was, pages, p, persistent[p * PAGE_SIZE..(p + 1) * PAGE_SIZE]);
      forall q: nat | q < pages
        ensures LocalPage(q) == PagesOf(transient[..], pages)[q] && old(LocalPage(q)) == PagesOf(was, pages)[q]
      {
      }
    }

    method CreateTwinPage(p: nat)
      requires Valid() && p < pages
      modifies bitmap`cur, bitmap.area, bitmapIndex
      ensures Valid()
      ensures View() == CreateTwin(old(View()), p)
    {
      var index := bitmap.Get();
      bitmapIndex[p] := index % SHORT_RANGE;
      ghost var was := bitmap.Contents();
      CopyPage(persistent, p * PAGE_SIZE, bitmap.area, Address(index));
      assert bitmap.Contents() == PutSlot(was, index, PagesOf(persistent[..], pages)[p]);
      bitmap.SetVersion(index, versions[p]);
    }

    /** Commits every dirtied page; the private copies stay until `UpdateAll`. */
    method CheckAndCommit()
      requires Valid()
      modifies persistent, versions, users, bitmapIndex, bitmap`cur, bitmap.area
      ensures Valid() && transient[..] == old(transient[..])
      ensures View() == CommitFrom(old(View()), old(DirtyPages()), 0)
    {
      for p := 0 to pages
        invariant Valid() && transient[..] == old(transient[..])
        invariant CommitFrom(View(), old(DirtyPages()), p) == CommitFrom(old(View()), old(DirtyPages()), 0)
      {
        if p in dirtied {
          assert LocalPage(p) == old(DirtyPages())[p].local;
          CommitPage(p);
        }
      }
    }

    /** One iteration of the commit loop. */
    method CommitPage(p: nat)
      requires Valid() && p in dirtied
      modifies persistent, versions, users, bitmapIndex, bitmap`cur, bitmap.area
      ensures Valid() && transient[..] == old(transient[..])
      ensures View() == CommitEntry(old(View()), p, Dirty(dirtied[p].version, old(LocalPage(p))))
    {
      EnsureTwin(p);
      MergePage(p);
      Release(p);
    }

    method EnsureTwin(p: nat)
      requires Valid() && p < pages
      modifies bitmap`cur, bitmap.area, bitmapIndex
      ensures Valid()
      ensures View() == WithTwin(old(View()), p)
    {
      if users[p] > 1 && bitmapIndex[p] == 0 {
        CreateTwinPage(p);
      }
    }

    /** One user less; the last one gives the twin up. */
    method Release(p: nat)
      requires Valid() && p < pages
      modifies versions, users, bitmapIndex
      ensures Valid()
      ensures var s := old(View());
              View() == s.(index := if s.users[p] == 1 then s.index[p := 0] else s.index,
                           users := s.users[p := if s.users[p] > 0 then s.users[p] - 1 else SHORT_RANGE - 1],
                           versions := s.versions[p := s.versions[p] + 1])
    {
      if users[p] == 1 {
        bitmapIndex[p] := 0;
      }
      users[p] := if users[p] > 0 then users[p] - 1 else SHORT_RANGE - 1;
      versions[p] := versions[p] + 1;
    }

    /** Publishes the private copy: a plain copy while nobody has committed the page since the
        fault, a diff against the twin otherwise. */
    method MergePage(p: nat)
      requires Valid() && p in dirtied
      modifies persistent
      ensures Valid()
      ensures var s := old(View());
              var page := if dirtied[p].version == s.versions[p] then LocalPage(p)
                          else Overlay(LocalPage(p), Slot(s.area, s.index[p]), s.mem[p]);
              View() == s.(mem := s.mem[p := page])
    {
      ghost var s := View();
      ghost var region := persistent[..];
      if dirtied[p].version == versions[p] {
        CopyPage(transient, p * PAGE_SIZE, persistent, p * PAGE_SIZE);
        BlitPage(region, pages, p, LocalPage(p));
      } else {
        WritePageDiffs(transient, p * PAGE_SIZE, bitmap.area, Address(bitmapIndex[p]), persistent, p * PAGE_SIZE);
        BlitPage(region, pages, p, Overlay(LocalPage(p), Slot(s.area, s.index[p]), s.mem[p]));
      }
    }

    /** Starts the next transaction: the private copies are dropped. */
    method UpdateAll()
      requires Valid()
      modifies this`dirtied
      ensures Valid() && DirtyPages() == map[]
      ensures View() == old(View())
    {
      dirtied := map[];
    }
  }

  /** `memcpy` of one page. */
  method CopyPage(src: array<Byte>, s: nat, dest: array<Byte>, d: nat)
    requires s + PAGE_SIZE <= src.Length && d + PAGE_SIZE <= dest.Length && src != dest
    modifies dest
    ensures dest[..] == Blit(old(dest[..]), d, src[s..s + PAGE_SIZE])
  {
    for i := 0 to PAGE_SIZE
      invariant forall k :: d <= k < d + i ==> dest[k] == src[s + k - d]
      invariant forall k :: 0 <= k < dest.Length && !(d <= k < d + i) ==> dest[k] == old(dest[k])
    {
      dest[d + i] := src[s + i];
    }
  }
}
