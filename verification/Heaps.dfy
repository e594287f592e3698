/** The layered allocator: per-index segregated free lists over zones over one page-rounded source
    (ansiwrapper.h, segheap.h, adapt.h, sllist.h, warpheap.h, zoneheap.h, xheap.h).

    Memory is a map from 8-byte aligned addresses to words.  A block has two header words in front,
    its size and a magic number; a free block holds the link to the next one in its first word. */
module Heaps {
  import opened Layout
  import opened SizeClasses

  const MAGIC: nat := 0xCAFEBABE
  const PAGE: nat := 4096

  datatype Bin = Bin(heap: nat, sizeClass: nat)

  function Align(sz: nat): (r: nat)
    ensures r % 8 == 0 && sz <= r < sz + 8
  {
    (sz + 7) / 8 * 8
  }

  /** What a request asks the heap for: at least 16 bytes, in multiples of 8. */
  function Request(size: nat): (r: nat)
    ensures r % 8 == 0 && r >= 16 && size <= r && (size >= 9 ==> r < size + 8)
  {
    Align(if size < 16 then 16 else size)
  }

  /** The number of pages a request needs. */
  function Pages(sz: nat): nat {
    (sz + (PAGE - 1)) / PAGE
  }

  function PageRound(sz: nat): nat {
    PAGE * Pages(sz)
  }

  /** The least whole number of pages. */
  lemma PageRounded(sz: nat)
    ensures PageRound(sz) % PAGE == 0 && PageRound(sz) % 8 == 0 && sz <= PageRound(sz) < sz + PAGE
  {
    Multiple(Pages(sz));
  }

  lemma Multiple(q: nat)
    ensures PAGE * q % 8 == 0 && PAGE * q % PAGE == 0
  {
    assert PAGE * q == 8 * (512 * q);
  }

  /** The words from `h` on are linked in this order. */
  ghost predicate Linked(mem: map<nat, nat>, h: nat, s: seq<nat>)
    decreases s
  {
    if s == [] then h == 0 else h == s[0] && h != 0 && h in mem && Linked(mem, mem[h], s[1..])
  }

  lemma {:induction false} LinkedElsewhere(mem: map<nat, nat>, h: nat, s: seq<nat>, x: nat, v: nat)
    requires Linked(mem, h, s) && x !in s
    ensures Linked(mem[x := v], h, s)
    decreases s
  {
    if s != [] {
      LinkedElsewhere(mem, mem[h], s[1..], x, v);
    }
  }

  /** A block is of a size that is not served from a list, or of exactly the size of a class. */
  ghost predicate Sized(cap: nat) {
    cap > Class2Size(NUMBINS - 1) || exists c :: 0 <= c < NUMBINS && cap == Class2Size(c)
  }

  ghost predicate AllLinked(mem: map<nat, nat>, heads: map<Bin, nat>, lists: map<Bin, seq<nat>>) {
    heads.Keys == lists.Keys && forall b :: b in lists ==> Linked(mem, heads[b], lists[b])
  }

  /** The address lies in a live block. */
  ghost predicate Inside(blocks: map<nat, nat>, live: set<nat>, x: nat) {
    exists p :: p in live && p in blocks && p <= x < p + blocks[p]
  }

  /** What the free lists are: blocks that are not live, of the size of their class, each once. */
  ghost predicate ListsFit(blocks: map<nat, nat>, live: set<nat>, lists: map<Bin, seq<nat>>) {
    && (forall b, i :: b in lists && 0 <= i < |lists[b]| ==> FreeIn(blocks, live, lists[b][i], b))
    && (forall b, c, i, j ::
          b in lists && c in lists && 0 <= i < |lists[b]| && 0 <= j < |lists[c]| && lists[b][i] == lists[c][j] ==>
            b == c && i == j)
  }

  ghost predicate FreeIn(blocks: map<nat, nat>, live: set<nat>, p: nat, b: Bin) {
    p in blocks && p !in live && b.sizeClass < NUMBINS && blocks[p] == Class2Size(b.sizeClass)
  }

  /** A block is live, or in a free list, or was too large for one when it was freed. */
  ghost predicate Accounted(blocks: map<nat, nat>, live: set<nat>, lists: map<Bin, seq<nat>>, p: nat)
    requires p in blocks
  {
    p in live || blocks[p] > Class2Size(NUMBINS - 1) || exists b :: b in lists && p in lists[b]
  }

  /** What an arena for `n` bytes takes from the source, if arenas have `chunk` bytes or more. */
  function ArenaPages(chunk: nat, n: nat): nat {
    PageRound(ARENA_HEADER + if n > chunk then n else chunk)
  }

  /** The blocks that share memory with this one. */
  ghost function Overlaps(blocks: map<nat, nat>, p: nat): set<nat>
    requires p in blocks
  {
    set q | q in blocks && !Apart(p, p + blocks[p], q, q + blocks[q])
  }

  class Heaps {
    const count: nat
    const chunk: nat
    ghost const end: nat          // the end of the source's memory
    var mem: map<nat, nat>
    var heads: map<Bin, nat>
    var arenas: seq<Arena>
    var position: nat
    var remaining: nat
    // history: the capacity of every block ever made, the live ones, and what the lists hold
    ghost var blocks: map<nat, nat>
    ghost var live: set<nat>
    ghost var lists: map<Bin, seq<nat>>

    ghost predicate Valid()
      reads this
    {
      && |arenas| == count
      && Sound(blocks, arenas, position) && position + remaining == end
      && live <= blocks.Keys
      && (forall p :: p in blocks ==> Sized(blocks[p]) && p - HEADER in mem && mem[p - HEADER] == blocks[p])
      && AllLinked(mem, heads, lists)
      && ListsFit(blocks, live, lists)
      && (forall p :: p in blocks ==> Accounted(blocks, live, lists, p))
    }

    ghost function List(b: Bin): seq<nat>
      reads this`lists
    {
      if b in lists then lists[b] else []
    }

    /** There is memory for a new block of this capacity and its header: in the arena, or in a new one. */
    ghost predicate Room(ind: nat, cap: nat)
      requires ind < |arenas|
      reads this`arenas, this`remaining
    {
      arenas[ind].rem >= cap + HEADER || (remaining > 0 && remaining >= ArenaPages(chunk, cap + HEADER))
    }

    constructor (n: nat, chunkSize: nat, base: nat, size: nat)
      requires base > 0 && base % 8 == 0
      ensures Valid() && count == n && chunk == chunkSize && live == {} && blocks == map[] && lists == map[]
      ensures remaining == size && end == base + size && forall i :: 0 <= i < n ==> arenas[i].rem == 0
    {
      count, chunk, end := n, chunkSize, base + size;
      mem, heads, arenas := map[], map[], seq(n, _ => Arena(0, 0));
      position, remaining := base, size;
      blocks, live, lists := map[], {}, map[];
    }

    /** The program stores a word in a block of its own. */
    method Store(p: nat, x: nat, v: nat)
      requires Valid() && p in live && p <= x < p + blocks[p] && x % 8 == 0
      modifies this`mem
      ensures Valid() && mem == old(mem)[x := v]
    {
      StoreKeeps(p, x, v);
      mem := mem[x := v];
    }

    /** A word of a live block is no header and no link. */
    lemma StoreKeeps(p: nat, x: nat, v: nat)
      requires Valid() && p in live && p <= x < p + blocks[p]
      ensures forall q :: q in blocks ==> x != q - HEADER
      ensures forall b :: b in lists ==> Linked(mem[x := v], heads[b], lists[b])
    {
      forall q | q in blocks
        ensures x != q - HEADER
      {
        assert BlockFits(q, blocks[q], position) && BlockFits(p, blocks[p], position);
        assert q != p ==> BlocksApart(p, blocks[p], q, blocks[q]);
      }
      forall b | b in lists
        ensures Linked(mem[x := v], heads[b], lists[b])
      {
        forall i | 0 <= i < |lists[b]|
          ensures lists[b][i] != x
        {
          var q := lists[b][i];
          assert FreeIn(blocks, live, q, b);
          assert BlockFits(q, blocks[q], position);
          assert BlocksApart(p, blocks[p], q, blocks[q]);
        }
        LinkedElsewhere(mem, heads[b], lists[b], x, v);
      }
    }

    // ---- The layers ----

    /** xheap: memory in whole pages, never given back; none left ends the program. */
    method SourceMalloc(sz: nat) returns (ok: bool, p: nat)
      requires Valid()
      modifies this`position, this`remaining
      ensures Valid() && (ok <==> old(remaining) != 0 && old(remaining) >= PageRound(sz))
      ensures p == old(position) && position == old(position) + (if ok then PageRound(sz) else 0)
    {
      var rounded := PageRound(sz);
      p := position;
      ok := remaining != 0 && remaining >= rounded;
      if ok {
        SoundPages(blocks, arenas, position, sz);
        remaining := remaining - rounded;
        position := position + rounded;
      }
    }

    /** ZoneHeap: a new arena when the current one has not enough room; what was left there is lost. */
    method Refill(ind: nat, sz: nat) returns (ok: bool)
      requires Valid() && ind < count && arenas[ind].rem < sz
      modifies this`position, this`remaining, this`arenas
      ensures Valid() && (ok <==> old(remaining) > 0 && old(remaining) >= ArenaPages(chunk, sz))
      ensures ok ==> |arenas| == |old(arenas)| && arenas[ind].rem >= sz && arenas[ind].rem >= chunk
                     && arenas[ind].pos == old(position) + ARENA_HEADER
      ensures ok ==> forall i :: 0 <= i < count && i != ind ==> arenas[i] == old(arenas)[i]
      ensures !ok ==> arenas == old(arenas) && remaining == old(remaining)
    {
      var allocSize := if chunk < sz then sz else chunk;
      var buf;
      ghost var top := position;
      ghost var before := arenas;
      ok, buf := SourceMalloc(ARENA_HEADER + allocSize);
      if ok {
        PageRounded(ARENA_HEADER + allocSize);
        RefillFrom(blocks, before, top, ind, allocSize, PageRound(ARENA_HEADER + allocSize), position);
        arenas := arenas[ind := Arena(buf + ARENA_HEADER, allocSize)];
      }
    }

    /** A new block of exactly this capacity, with its header; 0 exactly when neither the arena nor the
        source has the memory. */
    method NewBlock(ind: nat, cap: nat) returns (p: nat)
      requires Valid() && ind < count && cap % 8 == 0 && cap >= 16 && Sized(cap)
      modifies this`position, this`remaining, this`arenas, this`mem, this`blocks, this`live
      ensures Valid() && (p != 0 <==> old(Room(ind, cap)))
      ensures old(arenas[ind].rem) >= cap + HEADER ==>
                p == old(arenas[ind].pos) + HEADER && remaining == old(remaining)
                && arenas[ind].rem == old(arenas[ind].rem) - (cap + HEADER)
      ensures forall i :: 0 <= i < count && i != ind ==> arenas[i] == old(arenas)[i]
      ensures p != 0 ==> p % 8 == 0 && p !in old(blocks) && blocks == old(blocks)[p := cap] && live == old(live) + {p}
      ensures p == 0 ==> blocks == old(blocks) && live == old(live)
      ensures forall x :: Inside(old(blocks), old(live), x) && x in old(mem) ==> x in mem && mem[x] == old(mem)[x]
    {
      p := 0;
      var ok := HasRoom(ind, Align(cap + HEADER));
      if ok {
        p := Carve(ind, cap);
      }
    }

    method HasRoom(ind: nat, sz: nat) returns (ok: bool)
      requires Valid() && ind < count
      modifies this`position, this`remaining, this`arenas
      ensures Valid() && (ok ==> arenas[ind].rem >= sz)
      ensures ok <==> old(arenas[ind].rem) >= sz || (old(remaining) > 0 && old(remaining) >= ArenaPages(chunk, sz))
      ensures old(arenas[ind].rem) >= sz ==> arenas == old(arenas) && remaining == old(remaining)
      ensures forall i :: 0 <= i < count && i != ind ==> arenas[i] == old(arenas)[i]
    {
      ok := true;
      if arenas[ind].rem < sz {
        ok := Refill(ind, sz);
      }
    }

    /** From the front of the arena. */
    method Carve(ind: nat, cap: nat) returns (p: nat)
      requires Valid() && ind < count && cap % 8 == 0 && cap >= 16 && Sized(cap) && arenas[ind].rem >= cap + HEADER
      modifies this`arenas, this`mem, this`blocks, this`live
      ensures Valid() && p != 0 && p % 8 == 0 && p == old(arenas[ind].pos) + HEADER
      ensures arenas[ind].rem == old(arenas[ind].rem) - (cap + HEADER)
      ensures forall i :: 0 <= i < count && i != ind ==> arenas[i] == old(arenas)[i]
      ensures p !in old(blocks) && blocks == old(blocks)[p := cap] && live == old(live) + {p}
      ensures forall x :: Inside(old(blocks), old(live), x) && x in old(mem) ==> x in mem && mem[x] == old(mem)[x]
    {
      CarveSound(blocks, arenas, position, ind, cap + HEADER);
      p := arenas[ind].pos + HEADER;
      arenas := arenas[ind := Cut(arenas[ind], cap + HEADER)];
      WriteHeader(p, cap);
    }

    method WriteHeader(p: nat, cap: nat)
      requires |arenas| == count && p !in blocks && p % 8 == 0 && p >= HEADER && Sized(cap)
      requires Sound(blocks[p := cap], arenas, position) && position + remaining == end
      requires live <= blocks.Keys
      requires forall q :: q in blocks ==> Sized(blocks[q]) && q - HEADER in mem && mem[q - HEADER] == blocks[q]
      requires AllLinked(mem, heads, lists)
      requires ListsFit(blocks, live, lists) && forall q :: q in blocks ==> Accounted(blocks, live, lists, q)
      modifies this`mem, this`blocks, this`live
      ensures Valid() && blocks == old(blocks)[p := cap] && live == old(live) + {p}
      ensures forall x :: Inside(old(blocks), old(live), x) && x in old(mem) ==> x in mem && mem[x] == old(mem)[x]
    {
      HeaderOff(p, cap);
      LiveBlockFits(blocks, live, lists, p, cap);
      mem := mem[p - HEADER := cap][p - 8 := MAGIC];
      blocks := blocks[p := cap];
      live := live + {p};
    }

    /** The header of a new block lies in no other block, and is no header or link of one. */
    lemma HeaderOff(p: nat, cap: nat)
      requires p !in blocks && p >= HEADER && Sound(blocks[p := cap], arenas, position)
      requires live <= blocks.Keys && ListsFit(blocks, live, lists) && AllLinked(mem, heads, lists)
      ensures forall q :: q in blocks ==> q - HEADER != p - HEADER && q - HEADER != p - 8
      ensures !Inside(blocks, live, p - HEADER) && !Inside(blocks, live, p - 8)
      ensures forall b :: b in lists ==> Linked(mem[p - HEADER := cap][p - 8 := MAGIC], heads[b], lists[b])
    {
      var all := blocks[p := cap];
      forall q | q in blocks
        ensures q - HEADER != p - HEADER && q - HEADER != p - 8 && q != p - HEADER && q != p - 8
        ensures !(q <= p - HEADER < q + blocks[q]) && !(q <= p - 8 < q + blocks[q])
      {
        assert q in all && all[q] == blocks[q] && p in all;
        assert BlockFits(q, all[q], position) && BlockFits(p, all[p], position) && BlocksApart(p, all[p], q, all[q]);
      }
      forall b | b in lists
        ensures Linked(mem[p - HEADER := cap][p - 8 := MAGIC], heads[b], lists[b])
      {
        forall i | 0 <= i < |lists[b]|
          ensures lists[b][i] != p - HEADER && lists[b][i] != p - 8
        {
          assert FreeIn(blocks, live, lists[b][i], b);
        }
        LinkedElsewhere(mem, heads[b], lists[b], p - HEADER, cap);
        LinkedElsewhere(mem[p - HEADER := cap], heads[b], lists[b], p - 8, MAGIC);
      }
    }

    // ---- The free lists ----

    /** SLList::get on the list of a class. */
    method Pop(b: Bin) returns (p: nat)
      requires Valid()
      modifies this`heads, this`lists, this`live
      ensures Valid()
      ensures if old(List(b)) == [] then p == 0 && live == old(live) && lists == old(lists)
              else p == old(List(b))[0] && p != 0 && p in blocks && p !in old(live)
                   && blocks[p] == Class2Size(b.sizeClass)
                   && live == old(live) + {p} && lists == old(lists)[b := old(List(b))[1..]]
    {
      p := if b in heads then heads[b] else 0;
      if p != 0 {
        PopKeeps(b);
        RestLinked(b, p, lists[b][1..]);
        Delist(b, p, lists[b][1..]);
      }
    }

    method Delist(b: Bin, p: nat, ghost rest: seq<nat>)
      requires |arenas| == count && Sound(blocks, arenas, position) && position + remaining == end
      requires live <= blocks.Keys && p in blocks && p in mem && b in lists
      requires forall q :: q in blocks ==> Sized(blocks[q]) && q - HEADER in mem && mem[q - HEADER] == blocks[q]
      requires heads.Keys == lists.Keys && AllLinked(mem, heads[b := mem[p]], lists[b := rest])
      requires ListsFit(blocks, live + {p}, lists[b := rest])
      requires forall q :: q in blocks ==> Accounted(blocks, live + {p}, lists[b := rest], q)
      modifies this`heads, this`lists, this`live
      ensures Valid() && live == old(live) + {p} && lists == old(lists)[b := rest]
    {
      heads, lists, live := heads[b := mem[p]], lists[b := rest], live + {p};
    }

    lemma RestLinked(b: Bin, p: nat, rest: seq<nat>)
      requires AllLinked(mem, heads, lists)
      requires b in lists && lists[b] != [] && p == lists[b][0] && rest == lists[b][1..]
      ensures p in mem
      ensures AllLinked(mem, heads[b := mem[p]], lists[b := rest])
    {
      assert Linked(mem, heads[b], lists[b]);
    }

    lemma PopKeeps(b: Bin)
      requires Valid() && b in lists && lists[b] != []
      ensures var p := lists[b][0];
              var after := lists[b := lists[b][1..]];
              && FreeIn(blocks, live, p, b) && p != 0 && BlockFits(p, blocks[p], position)
              && ListsFit(blocks, live + {p}, after)
              && forall q :: q in blocks ==> Accounted(blocks, live + {p}, after, q)
    {
      var p := lists[b][0];
      var after := lists[b := lists[b][1..]];
      assert FreeIn(blocks, live, p, b);
      forall c, i | c in after && 0 <= i < |after[c]|
        ensures after[c][i] == lists[c][if c == b then i + 1 else i] && FreeIn(blocks, live + {p}, after[c][i], c)
      {
        assert FreeIn(blocks, live, lists[c][if c == b then i + 1 else i], c);
      }
      forall q | q in blocks
        ensures Accounted(blocks, live + {p}, after, q)
      {
        PopAccounts(b, p, q);
      }
    }

    lemma PopAccounts(b: Bin, p: nat, q: nat)
      requires q in blocks && Accounted(blocks, live, lists, q) && b in lists && lists[b] != [] && p == lists[b][0]
      ensures Accounted(blocks, live + {p}, lists[b := lists[b][1..]], q)
    {
      var after := lists[b := lists[b][1..]];
      if q !in live && q != p && blocks[q] <= Class2Size(NUMBINS - 1) {
        var c :| c in lists && q in lists[c];
        var i :| 0 <= i < |lists[c]| && lists[c][i] == q;
        assert c == b ==> after[c][i - 1] == q;
        assert q in after[c];
      }
    }

    /** SLList::insert: the link goes into the first word of the freed block. */
    method Push(b: Bin, p: nat)
      requires Valid() && p in live && b.sizeClass < NUMBINS && blocks[p] == Class2Size(b.sizeClass)
      modifies this`heads, this`mem, this`lists, this`live
      ensures Valid() && live == old(live) - {p} && lists == old(lists)[b := [p] + old(List(b))]
      ensures forall x :: Inside(blocks, live, x) && x in old(mem) ==> x in mem && mem[x] == old(mem)[x]
    {
      assert BlockFits(p, blocks[p], position);
      PushKeeps(b, p);
      Store(p, p, if b in heads then heads[b] else 0);
      Enlist(b, p);
    }

    method Enlist(b: Bin, p: nat)
      requires Valid() && p in live && p != 0 && p in mem && mem[p] == if b in heads then heads[b] else 0
      requires ListsFit(blocks, live - {p}, lists[b := [p] + List(b)])
      requires forall q :: q in blocks ==> Accounted(blocks, live - {p}, lists[b := [p] + List(b)], q)
      modifies this`heads, this`lists, this`live
      ensures Valid() && live == old(live) - {p} && lists == old(lists)[b := [p] + old(List(b))]
    {
      ghost var after := [p] + List(b);
      assert after[1..] == List(b);
      assert Linked(mem, p, after);
      heads := heads[b := p];
      lists := lists[b := after];
      live := live - {p};
    }

    lemma PushKeeps(b: Bin, p: nat)
      requires Valid() && p in live && b.sizeClass < NUMBINS && blocks[p] == Class2Size(b.sizeClass)
      ensures var after := lists[b := [p] + List(b)];
              && ListsFit(blocks, live - {p}, after)
              && forall q :: q in blocks ==> Accounted(blocks, live - {p}, after, q)
      ensures !Inside(blocks, live - {p}, p)
    {
      var after := lists[b := [p] + List(b)];
      forall c, i | c in after && 0 <= i < |after[c]|
        ensures FreeIn(blocks, live - {p}, after[c][i], c)
        ensures if c == b && i == 0 then after[c][i] == p
                else after[c][i] != p && c in lists && after[c][i] == lists[c][if c == b then i - 1 else i]
      {
        if c != b || i > 0 {
          assert FreeIn(blocks, live, lists[c][if c == b then i - 1 else i], c);
        }
      }
      forall q | q in blocks
        ensures Accounted(blocks, live - {p}, after, q)
      {
        PushAccounts(b, p, q);
      }
      forall q | q in live - {p}
        ensures !(q <= p < q + blocks[q])
      {
        assert BlocksApart(p, blocks[p], q, blocks[q]) && BlockFits(q, blocks[q], position)
               && BlockFits(p, blocks[p], position);
      }
    }

    lemma PushAccounts(b: Bin, p: nat, q: nat)
      requires q in blocks && Accounted(blocks, live, lists, q)
      ensures Accounted(blocks, live - {p}, lists[b := [p] + List(b)], q)
    {
      var after := lists[b := [p] + List(b)];
      if q == p {
        assert after[b][0] == p;
        assert p in after[b];
      } else if q !in live && blocks[q] <= Class2Size(NUMBINS - 1) {
        var c :| c in lists && q in lists[c];
        assert q in after[c];
      }
    }

    // ---- malloc and free ----

    /** From the list of the least class that suffices, while there is a block in it; otherwise a new block,
        if there is room for one; otherwise 0. */
    twostate predicate Answers(ind: nat, sz: nat, p: nat)
      requires ind < |old(arenas)|
      reads this
    {
      && (forall c: nat :: c < NUMBINS && Fitting(sz, c) ==> Gives(Bin(ind, c), Class2Size(c), p))
      && (sz > Class2Size(NUMBINS - 1) ==> lists == old(lists) && MakesNew(ind, sz, p))
    }

    twostate predicate Gives(b: Bin, cap: nat, p: nat)
      requires b.heap < |old(arenas)|
      reads this
    {
      if old(List(b)) == [] then lists == old(lists) && MakesNew(b.heap, cap, p)
      else p == old(List(b))[0] && p != 0 && lists == old(lists)[b := old(List(b))[1..]]
    }

    twostate predicate MakesNew(ind: nat, cap: nat, p: nat)
      requires ind < |old(arenas)|
      reads this
    {
      && (p == 0 <==> !old(Room(ind, cap)))
      && (p != 0 ==> p !in old(blocks) && p in blocks && blocks[p] == cap)
    }

    /** For every request: an 8-byte aligned block that was not live, is at least as large as asked for,
        and overlaps no live block; no live block's contents change.  A block of the least sufficient
        class is taken from that class's list while there is one, and is made new otherwise.  The answer
        is 0 exactly when there is neither a block in that list nor memory for a new one. */
    method Malloc(ind: nat, size: nat) returns (p: nat)
      requires Valid() && ind < count
      modifies this
      ensures Valid()
      ensures p == 0 ==> live == old(live) && blocks == old(blocks)
      ensures p != 0 ==> p !in old(live) && live == old(live) + {p} && p % 8 == 0 && p in blocks && blocks[p] >= size
      ensures p != 0 ==> Overlaps(blocks, p) !! old(live)
      ensures forall q :: q in old(blocks) ==> q in blocks && blocks[q] == old(blocks)[q]
      ensures forall x :: Inside(old(blocks), old(live), x) && x in old(mem) ==> x in mem && mem[x] == old(mem)[x]
      ensures Answers(ind, Request(size), p)
    {
      ghost var before := live;
      p := MallocAligned(ind, Request(size));
      if p != 0 {
        StaysApart(p, before);
      }
    }

    method MallocAligned(ind: nat, sz: nat) returns (p: nat)
      requires Valid() && ind < count && sz % 8 == 0 && sz >= 16
      modifies this
      ensures Valid()
      ensures p == 0 ==> live == old(live) && blocks == old(blocks)
      ensures p != 0 ==> p !in old(live) && live == old(live) + {p} && p % 8 == 0 && p in blocks && blocks[p] >= sz
      ensures forall q :: q in old(blocks) ==> q in blocks && blocks[q] == old(blocks)[q]
      ensures forall x :: Inside(old(blocks), old(live), x) && x in old(mem) ==> x in mem && mem[x] == old(mem)[x]
      ensures Answers(ind, sz, p)
    {
      if sz <= Class2Size(NUMBINS - 1) {
        var c := Size2Class(sz);
        OneClass(sz, c);
        p := MallocSmall(ind, c);
      } else {
        TooLarge(sz);
        p := NewBlock(ind, sz);
      }
    }

    lemma StaysApart(p: nat, before: set<nat>)
      requires Valid() && live == before + {p} && p !in before
      ensures Overlaps(blocks, p) !! before
    {
      forall q | q in before
        ensures q !in Overlaps(blocks, p)
      {
        assert BlocksApart(p, blocks[p], q, blocks[q]);
      }
    }

    /** StrictSegHeap: from the list of the class, or a new block of the size of the class. */
    method MallocSmall(ind: nat, c: nat) returns (p: nat)
      requires Valid() && ind < count && 1 <= c < NUMBINS
      modifies this
      ensures Valid()
      ensures p == 0 ==> live == old(live) && blocks == old(blocks)
      ensures p != 0 ==>
                p !in old(live) && live == old(live) + {p} && p % 8 == 0 && p in blocks && blocks[p] == Class2Size(c)
      ensures forall q :: q in old(blocks) ==> q in blocks && blocks[q] == old(blocks)[q]
      ensures forall x :: Inside(old(blocks), old(live), x) && x in old(mem) ==> x in mem && mem[x] == old(mem)[x]
      ensures Gives(Bin(ind, c), Class2Size(c), p)
    {
      p := Pop(Bin(ind, c));
      if p == 0 {
        ClassSize(c);
        p := NewBlock(ind, Class2Size(c));
      } else {
        assert BlockFits(p, blocks[p], position);
      }
    }

    /** Freeing null does nothing; anything else goes back as a block does. */
    method FreeAny(ind: nat, p: nat)
      requires Valid() && ind < count && (p == 0 || p in live)
      modifies this
      ensures Valid() && live == old(live) - {p} && blocks == old(blocks)
      ensures p == 0 ==> lists == old(lists) && mem == old(mem)
      ensures p != 0 ==> forall c: nat :: c < NUMBINS && Fitting(blocks[p], c) ==>
                lists == old(lists)[Bin(ind, c) := [p] + old(List(Bin(ind, c)))]
      ensures forall x :: Inside(blocks, live, x) && x in old(mem) ==> x in mem && mem[x] == old(mem)[x]
    {
      if p != 0 {
        Free(ind, p);
      } else {
        assert 0 in live ==> BlockFits(0, blocks[0], position);
      }
    }

    /** A small block goes back to the list, of the given heap, from which its class is served, whatever
        heap it came from; a larger one is dropped. */
    method Free(ind: nat, p: nat)
      requires Valid() && ind < count && p in live
      modifies this
      ensures Valid() && live == old(live) - {p} && blocks == old(blocks)
      ensures blocks[p] > Class2Size(NUMBINS - 1) ==> lists == old(lists)
      ensures forall c: nat :: c < NUMBINS && Fitting(blocks[p], c) ==>
                lists == old(lists)[Bin(ind, c) := [p] + old(List(Bin(ind, c)))]
      ensures forall x :: Inside(blocks, live, x) && x in old(mem) ==> x in mem && mem[x] == old(mem)[x]
    {
      var size := mem[p - HEADER];
      assert Sized(size);
      if size > Class2Size(NUMBINS - 1) {
        TooLarge(size);
        Drop(p);
      } else {
        SmallPowers();
        assert BlockFits(p, blocks[p], position);
        var c := ServingClass(size);
        OwnClass(size, c);
        Push(Bin(ind, c), p);
      }
    }

    /** ZoneHeap::free does nothing. */
    method Drop(p: nat)
      requires Valid() && p in live && blocks[p] > Class2Size(NUMBINS - 1)
      modifies this`live
      ensures Valid() && live == old(live) - {p}
    {
      forall b, i | b in lists && 0 <= i < |lists[b]|
        ensures FreeIn(blocks, live - {p}, lists[b][i], b)
      {
        assert FreeIn(blocks, live, lists[b][i], b);
      }
      forall q | q in blocks
        ensures Accounted(blocks, live - {p}, lists, q)
      {
        assert Accounted(blocks, live, lists, q);
      }
      live := live - {p};
    }
  }

  /** The class into which a freed block of this size goes: the largest that is not larger. */
  method ServingClass(size: nat) returns (c: nat)
    requires 8 <= size <= Class2Size(NUMBINS - 1)
    ensures c < NUMBINS && Class2Size(c) <= size < Class2Size(c + 1)
  {
    c := Size2Class(size);
    SmallPowers();
    Pow2Grows(c + 3, c + 4);
    while Class2Size(c) > size
      invariant c < NUMBINS && size < Class2Size(c + 1)
      decreases c
    {
      c := c - 1;
    }
  }

  lemma OneClass(sz: nat, c: nat)
    requires sz >= 16 && Fitting(sz, c)
    ensures c >= 1 && forall d: nat :: Fitting(sz, d) ==> d == c
  {
    SmallPowers();
    forall d: nat | Fitting(sz, d)
      ensures d == c
    {
      FittingUnique(sz, c, d);
    }
  }

  /** No class is large enough. */
  lemma TooLarge(sz: nat)
    requires sz > Class2Size(NUMBINS - 1)
    ensures forall c: nat :: c < NUMBINS ==> !Fitting(sz, c)
  {
    forall c: nat | c < NUMBINS
      ensures !Fitting(sz, c)
    {
      if c < NUMBINS - 1 {
        Pow2Grows(c + 3, NUMBINS + 2);
      }
    }
  }

  lemma ClassSize(c: nat)
    requires 1 <= c < NUMBINS
    ensures Class2Size(c) % 8 == 0 && Class2Size(c) >= 16 && Sized(Class2Size(c))
  {
    assert Sized(Class2Size(c));
    var half := Pow2(c - 1);
    Doubled(half, Pow2(c), Pow2(c + 1), Pow2(c + 2), Pow2(c + 3));
    if c > 1 {
      Pow2Grows(0, c - 1);
    }
  }

  lemma Doubled(a: nat, b: nat, c: nat, d: nat, e: nat)
    requires b == 2 * a && c == 2 * b && d == 2 * c && e == 2 * d
    ensures e == 16 * a && e % 8 == 0
  {
  }

  /** A size of a class is served by that class, and by no other. */
  lemma OwnClass(size: nat, c: nat)
    requires Sized(size) && size <= Class2Size(NUMBINS - 1) && Class2Size(c) <= size < Class2Size(c + 1)
    ensures Class2Size(c) == size && forall d: nat :: Fitting(size, d) ==> d == c
  {
    var d :| 0 <= d < NUMBINS && size == Class2Size(d);
    if c < d {
      if c + 1 < d {
        Pow2Grows(c + 4, d + 3);
      }
    } else if d < c {
      Pow2Grows(d + 3, c + 3);
    }
    FittingOwn(c);
    forall e: nat | Fitting(size, e)
      ensures e == c
    {
      FittingUnique(size, e, c);
    }
  }

  lemma LiveBlockFits(blocks: map<nat, nat>, live: set<nat>, lists: map<Bin, seq<nat>>, p: nat, cap: nat)
    requires p !in blocks && ListsFit(blocks, live, lists)
    requires forall q :: q in blocks ==> Accounted(blocks, live, lists, q)
    ensures var after := blocks[p := cap];
            ListsFit(after, live + {p}, lists) && forall q :: q in after ==> Accounted(after, live + {p}, lists, q)
  {
    forall b, i | b in lists && 0 <= i < |lists[b]|
      ensures FreeIn(blocks[p := cap], live + {p}, lists[b][i], b)
    {
      assert FreeIn(blocks, live, lists[b][i], b);
    }
    forall q | q in blocks
      ensures Accounted(blocks[p := cap], live + {p}, lists, q)
    {
      assert Accounted(blocks, live, lists, q);
    }
  }

  lemma SoundPages(blocks: map<nat, nat>, arenas: seq<Arena>, top: nat, sz: nat)
    requires Sound(blocks, arenas, top)
    ensures Sound(blocks, arenas, top + PageRound(sz))
  {
    PageRounded(sz);
    SumAligned(top, PageRound(sz));
    SoundAbove(blocks, arenas, top, top + PageRound(sz));
  }

  lemma SumAligned(a: nat, b: nat)
    requires a % 8 == 0 && b % 8 == 0
    ensures (a + b) % 8 == 0
  {
  }

  lemma SoundAbove(blocks: map<nat, nat>, arenas: seq<Arena>, top: nat, top2: nat)
    requires Sound(blocks, arenas, top) && top <= top2 && top2 % 8 == 0
    ensures Sound(blocks, arenas, top2)
  {
    forall p | p in blocks
      ensures BlockFits(p, blocks[p], top2)
    {
      assert BlockFits(p, blocks[p], top);
    }
    forall i | 0 <= i < |arenas|
      ensures ArenaFits(arenas[i], top2)
    {
      assert ArenaFits(arenas[i], top);
    }
  }

  lemma RefillFrom(blocks: map<nat, nat>, arenas: seq<Arena>, top: nat, i: nat, size: nat, rounded: nat, top2: nat)
    requires Sound(blocks, arenas, top) && i < |arenas| && top2 == top + rounded
    requires rounded % 8 == 0 && ARENA_HEADER + size <= rounded
    ensures Sound(blocks, arenas[i := Arena(top + ARENA_HEADER, size)], top2)
  {
    RefillSound(blocks, arenas, top, i, size, top2);
  }
}
