/** Where blocks, arenas and unused memory lie: nothing overlaps. */
module Layout {
  /** The unused part of an arena; a heap without an arena has one without room. */
  datatype Arena = Arena(pos: nat, rem: nat)

  const HEADER: nat := 16       // size and magic number, in front of a block
  const ARENA_HEADER: nat := 32

  /** The byte ranges [a, b) and [c, d) share nothing. */
  predicate Apart(a: int, b: int, c: int, d: int) {
    b <= c || d <= a
  }

  /** Blocks with their headers, unused arena room and the source's unused memory (from `top` on) are
      pairwise disjoint; `blocks` gives the capacity of each block. */
  ghost predicate Sound(blocks: map<nat, nat>, arenas: seq<Arena>, top: nat) {
    && top % 8 == 0 && top > 0
    && (forall p :: p in blocks ==> BlockFits(p, blocks[p], top))
    && (forall p, q :: p in blocks && q in blocks && p != q ==> BlocksApart(p, blocks[p], q, blocks[q]))
    && (forall i :: 0 <= i < |arenas| ==> ArenaFits(arenas[i], top))
    && (forall i, j :: 0 <= i < j < |arenas| ==> ArenasApart(arenas[i], arenas[j]))
    && (forall p, i :: p in blocks && 0 <= i < |arenas| ==> OffArena(p, blocks[p], arenas[i]))
  }

  predicate BlockFits(p: nat, cap: nat, top: nat) {
    p > HEADER && p % 8 == 0 && cap >= 16 && p + cap <= top
  }

  predicate BlocksApart(p: nat, cap: nat, q: nat, cap2: nat) {
    Apart(p - HEADER, p + cap, q - HEADER, q + cap2)
  }

  predicate ArenaFits(a: Arena, top: nat) {
    a.pos % 8 == 0 && a.pos + a.rem <= top && (a.rem > 0 ==> a.pos > 0)
  }

  predicate ArenasApart(a: Arena, b: Arena) {
    Apart(a.pos, a.pos + a.rem, b.pos, b.pos + b.rem)
  }

  predicate OffArena(p: nat, cap: nat, a: Arena) {
    Apart(p - HEADER, p + cap, a.pos, a.pos + a.rem)
  }

  function Cut(a: Arena, n: nat): Arena
    requires n <= a.rem
  {
    Arena(a.pos + n, a.rem - n)
  }

  /** A new block, with its header, from the front of an arena. */
  lemma CarveSound(blocks: map<nat, nat>, arenas: seq<Arena>, top: nat, i: nat, n: nat)
    requires Sound(blocks, arenas, top) && i < |arenas| && 32 <= n <= arenas[i].rem && n % 8 == 0
    ensures var p := arenas[i].pos + HEADER;
            p !in blocks && p % 8 == 0 && Sound(blocks[p := n - HEADER], arenas[i := Cut(arenas[i], n)], top)
  {
    var p := arenas[i].pos + HEADER;
    var a := Cut(arenas[i], n);
    assert p !in blocks by {
      assert forall q :: q in blocks ==> OffArena(q, blocks[q], arenas[i]);
    }
    var after, next := blocks[p := n - HEADER], arenas[i := a];
    forall q | q in blocks
      ensures BlocksApart(p, n - HEADER, q, blocks[q]) && BlocksApart(q, blocks[q], p, n - HEADER)
              && OffArena(q, blocks[q], a)
    {
      assert OffArena(q, blocks[q], arenas[i]);
    }
    forall j | 0 <= j < |arenas| && j != i
      ensures OffArena(p, n - HEADER, arenas[j]) && ArenasApart(arenas[j], a) && ArenasApart(a, arenas[j])
    {
      if j < i {
        assert ArenasApart(arenas[j], arenas[i]);
      } else {
        assert ArenasApart(arenas[i], arenas[j]);
      }
    }
    assert forall q, j :: q in after && 0 <= j < |next| ==> OffArena(q, after[q], next[j]);
  }

  /** A new arena, behind its header, at the end of the memory in use. */
  lemma RefillSound(blocks: map<nat, nat>, arenas: seq<Arena>, top: nat, i: nat, size: nat, top2: nat)
    requires Sound(blocks, arenas, top) && i < |arenas| && top + ARENA_HEADER + size <= top2 && top2 % 8 == 0
    ensures Sound(blocks, arenas[i := Arena(top + ARENA_HEADER, size)], top2)
  {
    var a := Arena(top + ARENA_HEADER, size);
    forall q | q in blocks
      ensures BlockFits(q, blocks[q], top2) && OffArena(q, blocks[q], a)
    {
      assert BlockFits(q, blocks[q], top);
    }
    forall j | 0 <= j < |arenas| && j != i
      ensures ArenaFits(arenas[j], top2) && ArenasApart(arenas[j], a) && ArenasApart(a, arenas[j])
    {
      assert ArenaFits(arenas[j], top);
    }
  }
}
