/** Pages of bytes and the byte overlay: the meaning of a commit.

    A committing thread publishes exactly the bytes that differ from the base it
    compares with; every other byte of the shared page stays as it is. */
module Pages {
  const PAGE_SIZE: nat := 4096
  const WORD_SIZE: nat := 8

  type Byte = b: int | 0 <= b < 256
  type Page = s: seq<Byte> | |s| == PAGE_SIZE witness seq(PAGE_SIZE, _ => 0)

  /** `dest` with every byte replaced in which `local` differs from `base`. */
  function Overlay(local: seq<Byte>, base: seq<Byte>, dest: seq<Byte>): seq<Byte>
    requires |local| == |base| == |dest|
  {
    seq(|dest|, i requires 0 <= i < |dest| => if local[i] != base[i] then local[i] else dest[i])
  }

  /** Only one base publishes the same bytes as `base` for every local page: `base` itself. */
  lemma OverlayDeterminesBase(base: seq<Byte>, other: seq<Byte>, dest: seq<Byte>)
    requires |base| == |other| == |dest|
    ensures (forall local: seq<Byte> | |local| == |dest| :: Overlay(local, base, dest) == Overlay(local, other, dest))
            <==> base == other
  {
    if base != other {
      var i :| 0 <= i < |base| && base[i] != other[i];
      assert Overlay(base, base, dest)[i] == dest[i] && Overlay(base, other, dest)[i] == base[i];
      assert Overlay(other, base, dest)[i] == other[i] && Overlay(other, other, dest)[i] == dest[i];
    }
  }

  /** Copying the whole page is the overlay whose base is the destination. */
  lemma WholeCopyIsOverlay(local: seq<Byte>, dest: seq<Byte>)
    requires |local| == |dest|
    ensures Overlay(local, dest, dest) == local
  {
  }

  /** `a` with the bytes from `at` on replaced by `bytes`. */
  function Blit(a: seq<Byte>, at: nat, bytes: seq<Byte>): seq<Byte>
    requires at + |bytes| <= |a|
  {
    a[..at] + bytes + a[at + |bytes|..]
  }

  /** Publishes the differing bytes of one word. */
  method CommitWord(src: array<Byte>, s: nat, twin: array<Byte>, t: nat, dest: array<Byte>, d: nat)
    requires s + WORD_SIZE <= src.Length && t + WORD_SIZE <= twin.Length && d + WORD_SIZE <= dest.Length
    requires dest != src && dest != twin
    modifies dest
    ensures forall k :: d <= k < d + WORD_SIZE ==>
              dest[k] == if src[s + k - d] != twin[t + k - d] then src[s + k - d] else old(dest[k])
    ensures forall k :: 0 <= k < dest.Length && !(d <= k < d + WORD_SIZE) ==> dest[k] == old(dest[k])
  {
    for i := 0 to WORD_SIZE
      invariant forall k :: d <= k < d + i ==>
                  dest[k] == if src[s + k - d] != twin[t + k - d] then src[s + k - d] else old(dest[k])
      invariant forall k :: 0 <= k < dest.Length && !(d <= k < d + i) ==> dest[k] == old(dest[k])
    {
      if src[s + i] != twin[t + i] {
        dest[d + i] := src[s + i];
      }
    }
  }

  /** The diff of a page, word by word, skipping words without a difference, is the overlay. */
  method WritePageDiffs(local: array<Byte>, l: nat, twin: array<Byte>, t: nat, dest: array<Byte>, d: nat)
    requires l + PAGE_SIZE <= local.Length && t + PAGE_SIZE <= twin.Length && d + PAGE_SIZE <= dest.Length
    requires dest != local && dest != twin
    modifies dest
    ensures dest[..] == Blit(old(dest[..]), d,
                             Overlay(local[l..l + PAGE_SIZE], twin[t..t + PAGE_SIZE], old(dest[d..d + PAGE_SIZE])))
  {
    for i := 0 to PAGE_SIZE / WORD_SIZE
      invariant forall k :: d <= k < d + i * WORD_SIZE ==>
                  dest[k] == if local[l + k - d] != twin[t + k - d] then local[l + k - d] else old(dest[k])
      invariant forall k :: 0 <= k < dest.Length && !(d <= k < d + i * WORD_SIZE) ==> dest[k] == old(dest[k])
    {
      var o := i * WORD_SIZE;
      if local[l + o..l + o + WORD_SIZE] != twin[t + o..t + o + WORD_SIZE] {
        CommitWord(local, l + o, twin, t + o, dest, d + o);
      }
    }
  }
}
