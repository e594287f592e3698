/** The shared area that holds the twin pages (xbitmap.h).

    One anonymous mapping holds a counter, a table of versions that starts right behind it, and
    the twin slots, which start two pages into the mapping.  Nothing separates the table from
    the slots: the table entry of a large index lies inside the first slots. */
module TwinBitmap {
  import opened Pages

  const INITIAL_PAGES: nat := 81920
  const AREA_SIZE: nat := PAGE_SIZE * (INITIAL_PAGES + 10)
  const INT_SIZE: nat := 4
  const VERSION_START: nat := INT_SIZE
  const PAGE_START: nat := 2 * PAGE_SIZE

  // The largest index whose version entry still lies in front of slot 1.
  const MAX_TWINS: nat := 3070

  type Area = s: seq<Byte> | |s| == AREA_SIZE witness seq(AREA_SIZE, _ => 0)

  /** Where slot `index` starts. */
  function Address(index: nat): nat {
    PAGE_START + index * PAGE_SIZE
  }

  function Slot(area: Area, index: nat): Page
    requires index <= INITIAL_PAGES
  {
    area[Address(index)..Address(index) + PAGE_SIZE]
  }

  function PutSlot(area: Area, index: nat, page: Page): Area
    requires index <= INITIAL_PAGES
  {
    Blit(area, Address(index), page)
  }

  /** The bytes of a version, stored as an `int`, lowest byte first. */
  function IntBytes(v: nat): seq<Byte> {
    [v % 256, v / 256 % 256, v / 65536 % 256, v / 16777216 % 256]
  }

  function PutVersion(area: Area, index: nat, v: nat): Area
    requires index <= INITIAL_PAGES
  {
    Blit(area, VERSION_START + index * INT_SIZE, IntBytes(v))
  }

  /** A stored slot reads back, and no other slot changes. */
  lemma SlotStored(area: Area, index: nat, page: Page)
    requires index <= INITIAL_PAGES
    ensures Slot(PutSlot(area, index, page), index) == page
    ensures forall j: nat | j <= INITIAL_PAGES && j != index :: Slot(PutSlot(area, index, page), j) == Slot(area, j)
  {
    forall j: nat | j <= INITIAL_PAGES && j != index
      ensures Slot(PutSlot(area, index, page), j) == Slot(area, j)
    {
      var b := PutSlot(area, index, page);
      assert Address(j) + PAGE_SIZE <= Address(index) || Address(index) + PAGE_SIZE <= Address(j);
      assert forall k: nat | Address(j) <= k < Address(j) + PAGE_SIZE :: b[k] == area[k];
    }
  }

  /** Recording a version leaves every slot in use intact exactly as long as the index is at most
      3070; the entry of the next index overwrites the first bytes of slot 1. */
  lemma VersionKeepsSlots(area: Area, index: nat)
    requires 1 <= index <= INITIAL_PAGES
    ensures (forall v: nat, j: nat | 1 <= j <= INITIAL_PAGES :: Slot(PutVersion(area, index, v), j) == Slot(area, j))
            <==> index <= MAX_TWINS
  {
    var at := VERSION_START + index * INT_SIZE;
    if index <= MAX_TWINS {
      forall v: nat, j: nat | 1 <= j <= INITIAL_PAGES
        ensures Slot(PutVersion(area, index, v), j) == Slot(area, j)
      {
        assert at + 4 <= Address(1) <= Address(j);
        assert forall k: nat | Address(j) <= k < Address(j) + PAGE_SIZE :: PutVersion(area, index, v)[k] == area[k];
      }
    } else {
      var j := (at - PAGE_START) / PAGE_SIZE;
      var v := if area[at] == 0 then 1 else 0;
      assert 1 <= j <= INITIAL_PAGES && Address(j) <= at < Address(j) + PAGE_SIZE;
      assert IntBytes(v)[0] == v;
      assert PutVersion(area, index, v)[at] == v != area[at];
      assert Slot(PutVersion(area, index, v), j)[at - Address(j)] != Slot(area, j)[at - Address(j)];
    }
  }

  /** The slot that the version entry of a large index lies in, and where in the slot. */
  function HitSlot(index: nat): nat
    requires index > MAX_TWINS
  {
    (VERSION_START + index * INT_SIZE - PAGE_START) / PAGE_SIZE
  }

  function HitAt(index: nat): nat
    requires index > MAX_TWINS
  {
    (VERSION_START + index * INT_SIZE - PAGE_START) % PAGE_SIZE
  }

  /** Recording the version of a larger index changes four bytes of one slot, and no other slot. */
  lemma VersionHitsSlot(area: Area, index: nat, v: nat)
    requires MAX_TWINS < index <= INITIAL_PAGES
    ensures 1 <= HitSlot(index) < index && HitAt(index) + INT_SIZE <= PAGE_SIZE
    ensures Slot(PutVersion(area, index, v), HitSlot(index)) ==
            Blit(Slot(area, HitSlot(index)), HitAt(index), IntBytes(v))
    ensures forall k: nat | k <= INITIAL_PAGES && k != HitSlot(index) ::
              Slot(PutVersion(area, index, v), k) == Slot(area, k)
  {
    var at, j, o := VERSION_START + index * INT_SIZE, HitSlot(index), HitAt(index);
    assert at == Address(j) + o && o % INT_SIZE == 0;
    var b := PutVersion(area, index, v);
    forall k: nat | k <= INITIAL_PAGES && k != j
      ensures Slot(b, k) == Slot(area, k)
    {
      assert Address(k) + PAGE_SIZE <= Address(j) || Address(j) + PAGE_SIZE <= Address(k);
      assert forall i: nat | Address(k) <= i < Address(k) + PAGE_SIZE :: b[i] == area[i];
    }
    forall i: nat | i < PAGE_SIZE
      ensures Slot(b, j)[i] == Blit(Slot(area, j), o, IntBytes(v))[i]
    {
      assert Slot(b, j)[i] == b[Address(j) + i];
    }
  }

  /** The slot allocator: a bump counter, reset when a round ends. */
  class XBitmap {
    const area: array<Byte>
    var cur: nat

    ghost predicate Valid()
      reads this
    {
      area.Length == AREA_SIZE && 1 <= cur < INITIAL_PAGES
    }

    ghost function Contents(): Area
      reads this, area
      requires Valid()
    {
      area[..]
    }

    constructor ()
      ensures Valid() && cur == 1 && fresh(area)
    {
      area := new Byte[AREA_SIZE](_ => 0);
      cur := 1;
    }

    /** The next index, or 0 when none is left. */
    method Get() returns (index: nat)
      requires Valid()
      modifies this`cur
      ensures Valid()
      ensures if old(cur) + 1 < INITIAL_PAGES then index == old(cur) && cur == old(cur) + 1
              else index == 0 && cur == old(cur)
    {
      index := 0;
      if cur + 1 < INITIAL_PAGES {
        index := cur;
        cur := cur + 1;
      }
    }

    /** Records the version of a twin; the table entry keeps the low 32 bits. */
    method SetVersion(index: nat, version: nat)
      requires Valid() && index <= INITIAL_PAGES
      modifies area
      ensures Contents() == PutVersion(old(Contents()), index, version)
    {
      var at := VERSION_START + index * INT_SIZE;
      area[at] := version % 256;
      area[at + 1] := version / 256 % 256;
      area[at + 2] := version / 65536 % 256;
      area[at + 3] := version / 16777216 % 256;
    }

    /** Forgets every twin. */
    method Cleanup()
      requires Valid()
      modifies this`cur
      ensures Valid() && cur == 1
    {
      cur := 1;
    }
  }
}
