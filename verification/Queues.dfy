/** Several lists over the same entries: the active ring and the waiting queues. */
module Queues {
  import opened RingList

  datatype QueueId = Active | Cond(c: nat) | Bar(b: nat)

  type Contents = map<QueueId, seq<nat>>

  /** The list `q`; a list without an entry is empty. */
  function At(m: Contents, q: QueueId): seq<nat> {
    if q in m then m[q] else []
  }

  /** No thread is in two lists, or twice in one. */
  ghost predicate Apart(m: Contents) {
    forall p, q, i, j :: 0 <= i < |At(m, p)| && 0 <= j < |At(m, q)| && At(m, p)[i] == At(m, q)[j] ==> p == q && i == j
  }

  ghost function Position(s: seq<nat>, x: nat): (i: nat)
    requires x in s
    ensures i < |s| && s[i] == x
  {
    var i :| 0 <= i < |s| && s[i] == x;
    i
  }

  function Removed(m: Contents, q: QueueId, i: nat): Contents
    requires i < |At(m, q)|
  {
    m[q := Without(At(m, q), i)]
  }

  function Appended(m: Contents, q: QueueId, x: nat): Contents {
    m[q := At(m, q) + [x]]
  }

  function Inserted(m: Contents, q: QueueId, i: nat, x: nat): Contents
    requires i < |At(m, q)|
  {
    m[q := InsertedAfter(At(m, q), i, [x])]
  }

  /** All of `p` moved in behind position `i` of `q`. */
  function Moved(m: Contents, q: QueueId, i: nat, p: QueueId): Contents
    requires i < |At(m, q)| && p != q
  {
    m[q := InsertedAfter(At(m, q), i, At(m, p))][p := []]
  }

  /** The lists name threads below `n`, each at most once. */
  ghost predicate Fits(m: Contents, n: nat) {
    Apart(m) && forall q, i :: 0 <= i < |At(m, q)| ==> At(m, q)[i] < n
  }

  /** `x` is in no list. */
  ghost predicate Free(m: Contents, x: nat) {
    forall q, i :: 0 <= i < |At(m, q)| ==> At(m, q)[i] != x
  }

  lemma RemovedFits(m: Contents, n: nat, q: QueueId, i: nat)
    requires Fits(m, n) && i < |At(m, q)|
    ensures Fits(Removed(m, q, i), n) && Free(Removed(m, q, i), At(m, q)[i])
  {
    var r := Removed(m, q, i);
    forall o, p, j, k | 0 <= j < |At(r, o)| && 0 <= k < |At(r, p)| && At(r, o)[j] == At(r, p)[k]
      ensures o == p && j == k
    {
      RemovedValue(m, q, i, o, j);
      RemovedValue(m, q, i, p, k);
    }
    forall p, k | 0 <= k < |At(r, p)|
      ensures At(r, p)[k] < n && At(r, p)[k] != At(m, q)[i]
    {
      RemovedValue(m, q, i, p, k);
    }
  }

  lemma RemovedValue(m: Contents, q: QueueId, i: nat, p: QueueId, k: nat)
    requires i < |At(m, q)| && k < |At(Removed(m, q, i), p)|
    ensures var j := if p == q && k >= i then k + 1 else k;
            j < |At(m, p)| && At(Removed(m, q, i), p)[k] == At(m, p)[j]
  {
  }

  lemma WithoutIn(s: seq<nat>, i: nat)
    requires i < |s| && forall j :: 0 <= j < |s| && s[j] == s[i] ==> j == i
    ensures forall x {:trigger x in Without(s, i)} :: x in Without(s, i) <==> x in s && x != s[i]
  {
    assert s == s[..i] + [s[i]] + s[i + 1..];
    forall j | 0 <= j < |Without(s, i)|
      ensures Without(s, i)[j] == s[if j < i then j else j + 1] != s[i]
    {
    }
  }

  lemma RemovedIn(m: Contents, n: nat, q: QueueId, i: nat)
    requires Fits(m, n) && i < |At(m, q)|
    ensures forall p, x {:trigger x in At(Removed(m, q, i), p)} ::
              x in At(Removed(m, q, i), p) <==> x in At(m, p) && x != At(m, q)[i]
  {
    WithoutIn(At(m, q), i);
    assert At(Removed(m, q, i), q) == Without(At(m, q), i);
    forall p | p != q
      ensures At(Removed(m, q, i), p) == At(m, p) && At(m, q)[i] !in At(m, p)
    {
    }
  }

  lemma AppendedIn(m: Contents, q: QueueId, x: nat)
    ensures forall p, y {:trigger y in At(Appended(m, q, x), p)} ::
              y in At(Appended(m, q, x), p) <==> y in At(m, p) || (p == q && y == x)
  {
  }

  lemma InsertedIn(m: Contents, q: QueueId, i: nat, x: nat)
    requires i < |At(m, q)|
    ensures forall p, y {:trigger y in At(Inserted(m, q, i, x), p)} ::
              y in At(Inserted(m, q, i, x), p) <==> y in At(m, p) || (p == q && y == x)
  {
    var s := At(m, q);
    assert s == s[..i + 1] + s[i + 1..];
  }

  lemma MovedIn(m: Contents, q: QueueId, i: nat, p: QueueId)
    requires i < |At(m, q)| && p != q
    ensures forall o, y {:trigger y in At(Moved(m, q, i, p), o)} ::
              y in At(Moved(m, q, i, p), o) <==> (o != p && y in At(m, o)) || (o == q && y in At(m, p))
  {
    var s := At(m, q);
    assert s == s[..i + 1] + s[i + 1..];
  }

  lemma AppendedFits(m: Contents, n: nat, q: QueueId, x: nat)
    requires Fits(m, n) && x < n && Free(m, x)
    ensures Fits(Appended(m, q, x), n)
  {
    var r := Appended(m, q, x);
    forall p, k | 0 <= k < |At(r, p)|
      ensures At(r, p)[k] == if p == q && k == |At(m, q)| then x else At(m, p)[k]
    {
    }
  }

  lemma InsertedFits(m: Contents, n: nat, q: QueueId, i: nat, x: nat)
    requires Fits(m, n) && x < n && Free(m, x) && i < |At(m, q)|
    ensures Fits(Inserted(m, q, i, x), n)
  {
    var r := Inserted(m, q, i, x);
    forall o, p, j, k | 0 <= j < |At(r, o)| && 0 <= k < |At(r, p)| && At(r, o)[j] == At(r, p)[k]
      ensures o == p && j == k
    {
      InsertedValue(m, q, i, x, o, j);
      InsertedValue(m, q, i, x, p, k);
    }
    forall p, k | 0 <= k < |At(r, p)|
      ensures At(r, p)[k] < n
    {
      InsertedValue(m, q, i, x, p, k);
    }
  }

  lemma InsertedValue(m: Contents, q: QueueId, i: nat, x: nat, p: QueueId, k: nat)
    requires i < |At(m, q)| && k < |At(Inserted(m, q, i, x), p)|
    ensures At(Inserted(m, q, i, x), p)[k] ==
            if p != q || k <= i then At(m, p)[k] else if k == i + 1 then x else At(m, p)[k - 1]
  {
    if p == q {
      InsertedIndex(At(m, q), i, [x], k);
    }
  }

  lemma MovedFits(m: Contents, n: nat, q: QueueId, i: nat, p: QueueId)
    requires Fits(m, n) && p != q && i < |At(m, q)|
    ensures Fits(Moved(m, q, i, p), n)
  {
    var r := Moved(m, q, i, p);
    forall o, u, j, k | 0 <= j < |At(r, o)| && 0 <= k < |At(r, u)| && At(r, o)[j] == At(r, u)[k]
      ensures o == u && j == k
    {
      MovedOnce(m, q, i, p, o, j, u, k);
    }
    forall o, k | 0 <= k < |At(r, o)|
      ensures At(r, o)[k] < n
    {
      MovedValue(m, q, i, p, o, k);
    }
  }

  lemma MovedKeeps(m: Contents, q: QueueId, i: nat, p: QueueId)
    requires p != q && i < |At(m, q)|
    ensures i < |At(Moved(m, q, i, p), q)| && At(Moved(m, q, i, p), q)[i] == At(m, q)[i]
  {
    InsertedIndex(At(m, q), i, At(m, p), i);
  }

  lemma MovedOnce(m: Contents, q: QueueId, i: nat, p: QueueId, o: QueueId, j: nat, u: QueueId, k: nat)
    requires Apart(m) && p != q && i < |At(m, q)| && j < |At(Moved(m, q, i, p), o)| && k < |At(Moved(m, q, i, p), u)|
    requires At(Moved(m, q, i, p), o)[j] == At(Moved(m, q, i, p), u)[k]
    ensures o == u && j == k
  {
    MovedValue(m, q, i, p, o, j);
    MovedValue(m, q, i, p, u, k);
    var (a, x) := Origin(m, q, i, p, o, j);
    var (b, y) := Origin(m, q, i, p, u, k);
    assert a == b && x == y;
  }

  /** Where an element of a list comes from after a move. */
  function Origin(m: Contents, q: QueueId, i: nat, p: QueueId, o: QueueId, k: nat): (QueueId, int) {
    if o != q || k <= i then (o, k)
    else if k <= i + |At(m, p)| then (p, k - i - 1)
    else (q, k - |At(m, p)|)
  }

  lemma MovedValue(m: Contents, q: QueueId, i: nat, p: QueueId, o: QueueId, k: nat)
    requires i < |At(m, q)| && p != q && k < |At(Moved(m, q, i, p), o)|
    ensures o != p
    ensures var (u, j) := Origin(m, q, i, p, o, k); 0 <= j < |At(m, u)| && At(Moved(m, q, i, p), o)[k] == At(m, u)[j]
  {
    if o == q {
      InsertedIndex(At(m, q), i, At(m, p), k);
    }
  }

  /** The pointer structure. */
  class Lists {
    const entries: seq<Entry>
    var head: map<QueueId, Entry>
    ghost var contents: Contents

    ghost function Objects(s: seq<nat>): (r: seq<Entry>)
      requires forall i :: 0 <= i < |s| ==> s[i] < |entries|
      ensures |r| == |s|
    {
      seq(|s|, i requires 0 <= i < |s| => entries[s[i]])
    }

    ghost predicate Named() {
      Distinct(entries) && (forall i :: 0 <= i < |entries| ==> entries[i].index == i)
    }

    ghost predicate Shaped(m: Contents) {
      Fits(m, |entries|)
    }

    ghost function List(m: Contents, q: QueueId): (r: seq<Entry>)
      requires Shaped(m)
      ensures |r| == |At(m, q)|
    {
      Objects(At(m, q))
    }

    ghost predicate Linked(m: Contents, q: QueueId)
      reads Elements(entries)`prev, Elements(entries)`next
    {
      Shaped(m) && Ring(List(m, q))
    }

    ghost predicate Valid()
      reads this, Elements(entries)`prev, Elements(entries)`next
    {
      && Named()
      && Shaped(contents)
      && (forall q :: Linked(contents, q))
      && (forall q :: IsHead(First(q), List(contents, q)))
    }

    constructor (n: nat)
      ensures Valid() && |entries| == n && contents == map[]
    {
      var es: seq<Entry> := [];
      for i := 0 to n
        invariant |es| == i && Distinct(es) && forall k :: 0 <= k < i ==> es[k].index == k
      {
        var e := new Entry(i);
        es := es + [e];
      }
      entries := es;
      head := map[];
      contents := map[];
    }

    /** The head pointer of list `q`. */
    function First(q: QueueId): Entry?
      reads this`head
    {
      if q in head then head[q] else null
    }

    lemma ListsApart(m: Contents, p: QueueId, q: QueueId)
      requires Named() && Shaped(m)
      ensures Distinct(List(m, p)) && Elements(List(m, p)) <= Elements(entries)
      ensures p != q ==> Elements(List(m, p)) !! Elements(List(m, q))
    {
      if p != q {
        forall i, j | 0 <= i < |List(m, p)| && 0 <= j < |List(m, q)|
          ensures List(m, p)[i] != List(m, q)[j]
        {
          assert At(m, p)[i] in At(m, p) && At(m, q)[j] in At(m, q);
        }
      }
    }

    /** The index of the entry behind `x`, which is at position `i` of list `q`. */
    method NextOf(x: nat, q: QueueId, ghost i: nat) returns (next: nat)
      requires Valid() && i < |At(contents, q)| && At(contents, q)[i] == x
      ensures Valid() && next == Successor(At(contents, q), i)
    {
      assert Linked(contents, q);
      ghost var l := List(contents, q);
      assert l[i] == entries[x] && l[i].next == Successor(l, i);
      next := entries[x].next.index;
    }

    /** List `q` has been relinked, the others have not: record its new head and contents. */
    method Adopt(q: QueueId, h: Entry?, ghost m: Contents)
      requires Named() && Shaped(contents) && Shaped(m)
      requires forall r :: r != q ==> At(m, r) == At(contents, r) && Linked(contents, r)
      requires forall r :: r != q ==> IsHead(First(r), List(contents, r))
      requires Linked(m, q) && IsHead(h, List(m, q))
      modifies this
      ensures Valid() && contents == m
    {
      forall r | r != q
        ensures Linked(m, r) && IsHead(First(r), List(m, r))
      {
        assert List(m, r) == List(contents, r);
      }
      head := if h == null then head - {q} else head[q := h];
      contents := m;
      forall r
        ensures IsHead(First(r), List(m, r))
      {
        if r != q {
          assert old(IsHead(First(r), List(m, r)));
        }
      }
      assert forall r :: old(Linked(m, r)) ==> Linked(m, r);
    }

    /** The pointer part of `Remove`. */
    method Unlink(x: nat, q: QueueId, ghost i: nat) returns (h: Entry?)
      requires Valid() && i < |At(contents, q)| && At(contents, q)[i] == x
      modifies Elements(entries)`prev, Elements(entries)`next
      ensures Ring(Without(List(contents, q), i)) && IsHead(h, Without(List(contents, q), i))
      ensures forall r :: r != q ==> Linked(contents, r)
      ensures entries[x].next == old(entries[x].next)
    {
      ghost var s := List(contents, q);
      ListsApart(contents, q, q);
      assert Linked(contents, q);
      h := RemoveEntry(entries[x], First(q), s, i);
      forall r | r != q
        ensures Linked(contents, r)
      {
        ListsApart(contents, r, q);
        assert old(Linked(contents, r));
      }
    }

    /** Takes `x`, at position `i`, out of list `q`. */
    method Remove(x: nat, q: QueueId, ghost i: nat)
      requires Valid() && i < |At(contents, q)| && At(contents, q)[i] == x
      modifies this, Elements(entries)`prev, Elements(entries)`next
      ensures Valid() && contents == Removed(old(contents), q, i)
      ensures entries[x].next == old(entries[x].next)
    {
      RemovedFits(contents, |entries|, q, i);
      assert List(Removed(contents, q, i), q) == Without(List(contents, q), i);
      var h := Unlink(x, q, i);
      Adopt(q, h, Removed(contents, q, i));
    }

    /** Appends `x` to list `q`. */
    method Append(x: nat, q: QueueId)
      requires Valid() && x < |entries| && Free(contents, x)
      modifies this, Elements(entries)`prev, Elements(entries)`next
      ensures Valid() && contents == Appended(old(contents), q, x)
    {
      AppendedFits(contents, |entries|, q, x);
      assert List(Appended(contents, q, x), q) == List(contents, q) + [entries[x]];
      var h := LinkTail(x, q);
      Adopt(q, h, Appended(contents, q, x));
    }

    /** Moves `x` from list `q` to the end of `p`; returns the index of the entry behind it in `q`. */
    method Transfer(x: nat, q: QueueId, ghost i: nat, p: QueueId) returns (next: nat)
      requires Valid() && p != q && i < |At(contents, q)| && At(contents, q)[i] == x
      modifies this, Elements(entries)`prev, Elements(entries)`next
      ensures Valid() && contents == Appended(Removed(old(contents), q, i), p, x)
      ensures next == Successor(At(old(contents), q), i)
    {
      RemovedFits(contents, |entries|, q, i);
      next := NextOf(x, q, i);
      Remove(x, q, i);
      Append(x, p);
    }

    /** Takes `x` out of list `q`; tells which entry was behind it, and whether the list is now empty. */
    method Leave(x: nat, q: QueueId, ghost i: nat) returns (next: nat, empty: bool)
      requires Valid() && i < |At(contents, q)| && At(contents, q)[i] == x
      modifies this, Elements(entries)`prev, Elements(entries)`next
      ensures Valid() && contents == Removed(old(contents), q, i)
      ensures next == Successor(At(old(contents), q), i) && (empty <==> At(contents, q) == [])
    {
      next := NextOf(x, q, i);
      Remove(x, q, i);
      assert IsHead(First(q), List(contents, q));
      empty := First(q) == null;
    }

    /** Moves the first entry of `p` into `q`, right behind `y`. */
    method Release(y: nat, q: QueueId, ghost i: nat, p: QueueId) returns (x: nat)
      requires Valid() && p != q && At(contents, p) != [] && i < |At(contents, q)| && At(contents, q)[i] == y
      modifies this, Elements(entries)`prev, Elements(entries)`next
      ensures Valid() && x == At(old(contents), p)[0]
      ensures contents == Inserted(Removed(old(contents), p, 0), q, i, x)
    {
      RemovedFits(contents, |entries|, p, 0);
      assert IsHead(First(p), List(contents, p));
      x := First(p).index;
      Remove(x, p, 0);
      Insert(x, y, q, i);
    }

    /** The pointer part of `Append`. */
    method LinkTail(x: nat, q: QueueId) returns (h: Entry)
      requires Valid() && x < |entries| && Free(contents, x)
      modifies Elements(entries)`prev, Elements(entries)`next
      ensures Ring(List(contents, q) + [entries[x]]) && IsHead(h, List(contents, q) + [entries[x]])
      ensures forall r :: r != q ==> Linked(contents, r)
    {
      ghost var s := List(contents, q);
      FreeEntry(contents, x);
      ListsApart(contents, q, q);
      assert Linked(contents, q);
      h := InsertTail(entries[x], First(q), s);
      forall r | r != q
        ensures Linked(contents, r)
      {
        ListsApart(contents, r, q);
        assert old(Linked(contents, r));
      }
    }

    /** Puts `x` into list `q` right behind `y`, which is at position `i`. */
    method Insert(x: nat, y: nat, q: QueueId, ghost i: nat)
      requires Valid() && x < |entries| && Free(contents, x) && i < |At(contents, q)| && At(contents, q)[i] == y
      modifies this, Elements(entries)`prev, Elements(entries)`next
      ensures Valid() && contents == Inserted(old(contents), q, i, x)
    {
      InsertedFits(contents, |entries|, q, i, x);
      ObjectsInserted(At(contents, q), i, [x]);
      assert Objects([x]) == [entries[x]];
      assert IsHead(First(q), List(contents, q));
      LinkAfter(x, y, q, i);
      Adopt(q, First(q), Inserted(contents, q, i, x));
    }

    /** The pointer part of `Insert`. */
    method LinkAfter(x: nat, y: nat, q: QueueId, ghost i: nat)
      requires Valid() && x < |entries| && Free(contents, x) && i < |At(contents, q)| && At(contents, q)[i] == y
      modifies Elements(entries)`prev, Elements(entries)`next
      ensures Ring(InsertedAfter(List(contents, q), i, [entries[x]]))
      ensures forall r :: r != q ==> Linked(contents, r)
    {
      ghost var s := List(contents, q);
      FreeEntry(contents, x);
      ListsApart(contents, q, q);
      assert Linked(contents, q);
      InsertHead(entries[x], entries[y], s, i);
      forall r | r != q
        ensures Linked(contents, r)
      {
        ListsApart(contents, r, q);
        assert old(Linked(contents, r));
      }
    }

    /** Moves all of list `p` into list `q`, right behind `y`, which is at position `i`. */
    method MoveAll(y: nat, q: QueueId, ghost i: nat, p: QueueId)
      requires Valid() && p != q && i < |At(contents, q)| && At(contents, q)[i] == y
      modifies this, Elements(entries)`prev, Elements(entries)`next
      ensures Valid() && contents == Moved(old(contents), q, i, p)
    {
      MovedFits(contents, |entries|, q, i, p);
      ObjectsInserted(At(contents, q), i, At(contents, p));
      LinkAll(y, q, i, p);
      AdoptMove(q, p, Moved(contents, q, i, p));
    }

    /** List `q` has been extended behind its head by all of `p`. */
    method AdoptMove(q: QueueId, p: QueueId, ghost m: Contents)
      requires Named() && Shaped(contents) && Shaped(m) && p != q
      requires forall r :: r != p && r != q ==> At(m, r) == At(contents, r) && Linked(contents, r)
      requires forall r :: IsHead(First(r), List(contents, r))
      requires Linked(m, q) && At(contents, q) != [] && At(m, q) != [] && At(m, q)[0] == At(contents, q)[0]
               && At(m, p) == []
      modifies this
      ensures Valid() && contents == m
    {
      forall r
        ensures Linked(m, r) && (r != p ==> IsHead(First(r), List(m, r)))
      {
        if r != p && r != q {
          assert List(m, r) == List(contents, r);
        }
      }
      head := head - {p};
      contents := m;
      forall r
        ensures IsHead(First(r), List(m, r))
      {
        if r != p {
          assert old(IsHead(First(r), List(m, r)));
        }
      }
      assert forall r :: old(Linked(m, r)) ==> Linked(m, r);
    }

    /** The pointer part of `MoveAll`. */
    method LinkAll(y: nat, q: QueueId, ghost i: nat, p: QueueId)
      requires Valid() && p != q && i < |At(contents, q)| && At(contents, q)[i] == y
      modifies Elements(entries)`prev, Elements(entries)`next
      ensures Ring(InsertedAfter(List(contents, q), i, List(contents, p)))
      ensures forall r :: r != p && r != q ==> Linked(contents, r)
    {
      ListsApart(contents, q, p);
      ListsApart(contents, p, q);
      assert Linked(contents, q) && Linked(contents, p) && IsHead(First(p), List(contents, p));
      ghost var s, t := List(contents, q), List(contents, p);
      forall e | e in s
        ensures e !in t
      {
        assert e in Elements(s) && (e in t ==> e in Elements(t));
      }
      var h := MoveWholeList(entries[y], First(p), s, i, t);
      forall r | r != p && r != q
        ensures Linked(contents, r)
      {
        ListsApart(contents, r, q);
        ListsApart(contents, r, p);
        assert old(Linked(contents, r));
      }
    }

    lemma FreeEntry(m: Contents, x: nat)
      requires Named() && Shaped(m) && x < |entries| && Free(m, x)
      ensures forall q :: entries[x] !in List(m, q)
    {
    }

    lemma ObjectsInserted(s: seq<nat>, i: nat, t: seq<nat>)
      requires i < |s|
      requires (forall k :: 0 <= k < |s| ==> s[k] < |entries|) && forall k :: 0 <= k < |t| ==> t[k] < |entries|
      ensures forall k :: 0 <= k < |s| + |t| ==> InsertedAfter(s, i, t)[k] < |entries|
      ensures Objects(InsertedAfter(s, i, t)) == InsertedAfter(Objects(s), i, Objects(t))
    {
      forall k | 0 <= k < |s| + |t|
        ensures InsertedAfter(s, i, t)[k] < |entries|
        ensures entries[InsertedAfter(s, i, t)[k]] == InsertedAfter(Objects(s), i, Objects(t))[k]
      {
        InsertedIndex(s, i, t, k);
        InsertedIndex(Objects(s), i, Objects(t), k);
      }
    }
  }
}
