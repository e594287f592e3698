/** Circular doubly linked lists threaded through the thread entries (list.h).

    A list is a head pointer, null when the list is empty.  The ghost sequences say which entries
    it holds, from the head on. */
module RingList {
  class Entry {
    var prev: Entry?
    var next: Entry?
    const index: nat

    constructor (i: nat)
      ensures index == i
    {
      index := i;
      prev, next := null, null;
    }
  }

  ghost predicate Distinct(s: seq<Entry>) {
    forall i, j :: 0 <= i < j < |s| ==> s[i] != s[j]
  }

  function Successor<T>(s: seq<T>, i: nat): T
    requires i < |s|
  {
    if i + 1 < |s| then s[i + 1] else s[0]
  }

  function Predecessor<T>(s: seq<T>, i: nat): T
    requires i < |s|
  {
    if i > 0 then s[i - 1] else s[|s| - 1]
  }

  ghost function Elements(s: seq<Entry>): set<Entry> {
    set e | e in s
  }

  /** The entries of `s` form a ring in this order. */
  ghost predicate Ring(s: seq<Entry>)
    reads Elements(s)`prev, Elements(s)`next
  {
    && Distinct(s)
    && (forall i {:trigger s[i].next} :: 0 <= i < |s| ==> s[i].next == Successor(s, i))
    && (forall i {:trigger s[i].prev} :: 0 <= i < |s| ==> s[i].prev == Predecessor(s, i))
  }

  ghost predicate IsHead(head: Entry?, s: seq<Entry>) {
    if s == [] then head == null else head == s[0]
  }

  /** `t` put into `s` right after position `i`. */
  function InsertedAfter<T>(s: seq<T>, i: nat, t: seq<T>): seq<T>
    requires i < |s|
  {
    s[..i + 1] + t + s[i + 1..]
  }

  function Without<T>(s: seq<T>, i: nat): seq<T>
    requires i < |s|
  {
    s[..i] + s[i + 1..]
  }

  /** Appends an entry. */
  method InsertTail(entry: Entry, head: Entry?, ghost s: seq<Entry>) returns (h: Entry)
    requires Ring(s) && IsHead(head, s) && entry !in s
    modifies entry`prev, entry`next, Elements(s)`prev, Elements(s)`next
    ensures Ring(s + [entry]) && IsHead(h, s + [entry])
  {
    if head == null {
      h := entry;
      entry.prev := entry;
      entry.next := entry;
    } else {
      h := head;
      assert s[0] in Elements(s) && s[|s| - 1] in Elements(s);
      var tail := head.prev;
      tail.next := entry;
      head.prev := entry;
      entry.prev := tail;
      entry.next := head;
    }
  }

  /** Inserts an entry right after `header`, whatever its place in the list. */
  method InsertHead(entry: Entry, header: Entry, ghost s: seq<Entry>, ghost i: nat)
    requires Ring(s) && i < |s| && s[i] == header && entry !in s
    modifies entry`prev, entry`next, Elements(s)`prev, Elements(s)`next
    ensures Ring(InsertedAfter(s, i, [entry]))
  {
    assert s[i] in Elements(s) && Successor(s, i) in Elements(s);
    var next := header.next;
    header.next := entry;
    next.prev := entry;
    entry.prev := header;
    entry.next := next;
    SplicedDistinct(s, i, [entry]);
    SplicedNext(s, i, [entry]);
    SplicedPrev(s, i, [entry]);
  }

  /** Unlinks an entry; its own links stay as they are. */
  method RemoveEntry(entry: Entry, head: Entry?, ghost s: seq<Entry>, ghost i: nat) returns (h: Entry?)
    requires Ring(s) && IsHead(head, s) && i < |s| && s[i] == entry
    modifies Elements(s)`prev, Elements(s)`next
    ensures Ring(Without(s, i)) && IsHead(h, Without(s, i))
    ensures entry.next == old(entry.next) && entry.prev == old(entry.prev)
  {
    var prev := entry.prev;
    var next := entry.next;
    if prev == entry && next == entry {
      h := null;
    } else {
      assert Predecessor(s, i) in Elements(s) && Successor(s, i) in Elements(s);
      prev.next := next;
      next.prev := prev;
      Unlinked(s, i);
      h := if head == entry then next else head;
    }
  }

  /** Unlinks the head, if there is one. */
  method RemoveHeadEntry(head: Entry?, ghost s: seq<Entry>) returns (entry: Entry?, h: Entry?)
    requires Ring(s) && IsHead(head, s)
    modifies Elements(s)`prev, Elements(s)`next
    ensures entry == head
    ensures if s == [] then h == null else Ring(s[1..]) && IsHead(h, s[1..])
  {
    if head == null {
      return null, null;
    }
    entry := head;
    h := RemoveEntry(entry, head, s, 0);
    assert Without(s, 0) == s[1..];
  }

  /** Moves a whole list in behind `prev`. */
  method MoveWholeList(prev: Entry, src: Entry?, ghost s: seq<Entry>, ghost i: nat, ghost t: seq<Entry>)
    returns (h: Entry?)
    requires Ring(s) && i < |s| && s[i] == prev
    requires Ring(t) && IsHead(src, t) && forall e :: e in s ==> e !in t
    modifies Elements(s)`prev, Elements(s)`next, Elements(t)`prev, Elements(t)`next
    ensures Ring(InsertedAfter(s, i, t)) && h == null
  {
    if src == null {
      assert InsertedAfter(s, i, t) == s;
      return null;
    }
    var next := prev.next;
    var srctail := src.prev;
    LinkBack(prev, next, src, srctail, s, i, t);
    LinkOn(prev, next, src, srctail, s, i, t);
    h := null;
    SplicedDistinct(s, i, t);
    SplicedNext(s, i, t);
    SplicedPrev(s, i, t);
  }

  method LinkBack(prev: Entry, next: Entry, src: Entry, srctail: Entry, ghost s: seq<Entry>, ghost i: nat,
                  ghost t: seq<Entry>)
    requires Ring(s) && Ring(t) && i < |s| && t != [] && forall e :: e in s ==> e !in t
    requires prev == s[i] && next == Successor(s, i) && src == t[0] && srctail == t[|t| - 1]
    modifies Elements(s)`prev, Elements(t)`prev
    ensures forall k {:trigger s[k].prev} :: 0 <= k < |s| && s[k] != next ==> s[k].prev == Predecessor(s, k)
    ensures forall k {:trigger t[k].prev} :: 0 < k < |t| ==> t[k].prev == Predecessor(t, k)
    ensures src.prev == prev && next.prev == srctail
  {
    assert next in Elements(s) && src in Elements(t);
    next.prev := srctail;
    src.prev := prev;
  }

  method LinkOn(prev: Entry, next: Entry, src: Entry, srctail: Entry, ghost s: seq<Entry>, ghost i: nat,
                ghost t: seq<Entry>)
    requires Distinct(s) && Distinct(t) && i < |s| && t != [] && forall e :: e in s ==> e !in t
    requires forall k {:trigger s[k].next} :: 0 <= k < |s| ==> s[k].next == Successor(s, k)
    requires forall k {:trigger t[k].next} :: 0 <= k < |t| ==> t[k].next == Successor(t, k)
    requires prev == s[i] && next == Successor(s, i) && src == t[0] && srctail == t[|t| - 1]
    modifies Elements(s)`next, Elements(t)`next
    ensures forall k {:trigger s[k].next} :: 0 <= k < |s| && k != i ==> s[k].next == Successor(s, k)
    ensures forall k {:trigger t[k].next} :: 0 <= k < |t| - 1 ==> t[k].next == Successor(t, k)
    ensures prev.next == src && srctail.next == next
  {
    assert prev in Elements(s) && srctail in Elements(t);
    srctail.next := next;
    prev.next := src;
  }

  lemma InsertedIndex<T>(s: seq<T>, i: nat, t: seq<T>, k: nat)
    requires i < |s| && k < |s| + |t|
    ensures InsertedAfter(s, i, t)[k] == if k <= i then s[k] else if k <= i + |t| then t[k - i - 1] else s[k - |t|]
  {
  }

  lemma InsertedAt<T>(s: seq<T>, i: nat, t: seq<T>)
    requires i < |s|
    ensures |InsertedAfter(s, i, t)| == |s| + |t|
    ensures forall k :: 0 <= k <= i ==> InsertedAfter(s, i, t)[k] == s[k]
    ensures forall k :: 0 <= k < |t| ==> InsertedAfter(s, i, t)[i + 1 + k] == t[k]
    ensures forall k {:trigger InsertedAfter(s, i, t)[k]} :: i + |t| < k < |s| + |t| ==>
              InsertedAfter(s, i, t)[k] == s[k - |t|]
  {
  }

  lemma SplicedDistinct(s: seq<Entry>, i: nat, t: seq<Entry>)
    requires Distinct(s) && Distinct(t) && i < |s| && forall e :: e in s ==> e !in t
    ensures Distinct(InsertedAfter(s, i, t))
  {
    var r := InsertedAfter(s, i, t);
    InsertedAt(s, i, t);
    forall j, k | 0 <= j < k < |r|
      ensures r[j] != r[k]
    {
      var n := |t|;
      assert r[k] == if k <= i then s[k] else if k <= i + n then t[k - i - 1] else s[k - n];
      assert r[j] == if j <= i then s[j] else if j <= i + n then t[j - i - 1] else s[j - n];
      if i < k <= i + n {
        assert r[k] in t && (j <= i ==> r[j] in s);
      } else if i < j <= i + n {
        assert r[j] in t && r[k] in s;
      }
    }
  }

  lemma SplicedNext(s: seq<Entry>, i: nat, t: seq<Entry>)
    requires i < |s| && t != []
    requires forall k {:trigger s[k].next} :: 0 <= k < |s| && k != i ==> s[k].next == Successor(s, k)
    requires forall k {:trigger t[k].next} :: 0 <= k < |t| - 1 ==> t[k].next == Successor(t, k)
    requires s[i].next == t[0] && t[|t| - 1].next == Successor(s, i)
    ensures var r := InsertedAfter(s, i, t);
            forall k {:trigger r[k].next} :: 0 <= k < |r| ==> r[k].next == Successor(r, k)
  {
    var r := InsertedAfter(s, i, t);
    InsertedAt(s, i, t);
    var n := |t|;
    forall k | 0 <= k < |r|
      ensures r[k].next == Successor(r, k)
    {
      assert r[k] == if k <= i then s[k] else if k <= i + n then t[k - i - 1] else s[k - n];
      if k < i || k > i + n {
        assert Successor(r, k) == Successor(s, if k < i then k else k - n);
      } else if k == i {
        assert r[i + 1 + 0] == t[0];
      } else if k < i + n {
        assert r[i + 1 + (k - i)] == t[k - i];
      } else {
        assert Successor(r, k) == Successor(s, i);
      }
    }
  }

  lemma SplicedPrev(s: seq<Entry>, i: nat, t: seq<Entry>)
    requires i < |s| && t != []
    requires forall k {:trigger s[k].prev} :: 0 <= k < |s| && (k != i + 1 && (k != 0 || i + 1 < |s|)) ==>
               s[k].prev == Predecessor(s, k)
    requires forall k {:trigger t[k].prev} :: 0 < k < |t| ==> t[k].prev == Predecessor(t, k)
    requires t[0].prev == s[i] && Successor(s, i).prev == t[|t| - 1]
    ensures var r := InsertedAfter(s, i, t);
            forall k {:trigger r[k].prev} :: 0 <= k < |r| ==> r[k].prev == Predecessor(r, k)
  {
    var r := InsertedAfter(s, i, t);
    InsertedAt(s, i, t);
    var n := |t|;
    forall k | 0 <= k < |r|
      ensures r[k].prev == Predecessor(r, k)
    {
      assert r[k] == if k <= i then s[k] else if k <= i + n then t[k - i - 1] else s[k - n];
      if k == i + 1 {
        assert r[i] == s[i];
      } else if i + 1 < k <= i + n {
        assert r[i + 1 + (k - i - 2)] == t[k - i - 2];
      } else if k == i + n + 1 || (k == 0 && i + 1 == |s|) {
        assert r[i + 1 + (n - 1)] == t[n - 1];
        assert Predecessor(r, k) == t[n - 1];
      } else {
        assert Predecessor(r, k) == Predecessor(s, if k <= i then k else k - n);
      }
    }
  }

  lemma Unlinked(s: seq<Entry>, i: nat)
    requires Distinct(s) && i < |s| && |s| > 1
    requires forall k {:trigger s[k].next} :: 0 <= k < |s| && Successor(s, k) != s[i] ==> s[k].next == Successor(s, k)
    requires forall k {:trigger s[k].prev} :: 0 <= k < |s| && Predecessor(s, k) != s[i] ==>
               s[k].prev == Predecessor(s, k)
    requires Predecessor(s, i).next == Successor(s, i) && Successor(s, i).prev == Predecessor(s, i)
    ensures Ring(Without(s, i))
  {
    var r := Without(s, i);
    forall k | 0 <= k < |r|
      ensures r[k] == s[if k < i then k else k + 1]
      ensures r[k].next == Successor(r, k) && r[k].prev == Predecessor(r, k)
    {
      var j := if k < i then k else k + 1;
      assert r[k] == s[j];
      if Successor(s, j) == s[i] {
        assert s[j] == Predecessor(s, i) && Successor(r, k) == Successor(s, i);
      } else {
        assert Successor(r, k) == Successor(s, j);
      }
      if Predecessor(s, j) == s[i] {
        assert s[j] == Successor(s, i) && Predecessor(r, k) == Predecessor(s, i);
      } else {
        assert Predecessor(r, k) == Predecessor(s, j);
      }
    }
  }
}
