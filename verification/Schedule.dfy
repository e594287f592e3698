/** The thunk schedule: assembled from text lines into a flat file of integers (schas.cpp), and read
    back by each thread (xsched.cpp). */
module Schedule {
  import opened Options

  /** A line gives thread, thunk and CPU. */
  datatype Line = Line(thread: int, thunk: int, cpu: int)

  /** std::map: the entries in ascending order of their keys. */
  type Ordered<V> = seq<(int, V)>

  predicate Ascending<V>(m: Ordered<V>) {
    forall i, j :: 0 <= i < j < |m| ==> m[i].0 < m[j].0
  }

  function Find<V>(m: Ordered<V>, k: int): Option<V> {
    if m == [] then None else if m[0].0 == k then Some(m[0].1) else Find(m[1..], k)
  }

  function Put<V>(m: Ordered<V>, k: int, v: V): Ordered<V> {
    if m == [] || k < m[0].0 then [(k, v)] + m
    else if k == m[0].0 then [(k, v)] + m[1..]
    else [m[0]] + Put(m[1..], k, v)
  }

  lemma {:induction false} PutAscending<V>(m: Ordered<V>, k: int, v: V)
    requires Ascending(m)
    ensures Ascending(Put(m, k, v))
    ensures forall i :: 0 <= i < |Put(m, k, v)| ==>
              Put(m, k, v)[i].0 == k || exists j :: 0 <= j < |m| && m[j] == Put(m, k, v)[i]
  {
    if m != [] && k > m[0].0 {
      PutAscending(m[1..], k, v);
      forall i | 0 <= i < |Put(m[1..], k, v)|
        ensures Put(m[1..], k, v)[i].0 > m[0].0
      {
        if Put(m[1..], k, v)[i].0 != k {
          var j :| 0 <= j < |m[1..]| && m[1..][j] == Put(m[1..], k, v)[i];
          assert m[j + 1] == m[1..][j];
        }
      }
    }
  }

  lemma {:induction false} PutFind<V>(m: Ordered<V>, k: int, v: V, j: int)
    requires Ascending(m)
    ensures Find(Put(m, k, v), j) == if j == k then Some(v) else Find(m, j)
  {
    if m != [] && k > m[0].0 {
      PutFind(m[1..], k, v, j);
    } else if m != [] && k == m[0].0 {
      assert Put(m, k, v)[1..] == m[1..];
    } else {
      assert Put(m, k, v)[1..] == m;
    }
  }

  /** An entry is found under its key. */
  lemma {:induction false} FindAt<V>(m: Ordered<V>, i: nat)
    requires Ascending(m) && i < |m|
    ensures Find(m, m[i].0) == Some(m[i].1)
  {
    if i > 0 {
      assert m[1..][i - 1] == m[i] && m[0].0 < m[i].0;
      FindAt(m[1..], i - 1);
    }
  }

  lemma {:induction false} FoundAt<V>(m: Ordered<V>, k: int) returns (i: nat)
    requires Find(m, k).Some?
    ensures i < |m| && m[i] == (k, Find(m, k).value)
  {
    if m[0].0 == k {
      i := 0;
    } else {
      i := FoundAt(m[1..], k);
      i := i + 1;
    }
  }

  // ---- Assembling ----

  type Thunks = Ordered<int>

  function Get(t: Ordered<Thunks>, thread: int): Thunks {
    match Find(t, thread) case None => [] case Some(m) => m
  }

  /** The nested map after the lines have been read. */
  function Table(lines: seq<Line>): Ordered<Thunks> {
    if lines == [] then []
    else
      var before := Table(lines[..|lines| - 1]);
      var l := lines[|lines| - 1];
      Put(before, l.thread, Put(Get(before, l.thread), l.thunk, l.cpu))
  }

  /** The last CPU given for a thunk. */
  function Last(lines: seq<Line>, thread: int, thunk: int): Option<int> {
    if lines == [] then None
    else
      var l := lines[|lines| - 1];
      if l.thread == thread && l.thunk == thunk then Some(l.cpu) else Last(lines[..|lines| - 1], thread, thunk)
  }

  ghost predicate Ordered2(t: Ordered<Thunks>) {
    Ascending(t) && forall i :: 0 <= i < |t| ==> Ascending(t[i].1) && t[i].1 != []
  }

  lemma GetAscending(t: Ordered<Thunks>, thread: int)
    requires Ordered2(t)
    ensures Ascending(Get(t, thread))
  {
    if Find(t, thread).Some? {
      var i := FoundAt(t, thread);
    }
  }

  lemma {:induction false} TableOrdered(lines: seq<Line>)
    ensures Ordered2(Table(lines))
  {
    if lines != [] {
      var before := Table(lines[..|lines| - 1]);
      var l := lines[|lines| - 1];
      TableOrdered(lines[..|lines| - 1]);
      GetAscending(before, l.thread);
      var m := Put(Get(before, l.thread), l.thunk, l.cpu);
      PutAscending(Get(before, l.thread), l.thunk, l.cpu);
      PutAscending(before, l.thread, m);
      PutValue(before, l.thread, m);
    }
  }

  lemma {:induction false} PutValue<V>(m: Ordered<V>, k: int, v: V)
    requires Ascending(m)
    ensures forall i :: 0 <= i < |Put(m, k, v)| ==> Put(m, k, v)[i] == (k, v) || Put(m, k, v)[i] in m
  {
    if m != [] && k > m[0].0 {
      PutValue(m[1..], k, v);
    }
  }

  /** The table gives every thunk the last CPU its lines name. */
  lemma {:induction false} TableKeepsLast(lines: seq<Line>, thread: int, thunk: int)
    ensures Find(Get(Table(lines), thread), thunk) == Last(lines, thread, thunk)
  {
    if lines != [] {
      var before := Table(lines[..|lines| - 1]);
      var l := lines[|lines| - 1];
      TableKeepsLast(lines[..|lines| - 1], thread, thunk);
      TableOrdered(lines[..|lines| - 1]);
      GetAscending(before, l.thread);
      PutFind(Get(before, l.thread), l.thunk, l.cpu, thunk);
      PutFind(before, l.thread, Put(Get(before, l.thread), l.thunk, l.cpu), thread);
    }
  }

  function Entries(m: Thunks): (r: seq<int>)
    ensures |r| == 2 * |m|
  {
    if m == [] then [] else [m[0].0, m[0].1] + Entries(m[1..])
  }

  /** The flat file: for each thread its index, the number of its thunks, and thunk and CPU of each. */
  function Encode(t: Ordered<Thunks>): seq<int> {
    if t == [] then [] else [t[0].0, |t[0].1|] + Entries(t[0].1) + Encode(t[1..])
  }

  /** Where the part of the `i`-th thread starts. */
  function Start(t: Ordered<Thunks>, i: nat): nat
    requires i <= |t|
  {
    if i == 0 then 0 else 2 + 2 * |t[0].1| + Start(t[1..], i - 1)
  }

  method Assemble(lines: seq<Line>) returns (flat: seq<int>)
    ensures flat == Encode(Table(lines))
  {
    var table := ReadLines(lines);
    flat := [];
    for i := 0 to |table|
      invariant flat + Encode(table[i..]) == Encode(table)
    {
      assert table[i..][1..] == table[i + 1..] && table[i..][0] == table[i];
      ghost var before := flat;
      flat := flat + [table[i].0, |table[i].1|];
      flat := WriteThunks(table[i].1, flat);
      assert flat == before + ([table[i].0, |table[i].1|] + Entries(table[i].1));
      Regroup(before, [table[i].0, |table[i].1|] + Entries(table[i].1), Encode(table[i + 1..]));
    }
  }

  lemma Regroup(a: seq<int>, b: seq<int>, c: seq<int>)
    ensures a + (b + c) == (a + b) + c
  {
  }

  method ReadLines(lines: seq<Line>) returns (table: Ordered<Thunks>)
    ensures table == Table(lines)
  {
    table := [];
    for i := 0 to |lines|
      invariant table == Table(lines[..i])
    {
      assert lines[..i + 1][..i] == lines[..i];
      var l := lines[i];
      table := Put(table, l.thread, Put(Get(table, l.thread), l.thunk, l.cpu));
    }
    assert lines[..|lines|] == lines;
  }

  method WriteThunks(m: Thunks, head: seq<int>) returns (flat: seq<int>)
    ensures flat == head + Entries(m)
  {
    flat := head;
    for j := 0 to |m|
      invariant flat + Entries(m[j..]) == head + Entries(m)
    {
      assert m[j..][1..] == m[j + 1..] && m[j..][0] == m[j];
      Regroup(flat, [m[j].0, m[j].1], Entries(m[j + 1..]));
      flat := flat + [m[j].0, m[j].1];
    }
  }

  // ---- Reading ----

  lemma StartBounds(t: Ordered<Thunks>, i: nat)
    requires i <= |t|
    ensures Start(t, i) <= |Encode(t)| && (i == |t| ==> Start(t, i) == |Encode(t)|)
    ensures i < |t| ==> Start(t, i + 1) == Start(t, i) + 2 + 2 * |t[i].1| <= |Encode(t)|
  {
    StartWithin(t, i);
    if i < |t| {
      StartWithin(t, i + 1);
      StartNext(t, i);
    }
  }

  lemma {:induction false} StartWithin(t: Ordered<Thunks>, i: nat)
    requires i <= |t|
    ensures Start(t, i) <= |Encode(t)| && (i == |t| ==> Start(t, i) == |Encode(t)|)
  {
    if i > 0 {
      StartWithin(t[1..], i - 1);
    }
  }

  lemma {:induction false} StartNext(t: Ordered<Thunks>, i: nat)
    requires i < |t|
    ensures Start(t, i + 1) == Start(t, i) + 2 + 2 * |t[i].1|
  {
    if i > 0 {
      StartNext(t[1..], i - 1);
    }
  }

  /** What stands in the part of the `i`-th thread. */
  lemma {:induction false} PartAt(t: Ordered<Thunks>, i: nat, j: nat)
    requires i < |t| && j < |t[i].1|
    ensures Start(t, i) + 2 * j + 3 < |Encode(t)|
    ensures Encode(t)[Start(t, i)] == t[i].0 && Encode(t)[Start(t, i) + 1] == |t[i].1|
    ensures Encode(t)[Start(t, i) + 2 * j + 2] == t[i].1[j].0 && Encode(t)[Start(t, i) + 2 * j + 3] == t[i].1[j].1
  {
    if i > 0 {
      PartAt(t[1..], i - 1, j);
    } else {
      EntryAt(t[0].1, j);
    }
  }

  lemma {:induction false} EntryAt(m: Thunks, j: nat)
    requires j < |m|
    ensures Entries(m)[2 * j] == m[j].0 && Entries(m)[2 * j + 1] == m[j].1
  {
    if j > 0 {
      EntryAt(m[1..], j - 1);
    }
  }

  /** The scan for a thread's part stops at the right header; it fails when the thread has no part and
      a later thread has one; and it leaves `part` alone when it runs off the end. */
  method UpdateThread(flat: seq<int>, thread: int, part: Option<nat>, ghost t: Ordered<Thunks>)
    returns (ok: bool, found: Option<nat>)
    requires Ordered2(t) && flat == Encode(t)
    ensures ok <==> Find(t, thread).Some? || forall i :: 0 <= i < |t| ==> t[i].0 < thread
    ensures ok && Find(t, thread).Some? ==> exists i :: 0 <= i < |t| && t[i].0 == thread && found == Some(Start(t, i))
    ensures ok && Find(t, thread).None? ==> found == part
  {
    found := part;
    var cur := 0;
    ghost var i := 0;
    StartBounds(t, 0);
    while cur < |flat|
      invariant i <= |t| && cur == Start(t, i) && (cur < |flat| <==> i < |t|)
      invariant forall j :: 0 <= j < i ==> t[j].0 < thread
      decreases |t| - i
    {
      PartAt(t, i, 0);
      StartBounds(t, i);
      StartBounds(t, i + 1);
      if flat[cur] < thread {
        cur := cur + flat[cur + 1] * 2 + 2;
        i := i + 1;
        if i < |t| {
          PartAt(t, i, 0);
        }
      } else if flat[cur] != thread {
        if Find(t, thread).Some? {
          var j := FoundAt(t, thread);
        }
        return false, found;
      } else {
        FindAt(t, i);
        return true, Some(cur);
      }
    }
    if Find(t, thread).Some? {
      var j := FoundAt(t, thread);
    }
    return true, found;
  }

  datatype Answer = Cpu(cpu: int) | Refused | Outside

  /** The affinity of a thunk, from the part that starts at `part`; Outside stands for a read past the
      end of the file. */
  function Affinity(flat: seq<int>, part: nat, thunk: nat): Answer {
    if part + 2 * thunk + 1 >= |flat| then Outside
    else if flat[part + 2 * thunk] != thunk then Refused
    else Cpu(flat[part + 2 * thunk + 1])
  }

  /** How many thunks of the thread have a smaller number. */
  function Below(m: Thunks, k: int): nat {
    if m == [] then 0 else (if m[0].0 < k then 1 else 0) + Below(m[1..], k)
  }

  lemma {:induction false} BelowAt(m: Thunks, i: nat)
    requires Ascending(m) && i < |m|
    ensures Below(m, m[i].0) == i
  {
    if i > 0 {
      assert m[1..][i - 1] == m[i] && m[0].0 < m[i].0;
      BelowAt(m[1..], i - 1);
    } else {
      NoneBelow(m, m[0].0);
    }
  }

  lemma {:induction false} NoneBelow(m: Thunks, k: int)
    requires forall i :: 0 <= i < |m| ==> m[i].0 >= k
    ensures Below(m, k) == 0
  {
    if m != [] {
      NoneBelow(m[1..], k);
    }
  }

  /** A thread's question about its thunk `k` is answered from its own entries if and only if it has
      that thunk and exactly k - 1 thunks come before it.  Otherwise it is refused as long as `k` is
      not larger than the number of its thunks, and what is read beyond that is not its own. */
  lemma AffinityExact(t: Ordered<Thunks>, i: nat, k: int, c: int)
    requires Ordered2(t) && i < |t| && k >= 1
    ensures var m := t[i].1;
            && (k <= |m| && Affinity(Encode(t), Start(t, i), k) == Cpu(c)
                <==> Find(m, k) == Some(c) && Below(m, k) == k - 1)
            && (k <= |m| && !(Find(m, k).Some? && Below(m, k) == k - 1) ==>
                  Affinity(Encode(t), Start(t, i), k) == Refused)
            && (k > |m| ==> Start(t, i) + 2 * k >= Start(t, i + 1))
  {
    StartBounds(t, i);
    if k <= |t[i].1| {
      OwnSlot(t, i, k);
    }
    OwnKey(t[i].1, k, c);
  }

  lemma OwnSlot(t: Ordered<Thunks>, i: nat, k: int)
    requires i < |t| && 1 <= k <= |t[i].1|
    ensures var m := t[i].1;
            Affinity(Encode(t), Start(t, i), k) == if m[k - 1].0 == k then Cpu(m[k - 1].1) else Refused
  {
    PartAt(t, i, k - 1);
  }

  lemma OwnKey(m: Thunks, k: int, c: int)
    requires Ascending(m) && k >= 1
    ensures k <= |m| && m[k - 1] == (k, c) <==> Find(m, k) == Some(c) && Below(m, k) == k - 1
    ensures k <= |m| && m[k - 1].0 == k ==> Find(m, k).Some? && Below(m, k) == k - 1
  {
    if k <= |m| {
      BelowAt(m, k - 1);
      FindAt(m, k - 1);
    }
    if Find(m, k).Some? {
      var j := FoundAt(m, k);
      BelowAt(m, j);
    }
  }

  /** The thread's thunks are numbered from 1, and none is missing up to `k`. */
  predicate NoGap(lines: seq<Line>, thread: int, k: int) {
    && (forall j :: 1 <= j <= k ==> Last(lines, thread, j).Some?)
    && forall j :: j in Numbers(lines, thread) ==> j >= 1
  }

  function Numbers(lines: seq<Line>, thread: int): (r: set<int>)
    ensures forall j :: j in r <==> Last(lines, thread, j).Some?
  {
    if lines == [] then {}
    else
      var l := lines[|lines| - 1];
      Numbers(lines[..|lines| - 1], thread) + if l.thread == thread then {l.thunk} else {}
  }

  /** For every text in which the thunks of a thread are numbered from 1 without a gap up to `k`, the
      part of the thread gives back the last CPU named for thunk `k`. */
  lemma RoundTrip(lines: seq<Line>, thread: int, k: int, i: nat)
    requires k >= 1 && NoGap(lines, thread, k) && i < |Table(lines)| && Table(lines)[i].0 == thread
    ensures Affinity(Encode(Table(lines)), Start(Table(lines), i), k) == Cpu(Last(lines, thread, k).value)
  {
    var t := Table(lines);
    TableOrdered(lines);
    TableKeepsLast(lines, thread, k);
    FindAt(t, i);
    var m := t[i].1;
    forall j
      ensures Find(m, j) == Last(lines, thread, j) && (j < 1 ==> Find(m, j).None?)
    {
      TableKeepsLast(lines, thread, j);
      assert j in Numbers(lines, thread) <==> Last(lines, thread, j).Some?;
    }
    FirstKeys(m, k);
    AffinityExact(t, i, k, Last(lines, thread, k).value);
  }

  /** What a thread's question is answered with, the number of the thunk being within its entries:
      the last CPU named, exactly when it has the thunk and `k` - 1 others before it. */
  ghost predicate Answers(lines: seq<Line>, thread: int, k: nat, answer: Answer) {
    var m := Get(Table(lines), thread);
    && (1 <= k <= |m| ==>
          answer == match Last(lines, thread, k)
                    case Some(c) => if Below(m, k) == k - 1 then Cpu(c) else Refused
                    case None => Refused)
    && (k >= 1 && NoGap(lines, thread, k) ==> answer == Cpu(Last(lines, thread, k).value))
  }

  lemma AnswersAt(lines: seq<Line>, thread: int, k: nat, i: nat)
    requires i < |Table(lines)| && Table(lines)[i].0 == thread
    ensures Answers(lines, thread, k, Affinity(Encode(Table(lines)), Start(Table(lines), i), k))
  {
    var t := Table(lines);
    TableOrdered(lines);
    TableKeepsLast(lines, thread, k);
    FindAt(t, i);
    if k >= 1 {
      AffinityExact(t, i, k, if Last(lines, thread, k).Some? then Last(lines, thread, k).value else 0);
      if NoGap(lines, thread, k) {
        RoundTrip(lines, thread, k, i);
      }
    }
  }

  /** From the text to the answer: the file is assembled, the thread looks for its part, having none or
      its parent's so far, and asks for a thunk.  A thread that is not in the text is refused if a later
      one is, and otherwise makes do with the part it has had. */
  method Ask(lines: seq<Line>, thread: int, part: Option<nat>, k: nat) returns (answer: Answer)
    ensures Get(Table(lines), thread) != [] ==> Answers(lines, thread, k, answer)
    ensures Get(Table(lines), thread) == [] ==>
              answer == if part.None? || exists l :: l in lines && l.thread > thread then Refused
                        else Affinity(Encode(Table(lines)), part.value, k)
  {
    TableOrdered(lines);
    ThreadsListed(lines, thread);
    var flat := Assemble(lines);
    var ok, found := UpdateThread(flat, thread, part, Table(lines));
    if !ok || found.None? {
      return Refused;
    }
    answer := Affinity(flat, found.value, k);
    if Find(Table(lines), thread).Some? {
      ghost var i :| 0 <= i < |Table(lines)| && Table(lines)[i].0 == thread && found == Some(Start(Table(lines), i));
      AnswersAt(lines, thread, k, i);
    }
  }

  /** The table has a part for exactly the threads that the lines name, and no part is empty. */
  lemma ThreadsListed(lines: seq<Line>, thread: int)
    ensures Find(Table(lines), thread).Some? <==> Get(Table(lines), thread) != []
    ensures Get(Table(lines), thread) == [] ==>
              ((exists l :: l in lines && l.thread > thread)
               <==> !forall i :: 0 <= i < |Table(lines)| ==> Table(lines)[i].0 < thread)
  {
    var t := Table(lines);
    TableOrdered(lines);
    if Find(t, thread).Some? {
      var i := FoundAt(t, thread);
    } else {
      forall l | l in lines && l.thread > thread
        ensures exists i :: 0 <= i < |t| && t[i].0 > thread
      {
        PartOf(lines, l);
        var i := FoundAt(t, l.thread);
        assert t[i].0 > thread;
      }
      forall i | 0 <= i < |t| && t[i].0 >= thread
        ensures exists l :: l in lines && l.thread > thread
      {
        FindAt(t, i);
        assert t[i].0 != thread;
        FindAt(t[i].1, 0);
        var l := LineOf(lines, t[i].0, t[i].1[0].0);
      }
    }
  }

  lemma {:induction false} PartOf(lines: seq<Line>, l: Line)
    requires l in lines
    ensures Find(Table(lines), l.thread).Some?
  {
    var n := |lines| - 1;
    var last := lines[n];
    TableOrdered(lines[..n]);
    PutFind(Table(lines[..n]), last.thread, Put(Get(Table(lines[..n]), last.thread), last.thunk, last.cpu), l.thread);
    if l.thread != last.thread {
      PartOf(lines[..n], l);
    }
  }

  lemma LineOf(lines: seq<Line>, thread: int, thunk: int) returns (l: Line)
    requires Find(Get(Table(lines), thread), thunk).Some?
    ensures l in lines && l.thread == thread
  {
    TableKeepsLast(lines, thread, thunk);
    l := NamedBy(lines, thread, thunk);
  }

  lemma {:induction false} NamedBy(lines: seq<Line>, thread: int, thunk: int) returns (l: Line)
    requires Last(lines, thread, thunk).Some?
    ensures l in lines && l.thread == thread && l.thunk == thunk
  {
    l := lines[|lines| - 1];
    if l.thread != thread || l.thunk != thunk {
      l := NamedBy(lines[..|lines| - 1], thread, thunk);
    }
  }

  /** The keys from 1 to `k` are there and none before: `k` stands at position k - 1. */
  lemma {:induction false} FirstKeys(m: Thunks, k: int)
    requires Ascending(m) && k >= 1
    requires forall j :: 1 <= j <= k ==> Find(m, j).Some?
    requires forall j :: j < 1 ==> Find(m, j).None?
    ensures Below(m, k) == k - 1
  {
    var i := FoundAt(m, k);
    BelowAt(m, i);
    KeyAt(m, k, i);
  }

  lemma {:induction false} KeyAt(m: Thunks, k: int, i: nat)
    requires Ascending(m) && k >= 1 && i < |m| && m[i].0 == k
    requires forall j :: 1 <= j <= k ==> Find(m, j).Some?
    requires forall j :: j < 1 ==> Find(m, j).None?
    ensures i == k - 1
    decreases k
  {
    if k > 1 {
      var j := FoundAt(m, k - 1);
      KeyAt(m, k - 1, j);
      var next := if j + 1 < i then j + 1 else i;
      assert m[j].0 < m[next].0 <= m[i].0;
    } else if i > 0 {
      FindAt(m, 0);
    }
  }
}
