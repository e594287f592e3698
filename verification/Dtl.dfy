/** The trace file: written from an access log (formats.py), and read back (programm.py). */
module Dtl {
  import opened Options
  import opened Trace
  import Programm

  datatype LogEvent =
    | Started(id: ThunkId)
    | Finished(thread: int)                            // the thread finishes its thunk
    | Ended(thread: int, time: int)                    // the CPU time of its thunk
    | Access(thread: int, page: int, write: bool)
    | Invalid

  datatype Row =
    | ThunkRow(id: ThunkId)
    | FinishRow(id: ThunkId)
    | EndRow(id: ThunkId, time: int)
    | RangeRow(id: ThunkId, first: int, last: int, write: bool)

  // ---- Ranges ----

  predicate Sorted(s: seq<int>) {
    forall i, j :: 0 <= i < j < |s| ==> s[i] <= s[j]
  }

  function Insert(s: seq<int>, x: int): seq<int> {
    if s == [] || x <= s[0] then [x] + s else [s[0]] + Insert(s[1..], x)
  }

  function Sort(s: seq<int>): seq<int> {
    if s == [] then [] else Insert(Sort(s[1..]), s[0])
  }

  lemma {:induction false} InsertSorts(s: seq<int>, x: int)
    requires Sorted(s)
    ensures Sorted(Insert(s, x)) && forall y :: y in Insert(s, x) <==> y == x || y in s
  {
    if s != [] && x > s[0] {
      InsertSorts(s[1..], x);
      var r := Insert(s[1..], x);
      assert Insert(s, x) == [s[0]] + r;
      assert forall i :: 0 <= i < |r| ==> r[i] in r;
    }
  }

  lemma {:induction false} SortSorts(s: seq<int>)
    ensures Sorted(Sort(s)) && forall y :: y in Sort(s) <==> y in s
  {
    if s != [] {
      SortSorts(s[1..]);
      InsertSorts(Sort(s[1..]), s[0]);
    }
  }

  type Interval = (int, int)

  predicate Covers(r: seq<Interval>, x: int) {
    exists i :: 0 <= i < |r| && r[i].0 <= x <= r[i].1
  }

  /** Non-empty, ascending, and with a gap between each and the next, so that none can be extended. */
  predicate Maximal(r: seq<Interval>) {
    && (forall i :: 0 <= i < |r| ==> r[i].0 <= r[i].1)
    && (forall i, j :: 0 <= i < j < |r| ==> r[i].1 + 1 < r[j].0)
  }

  /** The intervals of a list of pages: they cover exactly its pages, and are as long as can be. */
  method Ranges(list: seq<int>) returns (r: seq<Interval>)
    ensures Maximal(r) && forall x :: Covers(r, x) <==> x in list
  {
    var sorted := Sort(list);
    SortSorts(list);
    r := [];
    if sorted == [] {
      return;
    }
    var s, e := sorted[0], sorted[0];
    forall x
      ensures Covers([] + [(s, e)], x) <==> x in sorted[..1]
    {
      CoversLast([], (s, e), x);
    }
    for k := 1 to |sorted|
      invariant s <= e && Maximal(r + [(s, e)]) && e == sorted[k - 1]
      invariant forall x :: Covers(r + [(s, e)], x) <==> x in sorted[..k]
    {
      var i := sorted[k];
      assert sorted[k - 1] <= i;
      assert sorted[..k + 1] == sorted[..k] + [i];
      if i == e || i == e + 1 {
        Extended(r, s, e, i);
        e := i;
      } else {
        Closed(r, s, e, i);
        r := r + [(s, e)];
        s, e := i, i;
      }
    }
    assert sorted[..|sorted|] == sorted;
    r := r + [(s, e)];
  }

  lemma CoversLast(r: seq<Interval>, a: Interval, x: int)
    ensures Covers(r + [a], x) <==> Covers(r, x) || a.0 <= x <= a.1
  {
    var t := r + [a];
    assert t[|r|] == a;
    if Covers(r, x) {
      var i :| 0 <= i < |r| && r[i].0 <= x <= r[i].1;
      assert t[i] == r[i];
    }
  }

  lemma Extended(r: seq<Interval>, s: int, e: int, i: int)
    requires Maximal(r + [(s, e)]) && s <= e && (i == e || i == e + 1)
    ensures Maximal(r + [(s, i)])
    ensures forall x :: Covers(r + [(s, i)], x) <==> Covers(r + [(s, e)], x) || x == i
  {
    var a, b := r + [(s, e)], r + [(s, i)];
    forall j, k | 0 <= j < k < |b|
      ensures b[j].1 + 1 < b[k].0
    {
      assert a[j].1 + 1 < a[k].0;
    }
    forall j | 0 <= j < |b|
      ensures b[j].0 <= b[j].1
    {
      assert a[j].0 <= a[j].1;
    }
    forall x
      ensures Covers(b, x) <==> Covers(a, x) || x == i
    {
      CoversLast(r, (s, e), x);
      CoversLast(r, (s, i), x);
    }
  }

  lemma Closed(r: seq<Interval>, s: int, e: int, i: int)
    requires Maximal(r + [(s, e)]) && e + 1 < i
    ensures Maximal(r + [(s, e)] + [(i, i)])
    ensures forall x :: Covers(r + [(s, e)] + [(i, i)], x) <==> Covers(r + [(s, e)], x) || x == i
  {
    var a := r + [(s, e)];
    forall j | 0 <= j < |a|
      ensures a[j].1 <= e
    {
      assert a[|a| - 1] == (s, e);
      assert j < |a| - 1 ==> a[j].1 + 1 < a[|a| - 1].0 && a[|a| - 1].0 <= a[|a| - 1].1;
    }
    forall x
      ensures Covers(a + [(i, i)], x) <==> Covers(a, x) || x == i
    {
      CoversLast(a, (i, i), x);
    }
  }

  // ---- Writing ----

  /** The current thunk of a thread; a thread that touches a page before its first thunk is in thunk 0. */
  function Current(log: seq<LogEvent>, thread: int): Option<int> {
    if log == [] then None
    else
      var before := Current(log[..|log| - 1], thread);
      match log[|log| - 1]
      case Started(id) => if id.thread == thread then Some(id.thunk) else before
      case Access(t, _, _) => if t == thread && before == None then Some(0) else before
      case _ => before
  }

  /** The pages a thunk has touched, in order. */
  function Touched(log: seq<LogEvent>, id: ThunkId, write: bool): seq<int> {
    if log == [] then []
    else
      var before := Touched(log[..|log| - 1], id, write);
      match log[|log| - 1]
      case Access(t, page, w) =>
        if w == write && t == id.thread && Current(log, t) == Some(id.thunk) then before + [page] else before
      case _ => before
  }

  datatype Mark = Announced(id: ThunkId) | Left(id: ThunkId) | Stopped(id: ThunkId, time: int)

  /** The thunk, finish and end events, the last two with the thunk they are about; None where the
      thread has none. */
  function Marks(log: seq<LogEvent>): Option<seq<Mark>> {
    if log == [] then Some([])
    else
      match Marks(log[..|log| - 1])
      case None => None
      case Some(before) => Marked(before, log[..|log| - 1], log[|log| - 1])
  }

  function Marked(before: seq<Mark>, log: seq<LogEvent>, ev: LogEvent): Option<seq<Mark>> {
    match ev
    case Started(id) => Some(before + [Announced(id)])
    case Finished(t) =>
      (match Current(log, t) case None => None case Some(n) => Some(before + [Left(ThunkId(t, n))]))
    case Ended(t, time) =>
      (match Current(log, t) case None => None case Some(n) => Some(before + [Stopped(ThunkId(t, n), time)]))
    case Access(_, _, _) => Some(before)
    case Invalid => Some(before)
  }

  /** What a row says: a thunk, finish or end; a range says nothing of these. */
  function MarkOf(row: Row): seq<Mark> {
    match row
    case ThunkRow(id) => [Announced(id)]
    case FinishRow(id) => [Left(id)]
    case EndRow(id, time) => [Stopped(id, time)]
    case RangeRow(_, _, _, _) => []
  }

  function MarksOf(rows: seq<Row>): seq<Mark> {
    if rows == [] then [] else MarksOf(rows[..|rows| - 1]) + MarkOf(rows[|rows| - 1])
  }

  /** Some row's range says that the thunk reads, or writes, the page. */
  predicate Lists(rows: seq<Row>, id: ThunkId, write: bool, page: int) {
    exists i :: 0 <= i < |rows| && rows[i].RangeRow? && rows[i].id == id && rows[i].write == write
                && rows[i].first <= page <= rows[i].last
  }

  class DtlWriter {
    var readSet: map<ThunkId, seq<int>>
    var writeSet: map<ThunkId, seq<int>>
    var order: seq<Mark>
    var cur: map<int, int>

    static function Get(m: map<ThunkId, seq<int>>, id: ThunkId): seq<int> {
      if id in m then m[id] else []
    }

    /** The fields after the events of `log`. */
    ghost predicate Saved(log: seq<LogEvent>)
      reads this
    {
      && (forall t :: Current(log, t) == if t in cur then Some(cur[t]) else None)
      && (forall id :: Get(readSet, id) == Touched(log, id, false))
      && (forall id :: Get(writeSet, id) == Touched(log, id, true))
      && Marks(log) == Some(order)
    }

    constructor ()
      ensures Saved([])
    {
      readSet, writeSet, order, cur := map[], map[], [], map[];
    }

    /** Fails when a thread finishes or ends that has no thunk. */
    method Save(ev: LogEvent, ghost log: seq<LogEvent>) returns (ok: bool)
      requires Saved(log)
      modifies this
      ensures ok <==> Marks(log + [ev]).Some?
      ensures ok ==> Saved(log + [ev])
    {
      assert (log + [ev])[..|log|] == log;
      ok := true;
      match ev {
        case Started(id) =>
          cur := cur[id.thread := id.thunk];
          order := order + [Announced(id)];
        case Finished(t) =>
          ok := t in cur;
          if ok {
            order := order + [Left(ThunkId(t, cur[t]))];
          }
        case Ended(t, time) =>
          ok := t in cur;
          if ok {
            order := order + [Stopped(ThunkId(t, cur[t]), time)];
          }
        case Access(t, page, write) =>
          if t !in cur {
            cur := cur[t := 0];
          }
          var id := ThunkId(t, cur[t]);
          if write {
            writeSet := writeSet[id := Get(writeSet, id) + [page]];
          } else {
            readSet := readSet[id := Get(readSet, id) + [page]];
          }
        case Invalid =>
      }
    }

    /** Writes all of a log; fails when a thread finishes or ends that has no thunk. */
    method Write(log: seq<LogEvent>) returns (rows: Option<seq<Row>>)
      requires Saved([])
      modifies this
      ensures rows.Some? <==> Marks(log).Some?
      ensures rows.Some? ==> IsDump(rows.value, log)
    {
      for i := 0 to |log|
        invariant Saved(log[..i])
      {
        assert log[..i + 1] == log[..i] + [log[i]];
        var ok := Save(log[i], log[..i]);
        if !ok {
          StaysNone(log, i + 1);
          return None;
        }
      }
      assert log[..|log|] == log;
      var all := Dump(log);
      rows := Some(all);
    }

    method Dump(ghost log: seq<LogEvent>) returns (rows: seq<Row>)
      requires Saved(log)
      ensures IsDump(rows, log)
    {
      rows := [];
      for i := 0 to |order|
        invariant Dumped(rows, order[..i], log)
      {
        assert order[..i + 1] == order[..i] + [order[i]];
        rows := DumpMark(rows, order[i], order[..i], log);
      }
      assert order[..|order|] == order;
    }

    /** The rows of one mark; a thunk's row is followed by those of its pages. */
    method DumpMark(rows: seq<Row>, mark: Mark, ghost done: seq<Mark>, ghost log: seq<LogEvent>)
      returns (all: seq<Row>)
      requires Saved(log) && Dumped(rows, done, log)
      ensures Dumped(all, done + [mark], log)
    {
      match mark {
        case Left(id) =>
          OneRow(rows, FinishRow(id));
          all := rows + [FinishRow(id)];
        case Stopped(id, time) =>
          OneRow(rows, EndRow(id, time));
          all := rows + [EndRow(id, time)];
        case Announced(id) =>
          OneRow(rows, ThunkRow(id));
          all := rows + [ThunkRow(id)];
          all := WriteAccess(all, id, Get(readSet, id), false);
          all := WriteAccess(all, id, Get(writeSet, id), true);
      }
    }

    /** One row for each range of a list of pages. */
    method WriteAccess(rows: seq<Row>, id: ThunkId, list: seq<int>, write: bool) returns (all: seq<Row>)
      requires Grounded(rows) && Announced(id) in MarksOf(rows)
      ensures Grounded(all) && MarksOf(all) == MarksOf(rows)
      ensures forall u, w, page :: Lists(all, u, w, page) <==>
                Lists(rows, u, w, page) || (u == id && w == write && page in list)
    {
      var ranges := Ranges(list);
      all := rows;
      assert ranges[..0] == [];
      for i := 0 to |ranges|
        invariant Grounded(all) && MarksOf(all) == MarksOf(rows)
        invariant forall u, w, page :: Lists(all, u, w, page) <==>
                    Lists(rows, u, w, page) || (u == id && w == write && Covers(ranges[..i], page))
      {
        var row := RangeRow(id, ranges[i].0, ranges[i].1, write);
        OneRow(all, row);
        assert ranges[..i + 1] == ranges[..i] + [ranges[i]];
        forall page
          ensures Covers(ranges[..i + 1], page) <==> Covers(ranges[..i], page) || row.first <= page <= row.last
        {
          CoversLast(ranges[..i], ranges[i], page);
        }
        all := all + [row];
      }
      assert ranges[..|ranges|] == ranges;
    }
  }

  /** Every range belongs to a thunk that has been announced before it. */
  predicate Grounded(rows: seq<Row>) {
    rows == []
    || (Grounded(rows[..|rows| - 1])
        && (rows[|rows| - 1].RangeRow? ==> Announced(rows[|rows| - 1].id) in MarksOf(rows[..|rows| - 1])))
  }

  /** The rows for the first marks: these marks, and the pages of the thunks among them. */
  ghost predicate Dumped(rows: seq<Row>, marks: seq<Mark>, log: seq<LogEvent>) {
    && MarksOf(rows) == marks
    && Grounded(rows)
    && forall id, write, page :: Lists(rows, id, write, page) <==>
         Announced(id) in marks && page in Touched(log, id, write)
  }

  ghost predicate IsDump(rows: seq<Row>, log: seq<LogEvent>) {
    Marks(log).Some? && Dumped(rows, Marks(log).value, log)
  }

  lemma {:induction false} StaysNone(log: seq<LogEvent>, i: nat)
    requires i <= |log| && Marks(log[..i]) == None
    ensures Marks(log) == None
  {
    if i < |log| {
      assert log[..|log| - 1][..i] == log[..i];
      StaysNone(log[..|log| - 1], i);
    } else {
      assert log[..i] == log;
    }
  }

  lemma OneRow(rows: seq<Row>, row: Row)
    ensures MarksOf(rows + [row]) == MarksOf(rows) + MarkOf(row)
    ensures Grounded(rows + [row]) <==> Grounded(rows) && (row.RangeRow? ==> Announced(row.id) in MarksOf(rows))
    ensures forall id, write, page :: Lists(rows + [row], id, write, page) <==>
              Lists(rows, id, write, page)
              || (row.RangeRow? && row.id == id && row.write == write && row.first <= page <= row.last)
  {
    var all := rows + [row];
    assert all[..|rows|] == rows && all[|rows|] == row;
    forall id, write, page | Lists(rows, id, write, page)
      ensures Lists(all, id, write, page)
    {
      var i :| 0 <= i < |rows| && rows[i].RangeRow? && rows[i].id == id && rows[i].write == write
               && rows[i].first <= page <= rows[i].last;
      assert all[i] == rows[i];
    }
  }

  // ---- Reading ----

  /** The thunk and finish marks, as the events of a trace. */
  function Events(marks: seq<Mark>): seq<Event> {
    if marks == [] then []
    else
      var before := Events(marks[..|marks| - 1]);
      match marks[|marks| - 1]
      case Announced(id) => before + [Thunk(id)]
      case Left(id) => before + [Finish(id)]
      case Stopped(_, _) => before
  }

  function Known(marks: seq<Mark>): Record {
    Read(Events(marks))
  }

  predicate HasTime(marks: seq<Mark>, id: ThunkId) {
    exists i :: 0 <= i < |marks| && marks[i].Stopped? && marks[i].id == id
  }

  /** The reader takes the mark: a thunk must be new, one that finishes known and its thread running,
      one that ends known, without a time so far, and not a thunk 0. */
  predicate Follows(before: seq<Mark>, mark: Mark) {
    match mark
    case Announced(id) => id !in Known(before).thunks
    case Left(id) => id in Known(before).thunks && id.thread in Known(before).cur
    case Stopped(id, _) => id.thunk != 0 && id in Known(before).thunks && !HasTime(before, id)
  }

  predicate Acceptable(marks: seq<Mark>) {
    marks == []
    || (Acceptable(marks[..|marks| - 1]) && Follows(marks[..|marks| - 1], marks[|marks| - 1]))
  }

  ghost predicate Readable(rows: seq<Row>) {
    Grounded(rows) && Acceptable(MarksOf(rows))
  }

  /** The page sets of the announced thunks are those the rows list. */
  ghost predicate Holds(pages: map<ThunkId, set<int>>, rows: seq<Row>, write: bool) {
    forall id, page :: id in pages ==> (page in pages[id] <==> Lists(rows, id, write, page))
  }

  lemma HoldsThunk(pages: map<ThunkId, set<int>>, rows: seq<Row>, id: ThunkId, write: bool)
    requires Holds(pages, rows, write) && Grounded(rows) && id !in Known(MarksOf(rows)).thunks
    ensures Holds(pages[id := {}], rows + [ThunkRow(id)], write)
  {
    OneRow(rows, ThunkRow(id));
    KnownAre(MarksOf(rows), id);
    NothingListed(rows, id);
  }

  lemma HoldsMark(pages: map<ThunkId, set<int>>, rows: seq<Row>, row: Row, write: bool)
    requires Holds(pages, rows, write) && !row.RangeRow?
    ensures Holds(pages, rows + [row], write)
  {
    OneRow(rows, row);
  }

  lemma HoldsRange(pages: map<ThunkId, set<int>>, rows: seq<Row>, row: Row, write: bool)
    requires Holds(pages, rows, write) && row.RangeRow? && row.id in pages
    ensures Holds(if row.write == write then pages[row.id := pages[row.id] + PageRange(row.first, row.last + 1)]
                  else pages, rows + [row], write)
  {
    OneRow(rows, row);
  }

  /** The reader: what `Programm` keeps, and the page sets and CPU time of each thunk. */
  class Loader {
    const prog: Programm.Programm
    var rs: map<ThunkId, set<int>>
    var ws: map<ThunkId, set<int>>
    var cputime: map<ThunkId, int>

    ghost predicate Loaded(rows: seq<Row>)
      reads this, prog
    {
      && Readable(rows)
      && prog.View() == Known(MarksOf(rows))
      && prog.thunks == rs.Keys == ws.Keys
      && (forall id :: id in cputime <==> HasTime(MarksOf(rows), id))
      && (forall id :: id in cputime ==> Stopped(id, cputime[id]) in MarksOf(rows))
      && Holds(rs, rows, false) && Holds(ws, rows, true)
    }

    constructor ()
      ensures Loaded([]) && fresh(prog)
    {
      prog := new Programm.Programm();
      rs, ws, cputime := map[], map[], map[];
    }

    method LoadThunk(id: ThunkId, ghost rows: seq<Row>) returns (ok: bool)
      requires Loaded(rows)
      modifies this, prog
      ensures ok <==> Readable(rows + [ThunkRow(id)])
      ensures ok ==> Loaded(rows + [ThunkRow(id)])
    {
      OneRow(rows, ThunkRow(id));
      OneMark(MarksOf(rows), Announced(id));
      TimesAre(MarksOf(rows), Announced(id));
      ok := prog.Add(id);
      if ok {
        HoldsThunk(rs, rows, id, false);
        HoldsThunk(ws, rows, id, true);
        rs, ws := rs[id := {}], ws[id := {}];
      }
    }

    method LoadFinish(id: ThunkId, ghost rows: seq<Row>) returns (ok: bool)
      requires Loaded(rows)
      modifies prog
      ensures ok <==> Readable(rows + [FinishRow(id)])
      ensures ok ==> Loaded(rows + [FinishRow(id)])
    {
      OneRow(rows, FinishRow(id));
      OneMark(MarksOf(rows), Left(id));
      TimesAre(MarksOf(rows), Left(id));
      HoldsMark(rs, rows, FinishRow(id), false);
      HoldsMark(ws, rows, FinishRow(id), true);
      ok := prog.FinishThunk(id);
    }

    /** A thunk 0 gets a time at once, and so is refused. */
    method LoadEnd(id: ThunkId, time: int, ghost rows: seq<Row>) returns (ok: bool)
      requires Loaded(rows)
      modifies this, prog
      ensures ok <==> Readable(rows + [EndRow(id, time)])
      ensures ok ==> Loaded(rows + [EndRow(id, time)])
    {
      OneRow(rows, EndRow(id, time));
      OneMark(MarksOf(rows), Stopped(id, time));
      TimesAre(MarksOf(rows), Stopped(id, time));
      HoldsMark(rs, rows, EndRow(id, time), false);
      HoldsMark(ws, rows, EndRow(id, time), true);
      if id.thunk == 0 {
        prog.thunks := prog.thunks + {id};
        rs, ws, cputime := rs[id := {}], ws[id := {}], cputime[id := 0];
      }
      ok := id in prog.thunks && id !in cputime;
      if ok {
        cputime := cputime[id := time];
      }
    }

    method LoadRange(id: ThunkId, first: int, last: int, write: bool, ghost rows: seq<Row>) returns (ok: bool)
      requires Loaded(rows)
      modifies this
      ensures ok <==> Readable(rows + [RangeRow(id, first, last, write)])
      ensures ok ==> Loaded(rows + [RangeRow(id, first, last, write)])
    {
      OneRow(rows, RangeRow(id, first, last, write));
      assert MarksOf(rows) + [] == MarksOf(rows);
      KnownAre(MarksOf(rows), id);
      ok := id in prog.thunks;
      if ok {
        HoldsRange(rs, rows, RangeRow(id, first, last, write), false);
        HoldsRange(ws, rows, RangeRow(id, first, last, write), true);
        if write {
          ws := ws[id := ws[id] + PageRange(first, last + 1)];
        } else {
          rs := rs[id := rs[id] + PageRange(first, last + 1)];
        }
      }
    }

    method LoadRow(row: Row, ghost rows: seq<Row>) returns (ok: bool)
      requires Loaded(rows)
      modifies this, prog
      ensures ok <==> Readable(rows + [row])
      ensures ok ==> Loaded(rows + [row])
    {
      match row {
        case ThunkRow(id) => ok := LoadThunk(id, rows);
        case FinishRow(id) => ok := LoadFinish(id, rows);
        case EndRow(id, time) => ok := LoadEnd(id, time, rows);
        case RangeRow(id, first, last, write) => ok := LoadRange(id, first, last, write, rows);
      }
    }

    /** Reads all rows; stops at the first that is refused. */
    method Load(rows: seq<Row>) returns (ok: bool)
      requires Loaded([])
      modifies this, prog
      ensures ok <==> Readable(rows)
      ensures ok ==> Loaded(rows)
    {
      ghost var done := [];
      for i := 0 to |rows|
        invariant done == rows[..i] && Loaded(done)
      {
        ok := LoadRow(rows[i], done);
        done := done + [rows[i]];
        assert done == rows[..i + 1];
        if !ok {
          StaysRefused(rows, i + 1);
          return;
        }
      }
      assert done == rows;
      ok := true;
    }
  }

  function PageRange(first: int, end: int): (r: set<int>)
    ensures forall page :: page in r <==> first <= page < end
    decreases end - first
  {
    if first >= end then {} else PageRange(first, end - 1) + {end - 1}
  }

  lemma OneMark(before: seq<Mark>, mark: Mark)
    ensures Acceptable(before + [mark]) <==> Acceptable(before) && Follows(before, mark)
    ensures Known(before + [mark]) == if mark.Announced? then AddThunk(Known(before), mark.id)
                                      else if mark.Left? then AddFinish(Known(before), mark.id)
                                      else Known(before)
  {
    var after := before + [mark];
    assert after[..|before|] == before && after[|before|] == mark;
    var e := Events(before);
    assert (e + [Thunk(mark.id)])[..|e|] == e && (e + [Finish(mark.id)])[..|e|] == e;
  }

  lemma TimeMore(before: seq<Mark>, mark: Mark, id: ThunkId)
    ensures HasTime(before + [mark], id) <==> HasTime(before, id) || (mark.Stopped? && mark.id == id)
  {
    var after := before + [mark];
    assert after[|before|] == mark;
    if HasTime(before, id) {
      var i :| 0 <= i < |before| && before[i].Stopped? && before[i].id == id;
      assert after[i] == before[i];
    }
  }

  lemma TimesAre(before: seq<Mark>, mark: Mark)
    ensures forall id :: HasTime(before + [mark], id) <==> HasTime(before, id) || (mark.Stopped? && mark.id == id)
  {
    forall id
      ensures HasTime(before + [mark], id) <==> HasTime(before, id) || (mark.Stopped? && mark.id == id)
    {
      TimeMore(before, mark, id);
    }
  }

  lemma {:induction false} KnownAre(marks: seq<Mark>, id: ThunkId)
    ensures id in Known(marks).thunks <==> Announced(id) in marks
  {
    if marks != [] {
      var before, mark := marks[..|marks| - 1], marks[|marks| - 1];
      assert marks == before + [mark];
      KnownAre(before, id);
      OneMark(before, mark);
    }
  }

  lemma {:induction false} NothingListed(rows: seq<Row>, id: ThunkId)
    requires Grounded(rows) && Announced(id) !in MarksOf(rows)
    ensures forall write, page :: !Lists(rows, id, write, page)
  {
    if rows != [] {
      var before, row := rows[..|rows| - 1], rows[|rows| - 1];
      assert rows == before + [row];
      OneRow(before, row);
      NothingListed(before, id);
    }
  }

  lemma {:induction false} StaysRefused(rows: seq<Row>, i: nat)
    requires i <= |rows| && !Readable(rows[..i])
    ensures !Readable(rows)
  {
    if i < |rows| {
      var before, row := rows[..|rows| - 1], rows[|rows| - 1];
      assert before[..i] == rows[..i] && rows == before + [row];
      StaysRefused(before, i);
      OneRow(before, row);
      assert MarksOf(before) + [] == MarksOf(before);
      if MarkOf(row) != [] {
        OneMark(MarksOf(before), MarkOf(row)[0]);
      }
    } else {
      assert rows[..i] == rows;
    }
  }

  // ---- The log's thunks ----

  /** The thread's thunk event that is the latest so far. */
  function LastStarted(log: seq<LogEvent>, thread: int): Option<int> {
    if log == [] then None
    else if log[|log| - 1].Started? && log[|log| - 1].id.thread == thread then Some(log[|log| - 1].id.thunk)
    else LastStarted(log[..|log| - 1], thread)
  }

  /** The page is logged by the thread between the thunk event of `during` and its next one; None is
      the time before its first. */
  predicate LoggedDuring(log: seq<LogEvent>, thread: int, during: Option<int>, write: bool, page: int) {
    exists i :: 0 <= i < |log| && log[i] == Access(thread, page, write) && LastStarted(log[..i], thread) == during
  }

  lemma {:induction false} CurrentIs(log: seq<LogEvent>, thread: int)
    ensures LastStarted(log, thread).Some? ==> Current(log, thread) == LastStarted(log, thread)
    ensures LastStarted(log, thread).None? ==> Current(log, thread) == None || Current(log, thread) == Some(0)
  {
    if log != [] {
      CurrentIs(log[..|log| - 1], thread);
    }
  }

  lemma DuringMore(log: seq<LogEvent>, ev: LogEvent, thread: int, during: Option<int>, write: bool, page: int)
    ensures LoggedDuring(log + [ev], thread, during, write, page) <==>
              LoggedDuring(log, thread, during, write, page)
              || (ev == Access(thread, page, write) && LastStarted(log, thread) == during)
  {
    var all := log + [ev];
    assert all[..|log|] == log && all[|log|] == ev;
    if LoggedDuring(log, thread, during, write, page) {
      var i :| 0 <= i < |log| && log[i] == Access(thread, page, write) && LastStarted(log[..i], thread) == during;
      assert all[i] == log[i] && all[..i] == log[..i];
    }
    if LoggedDuring(all, thread, during, write, page) {
      var i :| 0 <= i < |all| && all[i] == Access(thread, page, write) && LastStarted(all[..i], thread) == during;
      if i < |log| {
        assert all[i] == log[i] && all[..i] == log[..i];
      }
    }
  }

  /** What the writer keeps for a thunk is what was logged during it; for thunk 0 also what was logged
      before the thread's first thunk event. */
  lemma {:induction false} TouchedIs(log: seq<LogEvent>, id: ThunkId, write: bool, page: int)
    ensures page in Touched(log, id, write) <==>
              LoggedDuring(log, id.thread, Some(id.thunk), write, page)
              || (id.thunk == 0 && LoggedDuring(log, id.thread, None, write, page))
  {
    if log != [] {
      var before, ev := log[..|log| - 1], log[|log| - 1];
      assert log == before + [ev];
      TouchedIs(before, id, write, page);
      DuringMore(before, ev, id.thread, Some(id.thunk), write, page);
      DuringMore(before, ev, id.thread, None, write, page);
      CurrentIs(before, id.thread);
    }
  }

  // ---- When a dump can be read ----

  /** The thread has announced a thunk since it last finished one. */
  predicate Running(log: seq<LogEvent>, thread: int) {
    exists i :: 0 <= i < |log| && log[i].Started? && log[i].id.thread == thread && Finished(thread) !in log[i..]
  }

  /** The thunk event at `i` is the thread's latest, not a thunk 0, and no end of it is logged. */
  predicate UnendedAt(log: seq<LogEvent>, thread: int, i: nat)
    requires i < |log|
  {
    log[i].Started? && log[i].id.thread == thread && log[i].id.thunk != 0 && NoneOf(log[i + 1..], thread)
  }

  predicate Unended(log: seq<LogEvent>, thread: int) {
    exists i :: 0 <= i < |log| && UnendedAt(log, thread, i)
  }

  predicate NoneOf(log: seq<LogEvent>, thread: int) {
    forall j :: 0 <= j < |log| ==>
      !(log[j].Started? && log[j].id.thread == thread) && !(log[j].Ended? && log[j].thread == thread)
  }

  predicate Fits(before: seq<LogEvent>, ev: LogEvent) {
    match ev
    case Started(id) => ev !in before
    case Finished(t) => Running(before, t)
    case Ended(t, _) => Unended(before, t)
    case Access(_, _, _) => true
    case Invalid => true
  }

  /** No thunk is announced twice, a thread finishes a thunk announced since its last finish, and ends
      its latest announced thunk, which is not a thunk 0, at most once. */
  predicate Tidy(log: seq<LogEvent>) {
    forall k :: 0 <= k < |log| ==> Fits(log[..k], log[k])
  }

  lemma TidyMore(log: seq<LogEvent>, ev: LogEvent)
    ensures Tidy(log + [ev]) <==> Tidy(log) && Fits(log, ev)
  {
    var all := log + [ev];
    assert all[..|log|] == log && all[|log|] == ev;
    assert forall k :: 0 <= k < |log| ==> all[..k] == log[..k] && all[k] == log[k];
  }

  lemma RunningMore(log: seq<LogEvent>, ev: LogEvent, t: int)
    ensures Running(log + [ev], t) <==>
              (ev.Started? && ev.id.thread == t) || (Running(log, t) && ev != Finished(t))
  {
    var all := log + [ev];
    forall i | 0 <= i < |log|
      ensures all[i] == log[i] && all[i..] == log[i..] + [ev]
    {
    }
    assert all[|log|..] == [ev];
    if Running(log, t) && ev != Finished(t) {
      var i :| 0 <= i < |log| && log[i].Started? && log[i].id.thread == t && Finished(t) !in log[i..];
      assert all[i..] == log[i..] + [ev];
    }
    if Running(all, t) {
      var i :| 0 <= i < |all| && all[i].Started? && all[i].id.thread == t && Finished(t) !in all[i..];
      if i < |log| {
        assert all[i..] == log[i..] + [ev];
      }
    }
  }

  lemma NoneOfMore(log: seq<LogEvent>, ev: LogEvent, t: int)
    ensures NoneOf(log + [ev], t) <==> NoneOf(log, t) && NoneOf([ev], t)
  {
    var all := log + [ev];
    assert all[|log|] == ev;
    assert forall j :: 0 <= j < |log| ==> all[j] == log[j];
  }

  lemma UnendedMore(log: seq<LogEvent>, ev: LogEvent, t: int)
    ensures Unended(log + [ev], t) <==>
              if ev.Started? && ev.id.thread == t then ev.id.thunk != 0
              else Unended(log, t) && !(ev.Ended? && ev.thread == t)
  {
    var all := log + [ev];
    assert NoneOf([ev], t) <==> !(ev.Started? && ev.id.thread == t) && !(ev.Ended? && ev.thread == t) by {
      assert [ev][0] == ev;
    }
    assert all[|log| + 1..] == [];
    assert UnendedAt(all, t, |log|) <==> ev.Started? && ev.id.thread == t && ev.id.thunk != 0;
    forall i: nat | i < |log|
      ensures UnendedAt(all, t, i) <==> UnendedAt(log, t, i) && NoneOf([ev], t)
    {
      assert all[i + 1..] == log[i + 1..] + [ev] && all[i] == log[i];
      NoneOfMore(log[i + 1..], ev, t);
    }
  }

  /** What the reader knows after the marks of a log, in terms of the log. */
  ghost predicate Mirrors(marks: seq<Mark>, log: seq<LogEvent>) {
    && MirrorsThunks(Known(marks), log)
    && MirrorsTimes(marks, log)
  }

  ghost predicate MirrorsThunks(p: Record, log: seq<LogEvent>) {
    && (forall id :: id in p.thunks <==> Started(id) in log)
    && (forall t :: t in p.cur <==> Running(log, t))
    && (forall t :: t in p.cur ==> LastStarted(log, t) == Some(p.cur[t]))
    && (forall t :: LastStarted(log, t).Some? ==> Started(ThunkId(t, LastStarted(log, t).value)) in log)
  }

  ghost predicate MirrorsTimes(marks: seq<Mark>, log: seq<LogEvent>) {
    && (forall id :: HasTime(marks, id) ==> Started(id) in log)
    && (forall t :: UnendedIs(marks, log, t))
  }

  ghost predicate UnendedIs(marks: seq<Mark>, log: seq<LogEvent>, t: int) {
    Unended(log, t) <==>
    LastStarted(log, t).Some? && LastStarted(log, t).value != 0
    && !HasTime(marks, ThunkId(t, LastStarted(log, t).value))
  }

  /** The reader takes the event's mark, if it has one. */
  predicate Taken(marks: seq<Mark>, log: seq<LogEvent>, ev: LogEvent) {
    match Marked(marks, log, ev)
    case None => false
    case Some(after) => after == marks || Follows(marks, after[|after| - 1])
  }

  /** It does so exactly when the event fits. */
  lemma TakenFits(marks: seq<Mark>, log: seq<LogEvent>, ev: LogEvent)
    requires Mirrors(marks, log)
    ensures Taken(marks, log, ev) <==> Fits(log, ev)
  {
    if ev.Finished? || ev.Ended? {
      CurrentIs(log, ev.thread);
      assert UnendedIs(marks, log, ev.thread);
    }
  }

  /** The log can be written, and what has been written read. */
  predicate Passes(log: seq<LogEvent>) {
    Marks(log).Some? && Acceptable(Marks(log).value)
  }

  lemma PassesMore(log: seq<LogEvent>, ev: LogEvent)
    ensures Passes(log + [ev]) <==> Passes(log) && Taken(Marks(log).value, log, ev)
  {
    var all := log + [ev];
    assert all[..|log|] == log && all[|log|] == ev;
    if Marks(log).Some? && Marked(Marks(log).value, log, ev).Some? {
      var marks, after := Marks(log).value, Marked(Marks(log).value, log, ev).value;
      if after != marks {
        OneMark(marks, after[|after| - 1]);
      }
    }
  }

  lemma KnownMore(before: seq<Mark>, mark: Mark)
    ensures Known(before + [mark]).thunks == Known(before).thunks + if mark.Announced? then {mark.id} else {}
    ensures Known(before + [mark]).cur == if mark.Announced? then Known(before).cur[mark.id.thread := mark.id.thunk]
                                          else if mark.Left? then Known(before).cur - {mark.id.thread}
                                          else Known(before).cur
  {
    OneMark(before, mark);
  }

  lemma ThunksMore(marks: seq<Mark>, log: seq<LogEvent>, ev: LogEvent)
    requires Mirrors(marks, log) && Fits(log, ev)
    ensures Marked(marks, log, ev).Some? && MirrorsThunks(Known(Marked(marks, log, ev).value), log + [ev])
  {
    var all := log + [ev];
    assert all[..|log|] == log;
    TakenFits(marks, log, ev);
    if ev.Finished? || ev.Ended? {
      CurrentIs(log, ev.thread);
    }
    var after := Marked(marks, log, ev).value;
    if after != marks {
      KnownMore(marks, after[|after| - 1]);
    }
    forall t
      ensures LastStarted(all, t) ==
              if ev.Started? && ev.id.thread == t then Some(ev.id.thunk) else LastStarted(log, t)
    {
      LastMore(log, ev, t);
    }
    forall t
      ensures Running(all, t) <==> (ev.Started? && ev.id.thread == t) || (Running(log, t) && ev != Finished(t))
    {
      RunningMore(log, ev, t);
    }
  }

  lemma TimesMore(marks: seq<Mark>, log: seq<LogEvent>, ev: LogEvent)
    requires Mirrors(marks, log) && Fits(log, ev) && Marked(marks, log, ev).Some?
    ensures MirrorsTimes(Marked(marks, log, ev).value, log + [ev])
  {
    var all, after := log + [ev], Marked(marks, log, ev).value;
    if after != marks {
      TimesAre(marks, after[|after| - 1]);
    }
    if ev.Ended? {
      CurrentIs(log, ev.thread);
      assert UnendedIs(marks, log, ev.thread);
    }
    forall t
      ensures UnendedIs(after, all, t)
    {
      assert UnendedIs(marks, log, t);
      UnendedMore(log, ev, t);
      LastMore(log, ev, t);
    }
  }

  lemma LastMore(log: seq<LogEvent>, ev: LogEvent, t: int)
    ensures LastStarted(log + [ev], t) ==
            if ev.Started? && ev.id.thread == t then Some(ev.id.thunk) else LastStarted(log, t)
  {
    assert (log + [ev])[..|log|] == log;
  }

  /** For every interleaved log: it can be written and its dump read back exactly when it is tidy. */
  lemma {:induction false} ReadableExactly(log: seq<LogEvent>)
    ensures Passes(log) <==> Tidy(log)
    ensures Tidy(log) ==> Mirrors(Marks(log).value, log) && ProperLog(Events(Marks(log).value))
  {
    if log != [] {
      var before, ev := log[..|log| - 1], log[|log| - 1];
      assert log == before + [ev];
      ReadableExactly(before);
      TidyMore(before, ev);
      PassesMore(before, ev);
      if Tidy(before) {
        TakenFits(Marks(before).value, before, ev);
        if Fits(before, ev) {
          ThunksMore(Marks(before).value, before, ev);
          TimesMore(Marks(before).value, before, ev);
          ProperMore(Marks(before).value, before, ev);
          assert Marks(log) == Marked(Marks(before).value, before, ev);
        }
      }
    }
  }

  /** A thread that finishes in a tidy log finishes its current thunk. */
  lemma ProperMore(marks: seq<Mark>, log: seq<LogEvent>, ev: LogEvent)
    requires Mirrors(marks, log) && Fits(log, ev) && ProperLog(Events(marks)) && Marked(marks, log, ev).Some?
    ensures ProperLog(Events(Marked(marks, log, ev).value))
  {
    var e, after := Events(marks), Marked(marks, log, ev).value;
    if after != marks {
      assert after[..|marks|] == marks;
    }
    if ev.Started? {
      assert (e + [Thunk(ev.id)])[..|e|] == e;
    }
    if ev.Finished? {
      CurrentIs(log, ev.thread);
      var f := Finish(ThunkId(ev.thread, Current(log, ev.thread).value));
      assert (e + [f])[..|e|] == e;
    }
  }

  /** Logs that are written and not read back: a thread that finishes before its first thunk event,
      one that finishes twice, and one whose first thunk ends, as the master's does. */
  lemma UntidyLogs(log: seq<LogEvent>, rows: seq<Row>)
    requires log in {[Access(1, 5, false), Finished(1)], [Started(ThunkId(1, 1)), Finished(1), Finished(1)],
                     [Access(1, 5, false), Ended(1, 7)]}
    ensures Marks(log).Some? && !Tidy(log)
    ensures IsDump(rows, log) ==> !Readable(rows)
  {
    var n := |log| - 1;
    assert log == log[..n] + [log[n]];
    assert log[..n][..n - 1] == log[..n - 1] && log[..1][..0] == [];
    assert Marks([]) == Some([]) && Current([], 1) == None;
    if n == 2 {
      assert log[..1] == [Started(ThunkId(1, 1))];
      assert log[..2] == log[..1] + [Finished(1)];
      assert Current(log[..1], 1) == Some(1) && Current(log[..2], 1) == Some(1);
      assert Marks(log[..1]).Some? && Marks(log[..2]).Some?;
      RunningMore(log[..1], Finished(1), 1);
    } else {
      assert log[..1] == [Access(1, 5, false)] && Current(log[..1], 1) == Some(0);
    }
    assert !Fits(log[..n], log[n]);
    ReadableExactly(log);
  }

  // ---- The round trip ----

  /** For every interleaved log: its dump can be read back exactly when the log is tidy, and then each
      announced thunk gets exactly the pages logged as read and written between its thunk event and
      the next one of its thread - unless it is a thunk 0 whose thread has touched other pages before
      its first thunk event. */
  lemma RoundTrip(log: seq<LogEvent>, rows: seq<Row>, id: ThunkId, write: bool)
    requires IsDump(rows, log)
    ensures Readable(rows) <==> Tidy(log)
    ensures Tidy(log) && Started(id) in log ==>
              ((forall page :: Lists(rows, id, write, page) <==>
                  LoggedDuring(log, id.thread, Some(id.thunk), write, page))
               <==> id.thunk != 0
                    || forall page :: LoggedDuring(log, id.thread, None, write, page) ==>
                         LoggedDuring(log, id.thread, Some(0), write, page))
  {
    ReadableExactly(log);
    if Tidy(log) && Started(id) in log {
      KnownAre(Marks(log).value, id);
      forall page
        ensures Lists(rows, id, write, page) <==>
                  LoggedDuring(log, id.thread, Some(id.thunk), write, page)
                  || (id.thunk == 0 && LoggedDuring(log, id.thread, None, write, page))
      {
        TouchedIs(log, id, write, page);
      }
    }
  }

  /** The pages of a thunk: those logged during it, and for a thunk 0 the earlier ones too. */
  ghost predicate PagesOf(pages: map<ThunkId, set<int>>, log: seq<LogEvent>, write: bool) {
    && (forall id :: id in pages <==> Started(id) in log)
    && (forall id, page :: id in pages ==>
          (page in pages[id] <==>
             LoggedDuring(log, id.thread, Some(id.thunk), write, page)
             || (id.thunk == 0 && LoggedDuring(log, id.thread, None, write, page))))
  }

  lemma PagesListed(log: seq<LogEvent>, rows: seq<Row>, pages: map<ThunkId, set<int>>, write: bool)
    requires IsDump(rows, log) && Tidy(log) && pages.Keys == Known(MarksOf(rows)).thunks
    requires Holds(pages, rows, write)
    ensures PagesOf(pages, log, write)
  {
    ReadableExactly(log);
    forall id, page | id in pages
      ensures page in pages[id] <==>
                LoggedDuring(log, id.thread, Some(id.thunk), write, page)
                || (id.thunk == 0 && LoggedDuring(log, id.thread, None, write, page))
    {
      KnownAre(MarksOf(rows), id);
      TouchedIs(log, id, write, page);
    }
  }

  // ---- Events and times ----

  /** The trace of a log: its thunk events, and its finish events with the thread's latest thunk. */
  function Traced(log: seq<LogEvent>): seq<Event> {
    if log == [] then []
    else
      var before, ev := log[..|log| - 1], log[|log| - 1];
      match ev
      case Started(id) => Traced(before) + [Thunk(id)]
      case Finished(t) =>
        (match LastStarted(before, t)
         case None => Traced(before)
         case Some(n) => Traced(before) + [Finish(ThunkId(t, n))])
      case _ => Traced(before)
  }

  /** What a tidy log adds to the events is what its event says. */
  lemma TracedMore(marks: seq<Mark>, log: seq<LogEvent>, ev: LogEvent)
    requires Mirrors(marks, log) && Fits(log, ev) && Marked(marks, log, ev).Some? && Events(marks) == Traced(log)
    ensures Events(Marked(marks, log, ev).value) == Traced(log + [ev])
  {
    var all, after := log + [ev], Marked(marks, log, ev).value;
    assert all[..|log|] == log && all[|log|] == ev;
    if after != marks {
      assert after[..|marks|] == marks;
    }
    if ev.Finished? {
      CurrentIs(log, ev.thread);
    }
  }

  lemma LastStep(before: seq<LogEvent>, ev: LogEvent)
    ensures Tidy(before + [ev]) ==>
              && Tidy(before) && Fits(before, ev) && Marks(before).Some? && Mirrors(Marks(before).value, before)
              && Marks(before + [ev]).Some? && Marks(before + [ev]) == Marked(Marks(before).value, before, ev)
  {
    var log := before + [ev];
    assert log[..|before|] == before && log[|before|] == ev;
    TidyMore(before, ev);
    ReadableExactly(before);
    ReadableExactly(log);
  }

  lemma {:induction false} TracedIs(log: seq<LogEvent>)
    requires Tidy(log)
    ensures Marks(log).Some? && Events(Marks(log).value) == Traced(log)
  {
    if log != [] {
      var before, ev := log[..|log| - 1], log[|log| - 1];
      assert log == before + [ev];
      LastStep(before, ev);
      TracedIs(before);
      TracedMore(Marks(before).value, before, ev);
    }
  }

  /** The log says that the thunk has taken this time: an end event of its thread while it is the thread's
      latest thunk. */
  predicate TimeLogged(log: seq<LogEvent>, id: ThunkId, time: int) {
    exists i :: 0 <= i < |log| && log[i] == Ended(id.thread, time) && LastStarted(log[..i], id.thread) == Some(id.thunk)
  }

  lemma LoggedMore(log: seq<LogEvent>, ev: LogEvent, id: ThunkId, time: int)
    ensures TimeLogged(log + [ev], id, time) <==>
              TimeLogged(log, id, time)
              || (ev == Ended(id.thread, time) && LastStarted(log, id.thread) == Some(id.thunk))
  {
    var all := log + [ev];
    assert all[..|log|] == log && all[|log|] == ev;
    assert forall i :: 0 <= i < |log| ==> all[i] == log[i] && all[..i] == log[..i];
  }

  lemma StoppedMore(marks: seq<Mark>, log: seq<LogEvent>, ev: LogEvent, id: ThunkId, time: int)
    requires Mirrors(marks, log) && Fits(log, ev) && Marked(marks, log, ev).Some?
    requires Stopped(id, time) in marks <==> TimeLogged(log, id, time)
    ensures Stopped(id, time) in Marked(marks, log, ev).value <==> TimeLogged(log + [ev], id, time)
  {
    LoggedMore(log, ev, id, time);
    if ev.Ended? {
      CurrentIs(log, ev.thread);
      assert UnendedIs(marks, log, ev.thread);
    }
  }

  /** The times that are written are those the log says. */
  lemma {:induction false} StoppedIs(log: seq<LogEvent>, id: ThunkId, time: int)
    requires Tidy(log)
    ensures Marks(log).Some? && (Stopped(id, time) in Marks(log).value <==> TimeLogged(log, id, time))
  {
    if log != [] {
      var before, ev := log[..|log| - 1], log[|log| - 1];
      assert log == before + [ev];
      LastStep(before, ev);
      StoppedIs(before, id, time);
      StoppedMore(Marks(before).value, before, ev, id, time);
    }
  }

  lemma {:induction false} OneTime(marks: seq<Mark>, id: ThunkId, v: int, w: int)
    requires Acceptable(marks) && Stopped(id, v) in marks && Stopped(id, w) in marks
    ensures v == w
  {
    var before, mark := marks[..|marks| - 1], marks[|marks| - 1];
    assert marks == before + [mark];
    if Stopped(id, v) in before && Stopped(id, w) in before {
      OneTime(before, id, v, w);
    } else if Stopped(id, v) in before || Stopped(id, w) in before {
      assert HasTime(before, id);
    }
  }

  /** The times of the thunks, and of no others. */
  ghost predicate TimesOf(times: map<ThunkId, int>, log: seq<LogEvent>) {
    forall id, v :: (id in times && times[id] == v) <==> TimeLogged(log, id, v)
  }

  lemma TimesRead(log: seq<LogEvent>, times: map<ThunkId, int>)
    requires Tidy(log) && Marks(log).Some? && Acceptable(Marks(log).value)
    requires forall id :: id in times <==> HasTime(Marks(log).value, id)
    requires forall id :: id in times ==> Stopped(id, times[id]) in Marks(log).value
    ensures TimesOf(times, log)
  {
    var marks := Marks(log).value;
    forall id, v
      ensures (id in times && times[id] == v) <==> TimeLogged(log, id, v)
    {
      StoppedIs(log, id, v);
      if Stopped(id, v) in marks {
        assert HasTime(marks, id);
        OneTime(marks, id, v, times[id]);
      }
    }
  }

  /** Writes a log's trace file and reads it: this succeeds exactly for the tidy logs, and gives their
      pages, their times and the happens-before trace of their thunk and finish events. */
  method WriteAndLoad(log: seq<LogEvent>) returns (loader: Loader, ok: bool)
    ensures ok <==> Tidy(log)
    ensures ok ==> PagesOf(loader.rs, log, false) && PagesOf(loader.ws, log, true)
    ensures ok ==> TimesOf(loader.cputime, log)
    ensures ok ==> ProperLog(Traced(log)) && loader.prog.View() == Read(Traced(log))
  {
    ReadableExactly(log);
    if Tidy(log) {
      TracedIs(log);
    }
    loader := new Loader();
    var writer := new DtlWriter();
    var rows := writer.Write(log);
    ok := rows.Some?;
    if ok {
      ok := loader.Load(rows.value);
      if ok {
        PagesListed(log, rows.value, loader.rs, false);
        PagesListed(log, rows.value, loader.ws, true);
        TimesRead(log, loader.cputime);
      }
    }
  }
}
