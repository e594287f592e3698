/** The simulated machine (numanet.py, device.py, event.py, scheduler.py): a task reserves links, a
    CPU or a memory domain; a device turns its reservations into alarms; a task is finished when the
    last alarm of its reservations has gone off. */
module Machine {
  import opened TaskDag
  import opened Trace

  type Page = int
  type Job = Task<ThunkId>

  datatype Dev = Link(a: nat, b: nat) | Cpu(id: nat) | Numa(id: nat)

  /** `pages` are those the event moves; `serial` tells events apart. */
  datatype Event = Event(job: Job, time: real, pages: set<Page>, serial: nat)

  datatype Res = Res(dev: Dev, event: Event)

  /** The home domain of each CPU, the time to move pages between two domains, and the links on the
      way. */
  datatype Arch = Arch(cpu2numa: seq<nat>, domains: nat, pageTime: (nat, nat, nat) -> real,
                       delay: (nat, nat) -> real, path: (nat, nat) -> seq<Dev>)
  {
    ghost predicate Valid() {
      && (forall c :: 0 <= c < |cpu2numa| ==> cpu2numa[c] < domains)
      && (forall i, j, k :: pageTime(i, j, k) >= 0.0)
      && (forall i, j :: delay(i, j) >= 0.0)
      && (forall i, j, h :: 0 <= h < |path(i, j)| ==> path(i, j)[h].Link?)
      && (forall i, j, g, h :: 0 <= g < h < |path(i, j)| ==> path(i, j)[g] != path(i, j)[h])
    }
  }

  /** What is known of each thunk. */
  datatype Load = Load(cpu: ThunkId -> nat, cputime: ThunkId -> real, rs: ThunkId -> set<Page>,
                       ws: ThunkId -> set<Page>)
  {
    ghost predicate Fits(a: Arch) {
      forall t :: cpu(t) < |a.cpu2numa| && cputime(t) >= 0.0
    }
  }

  /** How long a reservation takes its device. */
  function Duration(load: Load, r: Res): real {
    match r.dev
    case Link(_, _) => r.event.time
    case Numa(_) => 0.0
    case Cpu(_) => load.cputime(r.event.job.thunk)
  }

  /** The device that a task needs besides the links: the CPU of its thunk, or the domain of that CPU. */
  function OwnDevice(a: Arch, load: Load, job: Job): Dev {
    var cpu := load.cpu(job.thunk);
    if job.Run? then Cpu(cpu) else Numa(if cpu < |a.cpu2numa| then a.cpu2numa[cpu] else 0)
  }

  function Of(pending: set<Res>, t: Job): set<Res> {
    set r | r in pending && r.event.job == t
  }

  function Get(m: map<Job, nat>, t: Job): nat {
    if t in m then m[t] else 0
  }

  /** No page is in two domains. */
  ghost predicate Separate(pages: seq<set<Page>>) {
    forall d, e, p :: 0 <= d < |pages| && 0 <= e < |pages| && p in pages[d] && p in pages[e] ==> d == e
  }

  /** Each page is in one domain at most, and only in domains that have a CPU. */
  ghost predicate Settled(a: Arch, pages: seq<set<Page>>) {
    && |pages| == a.domains
    && Separate(pages)
    && (forall d :: 0 <= d < |pages| && pages[d] != {} ==> d in a.cpu2numa)
  }

  class Machine {
    const arch: Arch
    const load: Load
    var active: set<Res>
    var busy: set<Dev>
    var alarms: map<Res, real>
    var counter: map<Job, nat>
    var serial: nat
    var pages: seq<set<Page>>
    ghost var due: map<Res, real>         // every alarm that has been set so far, gone off or not

    ghost function Pending(): set<Res>
      reads this`active, this`alarms
    {
      active + alarms.Keys
    }

    /** All reservations ever made. */
    ghost function Reserved(): set<Res>
      reads this`active, this`due
    {
      active + due.Keys
    }

    /** A counter is the number of reservations of its task that have not gone off; a CPU is busy as
        long as one of its alarms has not. */
    ghost predicate Valid()
      reads this
    {
      && arch.Valid() && load.Fits(arch)
      && active !! due.Keys && (forall r :: r in alarms ==> r in due && due[r] == alarms[r])
      && (forall t :: Get(counter, t) == |Of(Pending(), t)|)
      && (forall r :: r in Reserved() ==> r.event.serial < serial && r.event.time >= 0.0)
      && BusyAre(busy, alarms.Keys)
    }

    ghost predicate Placed()
      reads this`pages
    {
      Settled(arch, pages)
    }

    constructor (a: Arch, l: Load)
      requires a.Valid() && l.Fits(a)
      ensures Valid() && Placed() && Reserved() == Pending() == {} && arch == a && load == l
    {
      arch, load := a, l;
      active, busy, alarms, counter, serial, due := {}, {}, map[], map[], 0, map[];
      pages := seq(a.domains, _ => {});
    }

    method Reserve(dev: Dev, e: Event)
      requires Valid() && e.serial < serial && e.time >= 0.0 && Res(dev, e) !in Reserved()
      modifies this`active, this`counter
      ensures Valid() && Pending() == old(Pending()) + {Res(dev, e)}
    {
      var r := Res(dev, e);
      counter := counter[e.job := Get(counter, e.job) + 1];
      active := active + {r};
      assert Pending() == old(Pending()) + {r};
      forall t
        ensures Get(counter, t) == |Of(Pending(), t)|
      {
        ReservedOf(old(Pending()), r, t);
      }
    }

    /** Reserves every link on the way. */
    method ReserveLinks(path: seq<Dev>, e: Event)
      requires Valid() && e.serial < serial && e.time >= 0.0
      requires forall r :: r in Reserved() ==> r.event != e
      requires forall g, h :: 0 <= g < h < |path| ==> path[g] != path[h]
      modifies this`active, this`counter
      ensures Valid() && Pending() == old(Pending()) + set d | d in path :: Res(d, e)
    {
      assert path[..0] == [];
      for h := 0 to |path|
        invariant Valid() && Pending() == old(Pending()) + set d | d in path[..h] :: Res(d, e)
        invariant forall r :: r in Reserved() ==> r.event != e || r.dev in path[..h]
      {
        assert path[..h + 1] == path[..h] + [path[h]];
        Reserve(path[h], e);
      }
      assert path[..|path|] == path;
    }

    /** A new event. */
    method NewEvent(job: Job, time: real, moved: set<Page>) returns (e: Event)
      requires Valid()
      modifies this`serial
      ensures Valid() && e == Event(job, time, moved, old(serial)) && serial == old(serial) + 1
      ensures forall r :: r in Reserved() ==> r.event != e
    {
      e := Event(job, time, moved, serial);
      serial := serial + 1;
    }

    /** Reserves the links to `other` for those of `need` that are there: one event for all of them. */
    method FetchFrom(job: Job, home: nat, other: nat, need: set<Page>) returns (rest: set<Page>, ghost e: Event)
      requires Valid() && other < |pages|
      modifies this`active, this`counter, this`serial
      ensures Valid() && rest == need - pages[other] && old(serial) <= serial
      ensures pages[other] * need == {} ==> Pending() == old(Pending()) && serial == old(serial)
      ensures pages[other] * need != {} ==>
                && Moves(arch, job, home, other, pages[other] * need, e) && e.serial == old(serial) < serial
                && Pending() == old(Pending()) + set l | l in arch.path(home, other) :: Res(l, e)
    {
      var fetch := pages[other] * need;
      rest := need - fetch;
      if fetch == {} {
        e := Event(job, 0.0, {}, serial);
      } else {
        var moving := NewEvent(job, arch.pageTime(home, other, |fetch|) + arch.delay(home, other), fetch);
        e := moving;
        ReserveLinks(arch.path(home, other), moving);
      }
    }

    /** Reserves the links for those of `need` that other domains have: for each such domain one event
        that moves all of them, on every link on its way. The rest is nowhere else. */
    method Fetch(job: Job, home: nat, need: set<Page>) returns (rest: set<Page>, ghost events: map<nat, Event>)
      requires Valid() && Placed() && home < arch.domains
      modifies this`active, this`counter, this`serial
      ensures Valid() && old(serial) <= serial
      ensures rest == NotOthers(pages, home, need)
      ensures Fetches(arch, pages, job, home, need, events)
      ensures Pending() == old(Pending()) + Carried(arch, home, events)
    {
      rest, events := FetchEach(job, home, need);
      AllFetched(arch, pages, job, home, need, rest, events);
    }

    /** The domains of all CPUs, one after the other. */
    method FetchEach(job: Job, home: nat, need: set<Page>) returns (rest: set<Page>, ghost events: map<nat, Event>)
      requires Valid() && Placed() && home < arch.domains
      modifies this`active, this`counter, this`serial
      ensures Valid() && old(serial) <= serial
      ensures Fetched(arch, pages, job, home, need, |arch.cpu2numa|, rest, events)
      ensures Pending() == old(Pending()) + Carried(arch, home, events)
    {
      rest, events := need, map[];
      ghost var start := Pending();
      FetchedStart(arch, pages, job, home, need);
      var n := 0;
      while n < |arch.cpu2numa|
        invariant n <= |arch.cpu2numa|
        invariant Valid() && old(serial) <= serial
        invariant Fetched(arch, pages, job, home, need, n, rest, events) && Older(events, serial)
        invariant Pending() == start + Carried(arch, home, events)
      {
        rest, events := FetchNext(job, home, need, n, rest, events, start);
        n := n + 1;
      }
    }

    /** The pages that are not at home. */
    method FetchMissing(job: Job, home: nat, need: set<Page>) returns (rest: set<Page>, ghost events: map<nat, Event>)
      requires Valid() && Placed() && home < arch.domains
      modifies this`active, this`counter, this`serial
      ensures Valid() && rest == Nowhere(pages, need) && Fetches(arch, pages, job, home, need, events)
      ensures Pending() == old(Pending()) + Carried(arch, home, events)
    {
      rest, events := Fetch(job, home, need - pages[home]);
      FetchesAll(arch, pages, job, home, need, events);
      assert rest == Nowhere(pages, need);
    }

    /** The domain of one CPU. */
    method FetchNext(job: Job, home: nat, need: set<Page>, n: nat, left: set<Page>,
                     ghost done: map<nat, Event>, ghost start: set<Res>)
      returns (rest: set<Page>, ghost events: map<nat, Event>)
      requires Valid() && Placed() && n < |arch.cpu2numa|
      requires Fetched(arch, pages, job, home, need, n, left, done) && Older(done, serial)
      requires Pending() == start + Carried(arch, home, done)
      modifies this`active, this`counter, this`serial
      ensures Valid() && old(serial) <= serial
      ensures Fetched(arch, pages, job, home, need, n + 1, rest, events) && Older(events, serial)
      ensures Pending() == start + Carried(arch, home, events)
    {
      rest, events := left, done;
      var other := arch.cpu2numa[n];
      if other == home {
        FetchedHome(arch, pages, job, home, need, n, left, done);
      } else {
        LeftIn(arch, pages, home, need, n);
        ghost var e: Event;
        rest, e := FetchFrom(job, home, other, left);
        if pages[other] * left == {} {
          FetchedNone(arch, pages, job, home, need, n, left, done);
        } else {
          FetchedMore(arch, pages, job, home, need, n, left, done, e);
          CarriedMore(arch, home, done, other, e);
          events := done[other := e];
        }
      }
    }

    /** Schedules a task (first touch, no move on commit): the events that fetch its pages from other
        domains, and one on its own device. */
    method Schedule(job: Job) returns (ghost events: map<nat, Event>, ghost own: Res)
      requires Valid() && Placed() && Of(Pending(), job) == {}
      modifies this`active, this`counter, this`serial, this`pages
      ensures Valid() && Placed()
      ensures own.dev == OwnDevice(arch, load, job) && own.event.job == job && own !in old(Pending())
      ensures Pending() == old(Pending()) + Carried(arch, Home(job), events) + {own}
      ensures forall d :: d in events ==> events[d].job == job
      ensures if job.Run? then events == map[] else Fetches(arch, old(pages), job, Home(job), Needed(job), events)
      ensures own.event.pages == if job.Run? then {} else Nowhere(old(pages), Needed(job))
      ensures !job.Comm? ==> pages == old(pages)
      ensures job.Comm? ==> Residence(old(pages), pages, Home(job), Needed(job))
    {
      var home := arch.cpu2numa[load.cpu(job.thunk)];
      events := map[];
      var moved := {};
      match job {
        case Comm(t) =>
          moved, events := FetchMissing(job, home, load.rs(t) + load.ws(t));
          NewPages(pages, home, load.rs(t) + load.ws(t), moved);
          FirstTouch(home, moved);
          own := ReserveOne(Numa(home), job, moved);
        case Run(t) =>
          own := ReserveOne(Cpu(load.cpu(t)), job, {});
        case Commit(t) =>
          moved, events := FetchMissing(job, home, load.ws(t));
          own := ReserveOne(Numa(home), job, moved);
      }
    }

    /** One event on one device. */
    method ReserveOne(dev: Dev, job: Job, moved: set<Page>) returns (ghost own: Res)
      requires Valid()
      modifies this`active, this`counter, this`serial
      ensures Valid() && own.dev == dev && own.event.job == job && own.event.pages == moved
      ensures own !in old(Pending()) && Pending() == old(Pending()) + {own}
    {
      var e := NewEvent(job, 0.0, moved);
      Reserve(dev, e);
      own := Res(dev, e);
    }

    /** The pages a task moves to its home: all its thunk's ones before it runs, the written ones after. */
    ghost function Needed(job: Job): set<Page> {
      if job.Comm? then load.rs(job.thunk) + load.ws(job.thunk) else load.ws(job.thunk)
    }

    /** The domain of the CPU the thunk runs on. */
    function Home(job: Job): nat
      requires arch.Valid() && load.Fits(arch)
    {
      arch.cpu2numa[load.cpu(job.thunk)]
    }

    /** Pages that are nowhere are placed where they are first used. */
    method FirstTouch(home: nat, rest: set<Page>)
      requires Placed() && home in arch.cpu2numa && home < arch.domains
      requires forall p, d :: p in rest && 0 <= d < |pages| && d != home ==> p !in pages[d]
      modifies this`pages
      ensures Placed() && pages == old(pages)[home := old(pages)[home] + rest]
    {
      PlacedFirst(pages, home, rest);
      if rest != {} {
        pages := pages[home := pages[home] + rest];
      }
    }

    // ---- Time ----

    /** No alarm lies before `now`. */
    ghost predicate NotBefore(now: real)
      reads this`alarms
    {
      forall r :: r in alarms ==> alarms[r] >= now
    }

    /** A reservation becomes an alarm. */
    method SetAlarm(r: Res, time: real)
      requires Valid() && r in active && (r.dev.Cpu? ==> r.dev !in busy)
      modifies this`active, this`alarms, this`busy, this`due
      ensures Valid() && Pending() == old(Pending()) && active == old(active) - {r} && alarms == old(alarms)[r := time]
      ensures busy == (old(busy) + if r.dev.Cpu? then {r.dev} else {}) && due == old(due)[r := time]
    {
      active := active - {r};
      alarms := alarms[r := time];
      due := due[r := time];
      assert Pending() == old(Pending());
      BusyMore(busy, old(alarms).Keys, r);
      assert alarms.Keys == old(alarms).Keys + {r};
      if r.dev.Cpu? {
        busy := busy + {r.dev};
      }
    }

    /** An alarm goes off; tells whether its task has no reservation left. */
    method GoOff(r: Res) returns (done: bool)
      requires Valid() && r in alarms
      modifies this`alarms, this`busy, this`counter
      ensures Valid() && Pending() == old(Pending()) - {r} && alarms == old(alarms) - {r}
      ensures done <==> Of(Pending(), r.event.job) == {}
    {
      OfOne(Pending(), r);
      BusyLess(busy, alarms.Keys, r);
      alarms := alarms - {r};
      assert alarms.Keys == old(alarms).Keys - {r};
      assert Pending() == old(Pending()) - {r};
      if r.dev.Cpu? {
        busy := busy - {r.dev};
      }
      counter := counter[r.event.job := counter[r.event.job] - 1];
      forall t
        ensures Get(counter, t) == |Of(Pending(), t)|
      {
        ReservedOf(Pending(), r, t);
        assert Pending() + {r} == old(Pending());
      }
      done := counter[r.event.job] == 0;
    }

    /** What a device's turn does: a link starts all its events, each for its own time; a memory domain
        starts one, which is over at once; a CPU starts one for its thunk's time, unless it is busy. */
    twostate predicate Turned(dev: Dev, now: real)
      reads this
    {
      match dev
      case Link(_, _) =>
        && (forall r :: r in active <==> r in old(active) && r.dev != dev)
        && (forall r :: r in alarms <==> r in old(alarms) || (r in old(active) && r.dev == dev))
        && (forall r :: r in old(alarms) ==> alarms[r] == old(alarms)[r])
        && (forall r :: r in old(active) && r.dev == dev && r !in old(alarms) ==> alarms[r] == now + r.event.time)
      case Numa(_) => exists r :: r in old(active) && r.dev == dev && Begun(r, now)
      case Cpu(_) =>
        if dev in old(busy) then active == old(active) && alarms == old(alarms)
        else exists r :: r in old(active) && r.dev == dev && Begun(r, now + load.cputime(r.event.job.thunk))
    }

    /** One reservation has become an alarm. */
    twostate predicate Begun(r: Res, time: real)
      reads this
    {
      active == old(active) - {r} && alarms == old(alarms)[r := time]
    }

    /** Reservations have become alarms, each for its own time from now on. */
    twostate predicate Started(now: real)
      reads this
    {
      && Reserved() == old(Reserved())
      && (forall r :: r in old(due) ==> r in due && due[r] == old(due)[r])
      && (forall r :: r in due && r !in old(due) ==> r in old(active) && due[r] == now + Duration(load, r))
      && (forall r :: r in alarms <==> r in old(alarms) || (r in due && r !in old(due)))
    }

    /** One device. */
    method ProgressDevice(dev: Dev, now: real)
      requires Valid() && NotBefore(now) && exists r :: r in active && r.dev == dev
      modifies this`active, this`alarms, this`busy, this`due
      ensures Valid() && NotBefore(now) && Pending() == old(Pending())
      ensures Turned(dev, now) && Started(now)
      ensures busy == old(busy) + if dev.Cpu? then {dev} else {}
    {
      match dev {
        case Link(_, _) => StartAll(dev, now);
        case Numa(_) =>
          var r :| r in active && r.dev == dev;
          SetAlarm(r, now + 0.0);
          assert Begun(r, now);
        case Cpu(_) => StartCpu(dev, now);
      }
    }

    method StartCpu(dev: Dev, now: real)
      requires Valid() && NotBefore(now) && dev.Cpu? && exists r :: r in active && r.dev == dev
      modifies this`active, this`alarms, this`busy, this`due
      ensures Valid() && NotBefore(now) && Pending() == old(Pending())
      ensures Turned(dev, now) && Started(now) && busy == old(busy) + {dev}
    {
      if dev !in busy {
        var r :| r in active && r.dev == dev;
        SetAlarm(r, now + load.cputime(r.event.job.thunk));
        assert Begun(r, now + load.cputime(r.event.job.thunk));
      }
    }

    method StartAll(dev: Dev, now: real)
      requires Valid() && NotBefore(now) && dev.Link?
      modifies this`active, this`alarms, this`busy, this`due
      ensures Valid() && NotBefore(now) && Pending() == old(Pending())
      ensures Turned(dev, now) && Started(now) && busy == old(busy)
    {
      var all := set r | r in active && r.dev == dev;
      var todo := all;
      while todo != {}
        invariant Valid() && NotBefore(now) && Pending() == old(Pending()) && busy == old(busy)
        invariant todo <= all && active == old(active) - (all - todo)
        invariant alarms == old(alarms) + Times(all - todo, now)
        invariant due == old(due) + Times(all - todo, now)
      {
        var r :| r in todo;
        assert r in Pending() && r !in old(alarms);
        MoreTimes(old(alarms), old(due), all - todo, r, now);
        assert all - (todo - {r}) == all - todo + {r};
        SetAlarm(r, now + r.event.time);
        todo := todo - {r};
      }
      assert all - todo == all;
    }

    /** Every device goes on; whenever anything is reserved, an alarm is set afterwards. */
    method Progress(now: real)
      requires Valid() && NotBefore(now)
      modifies this`active, this`alarms, this`busy, this`due
      ensures Valid() && NotBefore(now) && Pending() == old(Pending()) && Started(now)
      ensures Pending() != {} ==> alarms != map[]
    {
      var todo := set r | r in active :: r.dev;
      while todo != {}
        invariant Valid() && NotBefore(now) && Pending() == old(Pending()) && Started(now)
        invariant forall d :: d in todo ==> exists r :: r in active && r.dev == d
        invariant alarms != map[] || forall r :: r in active ==> r.dev in todo
      {
        var d :| d in todo;
        ProgressDevice(d, now);
        todo := todo - {d};
      }
    }

    /** The alarm on top of the heap. */
    method Earliest() returns (r: Res)
      requires alarms != map[]
      ensures r in alarms && forall q :: q in alarms ==> alarms[q] >= alarms[r]
    {
      r :| r in alarms;
      var todo := alarms.Keys - {r};
      while todo != {}
        invariant r in alarms && todo <= alarms.Keys
        invariant forall q :: q in alarms && q !in todo ==> alarms[q] >= alarms[r]
      {
        var q :| q in todo;
        if alarms[q] < alarms[r] {
          r := q;
        }
        todo := todo - {q};
      }
    }

    /** The tasks that were reserved in `before` and have nothing reserved any more. */
    ghost predicate Finished(before: set<Res>, finished: seq<Job>)
      reads this`active, this`alarms
    {
      && (forall t :: t in finished <==> Of(before, t) != {} && Of(Pending(), t) == {})
      && (forall i, j :: 0 <= i < j < |finished| ==> finished[i] != finished[j])
    }

    method CompleteOne(r: Res, ghost before: set<Res>, finished: seq<Job>) returns (after: seq<Job>)
      requires Valid() && r in alarms && Pending() <= before && Finished(before, finished)
      modifies this`alarms, this`busy, this`counter
      ensures Valid() && Pending() == old(Pending()) - {r} && alarms == old(alarms) - {r} && Finished(before, after)
      ensures after == finished || after == finished + [r.event.job]
    {
      FinishedNow(before, Pending(), r, finished);
      var done := GoOff(r);
      after := if done then finished + [r.event.job] else finished;
    }

    /** Alarms go off in the order of their times, until a task is finished, and those of the same
        time as the first as well.  The last of them gives the time: it is the time of an alarm of every
        task that is finished, and no task would have been finished earlier. */
    method Complete(ghost now: real) returns (time: real, finished: seq<Job>)
      requires Valid() && NotBefore(now) && alarms != map[]
      modifies this`alarms, this`busy, this`counter
      ensures Valid() && now <= time && NotBefore(time) && Pending() < old(Pending())
      ensures Finished(old(Pending()), finished)
      ensures alarms.Keys <= old(alarms).Keys && WentOff(old(alarms), alarms.Keys, time, finished)
      ensures finished == [] ==> alarms == map[]
      ensures NoneEarlier(old(alarms), old(active), time)
    {
      var r := Earliest();
      var earliest := alarms[r];
      time := earliest;
      ghost var before, was := Pending(), alarms;
      finished := [];
      OffFirst(was, r, active);
      finished := CompleteOne(r, before, finished);
      while alarms != map[]
        invariant Valid() && now <= time && NotBefore(time) && earliest <= time
        invariant Pending() < before && Finished(before, finished)
        invariant Kept(was, alarms) && WentOff(was, alarms.Keys, time, finished) && NoneEarlier(was, active, time)
        decreases |Pending()|
      {
        r := Earliest();
        if alarms[r] != earliest && finished != [] {
          break;
        }
        if finished == [] {
          StillNone(was, alarms, active, before, r);
        }
        OffNext(was, alarms, r, time, finished);
        time := alarms[r];
        SmallerWithout(Pending(), r);
        finished := CompleteOne(r, before, finished);
      }
    }
  }

  /** When the events of these reservations are over, if they start now. */
  ghost function Times(rs: set<Res>, now: real): map<Res, real> {
    map r | r in rs :: now + r.event.time
  }

  lemma MoreTimes(alarms: map<Res, real>, due: map<Res, real>, rs: set<Res>, r: Res, now: real)
    ensures alarms + Times(rs + {r}, now) == (alarms + Times(rs, now))[r := now + r.event.time]
    ensures due + Times(rs + {r}, now) == (due + Times(rs, now))[r := now + r.event.time]
  {
  }

  /** The busy CPUs are those that an alarm is set for, one for each. */
  ghost predicate BusyAre(busy: set<Dev>, alarmed: set<Res>) {
    && (forall d :: d in busy ==> d.Cpu? && exists r :: r in alarmed && r.dev == d)
    && (forall r :: r in alarmed && r.dev.Cpu? ==> r.dev in busy)
    && (forall r, q :: r in alarmed && q in alarmed && r.dev.Cpu? && r.dev == q.dev ==> r == q)
  }

  lemma BusyMore(busy: set<Dev>, alarmed: set<Res>, r: Res)
    requires BusyAre(busy, alarmed) && (r.dev.Cpu? ==> r.dev !in busy)
    ensures BusyAre(busy + if r.dev.Cpu? then {r.dev} else {}, alarmed + {r})
  {
    forall d | d in busy
      ensures exists q :: q in alarmed + {r} && q.dev == d
    {
      var q :| q in alarmed && q.dev == d;
      assert q in alarmed + {r};
    }
    assert r in alarmed + {r};
  }

  lemma BusyLess(busy: set<Dev>, alarmed: set<Res>, r: Res)
    requires BusyAre(busy, alarmed) && r in alarmed
    ensures BusyAre(if r.dev.Cpu? then busy - {r.dev} else busy, alarmed - {r})
  {
    forall d | d in busy && (r.dev.Cpu? ==> d != r.dev)
      ensures exists q :: q in alarmed - {r} && q.dev == d
    {
      var q :| q in alarmed && q.dev == d;
      assert q in alarmed - {r};
    }
  }

  /** These alarms are left. */
  ghost predicate Kept(was: map<Res, real>, alarms: map<Res, real>) {
    forall r :: r in alarms ==> r in was && was[r] == alarms[r]
  }

  /** No alarm later than this time has gone off, one of this time has, and so has one of each finished
      task. */
  ghost predicate WentOff(was: map<Res, real>, left: set<Res>, time: real, finished: seq<Job>) {
    && (forall r :: r in was && r !in left ==> was[r] <= time)
    && (exists r :: r in was && r !in left && was[r] == time)
    && (forall t :: t in finished ==> LastAt(was, left, t, time))
  }

  ghost predicate LastAt(was: map<Res, real>, left: set<Res>, t: Job, time: real) {
    exists r :: r in was && r !in left && r.event.job == t && was[r] == time
  }

  /** A task that has only alarms has one of this time or later. */
  ghost predicate NoneEarlier(was: map<Res, real>, active: set<Res>, time: real) {
    forall t :: (exists r :: r in was && r.event.job == t) && Of(active, t) == {} ==> HasLater(was, t, time)
  }

  ghost predicate HasLater(was: map<Res, real>, t: Job, time: real) {
    exists r :: r in was && r.event.job == t && was[r] >= time
  }

  lemma OffFirst(was: map<Res, real>, r: Res, active: set<Res>)
    requires r in was && forall q :: q in was ==> was[q] >= was[r]
    ensures Kept(was, was - {r}) && NoneEarlier(was, active, was[r])
    ensures forall after: seq<Job> :: after == [] || after == [] + [r.event.job] ==>
              WentOff(was, (was - {r}).Keys, was[r], after)
  {
    forall t | exists q :: q in was && q.event.job == t
      ensures HasLater(was, t, was[r])
    {
      var q :| q in was && q.event.job == t;
    }
    forall after: seq<Job> | after == [] || after == [] + [r.event.job]
      ensures WentOff(was, (was - {r}).Keys, was[r], after)
    {
      assert LastAt(was, (was - {r}).Keys, r.event.job, was[r]);
    }
  }

  lemma OffNext(was: map<Res, real>, alarms: map<Res, real>, r: Res, time: real, finished: seq<Job>)
    requires Kept(was, alarms) && WentOff(was, alarms.Keys, time, finished) && r in alarms
    requires alarms[r] >= time && (finished == [] || alarms[r] == time)
    ensures Kept(was, alarms - {r})
    ensures forall after: seq<Job> :: after == finished || after == finished + [r.event.job] ==>
              WentOff(was, (alarms - {r}).Keys, alarms[r], after)
  {
    var left := (alarms - {r}).Keys;
    assert LastAt(was, left, r.event.job, alarms[r]);
    forall t | t in finished
      ensures LastAt(was, left, t, alarms[r])
    {
      assert LastAt(was, alarms.Keys, t, time);
    }
  }

  lemma StillNone(was: map<Res, real>, alarms: map<Res, real>, active: set<Res>, before: set<Res>, r: Res)
    requires Kept(was, alarms) && before == active + was.Keys
    requires forall t :: Of(before, t) != {} ==> Of(active + alarms.Keys, t) != {}
    requires r in alarms && forall q :: q in alarms ==> alarms[q] >= alarms[r]
    ensures NoneEarlier(was, active, alarms[r])
  {
    forall t | (exists q :: q in was && q.event.job == t) && Of(active, t) == {}
      ensures HasLater(was, t, alarms[r])
    {
      var q :| q in was && q.event.job == t;
      assert q in Of(before, t);
      var p :| p in Of(active + alarms.Keys, t);
      assert p !in Of(active, t) && p in alarms;
    }
  }

  lemma OfOne(pending: set<Res>, r: Res)
    requires r in pending
    ensures |Of(pending, r.event.job)| > 0
  {
    assert r in Of(pending, r.event.job);
  }

  /** An alarm finishes its task, if it is the last of its reservations, and no other. */
  lemma FinishedNow(before: set<Res>, pending: set<Res>, r: Res, finished: seq<Job>)
    requires pending <= before && r in pending
    requires forall t :: t in finished <==> Of(before, t) != {} && Of(pending, t) == {}
    ensures r.event.job !in finished
    ensures forall t :: Of(before, t) != {} && Of(pending - {r}, t) == {} <==>
              t in finished || (t == r.event.job && Of(pending - {r}, t) == {})
  {
    assert r in Of(pending, r.event.job) && r in Of(before, r.event.job);
    forall t | t != r.event.job
      ensures Of(pending - {r}, t) == Of(pending, t)
    {
    }
  }

  lemma SmallerWithout(pending: set<Res>, r: Res)
    requires r in pending
    ensures |pending - {r}| < |pending|
  {
  }

  lemma PlacedFirst(pages: seq<set<Page>>, home: nat, rest: set<Page>)
    requires Separate(pages) && home < |pages|
    requires forall p, d :: p in rest && 0 <= d < |pages| && d != home ==> p !in pages[d]
    ensures Separate(pages[home := pages[home] + rest])
    ensures rest == {} ==> pages[home := pages[home] + rest] == pages
  {
    assert rest == {} ==> pages[home] + rest == pages[home];
  }

  // ---- Moving pages ----

  /** The event moves the pages from one domain to another. */
  ghost predicate Moves(a: Arch, job: Job, home: nat, other: nat, fetch: set<Page>, e: Event) {
    e.job == job && e.pages == fetch && e.time == a.pageTime(home, other, |fetch|) + a.delay(home, other)
  }

  /** Each event moves the pages that its domain has; no two events are the same. */
  ghost predicate AllMove(
    a: Arch, pages: seq<set<Page>>, job: Job, home: nat, need: set<Page>, events: map<nat, Event>)
  {
    && (forall d :: d in events ==> d < |pages| && Moves(a, job, home, d, pages[d] * need, events[d]))
    && (forall d, e :: d in events && e in events && d != e ==> events[d].serial != events[e].serial)
  }

  /** One event for each listed domain, but `home`, that has some of the pages. */
  ghost predicate FetchesFrom(
    a: Arch, pages: seq<set<Page>>, job: Job, home: nat, need: set<Page>, listed: seq<nat>, events: map<nat, Event>)
  {
    && (forall d: nat :: d in events <==> d in listed && d != home && d < |pages| && pages[d] * need != {})
    && AllMove(a, pages, job, home, need, events)
  }

  /** One event for each domain, but `home`, that has some of the pages. */
  ghost predicate Fetches(
    a: Arch, pages: seq<set<Page>>, job: Job, home: nat, need: set<Page>, events: map<nat, Event>)
  {
    && (forall d: nat :: d in events <==> d < |pages| && d != home && pages[d] * need != {})
    && AllMove(a, pages, job, home, need, events)
  }

  /** The pages in the domains of the first `n` CPUs, but not in `home`. */
  ghost function Others(a: Arch, pages: seq<set<Page>>, home: nat, n: nat): set<Page>
    requires a.Valid() && |pages| == a.domains && n <= |a.cpu2numa|
  {
    if n == 0 then {}
    else Others(a, pages, home, n - 1) + if a.cpu2numa[n - 1] != home then pages[a.cpu2numa[n - 1]] else {}
  }

  lemma {:induction false} OthersHold(a: Arch, pages: seq<set<Page>>, home: nat, n: nat, p: Page)
    requires a.Valid() && |pages| == a.domains && n <= |a.cpu2numa|
    ensures p in Others(a, pages, home, n)
        <==> exists c :: 0 <= c < n && a.cpu2numa[c] != home && p in pages[a.cpu2numa[c]]
  {
    if n > 0 {
      OthersHold(a, pages, home, n - 1, p);
      if a.cpu2numa[n - 1] != home && p in pages[a.cpu2numa[n - 1]] {
        assert p in Others(a, pages, home, n);
      }
    }
  }

  lemma OnlyHomes(a: Arch, pages: seq<set<Page>>, home: nat, p: Page)
    requires Settled(a, pages) && a.Valid()
    ensures (exists d :: 0 <= d < |pages| && d != home && p in pages[d])
        <==> exists c :: 0 <= c < |a.cpu2numa| && a.cpu2numa[c] != home && p in pages[a.cpu2numa[c]]
  {
    if d :| 0 <= d < |pages| && d != home && p in pages[d] {
      assert d in a.cpu2numa;
      var c :| 0 <= c < |a.cpu2numa| && a.cpu2numa[c] == d;
      assert p in pages[a.cpu2numa[c]];
    }
    if c :| 0 <= c < |a.cpu2numa| && a.cpu2numa[c] != home && p in pages[a.cpu2numa[c]] {
      var d := a.cpu2numa[c];
      assert d < |pages| && p in pages[d];
    }
  }

  /** After the first `n` CPUs: what is left, and the events of their domains. */
  ghost predicate Fetched(a: Arch, pages: seq<set<Page>>, job: Job, home: nat, need: set<Page>, n: nat,
                          rest: set<Page>, events: map<nat, Event>)
    requires a.Valid() && Settled(a, pages) && n <= |a.cpu2numa|
  {
    rest == need - Others(a, pages, home, n) && FetchesFrom(a, pages, job, home, need, a.cpu2numa[..n], events)
  }

  ghost predicate Older(events: map<nat, Event>, serial: nat) {
    forall d :: d in events ==> events[d].serial < serial
  }

  /** What is left to fetch of the next CPU's domain: nothing, if an earlier CPU shares it, and
      otherwise all that the domain has. */
  lemma LeftIn(a: Arch, pages: seq<set<Page>>, home: nat, need: set<Page>, n: nat)
    requires a.Valid() && Settled(a, pages) && n < |a.cpu2numa| && a.cpu2numa[n] != home
    ensures var other := a.cpu2numa[n];
            pages[other] * (need - Others(a, pages, home, n)) ==
            if other in a.cpu2numa[..n] then {} else pages[other] * need
  {
    var other := a.cpu2numa[n];
    forall p | p in pages[other]
      ensures p in Others(a, pages, home, n) <==> other in a.cpu2numa[..n]
    {
      OthersHold(a, pages, home, n, p);
      if other in a.cpu2numa[..n] {
        var c :| 0 <= c < n && a.cpu2numa[c] == other;
      }
      if p in Others(a, pages, home, n) {
        var c :| 0 <= c < n && a.cpu2numa[c] != home && p in pages[a.cpu2numa[c]];
        assert a.cpu2numa[c] == other && other == a.cpu2numa[..n][c];
      }
    }
  }

  lemma FetchedStart(a: Arch, pages: seq<set<Page>>, job: Job, home: nat, need: set<Page>)
    requires a.Valid() && Settled(a, pages)
    ensures Fetched(a, pages, job, home, need, 0, need, map[]) && Carried(a, home, map[]) == {}
  {
    assert a.cpu2numa[..0] == [];
  }

  lemma FetchedHome(a: Arch, pages: seq<set<Page>>, job: Job, home: nat, need: set<Page>, n: nat,
                    rest: set<Page>, events: map<nat, Event>)
    requires a.Valid() && Settled(a, pages) && n < |a.cpu2numa| && a.cpu2numa[n] == home
    requires Fetched(a, pages, job, home, need, n, rest, events)
    ensures Fetched(a, pages, job, home, need, n + 1, rest, events)
  {
    assert a.cpu2numa[..n + 1] == a.cpu2numa[..n] + [home];
  }

  /** The next CPU's domain has nothing that is left. */
  lemma FetchedNone(a: Arch, pages: seq<set<Page>>, job: Job, home: nat, need: set<Page>, n: nat,
                    left: set<Page>, done: map<nat, Event>)
    requires a.Valid() && Settled(a, pages) && n < |a.cpu2numa| && a.cpu2numa[n] != home
    requires Fetched(a, pages, job, home, need, n, left, done)
    requires a.cpu2numa[n] in a.cpu2numa[..n] || pages[a.cpu2numa[n]] * need == {}
    ensures Fetched(a, pages, job, home, need, n + 1, left - pages[a.cpu2numa[n]], done)
  {
    var other, listed := a.cpu2numa[n], a.cpu2numa[..n];
    assert a.cpu2numa[..n + 1] == listed + [other];
    assert forall d: nat :: d in listed + [other] <==> d in listed || d == other;
    assert FetchesFrom(a, pages, job, home, need, listed + [other], done);
  }

  /** It has some. */
  lemma FetchedMore(a: Arch, pages: seq<set<Page>>, job: Job, home: nat, need: set<Page>, n: nat,
                    left: set<Page>, done: map<nat, Event>, e: Event)
    requires a.Valid() && Settled(a, pages) && n < |a.cpu2numa| && a.cpu2numa[n] != home
    requires Fetched(a, pages, job, home, need, n, left, done) && Older(done, e.serial)
    requires var other := a.cpu2numa[n];
             pages[other] * need != {} && Moves(a, job, home, other, pages[other] * need, e)
    ensures Fetched(a, pages, job, home, need, n + 1, left - pages[a.cpu2numa[n]], done[a.cpu2numa[n] := e])
  {
    FetchesMore(a, pages, job, home, need, a.cpu2numa[..n], done, a.cpu2numa[n], e);
    assert a.cpu2numa[..n + 1] == a.cpu2numa[..n] + [a.cpu2numa[n]];
  }

  lemma FetchesMore(a: Arch, pages: seq<set<Page>>, job: Job, home: nat, need: set<Page>, listed: seq<nat>,
                    events: map<nat, Event>, other: nat, e: Event)
    requires FetchesFrom(a, pages, job, home, need, listed, events) && other != home && other < |pages|
    requires pages[other] * need != {} && Moves(a, job, home, other, pages[other] * need, e)
    requires Older(events, e.serial)
    ensures FetchesFrom(a, pages, job, home, need, listed + [other], events[other := e])
  {
    assert forall d: nat :: d in listed + [other] <==> d in listed || d == other;
  }

  lemma AllFetched(a: Arch, pages: seq<set<Page>>, job: Job, home: nat, need: set<Page>, rest: set<Page>,
                   events: map<nat, Event>)
    requires a.Valid() && Settled(a, pages)
    requires Fetched(a, pages, job, home, need, |a.cpu2numa|, rest, events)
    ensures Fetches(a, pages, job, home, need, events)
    ensures rest == NotOthers(pages, home, need)
  {
    assert a.cpu2numa[..|a.cpu2numa|] == a.cpu2numa;
    forall p | p in need
      ensures p in rest <==> forall d :: 0 <= d < |pages| && d != home ==> p !in pages[d]
    {
      OthersHold(a, pages, home, |a.cpu2numa|, p);
      OnlyHomes(a, pages, home, p);
    }
    forall d: nat
      ensures d in events <==> d < |pages| && d != home && pages[d] * need != {}
    {
      if d < |pages| && pages[d] != {} {
        assert d in a.cpu2numa;
      }
    }
  }

  /** Each event on every link of its way. */
  ghost function Carried(a: Arch, home: nat, events: map<nat, Event>): set<Res> {
    set d, l | d in events && l in a.path(home, d) :: Res(l, events[d])
  }

  lemma CarriedMore(a: Arch, home: nat, events: map<nat, Event>, d: nat, e: Event)
    requires d !in events
    ensures Carried(a, home, events[d := e]) == Carried(a, home, events) + set l | l in a.path(home, d) :: Res(l, e)
  {
    var more := events[d := e];
    forall r | r in Carried(a, home, events) || (r.dev in a.path(home, d) && r.event == e)
      ensures r in Carried(a, home, more)
    {
      if r in Carried(a, home, events) {
        var c, l :| c in events && l in a.path(home, c) && r == Res(l, events[c]);
        assert c in more && more[c] == events[c];
      } else {
        assert d in more && more[d] == e;
      }
    }
  }

  lemma Apart(pages: seq<set<Page>>, d: nat, e: nat)
    requires Separate(pages) && d < |pages| && e < |pages| && d != e
    ensures pages[d] !! pages[e]
  {
    assert forall p :: p in pages[d] ==> p !in pages[e];
  }

  /** No page of another domain is at home. */
  lemma FetchesAll(a: Arch, pages: seq<set<Page>>, job: Job, home: nat, need: set<Page>, events: map<nat, Event>)
    requires Separate(pages) && home < |pages| && Fetches(a, pages, job, home, need - pages[home], events)
    ensures Fetches(a, pages, job, home, need, events)
  {
    forall d: nat | d < |pages| && d != home
      ensures pages[d] * (need - pages[home]) == pages[d] * need
    {
      Apart(pages, d, home);
    }
  }

  /** The needed pages that are in no domain but, perhaps, at home. */
  ghost function NotOthers(pages: seq<set<Page>>, home: nat, need: set<Page>): set<Page> {
    set p | p in need && forall d :: 0 <= d < |pages| && d != home ==> p !in pages[d]
  }

  /** The needed pages that are in no domain. */
  ghost function Nowhere(pages: seq<set<Page>>, need: set<Page>): set<Page> {
    set p | p in need && forall d :: 0 <= d < |pages| ==> p !in pages[d]
  }

  /** Those that are in one of the first `n` domains, but not at home. */
  ghost function Elsewhere(pages: seq<set<Page>>, home: nat, need: set<Page>, n: nat): set<Page>
    requires n <= |pages|
  {
    if n == 0 then {} else Elsewhere(pages, home, need, n - 1) + if n - 1 != home then pages[n - 1] * need else {}
  }

  lemma {:induction false} ElsewhereAt(pages: seq<set<Page>>, home: nat, need: set<Page>, n: nat, p: Page)
    requires n <= |pages|
    ensures p in Elsewhere(pages, home, need, n) <==> p in need && exists d :: 0 <= d < n && d != home && p in pages[d]
  {
    if n > 0 {
      ElsewhereAt(pages, home, need, n - 1, p);
    }
  }

  /** The number of pages fetched from a domain. */
  ghost function MovedFrom(events: map<nat, Event>, d: nat): nat {
    if d in events then |events[d].pages| else 0
  }

  /** The number of pages the events move. */
  ghost function MovedBy(events: map<nat, Event>, n: nat): nat {
    if n == 0 then 0 else MovedBy(events, n - 1) + MovedFrom(events, n - 1)
  }

  /** The pages needed are those already at home, those the events move, and those that are nowhere:
      no two events move the same page, and the numbers add up. */
  lemma EveryPageOnce(a: Arch, pages: seq<set<Page>>, job: Job, home: nat, need: set<Page>, events: map<nat, Event>)
    requires Separate(pages) && home < |pages| && Fetches(a, pages, job, home, need, events)
    ensures forall d, e :: d in events && e in events && d != e ==> events[d].pages !! events[e].pages
    ensures |pages[home] * need| + MovedBy(events, |pages|) + |Nowhere(pages, need)| == |need|
  {
    forall d, e | d in events && e in events && d != e
      ensures events[d].pages !! events[e].pages
    {
      assert Moves(a, job, home, d, pages[d] * need, events[d]) && Moves(a, job, home, e, pages[e] * need, events[e]);
      Apart(pages, d, e);
    }
    forall d: nat | d < |pages|
      ensures MovedFrom(events, d) == if d == home then 0 else |pages[d] * need|
    {
      assert d in events ==> Moves(a, job, home, d, pages[d] * need, events[d]);
    }
    MovedAre(pages, home, need, events, |pages|);
    Parts(pages, home, need);
  }

  /** At home, elsewhere or nowhere. */
  lemma Parts(pages: seq<set<Page>>, home: nat, need: set<Page>)
    requires Separate(pages) && home < |pages|
    ensures |pages[home] * need| + |Elsewhere(pages, home, need, |pages|)| + |Nowhere(pages, need)| == |need|
  {
    var here, moved, rest := pages[home] * need, Elsewhere(pages, home, need, |pages|), Nowhere(pages, need);
    forall p
      ensures p in moved <==> p in need && p !in rest && p !in here
    {
      ElsewhereAt(pages, home, need, |pages|, p);
    }
    assert need == here + moved + rest;
  }

  lemma NotElsewhere(pages: seq<set<Page>>, home: nat, need: set<Page>, n: nat)
    requires Separate(pages) && n < |pages|
    ensures Elsewhere(pages, home, need, n) !! pages[n]
  {
    forall p | p in pages[n]
      ensures p !in Elsewhere(pages, home, need, n)
    {
      ElsewhereAt(pages, home, need, n, p);
    }
  }

  lemma {:induction false} MovedAre(pages: seq<set<Page>>, home: nat, need: set<Page>, events: map<nat, Event>, n: nat)
    requires Separate(pages) && n <= |pages|
    requires forall d: nat :: d < |pages| ==> MovedFrom(events, d) == if d == home then 0 else |pages[d] * need|
    ensures MovedBy(events, n) == |Elsewhere(pages, home, need, n)|
  {
    if n > 0 {
      MovedAre(pages, home, need, events, n - 1);
      NotElsewhere(pages, home, need, n - 1);
      assert MovedFrom(events, n - 1) == if n - 1 == home then 0 else |pages[n - 1] * need|;
      assert Elsewhere(pages, home, need, n - 1) !! pages[n - 1] * need;
    }
  }

  /** The pages a thunk needs are each in exactly one domain: those that were somewhere have stayed
      there, the others have been placed at its home. */
  ghost predicate Residence(before: seq<set<Page>>, after: seq<set<Page>>, home: nat, need: set<Page>) {
    && |before| == |after| && home < |after|
    && after == before[home := before[home] + Nowhere(before, need)]
    && forall p :: p in need ==> exists d :: InOnly(after, p, d)
  }

  lemma NewPages(before: seq<set<Page>>, home: nat, need: set<Page>, rest: set<Page>)
    requires Separate(before) && home < |before|
    requires rest == Nowhere(before, need)
    ensures Residence(before, before[home := before[home] + rest], home, need)
  {
    var after := before[home := before[home] + rest];
    forall p | p in need
      ensures exists d :: InOnly(after, p, d)
    {
      if p in rest {
        assert InOnly(after, p, home);
      } else {
        var d :| 0 <= d < |before| && p in before[d];
        assert InOnly(after, p, d);
      }
    }
  }

  ghost predicate InOnly(pages: seq<set<Page>>, p: Page, d: nat) {
    d < |pages| && p in pages[d] && forall e :: 0 <= e < |pages| && e != d ==> p !in pages[e]
  }

  lemma ReservedOf(pending: set<Res>, r: Res, t: Job)
    requires r !in pending
    ensures |Of(pending + {r}, t)| == |Of(pending, t)| + if r.event.job == t then 1 else 0
  {
    if r.event.job == t {
      assert Of(pending + {r}, t) == Of(pending, t) + {r};
    } else {
      assert Of(pending + {r}, t) == Of(pending, t);
    }
  }
}
