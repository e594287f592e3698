/** The deterministic scheduler (determ.h): the thread entries are linked into the active ring and
    the waiting queues in place, and each operation does to them what module Scheduler says. */
module Determ {
  import opened Options
  import opened RingList
  import opened Queues
  import opened Scheduler

  lemma WokenOne(status: seq<Status>, x: nat)
    requires x < |status|
    ensures Woken(status, [x]) == status[x := Ready]
  {
  }

  class Determ {
    const lists: Lists
    var tokenpos: Option<nat>
    var maxthreads: nat
    var currthreads: nat
    var arrival: bool
    var alive: nat
    var waiters: map<nat, nat>
    var limit: map<nat, nat>
    var threads: map<nat, nat>
    var status: seq<Status>
    var parent: seq<nat>
    var joinee: seq<nat>
    ghost var pending: set<nat>
    ghost var rejoining: set<nat>

    ghost function View(): Sched
      reads this, lists`contents
    {
      Sched(lists.contents, tokenpos, maxthreads, currthreads, arrival, alive, waiters, limit, threads,
            status, parent, joinee, pending, rejoining)
    }

    ghost predicate Valid()
      reads this, lists, Elements(lists.entries)`prev, Elements(lists.entries)`next
    {
      lists.Valid() && |lists.entries| == |status| == |parent| == |joinee|
    }

    ghost predicate InRing(my: nat)
      reads this, lists`contents
    {
      my < |status| && my in At(lists.contents, Active)
    }

    /** What the invariant of the scheduler gives the methods. */
    lemma CallerFits(my: nat, c: nat)
      requires Inv(View()) && HoldsToken(View(), my)
      ensures InRing(my)
      ensures |At(lists.contents, Cond(c))| == Get(waiters, c)
      ensures ParentJoins(View(), my) ==> Free(lists.contents, parent[my])
    {
      if ParentJoins(View(), my) {
        var p := parent[my];
        assert StatusOk(View(), p) && StatusOk(View(), my);
        assert forall q, j :: 0 <= j < |At(lists.contents, q)| ==> At(lists.contents, q)[j] in At(lists.contents, q);
      }
    }

    constructor (n: nat)
      ensures Valid() && |status| == n && View() == Sched(map[], None, 0, 0, false, 0, map[], map[], map[],
                                                          seq(n, _ => Exit), seq(n, _ => 0), seq(n, _ => 0), {}, {})
    {
      lists := new Lists(n);
      tokenpos, maxthreads, currthreads, arrival, alive := None, 0, 0, false, 0;
      waiters, limit, threads := map[], map[], map[];
      status, parent, joinee := seq(n, _ => Exit), seq(n, _ => 0), seq(n, _ => 0);
      pending, rejoining := {}, {};
    }

    // The changes of single fields.

    method SetToken(t: nat)
      requires Valid()
      modifies this`tokenpos
      ensures Valid() && View() == old(View()).(token := Some(t))
    {
      tokenpos := Some(t);
    }

    method SetStatus(x: nat, st: Status)
      requires Valid() && x < |status|
      modifies this`status
      ensures Valid() && View() == old(View()).(status := old(status)[x := st])
    {
      status := status[x := st];
    }

    /** incrFence. */
    method IncrementFence(n: nat)
      requires Valid()
      modifies this`maxthreads
      ensures Valid() && View() == old(View()).(max := old(maxthreads) + n)
    {
      maxthreads := maxthreads + n;
    }

    method SetWaiters(c: nat, n: nat)
      requires Valid()
      modifies this`waiters
      ensures Valid() && View() == old(View()).(waiters := old(waiters)[c := n])
    {
      waiters := waiters[c := n];
    }

    method SetThreads(b: nat, n: nat)
      requires Valid()
      modifies this`threads
      ensures Valid() && View() == old(View()).(threads := old(threads)[b := n])
    {
      threads := threads[b := n];
    }

    method SetJoinee(my: nat, guest: nat)
      requires Valid() && my < |joinee|
      modifies this`joinee
      ensures Valid() && View() == old(View()).(joinee := old(joinee)[my := guest])
    {
      joinee := joinee[my := guest];
    }

    method DecrementFence()
      requires Valid()
      modifies this`maxthreads, this`arrival
      ensures Valid() && View() == DecrFence(old(View()))
    {
      maxthreads := if maxthreads > 0 then maxthreads - 1 else SIZE_MAX;
      if currthreads >= maxthreads {
        if arrival && maxthreads != 0 {
          arrival := false;
        }
      }
    }

    method RegisterThread(t: nat, parentindex: nat)
      requires Valid() && t < |status| && Free(lists.contents, t)
      modifies this, lists, Elements(lists.entries)`prev, Elements(lists.entries)`next
      ensures Valid() && View() == Register(old(View()), t, parentindex)
    {
      parent := parent[t := parentindex];
      if tokenpos == None {
        tokenpos := Some(t);
      }
      status := status[t := Ready];
      lists.Append(t, Active);
      pending := pending + {t};
    }

    /** The parent lets the `n` children it has spawned into the fence. */
    method StartChildren(n: nat)
      requires Valid()
      modifies this
      ensures Valid() && View() == StartFence(old(View()), n)
    {
      IncrementFence(n);
      alive := alive + n;
      arrival := true;
      pending := {};
    }

    method PassToken(my: nat)
      requires Valid() && InRing(my)
      modifies this`tokenpos
      ensures Valid() && View() == PutToken(old(View()), my)
    {
      var next := lists.NextOf(my, Active, Position(TokenRing(View()), my));
      SetToken(next);
    }

    method Wait(my: nat, c: nat)
      requires Valid() && InRing(my)
      modifies this, lists, Elements(lists.entries)`prev, Elements(lists.entries)`next
      ensures Valid() && View() == CondWait(old(View()), my, c)
    {
      var next := lists.Transfer(my, Active, Position(TokenRing(View()), my), Cond(c));
      SetWaiters(c, Get(waiters, c) + 1);
      SetStatus(my, CondWaiting);
      DecrementFence();
      SetToken(next);
    }

    method Signal(my: nat, c: nat)
      requires Valid() && InRing(my) && |At(lists.contents, Cond(c))| == Get(waiters, c)
      modifies this, lists, Elements(lists.entries)`prev, Elements(lists.entries)`next
      ensures Valid() && View() == CondSignal(old(View()), my, c)
    {
      if Get(waiters, c) == 0 {
        return;
      }
      var x := lists.Release(my, Active, Position(TokenRing(View()), my), Cond(c));
      SetStatus(x, Ready);
      IncrementFence(1);
      SetWaiters(c, waiters[c] - 1);
      WokenOne(old(status), x);
    }

    /** Walks along the queue of `c` and makes its threads ready. */
    method WakeAll(c: nat)
      requires Valid() && |At(lists.contents, Cond(c))| == Get(waiters, c) > 0
      modifies this`status
      ensures status == Woken(old(status), At(lists.contents, Cond(c)))
    {
      ghost var s := At(lists.contents, Cond(c));
      ghost var l := lists.List(lists.contents, Cond(c));
      assert lists.Linked(lists.contents, Cond(c)) && IsHead(lists.First(Cond(c)), l);
      var entry := lists.First(Cond(c));
      var n := waiters[c];
      var k := 0;
      assert Woken(status, s[..0]) == status;
      while k < n
        invariant 0 <= k <= n == |s| && entry == l[if k < n then k else 0]
        invariant status == Woken(old(status), s[..k])
      {
        assert entry == lists.entries[s[k]] && entry.next == Successor(l, k);
        assert s[..k + 1] == s[..k] + [s[k]];
        status := status[entry.index := Ready];
        entry := entry.next;
        k := k + 1;
      }
      assert s[..n] == s;
    }

    method Broadcast(my: nat, c: nat)
      requires Valid() && InRing(my) && |At(lists.contents, Cond(c))| == Get(waiters, c)
      modifies this, lists, Elements(lists.entries)`prev, Elements(lists.entries)`next
      ensures Valid() && View() == CondBroadcast(old(View()), my, c)
    {
      if Get(waiters, c) == 0 {
        return;
      }
      ghost var i := Position(TokenRing(View()), my);
      WakeAll(c);
      lists.MoveAll(my, Active, i, Cond(c));
      IncrementFence(waiters[c]);
      SetWaiters(c, 0);
    }

    method InitBarrier(b: nat, count: nat)
      requires Valid()
      modifies this`limit, this`threads
      ensures Valid() && View() == BarrierInit(old(View()), b, count)
    {
      limit := limit[b := count];
      threads := threads[b := 0];
    }

    method AwaitBarrier(my: nat, b: nat)
      requires Valid() && InRing(my) && b in limit && b in threads
      modifies this, lists, Elements(lists.entries)`prev, Elements(lists.entries)`next
      ensures Valid() && View() == BarrierWait(old(View()), my, b)
    {
      if threads[b] + 1 == limit[b] {
        OpenBarrier(my, b);
      } else {
        BlockAtBarrier(my, b);
      }
    }

    method OpenBarrier(my: nat, b: nat)
      requires Valid() && InRing(my) && b in limit && b in threads && threads[b] + 1 == limit[b]
      modifies this, lists, Elements(lists.entries)`prev, Elements(lists.entries)`next
      ensures Valid() && View() == BarrierWait(old(View()), my, b)
    {
      ghost var i := Position(TokenRing(View()), my);
      lists.MoveAll(my, Active, i, Bar(b));
      MovedKeeps(old(lists.contents), Active, i, Bar(b));
      var next := lists.NextOf(my, Active, i);
      IncrementFence(limit[b] - 1);
      SetThreads(b, 0);
      SetToken(next);
    }

    method BlockAtBarrier(my: nat, b: nat)
      requires Valid() && InRing(my) && b in limit && b in threads && threads[b] + 1 != limit[b]
      modifies this, lists, Elements(lists.entries)`prev, Elements(lists.entries)`next
      ensures Valid() && View() == BarrierWait(old(View()), my, b)
    {
      var next := lists.Transfer(my, Active, Position(TokenRing(View()), my), Bar(b));
      SetThreads(b, threads[b] + 1);
      SetStatus(my, BarrWaiting);
      DecrementFence();
      SetToken(next);
    }

    /** The part of `join` before the joiner sleeps, if it has to. */
    method JoinThread(my: nat, guest: nat) returns (wait: bool)
      requires Valid() && InRing(my) && guest < |status|
      modifies this, lists, Elements(lists.entries)`prev, Elements(lists.entries)`next
      ensures Valid() && View() == Join(old(View()), my, guest) && (wait <==> old(status[guest]) != Exit)
    {
      wait := status[guest] != Exit;
      if wait {
        BlockForJoin(my, guest);
      } else {
        SetStatus(my, Ready);
      }
    }

    method BlockForJoin(my: nat, guest: nat)
      requires Valid() && InRing(my) && guest < |status| && status[guest] != Exit
      modifies this, lists, Elements(lists.entries)`prev, Elements(lists.entries)`next
      ensures Valid() && View() == Join(old(View()), my, guest)
    {
      var next, empty := lists.Leave(my, Active, Position(TokenRing(View()), my));
      SetJoinee(my, guest);
      SetStatus(my, Joining);
      DecrementFence();
      if !empty {
        SetToken(next);
      }
    }

    /** The part of `join` after a sleep. */
    method WakeJoiner(my: nat) returns (wait: bool)
      requires Valid() && my < |status| && joinee[my] < |status|
      modifies this
      ensures Valid() && View() == JoinWake(old(View()), my) && (wait <==> old(status[joinee[my]]) != Exit)
    {
      IncrementFence(1);
      wait := status[joinee[my]] != Exit;
      if wait {
        DecrementFence();
      } else {
        SetStatus(my, Ready);
        rejoining := rejoining - {my};
      }
    }

    /** The parent that joins `my` comes back into the ring, behind it. */
    method ReadmitParent(my: nat)
      requires Valid() && InRing(my)
      requires ParentJoins(View(), my) ==> Free(lists.contents, parent[my]) && parent[my] != my
      modifies this`rejoining, lists, Elements(lists.entries)`prev, Elements(lists.entries)`next
      ensures Valid()
      ensures var s := old(View());
              View() == s.(lists := WithParent(s, my),
                           rejoining := if ParentJoins(s, my) then s.rejoining + {s.parent[my]} else s.rejoining)
      ensures var i := Position(TokenRing(old(View())), my);
              i < |At(lists.contents, Active)| && At(lists.contents, Active)[i] == my
    {
      ghost var i := Position(TokenRing(View()), my);
      var p := parent[my];
      if p < |status| && status[p] == Joining && joinee[p] == my {
        InsertedIndex(At(lists.contents, Active), i, [p], i);
        lists.Insert(p, my, Active, i);
        rejoining := rejoining + {p};
        assert lists.Valid();
      }
    }

    method CountOut()
      requires Valid()
      modifies this`alive, this`maxthreads, this`arrival
      ensures Valid() && View() == var s := old(View()); if s.alive > 0 then DecrFence(s.(alive := s.alive - 1)) else s
    {
      if alive > 0 {
        alive := alive - 1;
        assert lists.Valid();
        DecrementFence();
      }
    }

    method LeaveRing(my: nat, ghost i: nat) returns (next: nat)
      requires Valid() && i < |At(lists.contents, Active)| && At(lists.contents, Active)[i] == my
      modifies lists, Elements(lists.entries)`prev, Elements(lists.entries)`next
      ensures Valid() && View() == old(View()).(lists := Removed(old(lists.contents), Active, i))
      ensures next == Successor(At(old(lists.contents), Active), i)
    {
      var empty;
      next, empty := lists.Leave(my, Active, i);
    }

    method DeregisterThread(my: nat)
      requires Valid() && InRing(my)
      requires ParentJoins(View(), my) ==> Free(lists.contents, parent[my]) && parent[my] != my
      modifies this, lists, Elements(lists.entries)`prev, Elements(lists.entries)`next
      ensures Valid() && View() == Deregister(old(View()), my)
    {
      ghost var i := Position(TokenRing(View()), my);
      ReadmitParent(my);
      CountOut();
      var next := LeaveRing(my, i);
      SetStatus(my, Exit);
      SetToken(next);
    }
  }
}
