# Verification of tthread's protocols

Models, in Dafny, of the parts of tthread whose correctness is spread over many functions and over whole
runs, with proofs for all inputs, all schedules and all reachable states.

**The twin-page commit** (`Pages`, `TwinBitmap`, `Persist`, `Memory`, `CommitRuns`, `CommitInvariant`,
`CommitTheorems`, `CommitOrder`). Processes work on private copies of shared pages. At a synchronisation
point the holder of the token merges its dirty pages: whole pages while the version is unchanged, byte
differences against a twin shared by all writers otherwise. The class `XPersist` does this in place for
one region, and `XMemory` for heap and globals, which commit one after the other with a common bitmap;
the state machine in `CommitRuns` runs it under every schedule. The main results say that each commit
publishes exactly the writer's own writes, and that the memory after a round depends on nothing but the
memory before it, the programs and the token order.

**Barriers** (`Barriers`, `BarrierRounds`, `BarrierFailures`, `BarrierTheorems`, `CommitFailure`). A
barrier that opens resets the twin counter, passes the token on and lets its threads run without a
fence, so that threads need not be in step any more. `Barriers` is the machine of threads, ring, token
and fence that this leads to. A barrier of all threads in the fence ends the round, and the commit
rounds go on; after any other the threads can deadlock, or a commit can be wrong.

**The deterministic scheduler** (`Fence`, `RingList`, `Queues`, `Scheduler`, `SchedulerRuns`, `Determ`).
A two-phase fence with changing membership, as a state machine with spinning and sleeping threads; a
token ring and waiting queues as circular linked lists. `RingList` and `Queues` do the pointer surgery,
`Scheduler` says what each operation means for lists, token, counts and states, and the class `Determ`
is proved to do just that in place.

**The trace graph and the simulator** (`Graphs`, `Trace`, `Programm`, `Reduction`, `TaskDag`, `Machine`,
`Execution`). A log becomes a happens-before graph and a "concurrent" relation; the graph is reduced in
place while it is being walked, expanded into tasks, and executed by counters and alarms over links,
CPUs and memory domains.

**The two file formats** (`Dtl`, `Schedule`). The trace file, written from an access log and read back;
the thunk schedule, assembled from text and read back by each thread.

**The local search of streamcluster** (`Sums`, `Blocks`, `FacilityCost`, `CenterTable`, `LocalSearch`,
`KMedian`, `Speedy`, `Clustering`). Blocks, per-thread rows and a prefix-summed table compute what a
definition of cost in one line says, and what is chosen is the best of all choices there are. Amounts are
real numbers.

**The allocator** (`SizeClasses`, `Layout`, `Heaps`). Per-index segregated free lists over zones over
one page-rounded source, with object headers and links in the same memory the program writes to.

Phases between two barriers, in which each thread touches only its own block and its own row, are run
thread by thread in an arbitrary order.

Where the model found limits of the code, it states exactly when the code is right:
`TwinBitmap.VersionKeepsSlots` (the version table overwrites twin slots from index 3071 on),
`Persist.SoleWriterNeedsSmallVersion` (versions past 32 bits), `BarrierTheorems.BarrierExact` (a barrier
that some thread in the fence does not take part in), `Trace.FinishNeedsCurrent` (a finish event that
does not name the current thunk), `Execution.Execution.Simulate` (task graphs with several starts),
`Dtl.ReadableExactly` (logs whose trace file is written and cannot be read), `Dtl.RoundTrip` (pages
touched before a thread's first thunk) and `Schedule.AffinityExact` (thunk numbers with gaps).

`Options` holds the option type. `dafny verify dfyconfig.toml` checks the whole project.

## Model

| member | source | states |
|---|---|---|
| `Pages.WritePageDiffs` | src/include/xpersist.h:485-530 | the word-skipping diff leaves exactly the byte overlay of the local page over the destination, and touches nothing else |
| `Pages.CommitWord` | src/include/xpersist.h:475-481 | one word: each byte that differs from the twin is copied, no other byte changes |
| `Pages.OverlayDeterminesBase` | src/include/xpersist.h:485-530 | two bases give the same result for every local page if and only if they are equal, so a diff against a wrong twin is always wrong for some write |
| `Pages.WholeCopyIsOverlay` | src/include/xpersist.h:764-767 | copying the whole page is the overlay when the shared page is the base |
| `TwinBitmap.SlotStored` | src/include/xbitmap.h:102-104 | a stored twin reads back and no other slot changes |
| `TwinBitmap.VersionKeepsSlots` | src/include/xbitmap.h:74-108 | recording a version leaves every twin intact if and only if the index is at most 3070: the table runs into the slots |
| `Persist.CommitIsOverlay` | src/include/xpersist.h:736-804 | a commit publishes the bytes that differ from a given snapshot, whatever the private copy, if and only if the snapshot is the page the commit compares with |
| `Persist.SoleWriterNeedsSmallVersion` | src/include/xpersist.h:764-780 | 64-bit versions are remembered in 32 bits: a sole writer's copy is published for certain if and only if the version fits, or the unused slot 0 happens to equal the page |
| `Persist.SlotTakenOver` | src/include/xpersist.h:750-780 | when a slot is given out again while a page has its live twin there, a stale writer of that page then compares with the other page: its commit is right for every write if and only if its snapshot equals that page |
| `TwinBitmap.VersionHitsSlot` | src/include/xbitmap.h:74-108 | past that limit, exactly four bytes of exactly one earlier slot change |
| `Persist.TwinPastLimit` | src/include/xpersist.h:533-559 | the writer hit by it: one with a stale copy of the page whose twin is in that slot; its commit is right for every write if and only if those four bytes of its snapshot equal the version of the page that got the new twin |
| `Persist.XPersist.HandleWrite` | src/include/xpersist.h:933-948 | a write fault counts one more user, remembers the version and makes a private copy |
| `Persist.XPersist.CreateTwinPage` | src/include/xpersist.h:533-559 | saves the shared page and its version under a fresh index |
| `Persist.XPersist.CheckAndCommit` | src/include/xpersist.h:720-804 | the loop over the dirty list does to pages, versions, users, indices and twin area what committing the entries in page order says |
| `CommitInvariant.StepInv` | src/include/xrun.h:515-622 | every step of every thread, in the parallel and in the serial phase, keeps the commit invariant |
| `CommitInvariant.RunInv` | src/include/xrun.h:515-622 | so does every schedule |
| `CommitTheorems.BaseIsSnapshot` | src/include/xpersist.h:750-789 | whenever the invariant holds, the page a token holder's commit compares with is the page as that writer first saw it, by the fast path and by the shared twin alike |
| `CommitTheorems.BaseInEveryRun` | src/include/xpersist.h:750-789 | so after every schedule from the initial state |
| `CommitTheorems.CommitPublishesOwnWrites` | src/include/xpersist.h:736-804 | whenever the invariant holds, a commit changes each shared byte to the local byte if it differs from the writer's own fault-time byte, and nothing else |
| `CommitTheorems.EveryCommitPublishes` | src/include/xpersist.h:736-804 | so does every commit step of every run from the initial state |
| `CommitTheorems.TwinBookkeeping` | src/include/xpersist.h:750-803 | over all runs: users = number of uncommitted copies, a stale writer has a twin equal to its snapshot, twins have different slots, and at the end of a round nothing is left for cleanup to drop |
| `CommitTheorems.RoundsAreDeterministic` | src/include/xrun.h:515-622 | for every schedule the memory at the start and at the end of each round is a function of the initial memory, the programs and the token order |
| `CommitOrder.LastCommitterWins` | src/include/xpersist.h:720-804 | a byte ends with the value of the last thread in token order that changed it |
| `CommitOrder.OrderIrrelevant` | src/include/xpersist.h:720-804 | when no byte is changed by two threads, every token order gives the same memory |
| `CommitOrder.RoundPublishes` | src/include/xrun.h:564-569 | the memory before each turn is the round-start memory with the earlier threads' copies merged in token order |
| `CommitOrder.RoundIgnoresOrder` | src/include/xrun.h:612-621 | a whole round with disjoint writes ends the same under any two token orders |
| `CommitOrder.OneTwinPerPage` | src/include/xbitmap.h:87-108 | a page gets at most one twin per round, so that heap and globals of at most 3070 pages together never meet the limit of the version table they share |
| `BarrierTheorems.BarrierExact` | src/include/determ.h:1051-1122 | what can come after a barrier opens, in the machine where the reset, the splice and the token pass are one step and the caller and the waiters run on without a fence: neither a deadlock nor, within the limits, a wrong commit is possible if and only if every thread in the fence takes part in the barrier |
| `BarrierTheorems.BarrierInEveryRun` | src/include/determ.h:1051-1122 | the same for the thread whose turn it is in every state of every run of the commit rounds from the initial state, whoever of the earlier threads are the waiters |
| `BarrierRounds.RoundStarts` | src/include/determ.h:1073-1097 | after a barrier of all threads the commit rounds' invariant holds again, with the first waiter first in the token order |
| `BarrierRounds.MovesInRounds` | src/include/xrun.h:631-648 | and every continuation is a run of the commit rounds |
| `BarrierRounds.NoDeadlock` | src/include/determ.h:341-423 | threads in step never all wait at different fences and for the token |
| `BarrierFailures.WaitersBlockPending` | src/include/determ.h:1073-1100 | waiters are released while others still wait for the token: the first waiter has the token but is kept out by the fence, which those others cannot reach |
| `BarrierFailures.WaitersBlockCaller` | src/include/determ.h:1073-1100 | the others are at the second fence: it opens for them and lets the waiters to the token; then it is at one of them, who waits at the first fence for the caller, who waits for the token |
| `BarrierFailures.CallerBlocked` | src/include/determ.h:1073-1100 | a barrier of one thread that was not the first in its round: the same, once the threads behind it have had the token |
| `BarrierFailures.CallerLosesAWrite` | src/include/xpersist.h:750-789 | a barrier of one thread that was the first in its round, for any number of others: it gets half a round out of step, and its commit of a page it has faulted again writes an older byte of its own over another thread's, though it has not touched that byte since |
| `CommitFailure.RefaultLosesAWrite` | src/include/xrun.h:631-648 | a run to that point from the initial state, for every program of at least two threads |
| `CommitFailure.ResetLosesAWrite` | src/include/determ.h:1073-1088 | a run from the initial state, for every memory with two different pages and at least three threads: the slot of a live twin is given out again, and a published byte is overwritten by a thread that never wrote to it |
| `Memory.TwoRegions` | src/include/xmemory.h:224-228 | committing the heap and then the globals, with the twins the heap's commit has made, commits the pages of both as one region |
| `Memory.XMemory.Commit` | src/include/xmemory.h:224-228 | the two commits in place do that |
| `Memory.XMemory.HandleWrite` | src/include/xmemory.h:192-201 | a fault in either region is a fault of the joined one |
| `Fence.RunInv` | src/include/determ.h:230-413 | every run, with threads joining and leaving, keeps the fence invariant |
| `Fence.FenceSafety` | src/include/determ.h:341-413 | nobody leaves generation g before every member has arrived in g or left; nobody is counted in g+1 while somebody is inside g; for spinning and for sleeping threads |
| `Fence.NoMissedPhase` | src/include/determ.h:349-398 | the phase a thread has seen, or sleeps for, cannot flip away before the thread has acted on it |
| `Fence.FenceProgress` | src/include/determ.h:349-412 | a measure that no step raises and some thread can always lower, until all calls are made |
| `Fence.StaysProductive` | src/include/determ.h:349-412 | a thread that can lower the measure stays able to until it moves, whatever other threads and spurious wakeups do |
| `Fence.FairRunsDrain` | src/include/determ.h:341-413 | on every fair schedule there is a time from which on all members in step have made all their calls |
| `Fence.EveryoneGetsThrough` | src/include/determ.h:341-413 | and on some schedule in no more steps than the measure |
| `RingList.InsertTail` | src/include/list.h:81-101 | pointer surgery: the ring with the entry appended |
| `RingList.InsertHead` | src/include/list.h:103-116 | the ring with the entry right behind a given one |
| `RingList.RemoveEntry` | src/include/list.h:129-151 | the ring without the entry, the new head, and the entry's own links untouched |
| `RingList.RemoveHeadEntry` | src/include/list.h:175-184 | takes the first entry; null on an empty list |
| `RingList.MoveWholeList` | src/include/list.h:53-79 | splices a whole ring in behind an entry, in order |
| `Queues.Lists.Transfer` | src/include/determ.h:838-844 | several linked lists over the same entries: the thread leaves one and ends another, every other list is untouched |
| `Queues.Lists.MoveAll` | src/include/determ.h:965-966 | one queue moves as a whole into the ring |
| `Scheduler.RegisterInv` | src/include/determ.h:473-499 | registering a thread keeps the scheduler invariant |
| `Scheduler.StartFenceInv` | src/include/determ.h:230-240 | starting the children's fence keeps it |
| `Scheduler.BarrierInitInv` | src/include/determ.h:1026-1048 | so does a new barrier |
| `Scheduler.PutTokenInv` | src/include/determ.h:425-459 | and passing the token |
| `Scheduler.CondWaitInv` | src/include/determ.h:822-855 | cond_wait keeps it, and the token stays in the ring if and only if the waiter was not alone |
| `Scheduler.CondSignalInv` | src/include/determ.h:894-935 | cond_signal keeps it |
| `Scheduler.CondBroadcastInv` | src/include/determ.h:937-977 | cond_broadcast keeps it |
| `Scheduler.BarrierWaitInv` | src/include/determ.h:1051-1107 | barrier_wait keeps it, and says when the token stays in the ring |
| `Scheduler.JoinInv` | src/include/determ.h:538-580 | join keeps it, and says when the token stays in the ring |
| `Scheduler.JoinWakeInv` | src/include/determ.h:570-596 | so does a joiner that wakes up, in vain or not |
| `Scheduler.DeregisterInv` | src/include/determ.h:615-667 | an exit keeps it |
| `Scheduler.DeregisterToken` | src/include/determ.h:622-660 | an exiting child hands the token to the parent that joins it, otherwise to its successor; the token stays in the ring if and only if somebody is left |
| `Scheduler.FenceAgrees` | src/include/determ.h:230-323 | the fence counts and the phase of the scheduler's model move as those of the fence's own state machine do, when a thread joins, leaves, or the children's fence starts |
| `SchedulerRuns.ApplyGood` | src/include/determ.h:425-667 | every operation keeps invariant and token |
| `SchedulerRuns.RunsKeepLists` | src/include/determ.h:425-667 | every run: lists disjoint, waiter counts = queue lengths, token in the ring, |ring| = fence members + children not yet fenced + joiners not yet awake |
| `SchedulerRuns.RunsKeepStatus` | src/include/determ.h:822-977 | every run, told from lists and states alone: a thread has the state of a waiter exactly when it is in some condition's queue, and so no thread that has been put back into the ring has; those in a barrier's queue wait at a barrier, and the ready ones are in the ring |
| `SchedulerRuns.RunsRemember` | src/include/determ.h:473-499 | every run: a thread's parent is the one given when it was last registered, a barrier's count the one it was last initialised with |
| `SchedulerRuns.QueuesInOrder` | src/include/determ.h:822-844 | every run: each queue is in the order in which its threads have blocked, the longest waiting one first |
| `SchedulerRuns.BarrierCounts` | src/include/determ.h:1051-1107 | after every run: a caller opens the barrier, and empties its queue, exactly when it is the last of the number given at its initialisation; otherwise it joins the queue |
| `SchedulerRuns.BlockedOrder` | src/include/determ.h:822-859 | when a thread blocks, the token goes on through the others in the order it would have had |
| `SchedulerRuns.TokenWalks` | src/include/determ.h:425-459 | putting the token k times moves it k places along the ring, once around if the ring is that long |
| `SchedulerRuns.BroadcastOrder` | src/include/determ.h:949-966 | after a broadcast the token visits the waiters right after the caller, in FIFO order, and then goes on as before; none of them waits any more |
| `SchedulerRuns.SignalOrder` | src/include/determ.h:909-921 | a signalled thread is the longest waiting one, is made ready, and gets the token next |
| `SchedulerRuns.BarrierOrder` | src/include/determ.h:1073-1107 | an opened barrier is left in order of arrival |
| `Determ.Determ.CallerFits` | src/include/determ.h:822-855 | the invariant of the scheduler gives every method below what it requires |
| `Determ.Determ.RegisterThread` | src/include/determ.h:473-499 | the pointer-level scheduler does exactly the list and field changes of the model above |
| `Determ.Determ.PassToken` | src/include/determ.h:425-459 | putToken: the token goes to the next entry of the ring, nothing else changes |
| `Determ.Determ.Wait` | src/include/determ.h:822-859 | cond_wait, up to the sleep |
| `Determ.Determ.Signal` | src/include/determ.h:894-935 | cond_signal |
| `Determ.Determ.Broadcast` | src/include/determ.h:937-977 | cond_broadcast, with its walk along the queue |
| `Determ.Determ.AwaitBarrier` | src/include/determ.h:1051-1107 | barrier_wait, both branches |
| `Determ.Determ.JoinThread` | src/include/determ.h:538-580 | join, up to the sleep |
| `Determ.Determ.WakeJoiner` | src/include/determ.h:570-596 | join, after a sleep |
| `Determ.Determ.DeregisterThread` | src/include/determ.h:615-667 | deregisterThread, with the joining parent put back first |
| `Trace.ReadInv` | src/racksim/racksim/programm.py:25-49 | reading any proper log keeps the trace invariant |
| `Trace.ConcurrentIsIncomparable` | src/racksim/racksim/programm.py:25-49 | for every log the recorded relation is exactly incomparability under happens-before; symmetric, irreflexive; no cycles |
| `Trace.ThreadsAreChains` | src/racksim/racksim/programm.py:32-37 | two thunks of one thread are always ordered, in one direction |
| `Trace.PastIsSettled` | src/racksim/racksim/programm.py:34-36 | later events never change the order among earlier thunks, and edges run forward in the log |
| `Trace.FinishNeedsCurrent` | src/racksim/racksim/programm.py:44-49 | after a finish event the relation stays exact for every next thunk if and only if the event named the thread's current thunk |
| `Programm.Programm.Add` | src/racksim/racksim/programm.py:25-42 | the loops over finished and current threads add exactly those edges and pairs; a known thunk is refused and changes nothing |
| `Programm.Programm.FinishThunk` | src/racksim/racksim/programm.py:44-49 | unknown thunk: refused; thread not running: fails after it has changed finished |
| `Programm.Programm.ReadLog` | src/racksim/racksim/programm.py:25-49 | reading a proper log event by event gives the trace of the whole log |
| `Programm.Programm.StartTasks` | src/racksim/racksim/programm.py:81-83 | the task graph made from a trace orders two thunks' tasks in neither direction exactly when the trace calls them concurrent |
| `Graphs.RemoveIndirect` | src/racksim/racksim/task.py:12-16 | removing an edge with a node in between changes no reachability |
| `Reduction.DiGraph.RemoveShortcuts` | src/racksim/racksim/task.py:14-16 | a depth-first walk that removes edges of the graph it is walking removes exactly the edges to what could be reached before |
| `Reduction.DiGraph.TransitiveReduction` | src/racksim/racksim/task.py:8-16 | for every acyclic graph and every order of iteration: exactly the edges with no node in between are left, and reachability is the same |
| `TaskDag.Expand` | src/racksim/racksim/task.py:18-38 | the task graph has exactly the edges of the three-way expansion |
| `TaskDag.TaskOrder` | src/racksim/racksim/task.py:26-38 | a task reaches another if and only if its thunk reaches the other's, or it is an earlier stage of the same thunk |
| `TaskDag.TaskGraphSound` | src/racksim/racksim/task.py:40-46 | acyclic if and only if the thunk graph is; a fetch task has one successor, its thunk |
| `TaskDag.Build` | src/racksim/racksim/task.py:18-46 | reduction and expansion together keep the order of thunks |
| `FacilityCost.OpeningExact` | eval/tests/streamcluster/streamcluster.cpp:1040-1109 | what the threads add up is the exact change of z * centers + sum of costs |
| `FacilityCost.AfterConsistent` | eval/tests/streamcluster/streamcluster.cpp:1116-1140 | the solution stays consistent, the number of centers included, also when x is a center already |
| `FacilityCost.SelfCloses` | eval/tests/streamcluster/streamcluster.cpp:1076-1092 | a center that is x itself always closes and is opened again |
| `FacilityCost.OpeningLeast` | eval/tests/streamcluster/streamcluster.cpp:1040-1109 | of all consistent solutions with x opened, some other centers closed and some points moved to x, none costs less than what the threads add up |
| `CenterTable.RankInjective` | eval/tests/streamcluster/streamcluster.cpp:995-1024 | two centers have the same number only if they are the same |
| `CenterTable.RankOnto` | eval/tests/streamcluster/streamcluster.cpp:995-1024 | every number below the count is some center's |
| `CenterTable.CellsApart` | eval/tests/streamcluster/streamcluster.cpp:968-977 | a center's cell is none of the two last cells of the stride, and different (thread, column) pairs have different cells |
| `LocalSearch.LocalSearch.BuildTable` | eval/tests/streamcluster/streamcluster.cpp:995-1029 | for every number of threads and every order of their turns, count, prefix sum and fix-up give each center the number of centers before it |
| `LocalSearch.LocalSearch.LowerCosts` | eval/tests/streamcluster/streamcluster.cpp:1040-1067 | a thread marks exactly the points that switch and adds up the rest by center |
| `LocalSearch.LocalSearch.CloseCosts` | eval/tests/streamcluster/streamcluster.cpp:1075-1096 | a thread records what closing its centers would save, and its totals in the two last cells, disturbing no cell another thread reads |
| `LocalSearch.LocalSearch.Aggregate` | eval/tests/streamcluster/streamcluster.cpp:1103-1110 | the totals are the number of closing centers and the cost of opening |
| `LocalSearch.LocalSearch.OpenAll` | eval/tests/streamcluster/streamcluster.cpp:1118-1137 | the threads turn the old solution into the new one |
| `LocalSearch.LocalSearch.Gain` | eval/tests/streamcluster/streamcluster.cpp:949-1158 | for every number of threads and every order of their turns: pgain leaves the solution as it was, or a cheaper one with x opened in which no point pays more than it would at x; returns the decrease; and what it leaves costs no more than any consistent solution with x opened, whatever other centers are closed and whatever points are moved |
| `KMedian.FacilityLocation` | eval/tests/streamcluster/streamcluster.cpp:1204-1240 | pFL: cost is the cost of the held solution at every round and never grows; the rounds end with one over the feasible points in some order that gained at most the part e of the cost, and there is none if e is 1 or more |
| `KMedian.LocallyOptimal` | eval/tests/streamcluster/streamcluster.cpp:1219-1236 | a round over all feasible points that gains nothing ends with a solution that no opening of any of them improves, whatever centers it closes and whatever points it moves |
| `KMedian.SearchFee` | eval/tests/streamcluster/streamcluster.cpp:1570-1607 | pkmedian: cost is the cost of the held solution through every change of z; the search is done exactly when the number of centers is in range or loz is at least 0.999 hiz; loz is the largest fee tried that gave too many centers, hiz the least that gave too few, and their distance halves at each try; a number in range comes from a round that gained at most 0.001 of the cost |
| `KMedian.NeverBack` | eval/tests/streamcluster/streamcluster.cpp:1585-1596 | a fee that gave too many centers is below all later ones, one that gave too few above all later ones |
| `Speedy.JoinedSeeded` | eval/tests/streamcluster/streamcluster.cpp:762-791 | a point that costs something becomes one more center and no center is lost |
| `Speedy.PSpeedy` | eval/tests/streamcluster/streamcluster.cpp:709-826 | for every outcome of the random choices: a point is a center exactly when its random number times z is less than what it would pay at every center before it; every point is assigned to the nearest center, the first of them if several are; the count is that of the centers and the cost returned the cost of the solution |
| `Speedy.MarkCenters` | eval/tests/streamcluster/streamcluster.cpp:1556-1564 | marking the assigned points makes the first solution consistent, which is what pgain starts from |
| `Clustering.LargestFee` | eval/tests/streamcluster/streamcluster.cpp:1500-1520 | the blocks together add up what all points cost with point 0 as the only center |
| `Clustering.FirstSolution` | eval/tests/streamcluster/streamcluster.cpp:1534-1551 | through every retry, cost and count are those of the first solution that is held, the one that the last random numbers used give under the facility cost halved once for each retry after the first; it has enough centers unless the random numbers are used up |
| `Clustering.PKMedian` | eval/tests/streamcluster/streamcluster.cpp:1475-1615 | the whole of pkmedian: the cost returned is that of the consistent solution held in the end under the last facility cost, with the end of the search as above; with no more points than centers, every point is on its own at no cost |
| `Machine.Machine.Schedule` | src/racksim/racksim/numanet.py:43-87 | the task's new reservations are one on its own device and, for each other domain that has some of its pages, one event on every link of the way, that moves all of these pages and takes the time for their number; old pages stay where they were, new ones come home, and each is in one domain |
| `Machine.EveryPageOnce` | src/racksim/racksim/numanet.py:45-79 | no two of a task's events move the same page, and pages at home + pages moved + pages nowhere = pages needed |
| `Machine.Machine.Fetch` | src/racksim/racksim/numanet.py:46-72 | whichever CPUs share domains: one event for each domain that has some of the pages, with exactly those pages and their time; what is left over is what no other domain has |
| `Machine.Machine.FirstTouch` | src/racksim/racksim/scheduler.py:14-16 | placing pages at their first use keeps the domains' page sets disjoint |
| `Machine.Machine.ProgressDevice` | src/racksim/racksim/device.py:37-86 | a link starts all its events, each for its own time; a memory domain starts one, over at once; a CPU one for its thunk's time, and none while it is busy |
| `Machine.Machine.Progress` | src/racksim/racksim/numanet.py:89-93 | no reservation is lost, no alarm lies in the past, and there is an alarm whenever anything is reserved |
| `Machine.Machine.GoOff` | src/racksim/racksim/event.py:13-19 | an alarm finishes its task exactly when it was the last of its reservations |
| `Machine.Machine.Complete` | src/racksim/racksim/numanet.py:95-105 | time moves to that of the last alarm to go off: no later one goes off, no earlier one is left, every finished task had one at that time, and no task could have finished before; all alarms go off if no task finishes; reports exactly the tasks whose reservations are all gone, once each |
| `Execution.Execution.Finish` | src/racksim/racksim/execution.py:142-151 | finishing a task keeps each count equal to the number of unfinished predecessors and makes ready exactly those with none left |
| `Execution.Execution.ScheduleReady` | src/racksim/racksim/execution.py:130-132 | every ready task is scheduled, and none that has been scheduled before |
| `Execution.StuckBehind` | src/racksim/racksim/execution.py:124-151 | when nothing is ready or at work, a task that has not begun has a start other than the entry behind it |
| `Execution.EveryEntryAllowed` | src/racksim/racksim/execution.py:124-151 | in a run's log every task begins once, at the very time at which the last of its predecessors finished, finishes once, and time never decreases |
| `Execution.Execution.Simulate` | src/racksim/racksim/execution.py:110-153 | every run on an acyclic task graph ends, keeps its log orderly and every page in at most one domain, and gets to the exit if and only if no task without predecessors other than the entry leads to it, otherwise it meets an empty alarm heap; every task finishes at the last of its own alarms, each set for the time its device takes, a thunk no sooner than its CPU time after it began; the time returned is that at which the exit begins |
| `Execution.TakesItsTime` | src/racksim/racksim/device.py:37-86 | a log whose finishes are at the last alarms of their tasks gives every thunk its CPU time |
| `Dtl.Ranges` | src/tthread-python/tthread/formats.py:238-249 | sorted, disjoint, maximal intervals that cover exactly the pages of the list, duplicates or not |
| `Dtl.DtlWriter.Save` | src/tthread-python/tthread/formats.py:157-194 | each event updates current thunks, order and page lists as the log says; a finish or end of a thread without a thunk fails |
| `Dtl.DtlWriter.Dump` | src/tthread-python/tthread/formats.py:196-236 | the rows announce, finish and end the thunks in order, and list for each announced thunk exactly its pages |
| `Dtl.Loader.Load` | src/racksim/racksim/programm.py:25-75 | reading accepts exactly the rows in which no thunk comes twice, a finish names a known thunk of a running thread, an end a known thunk other than 0 that has no time yet, and a range a known thunk; then it has exactly the listed pages and the trace of the thunk and finish rows |
| `Dtl.PageRange` | src/racksim/racksim/programm.py:63-75 | the closed interval of a row is read as all its pages, the last included |
| `Dtl.TouchedIs` | src/tthread-python/tthread/formats.py:174-194 | what the writer keeps for a thunk is what was logged during it, and for thunk 0 also what came before the thread's first thunk event |
| `Dtl.ReadableExactly` | src/tthread-python/tthread/formats.py:140-172 | for every interleaved log: it can be written and its dump read if and only if no thunk id comes twice, a thread finishes only if it has announced a thunk since its last finish, and ends its latest thunk, which is not 0, at most once; the finishes then name current thunks |
| `Dtl.TracedIs` | src/tthread-python/tthread/formats.py:157-172 | the thunk and finish rows of a dump are the log's thunk events and its finishes, each with its thread's latest thunk |
| `Dtl.StoppedIs` | src/tthread-python/tthread/formats.py:157-172 | a CPU time is written for a thunk exactly when the log has it in an end event of the thread while the thunk is its latest one |
| `Dtl.UntidyLogs` | src/racksim/racksim/programm.py:44-61 | three logs that are written and cannot be read: a finish before the first thunk event, two finishes in a row, the end of a thunk 0 |
| `Dtl.RoundTrip` | src/tthread-python/tthread/formats.py:140-249 | a dump is readable exactly when its log is so, and then a thunk gets exactly the pages logged between its event and the next one of its thread if and only if it is not a thunk 0 with other pages touched before it |
| `Dtl.WriteAndLoad` | src/racksim/racksim/main.py:14-33 | writer and reader together: success exactly on those logs, with their pages, the CPU times that the log gives, for exactly the thunks it gives them for, and the happens-before trace of their thunk and finish events |
| `Schedule.TableKeepsLast` | src/schas/schas.cpp:59-75 | the nested map holds for every thread and thunk the CPU of the last line that names them |
| `Schedule.Assemble` | src/schas/schas.cpp:52-93 | the loops write the flat encoding of that map |
| `Schedule.UpdateThread` | src/tthread/xsched.cpp:52-76 | the scan stops at the thread's header; aborts if only later threads follow; leaves the pointer as it was if none does |
| `Schedule.AffinityExact` | src/tthread/xsched.cpp:21-30 | a thunk's question is answered from its thread's own entries with its CPU if and only if the thread has it and exactly thunk - 1 entries come before; within the thread's entries it is refused otherwise; past them the read is outside |
| `Schedule.RoundTrip` | src/tthread/xsched.cpp:21-76 | for thunks numbered from 1 without a gap, a thread's part of the flat file gives back the last CPU named |
| `Schedule.Ask` | src/tthread/xsched.cpp:21-76 | text, file, the scan for the thread's part and the lookup as one: within a thread's entries the answer is the last CPU named exactly when the thread has the thunk and k - 1 before it, and a refusal otherwise; a thread not in the text is refused if a later one is, or makes do with its parent's part |
| `SizeClasses.Size2Class` | src/include/heaplayers/kingsleyheap.h:65-101 | the table and the shifting loop find the least power-of-two class that suffices, for every size; it is one of the bins up to the largest class size |
| `Layout.CarveSound` | src/include/heaplayers/zoneheap.h:111-120 | a block bumped off an arena is new and aligned, and blocks, arena room and source memory stay disjoint |
| `Heaps.Heaps.SourceMalloc` | src/include/xheap.h:104-144 | page-rounded bump allocation, and exactly when it gives up |
| `Heaps.Heaps.Refill` | src/include/heaplayers/zoneheap.h:74-101 | succeeds exactly when the source has the pages for an arena of the larger of request and chunk; the new arena has room for both, overlaps nothing, and no other heap's changes |
| `Heaps.Heaps.NewBlock` | src/include/warpheap.h:48-75 | a new block with its header, 0 exactly when neither the arena has room for both nor the source the pages for a new arena; from the front of the arena while it has room; no live block's contents change |
| `Heaps.Heaps.Pop` | src/include/heaplayers/util/sllist.h:55-62 | takes the first block off the list threaded through the freed blocks |
| `Heaps.Heaps.Push` | src/include/heaplayers/util/sllist.h:77-80 | puts a block on that list; only the freed block's own memory is written |
| `Heaps.Heaps.Store` | src/include/heaplayers/util/sllist.h:77-80 | whatever the program writes into its live blocks, headers and free lists stay intact |
| `Heaps.ServingClass` | src/include/heaplayers/segheap.h:342-353 | the class a freed size goes to is the largest not larger than it, so a size of a class goes to that class |
| `Heaps.Heaps.Malloc` | src/include/heaplayers/segheap.h:313-331 | for any heap and size: an aligned block, large enough, disjoint from every live block, whose header, and everybody else's contents, are intact; served from the list of the least sufficient class while it has one, and made new otherwise; 0 exactly when that list is empty or there is none for the size, and there is no room for a new block in arena and source |
| `Heaps.Heaps.FreeAny` | src/include/heaplayers/ansiwrapper.h:38-42 | freeing null changes nothing, anything else goes back to its list |
| `Heaps.Heaps.Free` | src/include/heaplayers/segheap.h:333-358 | a small block goes to the list its class is served from, on the given heap, whatever heap it came from; no small block is lost |

## Left out

- mmap, mprotect, signals, fork: a fault is a step, a private page a byte sequence.
- Page ownership and `mem_write` in xpersist: they bypass versions or signal other processes; every page is shared.
- The SSE variant of the page diff; the word-by-word one is modelled.
- The commit rounds have one region; by `Memory.TwoRegions` its pages are those of the heap followed by those of the globals. Memory-mapped files, a third kind of region, are not modelled.
- Runs in which a page's version no longer fits 32 bits or a round needs more than 3070 twins: the run theorems assume neither, and say so (`CommitRuns.HealthyRun`). `CommitOrder.OneTwinPerPage` shows when the second cannot happen, `Persist.TwinPastLimit` what it leads to. The `unsigned short` user count and twin index wrap in the class; more than 65535 users do not occur in the state machine.
- `xrun` commits once before it asks for the token when it spawns a thread (src/include/xrun.h:230); spawning is not a step of the commit rounds.
- The commit rounds of `CommitRuns` end by the second fence; a barrier of all threads ends them too (`BarrierRounds.RoundStarts`).
- `Barriers`: one barrier, and then no other; the fence opens for all threads in one step (`Fence` has its steps); threads that are blocked elsewhere, and so are not in the fence, take no part.
- `BarrierTheorems.BarrierExact`: for at most 3070 pages and versions with room for one more round; a deadlock or a wrong commit is possible after a partial barrier, not certain.
- cancel and sig_wait; locks and their ownership budget.
- Joins by threads other than the parent, and blocking or exiting as the only thread in the ring: the original asserts or assumes them away.
- The scheduler's model takes each operation as one step under the mutex; busy waiting for the token is not a step.
- `Fence`: members that join are enrolled in an arrival phase; the original also relies on nobody running.
- `Trace` has no CPU, times or page sets; pages and CPU times are in `Dtl`, CPUs in `Machine`.
- `pgain` on floating point: rounding is not modelled. The TBB variants, and the random draws beyond being arbitrary.
- `Clustering.PKMedian`: the loops that repeat `pspeedy` run until enough centers are open or the given lists of random numbers are used up; the choice of feasible points is an input, and the shuffles of the points in between are left out. Points that all coincide, for which the facility cost is 0, are excluded.
- `KMedian.SearchFee`: the original search has no bound on its rounds; the model runs any given number of them.
- The working memory of pgain is a flat array of rows in the original; the model has rows and columns, and `CenterTable.CellsApart` shows that the flat cells are as distinct.
- MagicTouch, RandomTouch, MoveHereCommit and MmcpMigration: they break page residence or rest on graph centrality; the machine has first touch and no move on commit.
- Shortest paths and page times are given functions; a path names links, each once.
- The simulator's exit has predecessors; the original leaves it undefined otherwise, or when no task has none.
- Rows and schedule files are lists of values; parsing and the four-byte layout of integers are not modelled. A read past the end of a schedule file is `Outside`.
- `Fence.FairRunsDrain`: for members in step and no change of membership.
- The allocator's memory is made of eight-byte words at aligned addresses; sizes do not wrap around. A source without memory ends the original program; here malloc returns 0.
- Arena headers are fields of the heap; their bytes are reserved. calloc, realloc and locks.
- SegHeap::malloc with its bit map, which StrictSegHeap overrides.
