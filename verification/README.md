# RT-Thread kernel: verified models

This project models the concurrency- and memory-critical core of the RT-Thread 5.2.2 kernel, and two of its
tools, in Dafny and proves what they promise. Each component has

- a module of pure definitions (the state as a datatype, each operation as a function of it, the invariant),
- modules of theorems about those definitions, and
- where the source updates state in place, a class whose fields are the source's own fields and whose methods
  follow the source's code statement by statement; every such method is proved to compute exactly the
  specification function, so the theorems are theorems about the code.

| component | source | files |
|---|---|---|
| mutexes with priority inheritance | `ipc.c`, `thread.c` | MutexSpec, MutexTheorems, MutexOwnership, MutexCeilings, MutexTimeouts, MutexKernel |
| multi-core scheduler | `scheduler_mp.c`, `scheduler_comm.c`, `thread.c` | ThreadState, SmpSpec, SmpTheorems, SmpEffects, SmpSharing, SmpTurns, SmpScheduler |
| single-core scheduler, ready bitmap | `scheduler_up.c`, `scheduler_comm.c`, `kservice.c` | Ffs, ReadyIndex, UpSpec, UpTheorems, UpEffects, UpScheduler |
| timers | `timer.c`, `clock.c` | TimerSpec, TimerTheorems, TimerRuns, TimerWheel |
| message queues | `ipc.c` | MessageQueue, MqTheorems, MqContents, MqNodes, MqRegions |
| events | `ipc.c` | EventFlags |
| lock-free list | `rtatomic.h` | LockFreeList |
| small-memory allocator | `mem.c` | HeapChain, SmallMem, Bytes |
| memory heap with a free list | `memheap.c` | HeapChain, RingList, MemHeapSpec, MemHeap, Bytes |
| slab allocator | `slab.c` | SlabPages, SlabZones, SlabSpec, SlabTheorems, SlabHeap, SlabReserves, SlabAllocator, Bytes |
| worst-case stack analysis | `tools/WCS.py` | CallGraph, StackAnalysis |
| firmware packer and inspector | `tools/xmaker_re.py` | Crc16, CrcDivision, XmakerFormat, XmakerBody, XmakerInspect, XmakerPacker, XmakerDcf, XmakerUnpack |

`Common.dfy` holds small facts about sequences. Verify everything with `dafny verify dfyconfig.toml`.

Properties that turned out not to hold as one might expect are stated with the exact condition under which they do:

- Timeouts that are pairwise less than half the tick range apart need not have an order at all
  (`TimerTheorems.PairwiseIsNotEnough`); a common window is enough and needed (`TimerTheorems.WindowIsEnoughAndNeeded`).
- A mutex handed over to its next owner does not apply its ceiling to it: `MutexTheorems.ReleaseKeeps` has the exact
  condition, `MutexCeilings.CeilingMissed` a run of four calls that gets there.
- A message pool with room for 65536 messages or more is only used modulo 65536 (`MqTheorems.WholePool`).
- A wait for a mutex that times out can leave the owner with the waiter's priority (`MutexTimeouts.CleanUpExact`,
  `MutexTimeouts.BoostLeftBehind`).
- A late expiry pass can miss a timer that is due (`TimerTheorems.OvertakenExactly`, `TimerRuns.LatePassMisses`), and a
  fired timer can stay marked as started although it is not (`TimerTheorems.MarkAfterFiring`, `TimerRuns.MarkStranded`).
- Threads bound to no CPU can starve behind two equals that are bound to one (`SmpSharing.GlobalGetsTurn`).
- On several cores a preempted thread with time left can lose its turn, to an equal bound to the CPU when it is bound to
  none, and one whose slice is over can keep it, when it is alone in the CPU's own table (`SmpTurns.TurnKept`).
- In the priority build an urgent message can be overtaken by an ordinary one that is linked later
  (`MqContents.UrgentNext`).
- The memory heap refuses a request for exactly what is left (`MemHeapSpec.RefusedLastFit`); every new heap refuses the
  request for all that it has (`MemHeap.FreshRefusesAll`).
- The slab allocator aligns power-of-two chunks only up to the page size: `SlabHeap.AllocAligned` has the exact condition,
  `SlabHeap.FreshMisaligned` and `SlabHeap.FreshRunMisaligned` are first allocations that are not aligned.
- It also returns null for a request of zero bytes, although the comment at `rtt/src/slab.c:113` says otherwise (`SlabHeap.AllocAdds`).

## Model

| member | source | states |
|---|---|---|
| MutexTheorems.RunInherits | rtt/src/ipc.c:828-943 | over every run of takes, nested takes, releases and timeouts from a fresh system without ceilings and without deadlock, after every step each thread's current priority is the best initial priority among itself and all threads transitively blocked on it, and each mutex shows its first waiter's priority |
| MutexOwnership.MutualExclusion | rtt/src/ipc.c:1327-1717 | mutual exclusion, told from the results of the calls alone: in every run of takes, releases and timeouts from a fresh system, deadlocks included, at most one thread has had more successful takes (at once, or on coming back from a wait) than releases of a mutex; that thread is its owner and its surplus is the hold count, and no surplus is ever negative |
| MutexOwnership.WaitsForAnother | rtt/src/ipc.c:1398-1461 | in every such run a take that has not come back yet waits for a mutex on which some other thread is ahead |
| MutexOwnership.TakeOutcome | rtt/src/ipc.c:1341-1445 | the status and the effect of a take: success exactly if the mutex is free or the caller's own below the limit of holds, full at that limit, a wait or a refusal exactly if it is somebody else's; a success counts one more hold for the caller, a refused take changes nothing at all |
| MutexOwnership.ReleaseOutcome | rtt/src/ipc.c:1591-1717 | the status and the effect of a release: success exactly for the owner, anybody else changes nothing; a nested release counts one hold less, the last one frees the mutex or, if anybody waits for it, gives it to one of the most urgent of those, who is woken |
| MutexTheorems.InheritsExactly | rtt/src/ipc.c:845-921 | in any consistent acyclic state, ceilings included: a thread's priority is the minimum of the base priorities of the threads that reach it through the wait-for chain, attained by one of them |
| MutexTheorems.UrgencyFlows | rtt/src/ipc.c:869-921 | along any wait chain, of any length and even in a deadlock, whoever is waited for is at least as urgent as every thread waiting for it |
| MutexTheorems.ReleaseKeeps | rtt/src/ipc.c:1591-1717 | a release keeps sorted queues, exact mutex priorities, ownership links and exact thread priorities if and only if the ceiling of the handed-over mutex does not beat the next owner (the code does not apply the ceiling on hand-over) |
| MutexTheorems.TakeDeadlocks | rtt/src/ipc.c:1327-1537 | a take leaves the wait-for graph acyclic if and only if the mutex's owner is not already waiting, directly or indirectly, for the caller |
| MutexTheorems.ReleaseAcyclic | rtt/src/ipc.c:1591-1717 | a release never closes a cycle of waits |
| MutexTheorems.TimeoutAcyclic | rtt/src/thread.c:146-174 | a timeout never closes a cycle of waits |
| MutexTheorems.DetachKeeps | rtt/src/ipc.c:1463-1527 | taking a timed-out waiter off its queue leaves every other thread exact, and leaves its mutex's owner exact too unless the two had the same priority, which is just the code's test for refreshing the owner |
| MutexSpec.Propagate | rtt/src/ipc.c:869-921 | the propagation loop terminates, also on a cyclic wait graph, because each pass moves priorities in one direction; it restores the whole invariant |
| MutexSpec.Take | rtt/src/ipc.c:1327-1537 | take, including the ceiling, the nested take and the boost of the owner chain, keeps the whole invariant; what its statuses mean is MutexOwnership.TakeOutcome |
| MutexSpec.RequeueKeeps | rtt/src/ipc.c:889-914 | one pass of the loop re-sorts the queue and repairs the mutex priority, and leaves at most the owner of that mutex inexact |
| MutexSpec.EnqueueSorted | rtt/src/ipc.c:241-285 | insertion by priority keeps a queue sorted |
| MutexSpec.EnqueuePosition | rtt/src/ipc.c:241-285 | the new waiter stands behind every waiter that is at least as urgent and in front of every less urgent one: first come first served among equals |
| MutexKernel.Kernel.ThreadGetMutexPriority | rtt/src/ipc.c:845-867 | the loop over the taken list computes the minimum of the initial priority and every held mutex's priority-or-ceiling |
| MutexKernel.Kernel.SuspListEnqueue | rtt/src/ipc.c:241-285 | the list walk inserts where the specification says |
| MutexKernel.Kernel.UpdatePass | rtt/src/ipc.c:881-914 | one turn of the loop body is exactly one specified pass |
| MutexKernel.Kernel.ThreadUpdatePriority | rtt/src/ipc.c:869-921 | the while loop terminates and its final state is the specified propagation |
| MutexKernel.Kernel.Take | rtt/src/ipc.c:1327-1537 | the code's branches, status codes and final state are those of the specified take, so MutexOwnership.TakeOutcome and MutualExclusion hold of the code |
| MutexKernel.Kernel.Release | rtt/src/ipc.c:1591-1717 | the code's branches, status codes and final state are those of the specified release, so MutexOwnership.ReleaseOutcome and MutualExclusion hold of the code |
| MutexKernel.Kernel.Timeout | rtt/src/ipc.c:1463-1527 | timeout followed by the woken thread's clean-up is the specified timeout step |
| MutexCeilings.CeilingMissed | rtt/src/ipc.c:1591-1717 | on a new system, setting a ceiling of 5, taking the mutex and queueing a second thread for it leads to a consistent state from which the release leaves the new owner without the ceiling |
| MutexCeilings.SetCeiling | rtt/src/ipc.c:1152-1184 | setting a ceiling keeps the whole invariant: the owner and everybody it waits for get exactly the priority that follows from the new ceiling |
| MutexKernel.Kernel.SetPrioCeiling | rtt/src/ipc.c:1152-1184 | the code's branches, result and final state are those of the specified change; a priority out of range changes nothing and returns 0xff |
| MutexTimeouts.CleanUpExact | rtt/src/ipc.c:1463-1527 | with the timeout and the woken thread's clean-up as two steps and others acting in between: the clean-up makes every priority exact again if and only if the mutex has no owner, its equality test fires, or the owner needs no change |
| MutexTimeouts.BoostLeftBehind | rtt/src/ipc.c:1487-1520 | the test can miss: from fresh objects, three takes, a timeout, and a more urgent thread blocking on something the woken thread owns leave an owner at the priority of a thread that no longer waits for it, with nobody queued |
| MutexTimeouts.BoundedOwner | rtt/src/ipc.c:845-921 | while clean-ups are outstanding an owner is still at least as urgent as every thread queued for its mutex |
| MutexTimeouts.WakeBounded | rtt/src/thread.c:146-174 | any number of waits may time out before anybody has cleaned up, and that one-sided bound, the sorted queues and the links all survive |
| MutexTimeouts.TwoSteps | rtt/src/ipc.c:1463-1527 | with nothing in between the two steps are the timeout taken as one |
| MutexTimeouts.TakeBehindIsTake | rtt/src/ipc.c:1403-1445 | blocking on a mutex whose owner is not itself waiting is that branch of the specified take |
| MutexKernel.Kernel.Wake | rtt/src/thread.c:146-174 | the interrupt's part: off the queue and ready, nothing else |
| MutexKernel.Kernel.CleanUp | rtt/src/ipc.c:1463-1527 | the code of the clean-up computes the specified one, also with a priority that changed in between |
| MutexKernel.Kernel.ComeBack | rtt/src/ipc.c:1453-1527 | a take that had blocked comes back successful exactly if the thread is now the owner, changing nothing, and otherwise as timed out after the clean-up |
| SmpTheorems.RunSafe | rtt/src/scheduler_mp.c:276-406 | over every interleaving of start, suspend, resume, re-bind, priority change, yield and schedule steps on any CPUs: each CPU has exactly one thread with that `oncpu`, a READY thread is detached and in exactly the queue of its binding and priority, no other thread is in any queue, and the priority bits agree with the queues |
| SmpTheorems.ResumedBeforeLeaving | rtt/src/scheduler_mp.c:280-294 | in any such run during which one CPU does not schedule, its thread stays its current thread and never enters any ready queue, however often it is suspended and resumed from anywhere; a resume just marks it running again |
| SmpTheorems.ScheduleRunsTheBest | rtt/src/scheduler_mp.c:625-713 | after a schedule the CPU runs a RUNNING thread it is allowed to run, and no ready thread of the global or its own table is strictly better, even if its previous thread was suspended or re-bound elsewhere |
| SmpTheorems.RoundRobin | rtt/src/scheduler_mp.c:637-690 | when equals share a CPU, k slice ends rotate their queue by k, so each of n equals runs for exactly one slice in n, always in the same order |
| SmpTurns.TurnKept | rtt/src/scheduler_mp.c:315-352 | after a better thread has woken up, got the CPU and gone to sleep again: a thread with time left goes on, every table being as before, if it is bound to the CPU or nobody as good is; otherwise the first of those bound there goes ahead of it and it is the first in the global table; a slice that was over just ends, unless the thread is alone in the CPU's own table |
| SmpTurns.CircleKept | rtt/src/scheduler_mp.c:315-352 | among equals that share a table, the CPU's own or the global one, such a preemption leaves the running thread and the waiting equals in the same order if the thread had not yielded, and rotated by one if it had |
| SmpTurns.TurnKeptExactly | rtt/src/scheduler_mp.c:239-273 | a preempted thread with time left has the CPU again afterwards if and only if it is bound to that CPU or none of its waiting equals is |
| SmpEffects.SwitchesOnlyFor | rtt/src/scheduler_mp.c:641-668 | a schedule gives the CPU to another thread if and only if some thread that may run there waits and the present one no longer runs, may not run there, is less urgent, or is as urgent and has yielded |
| SmpEffects.YieldSpent | rtt/src/scheduler_mp.c:637-673 | a schedule uses up the yield of the thread it finds running, unless nobody at all waits for the CPU, and touches no other thread's |
| SmpEffects.ResumeDoes | rtt/src/scheduler_comm.c:229-271 | a sleeping thread becomes READY in front of its equals in the table of its binding, behind them only if it had yielded, or just goes on if it has not left its CPU; everybody else's place in every queue is the same |
| SmpEffects.SuspendDoes | rtt/src/thread.c:937-1017 | a ready thread or the caller is suspended and in no queue, anybody else is left alone, and everybody else's place in every queue is the same |
| SmpEffects.BindDoes | rtt/src/scheduler_mp.c:1501-1582 | the binding is the one asked for, none beyond the number of CPUs, whatever the thread's status; a ready thread goes in front in its new table, any other stays where it is |
| SmpEffects.SetPriorityDoes | rtt/src/scheduler_comm.c:346-396 | the priority is the one asked for, whatever the thread's status; a ready thread goes in front of its new equals, any other stays where it is |
| SmpEffects.NewThreadReady | rtt/src/thread.c:406-423 | a new thread is READY in front of its equals once it has been started and resumed |
| SmpTheorems.OneSeatEach | rtt/src/scheduler_mp.c:1221-1238 | no thread is current on two CPUs or in two queues, and it is RUNNING exactly when it is current and not suspended |
| SmpTheorems.StepKeeps | rtt/src/scheduler_comm.c:229-396 | each step by itself keeps the invariant |
| SmpTheorems.HighestIsReady | rtt/src/scheduler_mp.c:239-273 | whatever the bit lookup finds is the head of a non-empty queue, and that thread is ready, of that priority, and allowed on this CPU |
| SmpScheduler.Scheduler.GetHighestPriorityThread | rtt/src/scheduler_mp.c:239-273 | compares the two lookups, the local table winning a tie |
| SmpScheduler.Scheduler.InsertThread | rtt/src/scheduler_mp.c:280-362 | the three branches: already ready, still on a CPU, or queued at the head, at the tail after a yield; that this keeps turns is SmpTurns.TurnKept |
| SmpScheduler.Scheduler.RemoveThread | rtt/src/scheduler_mp.c:365-406 | unlinks and clears the bit exactly when the queue has become empty |
| SmpScheduler.Scheduler.PrepareContextSwitch | rtt/src/scheduler_mp.c:625-713 | returns the next thread, or nothing when the current one goes on, and leaves the specified state |
| SmpScheduler.Scheduler.Schedule | rtt/src/scheduler_mp.c:921-1000 | the whole schedule step, ending with a best allowed thread running |
| SmpScheduler.Scheduler.ThreadSuspend | rtt/src/thread.c:937-1017 | the suspend step and its result code |
| SmpScheduler.Scheduler.ThreadReady | rtt/src/scheduler_comm.c:229-271 | the resume step; a thread that has not left its CPU becomes RUNNING, any other READY |
| SmpScheduler.Scheduler.ThreadBindCpu | rtt/src/scheduler_mp.c:1501-1582 | the re-bind step |
| SmpScheduler.Scheduler.UpdatePriority | rtt/src/scheduler_comm.c:346-396 | the priority change moves a ready thread to the queue of its new priority |
| SmpSharing.GlobalGetsTurn | rtt/src/scheduler_mp.c:239-273 | among equals of which some are bound to the CPU and some to none, with nobody else acting, the unbound ones ever get that CPU if and only if at most one of the equals is bound to it: the CPU's own table wins every tie |
| SmpSharing.Starves | rtt/src/scheduler_mp.c:239-273 | with two bound ones the CPU has a bound one after every slice |
| SmpSharing.SoonGlobal | rtt/src/scheduler_mp.c:239-273 | with at most one, an unbound one runs within two slices |
| SmpSharing.SliceCases | rtt/src/scheduler_mp.c:239-273 | who gets the CPU at the end of a slice, and that the thread it had goes to the end of the table of its own binding |
| TimerRuns.OnTime | rtt/src/clock.c:170-197 | a started timer runs on time whatever else the system does: as long as nobody touches it, it is due in exactly the pass that brings the ticks since its start to its period, across wrap-around and late passes, and then runs unless a timer that ran before it in that pass takes it off the list |
| TimerRuns.CommandDoes | rtt/src/timer.c:562-704 | a start links its timer for as many ticks as its period, a stop and a change of the period take it out of every row, period and kind are those asked for, and no other timer is started, stopped or put off |
| TimerRuns.RunSettled | rtt/src/clock.c:170-197 | over any run of timer operations, ticks and passes, with periods below half the range less the lateness of a pass, after every event the rows are in order in the window that starts at the present tick, and nothing linked is due |
| TimerRuns.Rebase | rtt/src/timer.c:442-449 | the window in which rows are in order may be moved up to the earliest timeout |
| TimerRuns.TickReady | rtt/src/timer.c:488-516 | however many ticks have passed, fewer than half the range, a pass finds the rows in order from the first timeout on |
| TimerRuns.StillWaiting | rtt/src/timer.c:409-479 | while fewer ticks pass than a timer has left it stays linked and comes nearer by exactly those ticks |
| TimerTheorems.PassRuns | rtt/src/timer.c:488-553 | an expiry pass at a fixed tick with positive periods terminates, runs exactly the timers given by `Fires`, keeps every row in order and leaves nothing linked that is due |
| TimerTheorems.FiresExactly | rtt/src/timer.c:488-553 | of the expired timers exactly those run that no earlier one that ran stopped, restarted or re-timed, in list order: by timeout, first started first among equals |
| TimerTheorems.RearmRule | rtt/src/timer.c:519-550 | the loop re-arms the fired timer exactly when it was periodic, still is, and its function did not stop, restart or re-time it; otherwise what the function did stands |
| TimerTheorems.MarkAfterFiring | rtt/src/timer.c:519-550 | after a timer has fired its ACTIVATED mark says whether it is linked if and only if its function started, stopped or re-timed it, or did not turn it from periodic into one-shot |
| TimerRuns.MarkStranded | rtt/src/timer.c:519-550 | reached from a fresh timer: a periodic one whose function makes it a one-shot stays marked and is linked nowhere |
| TimerTheorems.ZeroPeriodNeverEnds | rtt/src/timer.c:519-550 | with a period of zero a lone periodic timer is due again after every turn, so the pass does not end: positive periods are needed |
| TimerRuns.ZeroPeriodReached | rtt/src/timer.c:519-550 | starting a fresh periodic timer of period zero leads there |
| TimerTheorems.OvertakenExactly | rtt/src/timer.c:442-449 | a timer that is due counts as later than one started now, which then goes in front of it, if and only if its lateness and the new period together exceed half the range by more than two ticks |
| TimerRuns.LatePassMisses | rtt/src/timer.c:488-553 | reached from fresh timers with periods the code allows: in a pass four ticks late a timer's function starts one that goes to the head, so that a due timer stays linked and does not run, and three linked timeouts go round in a circle |
| TimerTheorems.WindowIsEnoughAndNeeded | rtt/src/timer.c:442-449 | a set of timers can be put in an order that the source's wrap-around test agrees with if and only if all their timeouts fit in one window of half the tick range |
| TimerTheorems.PairwiseIsNotEnough | rtt/src/timer.c:442-449 | timeouts pairwise less than half the range apart need not have any order: three concrete ones that go round in a circle |
| TimerTheorems.ScanPlaces | rtt/src/timer.c:428-450 | a scan inserts behind all equal or earlier timeouts and in front of all later ones |
| TimerTheorems.StartKeeps | rtt/src/timer.c:409-479 | starting a timer whose own new timeout lies in the window keeps every row sorted, each row a subsequence of the one below, and links only marked timers |
| TimerTheorems.StopKeeps | rtt/src/timer.c:626-653 | stopping keeps all that and leaves the timer in no row at all |
| TimerTheorems.HeightRule | rtt/src/timer.c:459-474 | the insertion counter puts a timer into the row j above the bottom exactly when the counter is divisible by 4 to the j |
| TimerTheorems.ExpireStep | rtt/src/timer.c:498-550 | one turn removes the head and whatever its function touched from the expired timers, and nothing else |
| TimerWheel.Timers.Remove | rtt/src/timer.c:191-199 | unlinks from every row |
| TimerWheel.Timers.SearchRow | rtt/src/timer.c:425-453 | starting a row's search where the row above left off finds the place a full linear scan would find |
| TimerWheel.Timers.Start | rtt/src/timer.c:409-479 | the multi-row search and the counter-driven links give, row by row, the result of linear insertion |
| TimerWheel.Timers.Stop | rtt/src/timer.c:626-653 | fails exactly on an inactive timer, otherwise unlinks and unmarks it |
| TimerWheel.Timers.SetTime | rtt/src/timer.c:683-691 | stops an active timer before changing its period |
| TimerWheel.Timers.Expire | rtt/src/timer.c:498-550 | one turn of the loop, with a timeout function that may start, stop and re-time any timers |
| TimerWheel.Timers.Check | rtt/src/timer.c:488-553 | the whole loop runs exactly the specified timers and leaves an undue head |
| TimerWheel.Timers.Elapse | rtt/src/clock.c:170-197 | advancing the tick and checking the timers is the specified event, and leaves the wheel settled |
| SmallMem.SmallMem.constructor | rtt/src/mem.c:170-234 | a fresh heap is one free block between the first header and the sentinel |
| SmallMem.SmallMem.Alloc | rtt/src/mem.c:271-389 | returns null exactly when nothing was asked for or no free block in the whole heap holds the rounded size, otherwise the lowest-addressed fit, with no more than could not stand alone beyond the rounded size; `used` grows by just that block and its header, and the invariant holds again |
| SmallMem.SmallMem.Free | rtt/src/mem.c:497-539 | marks free, lowers the hint, merges with both neighbours: headers tile the heap, next and prev agree, no two free blocks touch, the hint is the lowest free block, `used` is the extent of the used blocks and falls by just this block's |
| SmallMem.SmallMem.PlugHoles | rtt/src/mem.c:119-157 | joins with the next and then the previous free block, and never has to move the hint |
| SmallMem.SmallMem.Realloc | rtt/src/mem.c:403-488 | on success the first min(old, new) bytes are kept wherever the block ends up, every other live block keeps its place and bytes; a block of the right size stays as it is, one with a header and MIN_SIZE to spare is cut in place to exactly the aligned size, any other request is met as a fresh one; `used` changes by the difference; failure changes nothing, and the exact condition for failure |
| SmallMem.SmallMem.FindFit | rtt/src/mem.c:299-306 | searching from the hint up to the last place the size could begin misses no fit |
| SmallMem.SmallMem.AdvanceLfree | rtt/src/mem.c:366-373 | the hint moves to the next free block or the heap end |
| SmallMem.SmallMem.NothingUsed | rtt/src/mem.c:497-539 | when `used` is back to zero the heap is one block again and the hint is at its start |
| HeapChain.FreeUndoesAlloc | rtt/src/mem.c:271-389 | freeing what an allocation has just returned restores the very chain of blocks |
| HeapChain.AllFreeIsOneBlock | rtt/src/mem.c:119-157 | a coalesced chain with nothing used is a single block |
| HeapChain.LowestFreeUnique | rtt/src/mem.c:497-539 | the hint is determined by the chain, so an undone chain has its old hint |
| HeapChain.PayloadsDisjoint | rtt/src/mem.c:271-389 | live payloads overlap neither each other nor any header |
| HeapChain.PlugKeeps | rtt/src/mem.c:119-157 | merging keeps the tiling, the extent of used blocks and the lowest free block, and restores coalescing |
| HeapChain.MoveKeeps | rtt/src/mem.c:471-488 | allocating a new place and then freeing the old one works although the old block's number may shift |
| HeapChain.ShrinkKeeps | rtt/src/mem.c:438-469 | cutting a used block and merging its tail keeps the whole invariant |
| SmallMem.SmallMem.AllocatedAligned | rtt/src/mem.c:315-389 | every pointer to a live block is 8-byte aligned, in every state of the heap |
| SmallMem.Init | rtt/src/mem.c:170-234 | returns null exactly when the aligned region has no room for the heap object and two headers, otherwise a fresh heap on all of the aligned region |
| StackAnalysis.Analyser.Analyse | rtt/tools/WCS.py:245-299 | for every finite call graph and every order of roots: each function gets its exact verdict, and a bounded function's unresolved calls are exactly the undefined names called by anything it reaches |
| StackAnalysis.Analyser.CalcWcs | rtt/tools/WCS.py:246-292 | the memoised depth-first search terminates on cyclic graphs and leaves only correct verdicts, whatever path led to it |
| StackAnalysis.Analyser.ResolveAllCalls | rtt/tools/WCS.py:223-243 | every call becomes a link to the function it names or an unresolved call |
| StackAnalysis.Analyser.FindsVisible | rtt/tools/WCS.py:84-99 | with the two tables filled as read_obj fills them, looking a name up finds nothing exactly if no function of that name is visible from the unit; otherwise a visible one, and any other it could have meant is a local one hidden by the global one found |
| CallGraph.NoBoundFromCallees | rtt/tools/WCS.py:259-283 | a function has no bound if and only if it calls through a pointer, is recursive, or calls one that has no bound |
| CallGraph.MaximumFromCallees | rtt/tools/WCS.py:269-291 | own stack plus the largest callee maximum is the maximum over all call paths |
| CallGraph.MissingFromCallees | rtt/tools/WCS.py:285-288 | the names missing below a function are its own and those missing below its callees |
| CallGraph.StackIsCycle | rtt/tools/WCS.py:264-267 | meeting a function that is on the stack of callers shows it to be recursive |
| LockFreeList.Linearises | rtt/include/rtatomic.h:243-264 | in every interleaving of shared accesses of any number of enqueuers with one dequeuer, no node being enqueued while linked, the operations that have taken effect form a legal stack history and the list links exactly that stack's nodes, top first |
| LockFreeList.TakesEffectOnce | rtt/include/rtatomic.h:243-264 | each operation takes effect exactly once, with its own argument or result, in the very step with which its actor is done |
| LockFreeList.Conserved | rtt/include/rtatomic.h:243-264 | at any moment every enqueued node is either still linked or was dequeued, exactly as often as it was enqueued |
| LockFreeList.FailureMeansProgress | rtt/include/rtatomic.h:183-201 | whenever an actor's compare-exchange on the head fails, another actor has completed an enqueue or dequeue between the step in which the failing one read the value it expects and the failure (lock-freedom) |
| LockFreeList.ContinueKeeps | rtt/include/rtatomic.h:243-264 | each single shared access keeps the pointers spelling the stack and every local expectation true |
| MqTheorems.RunSafe | rtt/src/ipc.c:3381-3572 | in every interleaving of senders, receivers, urgent sends, timeouts and resets, with nodes leaving the lock between the two locked regions: every pool node is in exactly one of free list, queue and one actor's hands, what receivers copy out is what was linked, the counter is right, and no receiver (sender) sleeps unless at least as many woken ones are on their way as there are messages (free nodes) |
| MqContents.ReceivedWasSent | rtt/src/ipc.c:3496-3514 | end to end: in every run from a fresh queue, what a receiver has copied out is the body given to an earlier send, the last one of the actor that linked it before that link, and linked only once |
| MqContents.LinkedWasSent | rtt/src/ipc.c:3496-3514 | in every run each link adds one message, with the body and, in the priority build, the priority of that actor's last send, as urgent exactly if that was, also when the sender had to sleep for room and look again |
| MqContents.TakenWasSent | rtt/src/ipc.c:3872-3885 | in every run each message taken out of the queue was linked before, with the body and priority of its sender's last send |
| MqContents.UrgentNext | rtt/src/ipc.c:3697-3714 | an urgent message is the next one taken, whatever ordinary ones are linked in between; in the priority build if and only if none of those has a higher priority than the urgent one's node shows, which is what was left in it |
| MqContents.SendOutcome | rtt/src/ipc.c:3413-3492 | a send goes on at once if and only if a node is free; if not it waits, or, urgent or without waiting time, comes back with nothing changed |
| MqContents.ReceiveOutcome | rtt/src/ipc.c:3795-3885 | a receive gets the first message at once if and only if one is queued; if not it waits or comes back |
| MqContents.ResetOutcome | rtt/src/ipc.c:3998-4030 | a reset moves every queued node to the free list and sends everybody home who sleeps; what is in somebody's hands stays there |
| MqContents.ReceiversInTurn | rtt/src/ipc.c:3558-3571 | sleeping receivers are woken first come, first served, one by each message linked and by nothing else |
| MqContents.SendersInTurn | rtt/src/ipc.c:3902-3920 | so are sleeping senders, one by each node given back |
| MqTheorems.FirstInFirstOut | rtt/src/ipc.c:3532-3545 | plain build without urgent sends or resets: messages delivered, followed by those still queued, are exactly the messages linked, in order |
| MqTheorems.BestFirst | rtt/src/ipc.c:3506-3531 | priority build without urgent sends: every delivered message precedes all others waiting with it, by descending priority, first linked first among equals |
| MqTheorems.CounterExact | rtt/src/ipc.c:3547-3556 | in every state of every run `entry` is the length of the queue and at most `max_msgs`; a message is only ever linked below RT_MQ_ENTRY_MAX, so no send reports a full counter for a message it has linked (`max_msgs` is a 16-bit number, rtt/include/rtdef.h:1111) |
| MqTheorems.WholePool | rtt/src/ipc.c:3124-3132 | a pool is used whole if and only if it has room for fewer than 65536 messages, the number being stored in 16 bits; with room for exactly 65536 it counts as one for none |
| MqTheorems.StepKeeps | rtt/src/ipc.c:3764-3925 | each locked region and each unlocked copy by itself keeps all of this |
| MqTheorems.LinkWakes | rtt/src/ipc.c:3547-3571 | linking a message wakes one receiver, so none sleeps through it |
| MqRegions.TakeNode | rtt/src/ipc.c:3413-3492 | whatever the interleaving, the pointer code of a send's first region takes the lists from those of one state of the machine to those of the next |
| MqRegions.CopyIn | rtt/src/ipc.c:3499-3502 | so does the copying into the node, without the lock |
| MqRegions.LinkNode | rtt/src/ipc.c:3504-3556 | so does a send's or an urgent send's second region, in both builds, and it never reports a full counter |
| MqRegions.UnlinkNode | rtt/src/ipc.c:3764-3885 | so does a receive's first region |
| MqRegions.CopyOut | rtt/src/ipc.c:3889-3900 | a receiver copies out exactly the message, and its priority, that was first in the queue when it took the node |
| MqRegions.ReturnNode | rtt/src/ipc.c:3902-3904 | so does a receive's second region |
| MqRegions.Reset | rtt/src/ipc.c:3998-4030 | and so does a reset |
| MqNodes.Init | rtt/src/ipc.c:3097-3156 | fails exactly when the number of nodes, after truncation to 16 bits, is zero; otherwise an empty queue whose pool of that many nodes is one free list |
| MqNodes.Queue.constructor | rtt/src/ipc.c:3134-3150 | the loop links a pool of any 16-bit number of nodes into one free list |
| MqNodes.Queue.TakeFree | rtt/src/ipc.c:3418-3493 | taking a node off the free list |
| MqNodes.Queue.LinkTail | rtt/src/ipc.c:3532-3556 | the pointer code appends to the queue and counts, the counter never being full |
| MqNodes.Queue.LinkByPrio | rtt/src/ipc.c:3506-3531 | the pointer walk inserts in front of the first message of lower priority |
| MqNodes.Queue.LinkHead | rtt/src/ipc.c:3697-3714 | the pointer code of an urgent send pushes at the front |
| MqNodes.Queue.Unlink | rtt/src/ipc.c:3872-3885 | takes the first message, keeping head and tail right |
| MqNodes.Queue.GiveBack | rtt/src/ipc.c:3902-3904 | the node returns to the free list |
| MqNodes.Queue.Reset | rtt/src/ipc.c:3998-4030 | a reset moves every queued node to the free list |
| EventFlags.NoLostWakeUp | rtt/src/ipc.c:1966-2062 | after any history of sends, receives, timeouts and resets no suspended thread's AND or OR condition holds on the event's flags |
| EventFlags.SendWakes | rtt/src/ipc.c:1992-2055 | a send wakes exactly the waiters of which all flags (AND) or any (OR) are set, the new ones included; each gets those of its flags that are set, at least one; a flag is set afterwards if and only if it was or is new and no woken waiter that asked for clearing received it; everybody else is left as they were |
| EventFlags.ConsumedExactly | rtt/src/ipc.c:2032-2050 | the flags gathered for clearing are just those that some satisfied waiter that asked for clearing receives; that they, and only they, leave the event is SendWakes |
| EventFlags.StayInOrder | rtt/src/ipc.c:1996-2047 | those who stay asleep through a send keep their order |
| EventFlags.RecvKeeps | rtt/src/ipc.c:2098-2223 | a receive returns at once if and only if all (AND) or any (OR) of its flags are set, with those of them that are; with clearing exactly the flags asked for go, otherwise none; it waits behind the others exactly if it may, is refused otherwise with nothing changed, and leaves nobody waiting for what is there |
| EventFlags.EventObject.SendFlags | rtt/src/ipc.c:1966-2062 | the loop over the suspend list, which it edits as it goes, computes the specified send |
| EventFlags.EventObject.RecvFlags | rtt/src/ipc.c:2098-2223 | the receive code's branches, result and state are the specified ones |
| CrcDivision.CrcIsRemainder | tools/xmaker_re.py:146-167 | for every message and seed, a quotient and a remainder of degree below 16 divide seed * x^(8n) + message * x^16 by x^16 + x^12 + x^5 + 1 if and only if the remainder is the CRC and the quotient the bits that fell out of the register |
| Crc16.Compute | tools/xmaker_re.py:146-154 | the table-driven loop computes the bit-serial CRC |
| Crc16.LookUp | tools/xmaker_re.py:151-153 | one table look-up does the work of eight shifts |
| Crc16.MakeTable | tools/xmaker_re.py:157-167 | the table holds each index shifted eight times |
| Crc16.OneByteDetected | tools/xmaker_re.py:146-154 | two messages that differ in exactly one byte never have the same CRC |
| Crc16.TwoBytesDetected | tools/xmaker_re.py:146-154 | nor do two messages that differ only within two neighbouring bytes |
| Crc16.ShiftInjective | tools/xmaker_re.py:160-165 | no two registers shift to the same one |
| XmakerFormat.StreamTwice | tools/xmaker_re.py:170-178 | the XOR stream with the same key takes itself off, for every key table |
| XmakerFormat.XorStream | tools/xmaker_re.py:170-178 | the in-place loop computes the stream, and its final key depends only on the first key and the length |
| XmakerFormat.SizeLimit | tools/xmaker_re.py:28-31 | the body is at most 16 MiB if and only if the application is at most MAX_APP_SIZE |
| XmakerFormat.ReadOf32 | tools/xmaker_re.py:61-70 | a size below 2^32 written as four bytes is read back |
| XmakerBody.BlockStreamTwice | tools/xmaker_re.py:262-267 | block-wise encryption is undone by itself |
| XmakerBody.RecordFields | tools/xmaker_re.py:210-224 | the record carries its fields, their checksum and one checksum per block |
| XmakerBody.TopOpens | tools/xmaker_re.py:244-248 | the sealed top of the header decrypts to a valid checksum and the checksum of the main region |
| XmakerBody.AppInfoOpens | tools/xmaker_re.py:233-242 | the application record in the header opens with its own checksum and names the payload's place, size and checksum |
| XmakerBody.MainOpens | tools/xmaker_re.py:257-260 | the main header region decrypts block by block to the region whose checksum the top carries |
| XmakerBody.SettingsBalance | tools/xmaker_re.py:250-255 | the default settings block sums to zero |
| XmakerInspect.InspectorAccepts | tools/xmaker_re.py:272-335 | for every header and every application up to MAX_APP_SIZE, encrypted or not, the inspector finds the record size, the record checksum, the range and every block checksum right |
| XmakerInspect.Decrypts | tools/xmaker_re.py:304-325 | decrypting each block with what the body itself says gives the application back, padded with zeros |
| XmakerInspect.TamperingFound | tools/xmaker_re.py:312-334 | changing any one byte of the payload makes the inspector name exactly the block it is in |
| XmakerPacker.Build | tools/xmaker_re.py:186-269 | the builder, writing and encrypting one buffer in place, produces the specified body |
| XmakerPacker.PutChain | tools/xmaker_re.py:227-230 | every unused word of the record is the checksum of what precedes it |
| XmakerPacker.InspectBody | tools/xmaker_re.py:272-335 | the inspector code computes the specified report, also for data that is too short or cut |
| XmakerDcf.DcfRoundTrip | tools/xmaker_re.py:355-472 | for every header and application that fits, the tag searches in the packed file find the true CRC and DATA records, the declared sizes and both checksums agree, and the body inside passes the inner inspector |
| XmakerDcf.SegmentIsPayload | tools/xmaker_re.py:383-404 | the segment record of a packed file delimits, from its first offset to its second, which is the body's end, what decrypts block by block to the application padded to whole blocks; the information record carries bytes 4 to 12 of the decrypted header |
| XmakerDcf.TagsFound | tools/xmaker_re.py:338-343 | nothing before the CRC record looks like its tag, whatever the segment's offsets |
| XmakerDcf.FindTag | tools/xmaker_re.py:338-343 | the search returns the first occurrence, or that there is none |
| XmakerDcf.BuildDcf | tools/xmaker_re.py:355-422 | which inputs are refused, and the file otherwise |
| XmakerDcf.BuildWrapper | tools/xmaker_re.py:383-418 | filling one buffer field by field, with the checksum over what is there so far, gives the specified wrapper |
| XmakerUnpack.PackedFound | tools/xmaker_re.py:430-472 | for every header and application that fits, the only right finding for the packed file is that the declared size and both checksums agree, with the body as built |
| XmakerUnpack.DamageFound | tools/xmaker_re.py:451-470 | one changed byte anywhere in the body is reported by the body's checksum while everything in the wrapper is still found in order |
| XmakerUnpack.InspectDcf | tools/xmaker_re.py:430-472 | for any data: too small, no magic, cut, a tag missing, body too short, or the first records' positions, the body and which of size and checksums agree |
| UpTheorems.RunSafe | rtt/src/scheduler_up.c:490-572 | over every interleaving of start, suspend, resume, priority change, yield, tick, schedule and critical-section steps, with up to 32 or up to 256 priorities: a READY thread is in exactly the queue of its priority and no other thread in any, both levels of the bitmap agree with the queues, and only the current thread runs or has given up its slice |
| ReadyIndex.LookupIsScan | rtt/src/scheduler_up.c:105-125 | the bitmap lookup, in its one- and two-level forms and with `__rt_ffs` on the words themselves, comes to the queue that a linear scan of all queues would find first |
| ReadyIndex.MarkKeeps | rtt/src/scheduler_up.c:524-528 | setting a priority's bits marks just that priority and keeps the two levels consistent |
| ReadyIndex.UnmarkKeeps | rtt/src/scheduler_up.c:557-568 | clearing them unmarks just that priority, the group bit going exactly with the last bit below it |
| Ffs.FindsFirst | rtt/src/kservice.c:1130-1153 | the 256-entry form of `__rt_ffs` returns one more than the position of the lowest one bit of every 32-bit word, and zero for zero |
| Ffs.TinyFindsFirst | rtt/src/kservice.c:1072-1096 | the 37-entry form, too, returns one more than the position of the lowest one of every word and zero for zero, the 32 powers of two having different remainders modulo 37 |
| UpTheorems.ScheduleRunsTheBest | rtt/src/scheduler_up.c:296-401 | with the scheduler unlocked, a schedule leaves a RUNNING thread current and nobody ready strictly better than it |
| UpTheorems.SwitchesOnlyFor | rtt/src/scheduler_up.c:307-325 | a schedule changes the thread only for a better one, for an equal one after a yield, or when the old one no longer runs, and never when locked |
| UpTheorems.RefusalRemembered | rtt/src/scheduler_up.c:655-708 | a schedule refused in a critical section stays asked for through any number of nested sections, ticks and other steps, and the thread keeps the CPU while the count is not zero |
| UpTheorems.RefusalPerformed | rtt/src/scheduler_up.c:681-708 | it is made up for where the outermost section is left, also when interrupts get in between the count reaching zero and the test of the flag: then nobody ready is better than the running thread |
| UpTheorems.ExpiryRotates | rtt/src/scheduler_comm.c:291-324 | the tick that uses up a slice rotates the running thread and its waiting equals by one and gives the slice back in full |
| UpTheorems.RoundRobin | rtt/src/scheduler_comm.c:291-324 | k expiries rotate them by k, so each of n equals has one slice in n, in the same order |
| UpTheorems.TurnKept | rtt/src/scheduler_up.c:510-520 | a thread preempted by a better one that wakes, runs and sleeps again continues with the same equals behind it and the same slice left, unless its slice was already over |
| UpEffects.SliceEnds | rtt/src/scheduler_comm.c:291-324 | a slice ends with exactly the tick at which the ticks come to add up to what was left of it; until then they take just as much from it, and nothing else changes |
| UpEffects.YieldSpent | rtt/src/scheduler_up.c:326-341 | a schedule uses up a yield if and only if it takes the CPU away; a thread that goes on keeps its flag, and nobody else's changes |
| UpEffects.StartDispatches | rtt/src/scheduler_up.c:246-266 | the first dispatch runs a best thread, the first of its equals, and leaves everybody else waiting in the same order |
| UpEffects.ResumeDoes | rtt/src/scheduler_comm.c:229-271 | a sleeping thread becomes READY in front of its equals, or just goes on if it is still the current one; everybody else's place in every queue is the same |
| UpEffects.SuspendDoes | rtt/src/thread.c:937-1017 | a ready or running thread is suspended and in no queue, anybody else is left alone, and everybody else's place in every queue is the same |
| UpEffects.SetPriorityDoes | rtt/src/scheduler_comm.c:346-396 | the priority is the one asked for, whatever the thread's status; a ready thread goes in front of its new equals, any other stays where it is |
| UpEffects.NewThreadReady | rtt/src/thread.c:406-423 | a new thread is READY in front of its equals once it has been started and resumed |
| UpEffects.SectionsNest | rtt/src/scheduler_up.c:655-708 | critical sections nest: what has been entered n times has been left after as many exits and no fewer, with nothing else changed |
| UpTheorems.StepKeeps | rtt/src/scheduler_comm.c:198-396 | each step by itself keeps the invariant |
| UpScheduler.Kernel.constructor | rtt/src/scheduler_up.c:211-231 | empty queues, an empty bitmap in either form, nobody started |
| UpScheduler.Kernel.GetHighestPriorityThread | rtt/src/scheduler_up.c:105-125 | the two-level arithmetic on the words returns the head of the best queue |
| UpScheduler.Kernel.InsertThread | rtt/src/scheduler_up.c:490-533 | the insert step: the current thread is only marked running, others go to the head of their queue, or to its tail after a yield |
| UpScheduler.Kernel.RemoveThread | rtt/src/scheduler_up.c:542-572 | the remove step, clearing bits on each level exactly when it empties |
| UpScheduler.Kernel.Schedule | rtt/src/scheduler_up.c:282-414 | the branches of the schedule compute the specified step |
| UpScheduler.Kernel.Start | rtt/src/scheduler_up.c:246-266 | the first dispatch |
| UpScheduler.Kernel.ThreadSuspend | rtt/src/thread.c:937-1017 | the suspend step and whether the thread is suspended after it |
| UpScheduler.Kernel.ThreadReady | rtt/src/scheduler_comm.c:229-271 | the resume step and its result |
| UpScheduler.Kernel.UpdatePriority | rtt/src/scheduler_comm.c:346-396 | the priority change moves a ready thread between queues |
| UpScheduler.Kernel.TickIncrease | rtt/src/scheduler_comm.c:291-324 | the tick step |
| UpScheduler.Kernel.ExitCritical | rtt/src/scheduler_up.c:681-708 | the exit step, also when the count was already zero |
| MemHeap.MemHeap.constructor | rtt/src/memheap.c:79-153 | a fresh heap is one free block and a used tail, all but two headers being available |
| MemHeap.MemHeap.Alloc | rtt/src/memheap.c:187-346 | returns null exactly when no free block is large enough or the rounded size is not below the total available; otherwise the first large enough block in the order of the free list, with no more than could not stand alone beyond the rounded size, the peak use being kept |
| MemHeap.MemHeap.FindFit | rtt/src/memheap.c:222-233 | the walk along the free list finds its first block that is large enough, and misses none |
| MemHeap.MemHeap.Free | rtt/src/memheap.c:594-718 | merges with both neighbours; both rings of headers stay intact in both directions, the free list holds exactly the free blocks, and the count follows |
| MemHeap.MemHeap.GrowBlock | rtt/src/memheap.c:417-476 | growth into the free successor moves the boundary between them, with the free list and the count |
| MemHeap.MemHeap.CutBlock | rtt/src/memheap.c:497-580 | a shrink turns the tail into a free block, merged with a free successor |
| MemHeap.MemHeap.Realloc | rtt/src/memheap.c:362-584 | fails exactly when nothing is asked for, or the block can neither stay nor be had elsewhere; on success its first min(old, new) bytes are kept and every other live block keeps its place and bytes; a block with less than one block's worth to spare stays as it is, one that can be cut or grown in place has exactly the rounded size, one that must move gets a block as for a fresh request; failure changes nothing |
| MemHeap.MemHeap.NothingUsed | rtt/src/memheap.c:594-718 | with everything given back the pool is one free block again and all of it available |
| MemHeapSpec.TakeKeeps | rtt/src/memheap.c:236-311 | taking a block keeps: blocks tile the pool, no two free blocks touch, the free list holds the free blocks once each, `available_size` is the sum of their payloads |
| MemHeapSpec.ReleaseKeeps | rtt/src/memheap.c:635-707 | so does freeing one, for all four states of its neighbours |
| MemHeapSpec.ReshapeKeeps | rtt/src/memheap.c:417-580 | and so do in-place growth and shrinking |
| MemHeapSpec.FreeNoDup | rtt/src/memheap.c:594-718 | no block is in the free list twice |
| MemHeapSpec.Conserved | rtt/src/memheap.c:98-100 | every byte of the pool is available, in a used block, or part of a header |
| MemHeapSpec.ReleaseUndoesTake | rtt/src/memheap.c:187-346 | freeing what an allocation has just taken restores the blocks and the count exactly; in the free list that block comes to the front |
| MemHeapSpec.RefusedLastFit | rtt/src/memheap.c:204-204 | the test against the total refuses a request that fits exactly if it equals the total, so only the last free block with room can be refused, and only to a request of exactly its size |
| RingList.UnlinkKeeps | rtt/src/memheap.c:46-54 | linking a node's neighbours past it takes just it out of a doubly linked ring |
| RingList.InsertKeeps | rtt/src/memheap.c:255-275 | four assignments link a new node in |
| MemHeap.FreshRefusesAll | rtt/src/memheap.c:204-204 | every fresh heap, of any size, refuses a request for exactly its available bytes, although its one free block has them |
| SlabHeap.RunSafe | rtt/src/slab.c:490-853 | over any run of allocations and releases: the free runs are sorted, coalesced and exactly the pages nobody holds; every other page belongs to one zone, one large run or the page map; each zone's free counter is its unused chunks plus its free list; a zone is on the list of its size exactly when it has a free chunk and is not cached; at most two wholly free zones are cached; `used` is the sum of what is live |
| SlabHeap.AllocAdds | rtt/src/slab.c:490-654 | an allocation fails exactly when nothing was asked for, or its list and the cache are empty and no free run is long enough, and then changes nothing; otherwise there is exactly one more live block, large enough and no larger than the smallest chunk or the fewest pages that will do, every other keeps its place and size, and `used` grows by its size |
| SlabHeap.ReleaseRemoves | rtt/src/slab.c:738-852 | a release takes just that block away, whatever happens to its zone |
| SlabHeap.StaysPut | rtt/src/slab.c:490-853 | over any run a block keeps its place and size until it is released |
| SlabHeap.LiveApart | rtt/src/slab.c:490-654 | no two live blocks overlap |
| SlabHeap.ClearOfOthers | rtt/src/slab.c:490-654 | nor does a live block overlap a free page, the page map or its own zone's header |
| SlabHeap.LookupFinds | rtt/src/slab.c:761-782 | from any live pointer the page map leads back to its own zone, or says it is a large run and of what length |
| SlabHeap.UsedMeansLive | rtt/src/slab.c:530-532 | no byte is counted as used if and only if nothing is live |
| SlabHeap.LiveCount | rtt/src/slab.c:556-571 | a zone has as many live chunks as its two counters say |
| SlabHeap.AllocAligned | rtt/src/slab.c:110-113 | the block returned for a power-of-two request is aligned to the request if and only if the page it will be served from is, which can be read off the state before the call: always up to the page size, beyond it not always, for chunks and page runs alike, contrary to the comment |
| SlabHeap.ServedFrom | rtt/src/slab.c:490-654 | that page is the first of the first zone on the list of its size, else of the first cached zone, else of the first run of free pages that is long enough |
| SlabHeap.FreshMisaligned | rtt/src/slab.c:618-627 | on every fresh heap of 9 to 1024 pages the first allocation of 8000 bytes gets the 8192-byte chunk at offset 12288, which is aligned to its size if and only if the heap starts at an odd page |
| SlabHeap.FreshRunMisaligned | rtt/src/slab.c:506-532 | so are the first 8192 bytes of a fresh heap, a page run at offset 4096 |
| SlabZones.SmallestChunk | rtt/src/slab.c:411-469 | the index is that of the smallest of the 72 chunk sizes that will do, and at most an eighth of a request of 128 bytes or more is added |
| SlabZones.SameZone | rtt/src/slab.c:411-469 | two sizes share a list exactly when they are rounded to the same chunk size |
| SlabZones.ChunkInZone | rtt/src/slab.c:629-638 | the chunks of a zone lie behind its header and inside its pages |
| SlabHeap.LimitIsChunk | rtt/src/slab.c:365-368 | requests below the limit never round beyond it |
| SlabPages.FreeUndoesAlloc | rtt/src/slab.c:216-299 | giving pages back right after taking them restores the very list, and taking fails exactly if no run is long enough |
| SlabPages.FreeKeeps | rtt/src/slab.c:257-299 | giving back pages that are not free keeps the list sorted and coalesced and adds just these pages |
| SlabPages.AllocKeeps | rtt/src/slab.c:216-246 | what is handed out was free, all of it, and nothing else leaves the list |
| SlabPages.LowestPlace | rtt/src/slab.c:216-246 | the pages handed out are the lowest there are that many free in a row |
| SlabTheorems.TakeChunkKeeps | rtt/src/slab.c:545-578 | taking a chunk keeps the invariant and makes exactly one chunk live |
| SlabTheorems.AddZoneKeeps | rtt/src/slab.c:598-654 | so does a new zone made of pages |
| SlabTheorems.ReuseZoneKeeps | rtt/src/slab.c:592-597 | and one taken from the cache and laid out for another size |
| SlabTheorems.PutChunkKeeps | rtt/src/slab.c:785-800 | freeing a chunk |
| SlabTheorems.SettleKeeps | rtt/src/slab.c:807-851 | retiring a wholly free zone, and giving back the third one, changes nothing that is live |
| SlabReserves.RetiresExactly | rtt/src/slab.c:807-851 | a zone leaves its list if and only if nothing is allocated in it any more and another zone can serve its size: into the cache while that holds fewer than two, otherwise its pages, and only they, become free again and its entries of the page map say so |
| SlabReserves.FreshFirst | rtt/src/slab.c:556-571 | a zone hands out chunks that nobody has had yet, in the order of their addresses, before it hands out any again |
| SlabReserves.TakeUndoesPut | rtt/src/slab.c:784-800 | after that the chunk freed last is the next one handed out, which undoes the freeing altogether |
| SlabReserves.RunLean | rtt/src/slab.c:803-851 | over any run of allocations and releases that starts so, as every fresh heap does, no chunk size has two zones in which nothing is allocated, besides at most two in the cache |
| SlabAllocator.Allocator.constructor | rtt/src/slab.c:324-383 | a fresh heap: the page map takes the first pages, all others are free |
| SlabAllocator.Init | rtt/src/slab.c:324-383 | returns null exactly when no whole page is left behind the slab object, otherwise a fresh heap on all whole pages |
| SlabAllocator.PickZoneSize | rtt/src/slab.c:361-364 | the zone size doubles from 32 KiB, up to 128 KiB, as long as twice it is below a 1024th of the heap |
| SlabAllocator.Allocator.PageAlloc | rtt/src/slab.c:216-246 | the loop takes the front of the first run that is long enough |
| SlabAllocator.Allocator.PageFree | rtt/src/slab.c:257-299 | the loop merges with the run before, the run behind, or both, or inserts in order |
| SlabAllocator.Allocator.Alloc | rtt/src/slab.c:490-654 | all branches compute the specified allocation and the address of what it hands out |
| SlabAllocator.Allocator.Free | rtt/src/slab.c:738-852 | finds by the page map alone what the pointer stands for, and computes the specified release |
| SlabAllocator.Allocator.Realloc | rtt/src/slab.c:669-726 | keeps the first min(old, new) bytes and every other live block with its bytes; stays in place exactly when a chunk's new size rounds to its own; otherwise the block is exchanged for just the one an allocation of the size wanted gives, `used` changing by the difference, and fails exactly when that would, changing nothing |

## Left out

- MutexTheorems.ReleaseKeeps: with a ceiling on the handed-over mutex the next owner may be left less urgent than the ceiling; the exact condition is stated and RunInherits is for systems without ceilings.
- MutexKernel.Kernel.Timeout: RunInherits takes the timeout and the clean-up as one step; as two steps exactness can be lost (MutexTimeouts.BoostLeftBehind), and CleanUpExact is for one clean-up outstanding at a time, WakeBounded for any number.
- MutexKernel.Kernel.Take: suspension and the boost of the owner happen under two lock sections in the code and are one step here; spin locks and signals are left out, and the return path after being woken is Kernel.ComeBack.
- Deletion and detaching of mutexes and threads and direct priority control are not modelled; ceilings set at run time are (MutexCeilings), but RunInherits is for runs without them.
- SmpScheduler.Scheduler.Schedule: choosing the thread and completing the switch are one step, since the lock is held throughout; inter-processor interrupts, context-switch assembly, signals, interrupt nesting and the critical-section counter only decide when a schedule step happens, and any order of steps is covered.
- SmpScheduler.Scheduler.ThreadBindCpu: the reschedule and inter-processor interrupt requests at its end are separate schedule steps.
- SmpTurns.TurnKept: other CPUs take no step meanwhile; the ticks left of a slice are not modelled on several cores, only whether it is over.
- SmpSharing.GlobalGetsTurn: other CPUs take no step meanwhile; an unbound thread may still run on one of them.
- SmpScheduler.Scheduler.GetHighestPriorityThread: the ready bitmaps are sets of priorities here, the empty lookup being one beyond the lowest priority instead of -1 read as unsigned.
- SmpScheduler.Scheduler.ThreadReady: stopping the thread's timer is assumed to succeed.
- Thread exit is not modelled; idle threads are assumed never to be suspended or re-bound.
- TimerRuns.RunSettled: fewer than half the range of ticks pass between two passes, and periods are positive; the code asserts that they are below half the range.
- TimerWheel.Timers.Check: the tick is fixed during a pass, and what each timeout function does is a finite list of timer operations on any timers.
- TimerWheel.Timers.SearchRow: nodes are looked up by position in a row instead of through link pointers.
- Soft-timer wake-up and next-timeout queries compare ticks without wrap-around and are not modelled.
- SmallMem.SmallMem.Alloc: sizes do not wrap around when rounded up; the layout is that of a 32-bit build without memory tracing.
- SmallMem.SmallMem.Realloc: header cells and payload bytes are separate; PayloadsDisjoint is what makes that faithful.
- StackAnalysis.Analyser.CalcWcs: functions are compared by identity where the code compares whole dictionaries; parsing of compiler output and printing are not modelled.
- UpScheduler.Kernel.Schedule: context-switch assembly, signals, hooks and stack checks are left out; the switch is one step, and interrupt nesting only chooses between two ways of switching.
- UpScheduler.Kernel.ThreadReady: stopping the thread's timer is assumed to succeed.
- UpScheduler.Kernel.ThreadSuspend: the three kinds of suspension are one, and the idle thread is assumed never to be suspended.
- UpScheduler.Kernel.EnterCritical: the nesting count does not wrap around.
- Ready bitmaps are sets of bit positions; Ffs.LowestOfWord and ReadyIndex.Find tie the lookup to the words.
- Ffs.FindsFirst: the argument is an unsigned number where the code takes an int of the same bits.
- MqTheorems.RunSafe: copying a message in or out of its node is one step; the nodes' contents are abstract values.
- MqNodes.Init: sizes do not wrap around when rounded up; the node header is that of a 32-bit build. rt_mq_create differs in where the pool comes from and is not modelled.
- MqNodes.Queue.LinkHead: an urgent message keeps the priority value its node had before, as in the code, so BestFirst is for runs without urgent sends.
- Sleeping senders and receivers of a queue wait in first-in-first-out order; the RT_IPC_FLAG_PRIO order of sleepers is not modelled.
- EventFlags.NoLostWakeUp: flag words are sets of bit positions; the kind of suspension and the return path after a timeout are left out.
- LockFreeList.Linearises: each actor's shared accesses are the steps of a state machine over values, not of a class, and only one dequeuer runs at a time, as the code's comment demands; memory ordering is sequentially consistent.
- MemHeap.MemHeap.constructor: a region smaller than two headers, on which the code's subtraction wraps around and it writes outside, is not modelled.
- MemHeap.MemHeap.Alloc: the default mode is modelled, not RT_MEMHEAP_BEST_MODE; the heap's semaphore makes each call one step; sizes do not wrap around when rounded up.
- MemHeap.MemHeap.GrowBlock: header fields are kept by the header's offset, apart from the payload bytes, so a new header that overlaps the one just removed is not seen to overwrite it; the code has read the old one by then.
- MemHeapSpec.Sound: reuses the chain of HeapChain, whose smallest block is that of the small-memory allocator; the larger header is demanded on top.
- SlabZones.Base: the test for a power of two and the rounding to it are arithmetic here and bit operations in the code.
- SlabAllocator.Allocator.AllocFromZone: a freed chunk is in its zone's list by its number in the zone, where the code has its address.
- SlabAllocator.Allocator.Realloc: payload bytes are kept apart from zone headers, chunk links and the page map; LiveApart and ClearOfOthers are what makes that faithful.
- XmakerBody.TopOpens: the hash over the header is a parameter; extraction of tables from the tool's executable, files and the command line are not modelled.
- XmakerPacker.InspectBody: the report holds what is checked; tags, offsets, the application record's checksum and the two values of a mismatch, which the code prints without checking them, are left out, and so is the cut of the list to its first eight entries.
- XmakerUnpack.InspectDcf: the tags and lengths of the fixed records, which the code prints without checking them, are left out.
- XmakerPacker.Build: a Python bytearray is a sequence variable that is updated; sizes are below 2^32.
- Semaphores, mailboxes, memory pools, object registration, device drivers and board support are not modelled.
