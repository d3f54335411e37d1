# RT-Thread kernel: a verified model

This project models the concurrent and memory-managing core of the RT-Thread
kernel as configured for the board (one CPU, 32 priorities, 4-byte alignment), and
two small serial protocols built on it, and proves properties of the model with
Dafny 4.11. `dafny verify dfyconfig.toml` checks all of it.

Where the code changes state in place, the model is a class whose methods follow
the code branch by branch. Each method is proved equal to a function of the old
state; what the system promises is then proved of those functions, for every
state, every input and every run.

| part | files |
|---|---|
| mutex with priority inheritance | `Mutex*.dfy` |
| small-memory allocator, aligned allocation | `BlockLayout.dfy`, `SmallMem*.dfy`, `AlignedAlloc.dfy` |
| memheap allocator | `MemHeapLists.dfy`, `MemHeap.dfy`, `MemHeapRuns.dfy` |
| priority scheduler | `Bits.dfy`, `ReadyMap.dfy`, `Scheduler*.dfy` |
| message queue, mailbox, event | `Deques.dfy`, `WaitLists.dfy`, `MsgQueue*.dfy`, `Mailbox*.dfy`, `Event*.dfy` |
| circular lists | `RtList.dfy` |
| CRC and motor frames, IMU byte stream | `Crc*.dfy`, `GoMotor.dfy`, `Imu*.dfy` |
| shared vocabulary, arithmetic | `Common.dfy`, `Arith.dfy` |

## How the model reads the system

- Mutex. One step is one critical section under the mutex lock: take (with or
  without waiting), release, a timeout or resume that unlinks a waiter, the woken
  waiter running again, setting a ceiling, and a priority that `rt_thread_control`
  writes without looking at mutexes. A step may happen whenever its caller is
  where the code expects it, so runs cover every interleaving. `NoInversion` is the
  inductive invariant: owner's priority <= what the mutex advertises <= every
  waiter's priority, and every wait list is sorted. `Exact` is the sharper one: each
  thread runs at the minimum of its initial priority and of what the mutexes it
  holds advertise, and each mutex advertises its head waiter. A waiter that has been
  unlinked and has not run yet may leave its mutex stale; `Accounted` is exactness but
  for such mutexes.
- Small memory. The heap is one array of 4-byte words in which headers and callers'
  data live side by side; a ghost layout (a sequence of blocks) is what the headers
  must mirror. `LiveKept` says that no word of a live block's data has changed.
- Memheap. A header is a record at its address; a header that is merged away is
  removed, so that no proof can read it afterwards. The same layouts are used, with
  two circular lists proved to agree with them. What callers keep in their blocks is
  an array of words beside the headers; the layout keeps the two apart.
- Scheduler. `Settled` says that nobody ready has a better claim on the CPU than the
  running thread. Bit operations are written out on natural numbers.
- Message queue. A send and a receive are two critical sections with a copy outside
  the lock between them; a node in flight belongs to one thread. Runs interleave all
  three kinds of step of any number of threads. `MsgQueueWaits` adds the wait lists.
- Mailbox and event. One step is one critical section. The place at which a thread
  enters a wait list is a parameter, so the results hold for both queueing policies.

## What turned out not to hold

- A release does not raise the new owner to the mutex's ceiling
  (`rt-thread/src/ipc.c:1663-1690`). `MutexExact.ReleaseExact` gives the exact
  condition, `CeilingMissed`; `MutexRuns.CeilingMissedReachable` is a run that meets it.
- A waiter that timed out, but was itself raised before it ran, does not take back
  the boost it gave: the comparison at `rt-thread/src/ipc.c:1488` is with its present
  priority. `MutexRuns.LateTimeoutKeepsBoost` is a run of seven calls after which a
  thread that holds nothing runs at 10 instead of 20. Taking and releasing a free
  mutex does not put that right (`MutexRuns.UncontendedRound`); it
  lasts until some later call makes the code compute that priority anew. `MutexTimeout.GiveUpExactWhen` gives the exact condition.
- Nothing else in the mutex code loses exactness: `MutexRuns.RunPaidExactly` says that
  a run of it keeps every thread at exactly what it is owed if and only if no give-up
  and no release in it meets one of these two conditions.
- `rt_thread_control` writes the priority of an owner or a waiter without looking at
  mutexes (`rt-thread/src/thread.c:825-843`). `MutexControl.AssignedGuards` says when
  that keeps the no-inversion invariant, `MutexControl.AssignedExact` when it keeps
  exactness, and `MutexRuns.ControlInverts` is a run after which an owner is less
  urgent than a thread that waits for it.
- `rt_thread_control` changes a priority without rescheduling
  (`rt-thread/src/thread.c:825-843`), so a ready thread may outrank the running one
  until the next call of `rt_schedule`. `SchedulerRuns.SetPrioritySettled` says when,
  and `SchedulerRuns.SwitchOwedReachable` is such a state.
- The same goes for making a thread ready, or suspending the running one, until the
  caller calls `rt_schedule` (`SchedulerRuns.ReadySettled`, `SchedulerRuns.ParkSettled`).
- `rt_malloc_align` accepts an alignment that is not a power of two, and then need not
  meet it: with alignment 12 and a block at 16 the result is 28
  (`AlignedAlloc.TwelveMissed`). `AlignedAlloc.LandsExactly` says that it is met at
  every address if and only if it is a power of two. Safety does not depend on that.
  An alignment of 0 leads to the null pointer (`AlignedAlloc.ZeroIsLost`).

## Model

| member | source | states |
|---|---|---|
| MutexModel.EnqueuedAt | rt-thread/src/ipc.c:241-285 | a thread enters a wait list in front of the first thread with a larger priority number, behind equals |
| MutexModel.EnqueuedSorted | rt-thread/src/ipc.c:251-277 | a sorted wait list stays sorted |
| MutexModel.EnqueuedOrder | rt-thread/src/ipc.c:251-277 | those already waiting keep their order |
| MutexModel.Inherited | rt-thread/src/ipc.c:846-866 | the result is the minimum of the initial priority and of priority and ceiling of every mutex held: a lower bound that is attained |
| MutexModel.Propagate | rt-thread/src/ipc.c:869-921 | the loop along the chain of owners ends on every wait-for graph, deadlock cycles included, and changes priorities and wait-list order only |
| MutexModel.ChainDescends | rt-thread/src/ipc.c:878-918 | each turn of the loop reaches a thread not seen before, or lowers the sum of all priorities |
| MutexModel.PropagateGuards | rt-thread/src/ipc.c:869-921 | on exit every wait list is sorted again, and no owner anywhere along the chain is outranked by a waiter |
| MutexModel.PropagateExact | rt-thread/src/ipc.c:869-921 | on exit every thread runs at what it is owed, and every mutex advertises its head waiter, but for a given set of mutexes that a woken waiter has yet to repair |
| MutexSafety.TakeGuards | rt-thread/src/ipc.c:1327-1537 | take and trytake keep the no-inversion invariant, in spite of the shortcut at line 1423 |
| MutexSafety.ReleaseGuards | rt-thread/src/ipc.c:1591-1717 | release keeps it, in spite of the shortcut at line 928 |
| MutexSafety.WakeGuards | rt-thread/src/thread.c:146-174 | a timeout that unlinks a waiter keeps it |
| MutexSafety.GiveUpGuards | rt-thread/src/ipc.c:1463-1527 | the woken waiter's repair keeps it, in spite of the test at line 1488 |
| MutexSafety.CeilingGuards | rt-thread/src/ipc.c:1152-1184 | setting a ceiling keeps it |
| MutexExact.TakeExact | rt-thread/src/ipc.c:1327-1432 | take keeps exact inheritance: the owner chain is raised to precisely what it is now owed, whatever other mutexes await a repair |
| MutexExact.ReleaseExact | rt-thread/src/ipc.c:1591-1717 | release keeps exact inheritance if and only if the heir is not outranked by the mutex's ceiling |
| MutexExact.ReleaseHandsOver | rt-thread/src/ipc.c:1628-1708 | ownership goes to the highest-priority waiter with hold count 1, and the waiter no longer waits |
| MutexExact.CeilingExact | rt-thread/src/ipc.c:1152-1184 | setting a ceiling keeps exact inheritance |
| MutexTimeout.GiveUpExact | rt-thread/src/ipc.c:1463-1527 | after a late waiter's repair its mutex is exact if and only if the owner passed the test at line 1488 or needed no repair; otherwise the owner is left at what it is not owed; mutexes that await other waiters' repairs may be stale throughout |
| MutexTimeout.GiveUpExactWhen | rt-thread/src/ipc.c:1481-1516 | the same, the second case spelled out: the owner's initial priority, another mutex, the ceiling or the next waiter holds it where it is |
| MutexTimeout.PromptTimeoutExact | rt-thread/src/ipc.c:1463-1527 | a waiter that runs as soon as it is unlinked repairs everything, unless another one has yet to repair the same mutex |
| MutexRuns.RunGuards | rt-thread/src/ipc.c:828-1717 | every state of a run is free of inversion if and only if every priority that rt_thread_control writes in it fits; the mutex code keeps the invariant whatever it is called with |
| MutexRuns.UncontrolledFits | rt-thread/src/ipc.c:828-1717 | so every run without rt_thread_control is free of inversion |
| MutexControl.AssignedGuards | rt-thread/src/thread.c:825-843 | a written priority keeps the no-inversion invariant if and only if it is not below what the thread's mutexes advertise, does not outrank the mutex the thread waits for, and leaves it in its place in the wait list |
| MutexControl.AssignedExact | rt-thread/src/thread.c:825-843 | it keeps exactness as well if and only if it is also what the thread is owed and, for a head waiter, what the mutex advertises |
| MutexRuns.ControlInverts | rt-thread/src/thread.c:825-833 | a concrete run from boot after which a waiter at 20 waits for an owner at 25 |
| MutexRuns.ChainNotInverted | rt-thread/src/ipc.c:869-921 | under the invariant the last thread of any wait chain runs at least as high as the first |
| MutexRuns.NoPriorityInversion | rt-thread/src/ipc.c:828-1717 | from boot, after any mutex calls, timeouts, resumes, sleeps and ceilings, and priorities written by rt_thread_control that fit, no owner further along any wait chain runs lower than a thread that waits |
| MutexRuns.NextAccounted | rt-thread/src/ipc.c:828-1717 | each step keeps every thread at what it is owed and every list in order if and only if its guard holds; where the mutex code breaks that it leaves some thread unpaid; only mutexes with a woken waiter that has yet to run may advertise anything else |
| MutexRuns.RunAccounted | rt-thread/src/ipc.c:828-1717 | the same over a whole run, priorities written from outside included |
| MutexRuns.RunPaidExactly | rt-thread/src/ipc.c:828-1717 | without priorities written from outside, every thread runs at exactly what it is owed in every state of a run if and only if every give-up and every release in it passes its guard |
| MutexRuns.PromptRepairs | rt-thread/src/ipc.c:1463-1527 | a waiter that runs as soon as it is unlinked passes that guard |
| MutexRuns.WokenStandsBy | rt-thread/src/ipc.c:869-921 | a woken waiter that holds no mutex is left as it is by every step but its own next one and rt_thread_control, so that it does not matter whether rt_thread_suspend has been called on it |
| MutexRuns.RunExact | rt-thread/src/ipc.c:828-1717 | if every step of the run passes its guard, every thread runs at what it is owed, and inheritance is exact when no woken waiter has yet to run |
| MutexRuns.BackToInitial | rt-thread/src/ipc.c:1628-1636 | a thread that holds no mutex is back at its initial priority after every such run, for every order of nested releases |
| MutexRuns.LateTimeoutKeepsBoost | rt-thread/src/ipc.c:1488-1516 | a concrete run after which a thread that holds nothing still runs at another's priority |
| MutexRuns.UncontendedRound | rt-thread/src/ipc.c:928-943 | taking and releasing a free mutex without a ceiling leaves such a boost as it is |
| MutexRuns.CeilingMissedReachable | rt-thread/src/ipc.c:1663-1690 | a concrete run from boot to an exact state in which a release leaves the new owner below the ceiling |
| MutexHolds.RecursiveRound | rt-thread/src/ipc.c:1351-1366 | taking a mutex already owned and releasing it once is as if nothing had been called |
| MutexHolds.TakeUnowned | rt-thread/src/ipc.c:1368-1385 | an unowned mutex is the caller's with hold count 1, and the caller runs at the better of its priority and the ceiling |
| MutexHolds.TakeContended | rt-thread/src/ipc.c:1388-1432 | if another thread owns the mutex the caller is turned away, or it is suspended and exactly it has joined the wait list; nobody's ownership, hold count or list membership changes otherwise |
| MutexHolds.ReleaseOutcome | rt-thread/src/ipc.c:1591-1717 | refused, one level, free, or handed to the first waiter, which runs on as owner; nobody else changes |
| MutexHolds.GiveUpOutcome | rt-thread/src/ipc.c:1434-1527 | a waiter that gives up runs on without the mutex, and who owns what stays as it is |
| MutexHolds.OwnedUntilReleased | rt-thread/src/ipc.c:828-1717 | mutual exclusion over any run: an owner stays the only owner if and only if it has not yet released the mutex as often as it took it, and the hold count is the difference |
| MutexKernel.Kernel.Enqueue | rt-thread/src/ipc.c:241-285 | the scan of the wait list computes the enqueued list |
| MutexKernel.Kernel.MutexUpdatePriority | rt-thread/src/ipc.c:828-843 | the mutex advertises its head waiter, or nothing |
| MutexKernel.Kernel.ThreadMutexPriority | rt-thread/src/ipc.c:846-866 | the scan of the taken list finds what the thread is owed |
| MutexKernel.Kernel.Requeue | rt-thread/src/ipc.c:884-905 | one waiter is moved to its new place and the mutex's priority refreshed |
| MutexKernel.Kernel.ThreadUpdatePriority | rt-thread/src/ipc.c:869-921 | the do-while loop equals the propagation function |
| MutexKernel.Kernel.CheckAndUpdatePrio | rt-thread/src/ipc.c:923-944 | the releasing thread drops to what it is still owed when the shortcut calls for it |
| MutexKernel.Kernel.TakeFree | rt-thread/src/ipc.c:1368-1385 | an unowned mutex changes hands |
| MutexKernel.Kernel.Park | rt-thread/src/ipc.c:1406-1432 | the caller is suspended and its priority passed on |
| MutexKernel.Kernel.Take | rt-thread/src/ipc.c:1327-1432 | all outcomes of a take: recursive with one level more, full, taken, timed out, or asleep on the wait list; keeps the no-inversion invariant |
| MutexKernel.Kernel.TakeResumed | rt-thread/src/ipc.c:1455-1527 | what the caller does when it runs again, with or without the mutex |
| MutexKernel.Kernel.HandOver | rt-thread/src/ipc.c:1645-1708 | direct hand-off to the head waiter, or the mutex becomes free |
| MutexKernel.Kernel.Release | rt-thread/src/ipc.c:1591-1717 | release by the owner, one level or the last, and refusal to anyone else; keeps the no-inversion invariant |
| MutexKernel.Kernel.SetPrioCeiling | rt-thread/src/ipc.c:1152-1184 | the previous ceiling is returned and the owner re-evaluated; keeps the no-inversion invariant |
| MutexKernel.Kernel.ThreadTimeout | rt-thread/src/thread.c:146-174 | the waiter is unlinked and made runnable; keeps the no-inversion invariant |
| MutexKernel.Kernel.ThreadControl | rt-thread/src/thread.c:825-843 | the priority is written, and nothing else looked at |
| BlockLayout.AllocatedSound | rt-thread/src/mem.c:310-359 | an allocation keeps the heap tiled, with no two free neighbours |
| BlockLayout.FreedSound | rt-thread/src/mem.c:119-157 | so does a free: coalescing on both sides leaves no free neighbours |
| BlockLayout.ShrunkSound | rt-thread/src/mem.c:449-477 | so does a shrinking realloc |
| BlockLayout.AllocatedUsed | rt-thread/src/mem.c:341-357 | used grows by exactly the extent of the block handed out |
| BlockLayout.FreedUsed | rt-thread/src/mem.c:523-538 | and shrinks by exactly that of the block freed |
| BlockLayout.UsedAndFree | rt-thread/src/mem.c:271-539 | conservation: what is in use and what is free make up the heap |
| BlockLayout.AllocFreeInverse | rt-thread/src/mem.c:271-389 | freeing what was just allocated restores the layout, and with it lfree and used, which are functions of it |
| BlockLayout.FreedLive | rt-thread/src/mem.c:119-157 | of the live blocks exactly the one freed is gone, and none appears |
| BlockLayout.AllocatedLive | rt-thread/src/mem.c:310-359 | the live blocks afterwards are those before and the new one |
| BlockLayout.FreeAllInAnyOrder | rt-thread/src/mem.c:497-539 | a list of addresses can be freed in turn, and leaves one free block with nothing used, if and only if it holds the address of every live block once, in whatever order |
| SmallMem.Heap.constructor | rt-thread/src/mem.c:170-234 | one free block over the whole heap, closed by the end marker |
| SmallMem.Heap.PlugHoles | rt-thread/src/mem.c:119-157 | headers mirror the layout merged on both sides, lfree stays the lowest free block, no live data changes |
| SmallMem.Heap.SplitAt | rt-thread/src/mem.c:323-340 | headers mirror the split layout, no other block's data changes |
| SmallMem.Heap.FindFit | rt-thread/src/mem.c:299-306 | starting at lfree and stopping at size - words skips nothing: the first fit of the whole heap, or none |
| SmallMem.Heap.MarkUsed | rt-thread/src/mem.c:358-374 | the block is marked and lfree advances to the lowest free block |
| SmallMem.Heap.Alloc | rt-thread/src/mem.c:271-389 | in bytes: null exactly if the size is 0 or no free block has that many bytes and at least 12; otherwise the lowest such block, with room for all bytes asked for and for less than 36 more; used, max and lfree follow; no live data changes |
| SmallMem.Heap.Free | rt-thread/src/mem.c:497-539 | the block is freed and coalesced, the accounts follow, no other live data changes |
| SmallMem.Heap.Shrink | rt-thread/src/mem.c:449-477 | the block is cut short in place and keeps its data |
| SmallMem.Heap.Move | rt-thread/src/mem.c:479-487 | allocate, copy, free: what fits of the data is at the new place |
| SmallMem.Heap.Realloc | rt-thread/src/mem.c:403-488 | in bytes: where it stays in place, where it moves, and null exactly if the size is 0, too large, or neither is possible; the result has room for all bytes asked for and for less than 36 more; the first min(old, new) bytes are kept; the layout, address and peak in every case; a failure to a non-zero size changes nothing; other live data unchanged |
| SmallMem.ReallocatedSound | rt-thread/src/mem.c:403-488 | the result is a live block with room for the request, in a sound heap that still has every other live block |
| SmallMemRuns.RunSound | rt-thread/src/mem.c:271-539 | any sequence of alloc, free and realloc keeps the heap tiled with no free neighbours |
| SmallMemRuns.HandedOutApart | rt-thread/src/mem.c:271-539 | after any calls, no two blocks share a word and all lie in the heap |
| SmallMemRuns.NothingLeaks | rt-thread/src/mem.c:271-539 | after any calls, freeing blocks by a list of addresses gives back the initial heap if and only if the list enumerates the live blocks, in whatever order |
| SmallMemRuns.Allocate | rt-thread/src/mem.c:271-389 | every call of alloc is a step of such a run, max included |
| SmallMemRuns.Release | rt-thread/src/mem.c:497-539 | so is every free of a live block; a free of null changes nothing |
| SmallMemRuns.Resize | rt-thread/src/mem.c:403-488 | so is every realloc, that of null being an allocation |
| SmallMemRuns.DataSurvive | rt-thread/src/mem.c:271-539 | the data of a live block survive every sequence of calls, and of writes to other blocks, that neither frees nor resizes it |
| SmallMemRuns.MaxIsHistorical | rt-thread/src/mem.c:341-356 | over a run max is the maximum of used over all moments, those inside a moving realloc included |
| AlignedAlloc.MaskIsMod | rt-thread/src/kservice.c:1033-1040 | masking with a power of two less one is remainder and rounding down |
| AlignedAlloc.AlignPtrFacts | rt-thread/src/kservice.c:1032-1040 | for a power of two the result is a multiple of it |
| AlignedAlloc.AlignPtrRoom | rt-thread/src/kservice.c:1024-1043 | for any alignment at all the result leaves room for the saved pointer before it and lies at most one alignment further |
| AlignedAlloc.LandsExactly | rt-thread/src/kservice.c:1024-1040 | the result is a multiple of the alignment asked for at every address if and only if that is a power of two, and any other alignment is already missed at an address below four times it |
| AlignedAlloc.TwelveMissed | rt-thread/src/kservice.c:1033-1040 | a concrete input: alignment 12, a block at 16, and a result of 28 |
| AlignedAlloc.ZeroIsLost | rt-thread/src/kservice.c:1024-1040 | alignment 0 in 32-bit arithmetic: the aligned address is null for every block |
| AlignedAlloc.MallocAlign | rt-thread/src/kservice.c:1012-1049 | for any alignment but 0 the bytes and the saved pointer lie inside the underlying block, and for a power of two the address is a multiple of it; null exactly when that allocation fails; for 0 the result is null although a block has been taken, and the saved pointer goes astray |
| AlignedAlloc.FreeAlign | rt-thread/src/kservice.c:1058-1066 | the saved pointer leads back to exactly the original block |
| MemHeapLists.FreeUnlinkedRing | rt-thread/src/memheap.c:50-51 | the two writes take one node out of the free circle and touch no block link |
| MemHeapLists.FreePushedRing | rt-thread/src/memheap.c:276-280 | the four writes put a node in front of the free circle |
| MemHeapLists.BlockUnlinkedRing | rt-thread/src/memheap.c:52-53 | the two writes take one block out of the block circle |
| MemHeapLists.BlockInsertedRing | rt-thread/src/memheap.c:264-268 | the four writes put a block behind another |
| MemHeap.Heap.constructor | rt-thread/src/memheap.c:79-154 | one free block and the used guard, in two circles that agree |
| MemHeap.Heap.SearchFree | rt-thread/src/memheap.c:221-232 | the first block of the free list that fits, or none does |
| MemHeap.Heap.Alloc | rt-thread/src/memheap.c:187-347 | in bytes: null exactly if the request is not below all that is available or no free block has that many bytes and at least 12; otherwise the first fit of the free list, with room for all bytes asked for and at most 48 more; lists, layout and accounts agree; max_used_size is the historical maximum |
| MemHeap.Heap.Free | rt-thread/src/memheap.c:594-719 | merged with both neighbours, in the free list exactly once, accounts in agreement |
| MemHeap.Heap.GrowInPlace | rt-thread/src/memheap.c:415-484 | the boundary to the free neighbour moves, everything still agrees |
| MemHeap.Heap.Shrink | rt-thread/src/memheap.c:520-575 | what is cut off joins its free neighbour, everything still agrees |
| MemHeap.Heap.Move | rt-thread/src/memheap.c:493-501 | allocate, copy, free: what fits of the payload is at the new place, no other live payload changes, max_used_size follows the moment at which both blocks are taken, and null changes nothing |
| MemHeap.Heap.Realloc | rt-thread/src/memheap.c:362-585 | in bytes: it stays in place exactly if the block is long enough, or its free neighbour has enough to give; the result has room for all bytes asked for; the first min(old, new) bytes are kept; what it does to the layout, the free list and max_used_size, a size of 0 included; null for a non-zero size, or for a null block of size 0, leaves everything unchanged; other live payload unchanged |
| MemHeap.GrantedLive | rt-thread/src/memheap.c:240-312 | after an allocation the live blocks are those before and one new one, which serves the request |
| MemHeap.ResizedLive | rt-thread/src/memheap.c:415-575 | after a realloc in place the block serves the new size at the same address, and every other live block is what it was |
| MemHeap.MovedLive | rt-thread/src/memheap.c:493-501 | after a realloc that moves, one new block serves the request, the old one is gone, and every other live block is what it was |
| MemHeap.GrantedKeeps | rt-thread/src/memheap.c:239-312 | free list and layout still agree after a block is handed out |
| MemHeap.GrownConsistent | rt-thread/src/memheap.c:431-484 | both lists, used bits and layout still agree after a block grew in place |
| MemHeap.MergedPending | rt-thread/src/memheap.c:647-684 | both lists and the layout still agree after a merge |
| MemHeap.GrantFreeInverse | rt-thread/src/memheap.c:187-719 | freeing what was just allocated restores the layout; the block now leads the free list |
| MemHeap.RestLeads | rt-thread/src/memheap.c:240-312 | what is left of a block handed out or cut short leads the free list, and the others keep their order |
| MemHeap.FreeAndTaken | rt-thread/src/memheap.c:187-719 | conservation: free words, words in use and one header for each block make up the pool |
| MemHeapRuns.RunFine | rt-thread/src/memheap.c:187-719 | any sequence of alloc, free and realloc keeps the pool tiled with no free neighbours |
| MemHeapRuns.HandedOutApart | rt-thread/src/memheap.c:187-719 | after any calls, no two blocks share a word and all lie in front of the guard |
| MemHeapRuns.NothingLeaks | rt-thread/src/memheap.c:187-719 | after any calls, freeing blocks by a list of addresses gives back one free block if and only if the list enumerates the live blocks, in whatever order |
| MemHeapRuns.Allocate | rt-thread/src/memheap.c:187-347 | every call of alloc is an event of a history, free list and max_used_size included |
| MemHeapRuns.Release | rt-thread/src/memheap.c:594-719 | so is every free of a live block; a free of null changes nothing |
| MemHeapRuns.Resize | rt-thread/src/memheap.c:362-585 | so is every realloc, that of null being an allocation |
| MemHeapRuns.MaxIsHistorical | rt-thread/src/memheap.c:187-719 | over a run max_used_size is the maximum of pool_size - available_size over all moments, those inside a moving realloc included |
| MemHeapRuns.DataSurvive | rt-thread/src/memheap.c:187-719 | the payload of a live block survives every sequence of calls, and of writes to other blocks, that neither frees nor resizes it |
| Bits.FfsIsLowest | rt-thread/src/kservice.c:1098-1153 | the table-driven version finds the lowest bit set, for every word |
| Bits.TinyFfsIsFfs | rt-thread/src/kservice.c:1072-1096 | the version with the table modulo 37 agrees with it on every word |
| ReadyMap.MarkShows | rt-thread/src/scheduler_up.c:528 | setting a priority's bit adds exactly that priority |
| ReadyMap.ClearShows | rt-thread/src/scheduler_up.c:566 | clearing it removes exactly that one |
| ReadyMap.FfsIsHighest | rt-thread/src/scheduler_up.c:116 | the choice is the highest ready priority |
| ReadyMap.ReadyTable.Mark | rt-thread/src/scheduler_up.c:525-528 | the two-level map represents the same set as the one-level map, after an insertion |
| ReadyMap.ReadyTable.Clear | rt-thread/src/scheduler_up.c:559-564 | ... and after a removal |
| ReadyMap.ReadyTable.Highest | rt-thread/src/scheduler_up.c:113-114 | ... and makes the same choice |
| Scheduler.ReadyIsQueued | rt-thread/src/scheduler_up.c:490-533 | a thread is in a queue exactly if it is READY and has that priority |
| Scheduler.SwitchQueue | rt-thread/src/scheduler_up.c:324-344 | where the running thread goes when it is switched away: front or back of its queue, or nowhere |
| Scheduler.ScheduleWf | rt-thread/src/scheduler_up.c:282-407 | rt_schedule keeps queues and thread states in agreement |
| Scheduler.ScheduleSettles | rt-thread/src/scheduler_up.c:282-407 | after it, with the lock open, no ready thread outranks the running one |
| SchedulerRuns.NeverOutranked | rt-thread/src/scheduler_up.c:246-707 | from start, after any calls, and after the parts of calls that do not reschedule, READY threads are exactly those in the queue of their priority and only the running thread carries the YIELD flag; with the lock open nobody ready outranks the running thread, unless a switch is owed: a priority changed, a thread was made ready or the running one suspended in a way that called for a switch, and nobody has called rt_schedule since |
| SchedulerRuns.RunCalm | rt-thread/src/scheduler_up.c:246-707 | the same from any state that satisfies the invariant |
| SchedulerRuns.OutermostLeaveServes | rt-thread/src/scheduler_up.c:681-707 | a reschedule asked for under the lock is served when the outermost section is left, however deep the nesting |
| SchedulerRuns.SetPriorityWf | rt-thread/src/scheduler_comm.c:346-396 | changing a priority keeps queues, masks and states in agreement |
| SchedulerRuns.SetPrioritySettled | rt-thread/src/thread.c:825-843 | rt_thread_control, which does not reschedule, leaves nobody outranking the running thread if and only if the new priority calls for no switch |
| SchedulerRuns.ReadySettled | rt-thread/src/scheduler_comm.c:229-271 | making a thread ready without a reschedule does so if and only if that thread does not outrank the running one |
| SchedulerRuns.ParkSettled | rt-thread/src/thread.c:937-1017 | suspending a thread without a reschedule does so if and only if it is not the running thread, or nobody else is ready |
| SchedulerRuns.SwitchOwedReachable | rt-thread/src/thread.c:825-833 | a concrete state in which it does call for one |
| SchedulerFates.NextFate | rt-thread/src/scheduler_up.c:246-707 | each call makes runnable, suspends or closes the thread it names and nobody else, changes no other priority, and changes the nesting by what it says; no thread is switched while the lock is held |
| SchedulerFates.RunFate | rt-thread/src/scheduler_up.c:246-707 | after any calls a thread is runnable, suspended or closed as the last call that names it says, and the nesting is what enters and leaves make it |
| SchedulerFates.LockedNoSwitch | rt-thread/src/scheduler_up.c:655-707 | from the first enter to the last leave the same thread has the CPU, whatever is called in between |
| SchedulerFates.EnterLeaveBalance | rt-thread/src/scheduler_up.c:655-707 | n enters need n leaves |
| SchedulerFates.ReadyInFront | rt-thread/src/scheduler_up.c:490-533 | a thread made ready stands in front of its queue, unless it is the running one |
| SchedulerFates.ResumeInFront | rt-thread/src/thread.c:1089-1125 | where nobody had a better claim, a thread resumed runs at once if and only if it has one and the lock is open; otherwise it stands in front of its queue |
| SchedulerFates.MovedInFront | rt-thread/src/scheduler_comm.c:346-396 | a ready thread whose priority changes stands in front of its new queue and in no other |
| SchedulerRobin.SliceEnds | rt-thread/src/scheduler_comm.c:291-322 | the end of a slice moves the running thread to the back of its queue with a full slice, and the front runs |
| SchedulerRobin.RoundRobin | rt-thread/src/scheduler_comm.c:291-322 | however the ticks fall, the e-th slice belongs to the e-th thread of the ring, modulo its size |
| SchedulerRobin.OnceEach | rt-thread/src/scheduler_comm.c:291-322 | different slices of one turn belong to different threads |
| SchedulerRobin.FullTurn | rt-thread/src/scheduler_comm.c:198-206 | after as many ticks as the slices add up to, the scheduler is exactly where it was, each thread having run for its own slice |
| SchedulerKernel.Kernel.InsertThread | rt-thread/src/scheduler_up.c:490-533 | READY at the front or back of its queue and its bit set, or RUNNING if it is the current thread |
| SchedulerKernel.Kernel.RemoveThread | rt-thread/src/scheduler_up.c:542-572 | out of its queue, the bit cleared exactly when the queue is empty |
| SchedulerKernel.Kernel.HighestPriorityThread | rt-thread/src/scheduler_up.c:105-125 | the front of the highest non-empty queue |
| SchedulerKernel.Kernel.Reschedule | rt-thread/src/scheduler_up.c:282-412 | equals the scheduling function; under the lock only the flag is set |
| SchedulerKernel.Kernel.EnterCritical | rt-thread/src/scheduler_up.c:655-661 | the nesting level goes up by one |
| SchedulerKernel.Kernel.ExitCritical | rt-thread/src/scheduler_up.c:681-707 | the outermost exit serves a pending request |
| SchedulerKernel.Kernel.TickIncrease | rt-thread/src/scheduler_comm.c:291-322 | the slice runs down, and its end yields |
| SchedulerKernel.Kernel.YieldThread | rt-thread/src/scheduler_comm.c:198-206 | a full slice, the YIELD flag and a reschedule |
| SchedulerKernel.Kernel.ThreadReady | rt-thread/src/scheduler_comm.c:229-271 | a suspended thread is inserted, any other refused |
| SchedulerKernel.Kernel.ThreadResume | rt-thread/src/thread.c:1089-1125 | the same and a reschedule: a thread that was suspended is ready or running afterwards |
| SchedulerKernel.Kernel.ThreadSuspend | rt-thread/src/thread.c:937-1017 | out of the ready queue, or suspended while running |
| SchedulerKernel.Kernel.ThreadStartup | rt-thread/src/thread.c:406-423 | priority mask computed, thread resumed: it is ready or running afterwards |
| SchedulerKernel.Kernel.ThreadClose | rt-thread/src/thread.c:437-469 | out of the ready queue and closed |
| SchedulerKernel.Kernel.UpdatePriority | rt-thread/src/scheduler_comm.c:346-396 | a ready thread changes queue, any other only its attributes |
| RtList.Memory.InsertAfter | rt-thread/include/rtservice.h:61-68 | the circle with the node behind the given one; no other list touched |
| RtList.Memory.InsertBefore | rt-thread/include/rtservice.h:76-83 | the circle with the node before the given one; no other list touched |
| RtList.Memory.RemoveNode | rt-thread/include/rtservice.h:89-95 | the circle without the node, which now stands alone; no effect on a node in no list |
| RtList.Memory.IsEmpty | rt-thread/include/rtservice.h:101-104 | true exactly if there is no item |
| RtList.Memory.Len | rt-thread/include/rtservice.h:110-121 | the number of items |
| RtList.OtherListsKept | rt-thread/include/rtservice.h:61-95 | lists apart from the one written stay lists |
| RtList.HeadInsertions | rt-thread/include/rtservice.h:61-83 | before the head is at the back, after the head is at the front |
| RtList.ItemRemoved | rt-thread/include/rtservice.h:89-95 | removal takes out one item and keeps the order of the others |
| Deques.FirstInFirstOut | rt-thread/src/ipc.c:3533-3545 | without urgent messages and resets a deque is first in, first out |
| MsgQueue.RunPartition | rt-thread/src/ipc.c:3381-4025 | under every interleaving each node is queued, free or in flight with one thread, and the three add up to max_msgs |
| MsgQueue.RunIsDeque | rt-thread/src/ipc.c:3381-4025 | under every interleaving the queue is a deque of byte strings: sends at the back, urgent sends in front, receives from the front, reset empties it |
| MsgQueue.MessagesInOrder | rt-thread/src/ipc.c:3381-3925 | without urgent messages and resets, messages are received in the order in which they were linked |
| MsgQueue.SendAlone | rt-thread/src/ipc.c:3381-3571 | a send that is let alone takes a free node and puts the message at the back, or in front |
| MsgQueue.ReceiveAlone | rt-thread/src/ipc.c:3795-3925 | a receive that is let alone takes the front message and frees its node |
| MsgQueue.FlightStays | rt-thread/src/ipc.c:3496-3502 | until its thread ends it, no other thread, overtaking message or reset touches what is being copied |
| MsgQueue.PutIsSent | rt-thread/src/ipc.c:3381-3571 | what joins the queue, however many others come in between, is what the sender was called with |
| MsgQueue.ReceiptIsGet | rt-thread/src/ipc.c:3872-3925 | what the receiver copies out, however long that takes, is the message it took from the front, cut to the room it has |
| MsgQueueKernel.MessageQueue.constructor | rt-thread/src/ipc.c:3134-3153 | all nodes free, nothing queued |
| MsgQueueKernel.MessageQueue.BeginSending | rt-thread/src/ipc.c:3657-3688 | a free node leaves the list, or nothing happens because the message is too long or no node is free |
| MsgQueueKernel.MessageQueue.FillNode | rt-thread/src/ipc.c:3496-3502 | the copy outside the lock changes no other message, queued or in flight |
| MsgQueueKernel.MessageQueue.LinkBehind | rt-thread/src/ipc.c:3533-3556 | the message is at the back, head and tail are right, and entry never overflows |
| MsgQueueKernel.MessageQueue.LinkInFront | rt-thread/src/ipc.c:3697-3714 | the message is in front, head and tail are right, and entry never overflows |
| MsgQueueKernel.MessageQueue.BeginReceiving | rt-thread/src/ipc.c:3872-3887 | the first message leaves the queue; tail is null if it was the last |
| MsgQueueKernel.MessageQueue.CopyOut | rt-thread/src/ipc.c:3889-3895 | the bytes received are the beginning of those sent, min(length, size) of them, whatever others did in between |
| MsgQueueKernel.MessageQueue.EndReceiving | rt-thread/src/ipc.c:3901-3904 | the node is free again |
| MsgQueueKernel.MessageQueue.ResetQueue | rt-thread/src/ipc.c:3998-4027 | every queued node is free, nodes in flight are left alone |
| MsgQueueWaits.RunProjects | rt-thread/src/ipc.c:3381-4032 | with blocking, the nodes do what they do in the runs of MsgQueue, so that the results on those hold |
| MsgQueueWaits.RunServed | rt-thread/src/ipc.c:3381-4032 | in every reachable state a suspended receiver implies entry <= woken receivers not yet run, and a suspended sender free nodes <= woken senders not yet run |
| MsgQueueWaits.NoLostWakeup | rt-thread/src/ipc.c:3381-4032 | once all woken threads have run, a suspended receiver finds no message, a suspended sender finds every node queued or in flight, and there are both only while all nodes are in flight |
| MsgQueueWaits.NextWakes | rt-thread/src/ipc.c:3381-4032 | a message linked wakes exactly the head of the receivers' list, a node freed exactly the head of the senders'; nothing else wakes anybody |
| MsgQueueWaitsKernel.BlockingQueue.constructor | rt-thread/src/ipc.c:3097-3156 | an idle queue with nobody waiting |
| MsgQueueWaitsKernel.BlockingQueue.SendWait | rt-thread/src/ipc.c:3405-3494 | one turn of the send loop: a node, suspension or refusal, and which |
| MsgQueueWaitsKernel.BlockingQueue.FinishSend | rt-thread/src/ipc.c:3504-3571 | the message is linked and a receiver woken |
| MsgQueueWaitsKernel.BlockingQueue.RecvWait | rt-thread/src/ipc.c:3795-3887 | one turn of the receive loop: the first message, suspension or refusal |
| MsgQueueWaitsKernel.BlockingQueue.FinishRecv | rt-thread/src/ipc.c:3901-3925 | the node is free again and a sender woken |
| MsgQueueWaitsKernel.BlockingQueue.Control | rt-thread/src/ipc.c:3998-4032 | no message, everybody resumed, nodes in flight left alone |
| Mailbox.RunServed | rt-thread/src/ipc.c:2566-3040 | in every reachable state a suspended receiver implies entry <= woken receivers not yet run, and a suspended sender size - entry <= woken senders not yet run |
| Mailbox.NoLostWakeup | rt-thread/src/ipc.c:2566-3040 | once all woken threads have run, a suspended receiver finds the box empty, a suspended sender finds it full, and there are not both |
| Mailbox.RunIsDeque | rt-thread/src/ipc.c:2566-3040 | the box is a bounded deque of words |
| Mailbox.MailsInOrder | rt-thread/src/ipc.c:2566-3040 | first in, first out without urgent mails and resets |
| Mailbox.NextWakes | rt-thread/src/ipc.c:2566-3040 | a mail that comes in wakes exactly the head of the receivers' list, one that goes out exactly the head of the senders'; nothing else wakes anybody |
| Mailbox.WokenInOrder | rt-thread/src/ipc.c:2566-3040 | with a first-come-first-served list, receivers are woken in the order in which they went to sleep |
| MailboxKernel.SlotIsMod | rt-thread/src/ipc.c:2665-2669 | positions on the ring are taken modulo its size |
| MailboxKernel.MailBox.constructor | rt-thread/src/ipc.c:2346-2376 | an empty box |
| MailboxKernel.MailBox.SendWait | rt-thread/src/ipc.c:2590-2696 | one turn of the loop on the ring equals the step: the mail is at the back, or the sender is suspended or refused; in_offset = out_offset + entry around the ring |
| MailboxKernel.MailBox.UrgentMail | rt-thread/src/ipc.c:2772-2820 | the mail is in front |
| MailboxKernel.MailBox.RecvWait | rt-thread/src/ipc.c:2870-2977 | the front mail is returned, or the receiver is suspended or refused |
| MailboxKernel.MailBox.ResetBox | rt-thread/src/ipc.c:3021-3040 | an empty box with nobody waiting |
| EventSet.SatisfiedMeans | rt-thread/src/ipc.c:1999-2022 | a waiter for all of its flags is satisfied if and only if all are set, one for any of them if and only if one is; it receives those wanted that are set |
| EventSet.KeptExactly | rt-thread/src/ipc.c:1993-2046 | a waiter stays suspended exactly if old set or sent bits do not satisfy it, whatever the others clear |
| EventSet.WokenExactly | rt-thread/src/ipc.c:1993-2046 | the others are woken, each with what it receives |
| EventSet.ClearedExactly | rt-thread/src/ipc.c:2034-2051 | a flag is cleared exactly if some woken waiter received it and asked for that |
| EventSet.SendInParts | rt-thread/src/ipc.c:1993-2046 | a send judges one waiter after the other, in list order, all against the same flags |
| EventSet.SendToOne | rt-thread/src/ipc.c:1999-2046 | what it does to each: woken with the wanted flags that are set, which it takes if it asked for that, or left waiting |
| EventSet.SendLeaves | rt-thread/src/ipc.c:1983-2051 | a flag is set afterwards if and only if it was set or sent and no woken waiter took it |
| EventSet.ReceiveLeaves | rt-thread/src/ipc.c:2131-2186 | a receive takes out exactly the flags wanted, if it is satisfied and asked to; otherwise it waits or goes and leaves the flags alone |
| EventSet.RunKeeps | rt-thread/src/ipc.c:1966-2223 | any sends, receives, timeouts and resets keep the invariant that no suspended thread's condition is satisfied |
| EventSet.NoMissedEvent | rt-thread/src/ipc.c:1966-2223 | from an event just created, after any sends, receives, timeouts and resets, a thread suspended for all of its flags lacks one, and one suspended for any of them has none |
| EventKernel.Event.EventSend | rt-thread/src/ipc.c:1966-2062 | the pass over the list, removing as it goes, equals the send: woken are exactly those whose flags are all there, or one of them, each with the wanted flags that are set; the others wait on |
| EventKernel.Event.EventRecv | rt-thread/src/ipc.c:2117-2186 | taken at once exactly if all flags wanted are set, or one of them, with what is wanted and set; refused, timed out or suspended otherwise |
| EventKernel.Event.EventReset | rt-thread/src/ipc.c:2268-2296 | everybody is resumed, in list order, and no flag is set |
| CrcCcitt.LookupIsShift8 | drivers/include/crc_ccitt.h:23-56 | every entry of the table is eight shifts of its index |
| CrcCcitt.CrcIsBitwise | drivers/include/crc_ccitt.h:59-77 | the table form equals the bit-at-a-time form with polynomial 0x8408, for every message and initial value |
| CrcCcitt.CrcCcittOf | drivers/include/crc_ccitt.h:71-77 | the loop computes it |
| CrcDetection.CrcLinear | drivers/include/crc_ccitt.h:59-77 | the CRC of the xor of two messages is the xor of their CRCs |
| CrcDetection.Residue | drivers/include/crc_ccitt.h:59-77 | a message and two bytes have CRC 0 exactly if the two bytes are its CRC, low byte first |
| CrcDetection.BurstDetected | drivers/include/crc_ccitt.h:59-77 | any change confined to two neighbouring bytes changes the CRC |
| CrcBursts.CrcByBits | drivers/include/crc_ccitt.h:59-77 | the table form is the CRC of the message's bits, low bit first |
| CrcBursts.BurstOf16Detected | drivers/include/crc_ccitt.h:59-77 | any change confined to 16 consecutive bits, wherever they start, changes the CRC |
| GoMotor.PutU16Le | applications/go_motor_min.c:172-176 | two bytes, low byte first, and nothing else |
| GoMotor.BuildZeroCmd | applications/go_motor_min.c:366-385 | header, id and mode, zeros, and a CRC that makes the whole frame's CRC 0 |
| GoMotor.FeedbackMeansResidue | applications/go_motor_min.c:387-402 | a frame is accepted exactly if its header is right and its bitwise CRC as a whole is 0 |
| GoMotor.CorruptedFeedbackRejected | applications/go_motor_min.c:387-402 | a valid frame with any error in two neighbouring bytes is rejected |
| GoMotor.CorruptedBitsRejected | applications/go_motor_min.c:387-402 | a valid frame with any error in 16 consecutive bits is rejected |
| ImuFrames.EncodeIntact | drivers/drv_imu_uart.c:5-15 | an encoded frame is well formed, its checksum is right, and function and payload can be read back |
| ImuFrames.ByteErrorDetected | drivers/drv_imu_uart.c:91-102 | a frame with any one byte changed, its checksum included, fails the check |
| ImuFrames.FeedAllGood | drivers/drv_imu_uart.c:183-251 | after any bytes the write index is below the declared length, which is 5 to 128, and only well-formed sequences were handed on |
| ImuFrames.LengthRefused | drivers/drv_imu_uart.c:216-231 | a header with a length that no frame has is counted and refused, and the parser starts anew |
| ImuFrames.StreamParsed | drivers/drv_imu_uart.c:183-251 | frames separated by anything without a complete header are handed on exactly and in order, also after repeated first header bytes |
| ImuFrames.EncodedParsed | drivers/drv_imu_uart.c:183-251 | the parser inverts the encoder |
| ImuKernel.EncodedMeaning | drivers/drv_imu_uart.c:104-181 | an encoded frame means what was put into it; one too short for its function is a frame error |
| ImuKernel.CorruptedMeaning | drivers/drv_imu_uart.c:104-126 | an intact frame with any one byte changed is reported as a checksum error |
| ImuKernel.Imu.ChecksumOf | drivers/drv_imu_uart.c:91-102 | the loop computes the sum of all bytes but the last modulo 256, without overflow |
| ImuKernel.Imu.ParseFrame | drivers/drv_imu_uart.c:104-181 | the report and the counter that goes with it |
| ImuKernel.Imu.FeedByte | drivers/drv_imu_uart.c:183-251 | the four parser states in place equal the parser function |

## Left out

- Hardware drivers, board and clock setup, HAL calls, UART access, RS485 pins: I/O and foreign code.
- SMP scheduling (`rt-thread/src/scheduler_mp.c`, `rt-thread/src/cpu_mp.c`) and lock-free lists: not in this build.
- Shell commands, printing, hooks, memory tracing, object naming and registration, signals.
- `mempool.c`, `object.c`, `idle.c`, `clock.c`, semaphores: their properties are easier repeats of those here.
- Mutex detach, delete and `rt_mutex_drop_thread`: they bypass the chain propagation the invariants rest on.
- Timers: a timeout is a step the environment may take at any time; thread timers are hard timers handled in the tick interrupt, so stopping one cannot fail between threads on one CPU, and the branch for that race in the hand-off loop is kept but never taken.
- The mutex model does not carry the ready queues, and the scheduler model does not carry the wait lists; each does its half of suspending and resuming a thread.
- MutexKernel.Kernel.ThreadUpdatePriority: a priority change also moves a ready thread to another ready queue; that half is `SchedulerRuns.SetPriorityWf`, and `SchedulerRuns.Run` interleaves any number of such changes with all other calls.
- MutexRuns.NoPriorityInversion: `rt_thread_suspend` on a woken waiter that has not run yet and holds another mutex, which the function's own documentation forbids (`rt-thread/src/thread.c:1023-1028`). If a priority is then passed to that waiter, `rt-thread/src/ipc.c:878-905` finds it suspended, puts it back on the wait list of its stale pending object and follows that mutex's owner, which may be null. A woken waiter that holds nothing is covered (`MutexRuns.WokenStandsBy`): until it runs nothing looks at its state, so being suspended only delays its next step.
- MutexKernel.Kernel.Take: a mutex's hold count stops at 255 as in the code; thread priorities are below 32.
- SmallMem.Heap.Alloc: sizes are unbounded, so a request near the top of 32 bits, which would wrap when aligned, is not modelled; memory tracing fields are not part of the header.
- SmallMem.Heap.Realloc: the end marker's prev field is not kept up to date by the code and not part of the invariant.
- MemHeap.Heap.Realloc: headers and payload are kept in separate tables, so that a header write could damage a payload is excluded by the layout only; the small-memory allocator is modelled with both in one array.
- MemHeap.Heap.Alloc: the pool semaphore is not modelled; an operation is one step.
- AlignedAlloc.MallocAlign: wrap-around of sizes; and for alignment 0 the write in front of address 0 is reported, not carried out, as no heap of the model has that word.
- MsgQueue.RunIsDeque: the build with message priorities.
- EventKernel.Event.EventSend: waiters with neither of the two options; the code asserts that there are none.
- EventSet.Receive: the word of 32 flags is modelled as the set of its bits.
- ImuKernel.Imu.ParseFrame: the conversion of raw values to floating point; raw integers and raw bytes are reported instead.
- Bits.FfsIsLowest: the build uses the CPU's own instruction; both software versions are modelled because the scheduler's choice rests on their specification.
