# Verified models of the Apex RTOS kernel

A Dafny model of the parts of the Apex kernel and C library whose correctness is least visible in the
code, with proofs that hold for every input, every run or every interleaving. `dafny verify
dfyconfig.toml` checks everything.

- **Physical pages** (`BuddyTree`, `BuddyLists`, `BuddyBits`, `Region`, `Pages`, `BuddyTheorems`): the
  buddy allocator with its free lists, pair bitmap, page table and counters, all tied to the set of
  free pages. The lists are shown to be a function of that set alone.
- **Address spaces** (`Segments`, `SegFiles`, `VmSpec`, `VmMap`, `Vm`, `VmWitness`): segment lists as maps from
  addresses to rights and to file offsets, and the pages behind them. The pages an address space owns are
  exactly those it maps; where mmap or munmap fails to keep that, the exact condition is stated.
- **Kernel memory** (`KmemSpec`, `Kmem`): block chains that tile pages, and free lists by size.
- **Scheduler** (`SchedSpec`, `SchedInv`, `SchedSteps`, `SchedOrder`, `SchedEffects`, `Scheduler`): run queue, sleep
  queues, switching, results of sleeps and the order of equal priorities, as a state machine; the code of the loops is proved against it.
- **Locks** (`Mutex`, `MutexInv`, `MutexSafety`, `MutexCalls`, `Rwlock`): the mutex with hand-off, recursion, signals
  and condition waits, and the reader-writer lock, over all interleavings of their steps.
- **Kernel log** (`LogRing`, `Syslog`), **timers** (`TimerSpec`, `Timer`, `TimerRuns`), **pipes** (`Pipe`),
  **DMA planning** (`Dma`, `DmaLimits`), **circular buffer** (`RingMoves`, `CircularBuffer`), **queue
  pointers** (`Links`).
- **Integer text** (`Digits`, `IntScan`, `Charconv`): reading and writing integers, and their round trip.

`KernelConfig`, `Queues`, `Powers` and `Modular` hold what these share. Intrusive lists are sequences of
their members; `Links` proves the pointer code against such sequences.

Conventions. Addresses, lengths and times are unbounded integers except where a width is written out:
the limits of `IntScan`, the free-running indices of `CircularBuffer` and `Pipe` (which wrap at a
multiple of the number of slots), and fixed-width flags. A power of two mask is a remainder. Results of
calls outside the model are parameters: how many segment headers can be had (`room`), whether
a file could be read (`read`), how many transfers a device takes (`slots`), the page a page allocation
gives, whether a signal is pending. Where the code differs from its comments the code is followed: the list index of kmem blocks is the size over 16,
not that less one; `sch_wakeone` compares the last sleeper, not the one it wakes, with the active thread.

Places where the code does not have the property one would expect are stated as such: a lemma shows a
state in which it fails, and another gives the exact condition under which it holds. These are waking
of suspended sleepers and `sch_wakeone` (`SchedInv.WakeupInv`, `SchedInv.WakeOneInv`, in states that
`SchedSteps.SuspendedReached` and `SchedSteps.StrandingReached` show to be reached); file offsets after
mprotect and mmap (`SegFiles.MprotectFiles`, `SegFiles.MapFiles`); pages and segments after mmap
(`VmMap.MappedOwns`, `VmMap.DroppedOwns`, `VmMap.LostOwns`, `VmMap.AnywhereOwns`) and after munmap of a
segment that lies across two regions (`Vm.AddressSpace.Munmap`), with runs from the start in `VmWitness`;
callbacks of timers armed or stopped while the timer thread has them taken (`TimerRuns.RequestExact`); the end of
the DMA planning loop, the number of its transfers and the limits on bounces (`Dma.Planner.Iterate` for one
half, `DmaLimits` for the other); and a log message that is accepted and lost at once
(`Syslog.Log.Append`).

## Model

| member | source | states |
|---|---|---|
| `BuddyTree.NestedOrDisjoint` | sys/mem/page.cpp:216-265 | Two aligned blocks of powers of two pages are nested or have no page in common |
| `BuddyTree.BuddyHalves` | sys/mem/page.cpp:244-265 | A block is its two buddy halves, which have no page in common |
| `BuddyTree.AddBlock` | sys/mem/page.cpp:216-265 | Freeing a block whose buddy is not wholly free makes that block an entry of the set of largest free aligned blocks, and changes no other entry |
| `BuddyBits.PairToIdx` | sys/mem/page.cpp:109-131 | Every (order, buddy pair) has a bit within the bitmap, and order and pair can be computed back from the bit number |
| `BuddyBits.IdxToPair` | sys/mem/page.cpp:109-131 | The other way round: every bit of the bitmap belongs to an order and a pair |
| `BuddyBits.PairIdxInjective` | sys/mem/page.cpp:118-131 | No two pairs share a bitmap bit |
| `BuddyBits.PagePair` | sys/mem/page.cpp:128-131 | The bit computed from a page number is that of the pair whose block contains the page |
| `BuddyBits.PairChange` | sys/mem/page.cpp:216-265 | Which pairs change state when a block is taken from or added to the free pages: exactly those of the block and the blocks around it up to the order where it is absorbed |
| `BuddyLists.SplitStep` | sys/mem/page.cpp:222-239 | Splitting a listed block and keeping one half off the lists leaves the lists right for the other pages |
| `BuddyLists.JoinStep` | sys/mem/page.cpp:250-262 | Joining a block with its listed buddy leaves the lists right for the larger block |
| `BuddyLists.CoverExactly` | sys/mem/page.cpp:216-265 | A page is free exactly when some listed block contains it |
| `BuddyLists.ListedDisjoint` | sys/mem/page.cpp:216-265 | Two listed blocks that share a page are the same |
| `BuddyLists.BuddiesListed` | sys/mem/page.cpp:244-265 | Never are both buddies of a pair listed |
| `BuddyLists.RoomIsListed` | sys/mem/page.cpp:304-350 | There is a block on a list of order o or above exactly when some aligned run of 2^o free pages exists |
| `Regions.Region.constructor` | sys/mem/page.cpp:689-709 | A new region is one free block, with lists, bitmap, page table and counts in agreement |
| `Regions.Region.ReserveHoles` | sys/mem/page.cpp:711-715 | Pages outside the memory of the region become holes and no others, in a valid region |
| `Regions.Region.ToggleUp` | sys/mem/page.cpp:216-239 | The walk up the bitmap in block_alloc ends at the order of the one listed block that contains the page |
| `Regions.Region.BlockAlloc` | sys/mem/page.cpp:216-239 | Lists and bitmap describe the free pages without the block, the larger block around it having been split |
| `Regions.Region.BlockFree` | sys/mem/page.cpp:244-265 | Lists and bitmap describe the free pages with the block, joined with its buddies as far as possible |
| `Regions.Region.DoAlloc` | sys/mem/page.cpp:270-296 | The pages of a free block get state and owner; lists, bitmap, free and usable byte counts stay exact |
| `Regions.Region.PageFreeBlock` | sys/mem/page.cpp:459-473 | The pages of a block become free and unowned; everything stays exact |
| `Regions.Region.PageReserve` | sys/mem/page.cpp:382-412 | Succeeds exactly when every page is free or, with realloc, already of that kind and owner; then takes the free ones, and otherwise changes nothing |
| `Regions.Region.PageFree` | sys/mem/page.cpp:480-521 | Frees the whole range in the largest aligned blocks, or changes nothing and reports the first page that fails the ownership check |
| `Regions.Region.FindBlock` | sys/mem/page.cpp:304-350 | Finds an aligned block of 2^o free pages exactly when there is one |
| `Pages.PageAllocator.FindRegion` | sys/mem/page.cpp:179-190 | The region that holds the whole range, or none |
| `Pages.CompatibleBits` | sys/mem/page.cpp:305-335 | The two tests of the search, with the speed and without it, are tests of the attribute bits of the request one by one |
| `Pages.PageAllocator.Search` | sys/mem/page.cpp:305-342 | Fails exactly when every region lacks a wanted attribute bit other than the speed, or has another speed when that must be exact, or has no aligned run of free pages. The region found has all those bits; it lacks a bit of the wanted speed only when no region with all bits has room, and no region ahead of it in priority would do as well |
| `Pages.PageAllocator.PageAllocOrder` | sys/mem/page.cpp:305-350 | The block taken was free and lies in that region, and nothing else changes; fails exactly when no region serves |
| `Pages.PageAllocator.PageAlloc` | sys/mem/page.cpp:360-372 | Exactly the pages needed for the length are taken, the excess of the power of two being given back, from the region with the wanted attribute bits that the search prefers; fails exactly when no region with them has room for the power of two |
| `Pages.PageAllocator.PageReserve` | sys/mem/page.cpp:422-450 | Reservation by address: all effects, errors and the returned address for every region layout, and that it fails its assertion exactly for pages of the mapped kind in a region |
| `Pages.PageAllocator.PageFree` | sys/mem/page.cpp:480-521 | Free by address: verdict and page tables in every case, including addresses in no region |
| `BuddyTheorems.Agreement` | sys/mem/page.cpp:108-173 | In a valid region listed blocks are aligned and consist of free pages, every free page is in a listed block, and the free byte count is exact |
| `BuddyTheorems.Disjoint` | sys/mem/page.cpp:216-265 | No page is in two listed blocks of a valid region |
| `BuddyTheorems.BitmapAgrees` | sys/mem/page.cpp:108-156 | A bitmap bit is 1 exactly when one of its two buddies is listed at that order, and both never are |
| `BuddyTheorems.CanonicalForm` | sys/mem/page.cpp:244-265 | The blocks on each list are a function of the set of free pages alone |
| `BuddyTheorems.FreeAllRestores` | sys/mem/page.cpp:480-521 | Freeing the pieces of an allocated range, in any order, restores the page table |
| `BuddyTheorems.AllocThenFree` | sys/mem/page.cpp:359-521 | page_alloc, its excess given back, and then page_free of pieces that make up the range without overlap, in any order: every page_free succeeds, and the page tables, free counts and the blocks on every list of every region are what they were |
| `BuddyTheorems.TablesDetermineLists` | sys/mem/page.cpp:480-521 | Equal page tables have equal blocks on every list |
| `BuddyTheorems.Run` | sys/mem/page.cpp:270-521 | Every sequence of allocations, reservations and frees keeps the region valid, and one that ends with the page table it started from ends with the same blocks on every list |
| `SchedInv.EnqueueInv` | sys/kern/sch.cpp:155-173 | Queueing the one thread that is able to run but on no queue restores the invariant: run queue placement and order, sleep queue placement, idle thread |
| `SchedInv.InsertThenRemove` | sys/kern/sch.cpp:155-193 | Taking an inserted thread out again gives the queue back |
| `SchedInv.WakeInv` | sys/kern/sch.cpp:337-365 | Waking a sleeper keeps the invariant exactly when it is not suspended or is the active thread |
| `SchedInv.WakeupInv` | sys/kern/sch.cpp:337-365 | sch_wakeup keeps the invariant exactly when no sleeper on the event, but for the active thread, is suspended; then no sleeper is left |
| `SchedInv.WakeOneInv` | sys/kern/sch.cpp:375-407 | sch_wakeone keeps the invariant exactly when the best and the last sleeper of the queue meet a condition on suspension and on being the active thread |
| `SchedInv.WakeOneStrands` | sys/kern/sch.cpp:375-407 | A state from which sch_wakeone leaves a thread able to run but on no queue |
| `SchedInv.WakeupQueuesSuspended` | sys/kern/sch.cpp:337-365 | A state from which sch_wakeup queues a thread that is suspended |
| `SchedSteps.SwitchInv` | sys/kern/sch.cpp:256-317 | sch_switch keeps the invariant, never finds an empty queue, and the thread it picks is not outranked by any other that can run |
| `SchedSteps.RequeueInv` | sys/kern/sch.cpp:413-428 | sch_requeue keeps the invariant |
| `SchedSteps.PrepareInv` | sys/kern/sch.cpp:438-466 | sch_prepare_sleep keeps the invariant |
| `SchedSteps.UnsleepInv` | sys/kern/sch.cpp:522-537 | sch_unsleep keeps the invariant and leaves the thread not sleeping |
| `SchedSteps.SuspendInv` | sys/kern/sch.cpp:602-633 | Suspending a thread keeps the invariant |
| `SchedSteps.ResumeInv` | sys/kern/sch.cpp:602-633 | Resuming a thread keeps the invariant |
| `SchedSteps.ElapseInv` | sys/kern/sch.cpp:640-667 | Charging a round robin thread keeps the invariant |
| `SchedSteps.SetPrioQueued` | sys/kern/sch.cpp:782-809 | Changing the priority of a queued thread keeps the queue sorted and a reschedule pending where it is needed |
| `SchedSteps.StepInv` | sys/kern/sch.cpp:155-809 | Every operation keeps the invariant where it is enabled |
| `SchedSteps.RunInv` | sys/kern/sch.cpp:155-809 | In every state of every run from boot a thread is queued iff it can run and is not active, sleeps on exactly one queue iff it sleeps, the queue is sorted, no queued thread outranks the active one unless a reschedule is pending, and the idle thread can run |
| `SchedSteps.StrandingReached` | sys/kern/sch.cpp:375-407 | The state in which sch_wakeone strands a thread is reached by a run from boot |
| `SchedSteps.SuspendedReached` | sys/kern/sch.cpp:337-365 | The state in which sch_wakeup queues a suspended thread is reached by a run from boot |
| `SchedOrder.EnqueueOrder` | sys/kern/sch.cpp:155-173 | A thread that becomes able to run goes behind all of higher or equal priority and moves no other |
| `SchedOrder.InsertOrder` | sys/kern/sch.cpp:180-193 | A preempted thread goes behind higher priorities only and moves no other |
| `SchedOrder.SwitchOrder` | sys/kern/sch.cpp:256-293 | At a switch the thread that ran is put at the head of its priority if preempted, at the tail otherwise, and nowhere if it cannot run; the first thread in the resulting order runs |
| `SchedOrder.WakeAllFifo` | sys/kern/sch.cpp:337-365 | Threads of equal priority woken together are queued in the order in which they went to sleep |
| `SchedOrder.StepOrder` | sys/kern/sch.cpp:155-809 | In every operation two threads that stay queued keep their order, and a thread that joins the queue, or whose priority is set, goes behind its equals; only a preempted one goes ahead of them |
| `SchedOrder.NoOvertaking` | sys/kern/sch.cpp:155-809 | In every run, while two threads stay queued, the one behind neither overtakes the other nor is run |
| `SchedOrder.FirstCome` | sys/kern/sch.cpp:155-809 | In every run threads of equal priority run in the order in which they became able to, a preempted one before its equals |
| `SchedEffects.WakeupThreads` | sys/kern/sch.cpp:337-365 | After sch_wakeup each thread that slept on the event is what it was but not sleeping and with the result given; every other thread is unchanged |
| `SchedEffects.BestIsFirst` | sys/kern/sch.cpp:387-394 | The sleeper sch_wakeone finds is the first of those of highest priority: it outranks all before it, and none behind it outranks it |
| `SchedEffects.WakeOneThreads` | sys/kern/sch.cpp:375-407 | sch_wakeone gives result 0 to that one sleeper and changes no other thread |
| `SchedEffects.UnsleepThreads` | sys/kern/sch.cpp:522-537 | sch_unsleep gives the result to the thread if it sleeps, and changes nothing otherwise |
| `SchedEffects.SignalThreads` | sys/kern/sch.cpp:545-557 | sch_signal gives -EINTR to a sleeper that is not active, and changes no other thread |
| `SchedEffects.ElapseThreads` | sys/kern/sch.cpp:640-667 | Running time is taken from the active thread if it is round robin, with a quantum added when it is up; no other thread changes |
| `SchedEffects.SwitchThreads` | sys/kern/sch.cpp:256-317 | A switch changes no thread but the zombie it reaps, which goes, and those waiting for it, which are woken with 0 |
| `SchedEffects.StepThreads` | sys/kern/sch.cpp:155-809 | Every step does to every field of every thread exactly what is written out for it |
| `SchedEffects.StepQueue` | sys/kern/sch.cpp:155-809 | Every step does to every sleep queue exactly what is written out: a sleeper joins at the end, leaves when woken, and sch_requeue moves the first |
| `SchedEffects.StepFlags` | sys/kern/sch.cpp:155-809 | Every step asks for a reschedule, and locks, exactly as written out: sched_yield and an expired quantum when a queued thread is no worse, a wake-up when one woken outranks the active thread and no reschedule is pending |
| `SchedEffects.SwitchResched` | sys/kern/sch.cpp:256-317 | After a switch no reschedule is pending unless a thread woken by reaping outranks the new one |
| `SchedEffects.SleepResult` | sys/kern/sch.cpp:478-500 | In every run the result of a thread that has stopped sleeping, which sch_continue_sleep returns, is that of the last step that woke it |
| `Scheduling.Scheduler.RunqEnqueue` | sys/kern/sch.cpp:155-173 | The loop puts the thread where the specification says |
| `Scheduling.Scheduler.RunqInsert` | sys/kern/sch.cpp:180-193 | The loop puts the thread where the specification says |
| `Scheduling.Scheduler.Wakeup` | sys/kern/sch.cpp:337-365 | The loop wakes every sleeper on the event in turn, with the result given, and counts them |
| `Scheduling.Scheduler.Select` | sys/kern/sch.cpp:387-394 | The loop of sch_wakeone finds the first sleeper of highest priority, and its other variable ends at the last sleeper |
| `Scheduling.Scheduler.WakeOne` | sys/kern/sch.cpp:375-407 | State and returned thread of sch_wakeone |
| `Scheduling.Scheduler.SuspendResume` | sys/kern/sch.cpp:602-633 | State after suspending one thread and resuming another |
| `Scheduling.Scheduler.SetPrio` | sys/kern/sch.cpp:782-809 | State after a change of priority |
| `Scheduling.Scheduler.SchSwitch` | sys/kern/sch.cpp:256-317 | The code of sch_switch does what its specification says, and takes from a queue that is not empty |
| `MutexSafety.StepInv` | sys/sync/mutex.cpp:86-252 | Every step of every thread, signals and condition waits included, keeps the protocol invariant |
| `MutexSafety.RunInv` | sys/sync/mutex.cpp:86-252 | The invariant holds in every state of every interleaving |
| `MutexSafety.Exclusion` | sys/sync/mutex.cpp:86-252 | At most one thread holds locks, and it is the owner |
| `MutexSafety.NoLostWakeup` | sys/sync/mutex.cpp:189-252 | In every state of every run a thread that sleeps in a lock call is on the queue, the waiters bit is set and another thread owns the mutex, so no release passes the sleepers by |
| `MutexSafety.LockResult` | sys/sync/mutex.cpp:138-170 | A lock call returns 0 exactly when the caller has gained one lock, through hand-off and recursion too; otherwise it has gained none |
| `MutexSafety.CondWaitRelocks` | sys/sync/cond.cpp:88-105 | A condition wait ends with the mutex held, whatever woke it |
| `MutexSafety.CondWaitReleases` | sys/sync/cond.cpp:88-105 | In every run, from the release in a condition wait until the wait ends, the thread has exactly one lock fewer than when it began; before and while it sleeps it does not own the mutex iff it had locked it once |
| `MutexSafety.CondWaitRestores` | sys/sync/cond.cpp:88-105 | A condition wait that has ended left the thread owning the mutex with as many locks as it began with |
| `MutexCalls.UnlockResult` | sys/sync/mutex.cpp:189-252 | In every run an unlock call enters the call, takes exactly one lock from a thread that owned the mutex, and changes nothing for one that did not |
| `MutexCalls.HandOff` | sys/sync/mutex.cpp:189-252 | An unlock call that ends and leaves no lock: with nobody asleep when it looked the mutex is free; otherwise one of the sleepers owns it, awake with result 0, and it is not the caller |
| `MutexCalls.LockCall` | sys/sync/mutex.cpp:86-186 | In every run a lock call fails at once only if interruptible with a signal pending; it ends with one lock more and the mutex owned, or, interruptible only, with -EINTR and as many locks as before |
| `MutexCalls.CondWaitGives` | sys/sync/cond.cpp:88-105 | In every run a condition wait queues the thread and does not end before it has given up a lock |
| `MutexCalls.WakeUps` | sys/sync/mutex.cpp:125-134 | A signal or a condition signal takes its thread off the queue, with -EINTR in a lock call, and changes nothing else |
| `MutexCalls.CallBounded` | sys/sync/mutex.cpp:86-252 | No call takes more steps of its own than a bound: 6 for an unlock, 14 for a condition wait |
| `MutexCalls.NoDeadlock` | sys/sync/mutex.cpp:86-252 | In every state of every run a thread with the scheduler locked can go on; otherwise every thread can, or sleeps on the condition, or sleeps while the owner is free to unlock, goes on, or sleeps on the condition |
| `Rwlock.StepInv` | sys/sync/rwlock.cpp:51-201 | Every step, with the sleep loop under the lock, keeps the invariant |
| `Rwlock.RunInv` | sys/sync/rwlock.cpp:51-201 | The invariant holds in every state of every interleaving |
| `Rwlock.Exclusion` | sys/sync/rwlock.cpp:51-201 | The counter is the number of readers, or -1 with one writer and no readers |
| `Rwlock.NobodyStranded` | sys/include/wait.h:77-91 | A sleeping reader implies a writer, a sleeping writer some holder, so no release leaves a sleeper behind |
| `Rwlock.LockResult` | sys/sync/rwlock.cpp:51-170 | A lock call returns 0 exactly when the caller became a holder; otherwise nothing changed hands |
| `Rwlock.Uninterrupted` | sys/sync/rwlock.cpp:94-182 | Calls that block signals end only with the lock |
| `Rwlock.UnlockInv` | sys/sync/rwlock.cpp:102-201 | A release keeps the invariant, and leaves nobody on the queue of a free lock |
| `Rwlock.UnlockResult` | sys/sync/rwlock.cpp:102-201 | In every run a read unlock takes one hold of its thread and a write unlock the writer; when that frees the lock every sleeper is woken with 0, otherwise all stay where they are |
| `Rwlock.LockCall` | sys/sync/rwlock.cpp:51-182 | In every run a lock call fails at once only if interruptible with a signal pending; it ends with the thread holding one more read lock or the write lock, or, interruptible only, what it held before |
| `Rwlock.SignalResult` | sys/include/wait.h:77-91 | A signal wakes an interruptible sleeper with -EINTR, and nothing changes hands |
| `Rwlock.NoDeadlock` | sys/sync/rwlock.cpp:51-201 | In every state of every run every thread can call or go on, or sleeps while another holds the lock against it and can release it unless in a call itself |
| `Segments.UnmappedAt` | sys/mem/vm.cpp:165-235 | Unmapping a range removes what the range maps and changes no other address |
| `Segments.UnmappedOrdered` | sys/mem/vm.cpp:165-235 | It keeps the list sorted, disjoint and on page boundaries |
| `Segments.RecoloredAt` | sys/mem/vm.cpp:303-416 | mprotect changes the protection of what is mapped in the range and of no other address |
| `Segments.RecoloredOrdered` | sys/mem/vm.cpp:303-416 | It keeps the list sorted, disjoint and on page boundaries |
| `Segments.CombinedAt` | sys/mem/vm.cpp:136-158 | seg_combine leaves the map from addresses to rights unchanged |
| `Segments.CombinedOrdered` | sys/mem/vm.cpp:136-158 | It keeps the list sorted, and leaves no two neighbours that could be combined |
| `Segments.CombinedClash` | sys/mem/vm.cpp:136-158 | It does not hide an overlap |
| `Segments.InsertedAt` | sys/mem/vm.cpp:829-859 | A segment inserted where nothing is mapped maps its range and changes no other address |
| `Segments.InsertedOrdered` | sys/mem/vm.cpp:829-859 | It keeps the list sorted and disjoint |
| `Segments.AccessSound` | sys/mem/untranslated.cpp:228-243 | u_access_okfor passes only if every address of the range is mapped with the rights asked for |
| `Segments.AccessExact` | sys/mem/untranslated.cpp:228-243 | It passes exactly if one segment holds the whole range with the rights |
| `SegFiles.UnmapFiles` | sys/mem/vm.cpp:165-235 | Unmapping leaves every address that stays mapped its file and offset |
| `SegFiles.CombinedFiles` | sys/mem/vm.cpp:136-158 | seg_combine keeps the file and offset of every address exactly when all neighbours it joins continue each other: same file and the next offset, or no file |
| `SegFiles.EndSplitMoves` | sys/mem/vm.cpp:375-391 | An end of a file segment that mprotect splits off has another offset afterwards, whatever is combined |
| `SegFiles.MprotectFiles` | sys/mem/vm.cpp:303-416 | mprotect keeps the file and offset of every address exactly when it splits off no end of a file segment and all neighbours then joined continue each other |
| `SegFiles.PartRecoloredFiles` | sys/mem/vm.cpp:330-412 | An mprotect that runs out of segment headers keeps them exactly when it has split off no such end before |
| `SegFiles.MprotectShiftsFile` | sys/mem/vm.cpp:375-391 | A two page file mapping whose second page gets the wrong offset |
| `SegFiles.JoinMovesFile` | sys/mem/vm.cpp:136-158 | A file page that mprotect moves to another offset by joining it to a segment whose end was unmapped |
| `SegFiles.JoinGivesFile` | sys/mem/vm.cpp:136-158 | An anonymous page that mprotect makes a page of a file |
| `SegFiles.InsertFiles` | sys/mem/vm.cpp:829-859 | A mapping where nothing was mapped gives its range its file and leaves all others theirs, exactly when all that is joined continues |
| `SegFiles.MapFiles` | sys/mem/vm.cpp:829-859 | The same of a mapping that replaces what was mapped |
| `SegFiles.MmapGivesFile` | sys/mem/vm.cpp:829-859 | An anonymous page that mmap makes a page of a file |
| `VmSpec.OthersKept` | sys/mem/vm.cpp:165-235 | An operation of one address space leaves every other one owning exactly what it maps |
| `VmSpec.NoSharing` | sys/mem/untranslated.cpp:88-148 | Two address spaces that own what they map never map the same address |
| `VmSpec.FreeOwned` | sys/mem/untranslated.cpp:136-148 | Unmapping a range that lies in one region passes the ownership check of page_free, and pages and segments stay in step |
| `VmSpec.LeftOwned` | sys/mem/vm.cpp:186-231 | Pages that stay owned when their range is unmapped put pages and segments out of step |
| `VmMap.MappedOwns` | sys/mem/untranslated.cpp:88-128 | After a fixed mapping the address space owns exactly what it maps iff the pages taken are as many as the segment maps, or the page left over was mapped before |
| `VmMap.DroppedOwns` | sys/mem/untranslated.cpp:88-117 | When a fixed mapping fails and its pages are dropped this holds iff nothing in the range was mapped before and as many pages are dropped as were taken, or the one left over was mapped |
| `VmMap.LostOwns` | sys/mem/vm.cpp:829-859 | The same when the old mapping has been removed already |
| `VmMap.AssertsOwns` | sys/mem/vm.cpp:829-836 | When the assertion of as_insert fails, the pages taken having no segment: iff all of them were mapped before |
| `VmMap.AnywhereOwns` | sys/mem/untranslated.cpp:88-128 | After a mapping at any address: iff the pages taken are as many as the segment maps |
| `VmMap.DropBreaks` | sys/mem/untranslated.cpp:88-117 | A state in which a fixed mapping that fails gives away a page that stays mapped |
| `VmMap.SegmentAcross` | sys/mem/vm.cpp:136-158 | Two fixed mappings in regions that touch become one segment that lies in no one region, pages and segments being in step |
| `VmMap.FixedMaps` | sys/mem/vm.cpp:829-859 | A fixed mapping changes exactly its range of the map, and keeps the list sorted |
| `Vm.AddressSpace.constructor` | sys/mem/vm.cpp:624-640 | A new address space maps nothing and owns no page |
| `Vm.AddressSpace.Release` | sys/mem/untranslated.cpp:136-148 | as_unmap of a mapped range fails exactly when no one region has all of it, and then changes nothing |
| `Vm.AddressSpace.CutSeg` | sys/mem/vm.cpp:186-227 | The four ways a segment can meet the range: part unmapped and segments left |
| `Vm.AddressSpace.Munmap` | sys/mem/vm.cpp:165-235 | All results, the new list, page tables and files. Out of memory exactly when a segment would be split and no header can be had, and then nothing has changed; a fault exactly when some part cut from a segment lies in no one region, and then the list has lost that part and all before it while that part is still owned. Pages and segments stay in step exactly without a fault |
| `Vm.AddressSpace.SegCombine` | sys/mem/vm.cpp:136-158 | The loop computes the combined list |
| `Vm.AddressSpace.RecolorSeg` | sys/mem/vm.cpp:339-409 | The four ways mprotect can meet a segment, and the headers each needs |
| `Vm.AddressSpace.Mprotect` | sys/mem/vm.cpp:303-416 | All results for any number of segment headers to be had; the new list, and exactly when it keeps every file offset, finished or not. Out of memory exactly when the segments to be divided need more headers, and then those before the first that could not be divided have changed; with no segment at all the assertion of seg_combine fails. Pages and segments stay in step |
| `Vm.AddressSpace.InsertSeg` | sys/mem/vm.cpp:845-858 | Insertion before the first higher base, then combining |
| `Vm.AddressSpace.MapFixed` | sys/mem/untranslated.cpp:88-128 | All outcomes of a fixed mapping for any number of segment headers to be had, a failed assertion for anonymous memory with an offset included; exactly the addresses of the pages touched get the protection and attributes asked for, and exactly when each gets the file and offset asked for; exactly when the address space still owns what it maps; no page of anyone else is touched |
| `Vm.AddressSpace.MapAnywhere` | sys/mem/untranslated.cpp:88-128 | All outcomes of a mapping at any address, a failed assertion for anonymous memory with an offset included; exactly the addresses of the pages mapped get the protection and attributes asked for, and exactly when each gets the file and offset asked for; exactly when the address space stays sound |
| `Vm.AddressSpace.FindSeg` | sys/mem/vm.cpp:771-779 | The loop finds the first segment that contains the address |
| `Vm.AddressSpace.AccessOkFor` | sys/mem/untranslated.cpp:228-243 | The check, and what passing it means for every address of the range |
| `VmWitness.UnmapAcross` | sys/mem/vm.cpp:136-231 | From the start: two mmaps in regions that touch make one segment, and munmap of it faults, nothing being mapped any more and both pages still owned |
| `VmWitness.MapNearby` | sys/mem/untranslated.cpp:88-98 | From the start: mmap of a page near an address off a page boundary takes two pages and maps one |
| `VmWitness.DropMapped` | sys/mem/untranslated.cpp:88-117 | From the start: mmap of a file that cannot be read over a page that is mapped gives the page away and leaves it mapped |
| `LogRing.WalkAll` | sys/kern/syslog.cpp:124-163 | Walking from tail with advance and sentinel jumps meets exactly the live records, in order, and then comes to head |
| `LogRing.Separate` | sys/kern/syslog.cpp:168-211 | Live records are within the buffer and do not overlap |
| `LogRing.EmptyIff` | sys/kern/syslog.cpp:168-211 | The log is empty exactly when head and tail meet, and they then meet at the start |
| `LogRing.TrimLaid` | sys/kern/syslog.cpp:154-163 | Dropping the oldest record leaves the layout of the others right, sentinel included |
| `LogRing.WrapLaid` | sys/kern/syslog.cpp:183-197 | Going back to the start of the buffer behind a sentinel leaves the layout right |
| `LogRing.PushLaid` | sys/kern/syslog.cpp:199-207 | Writing a record where it fits leaves every live header intact and the layout right |
| `Syslog.Log.Trim` | sys/kern/syslog.cpp:154-163 | The first record goes and no other; sequence numbers stay consecutive |
| `Syslog.Log.MakeSpace` | sys/kern/syslog.cpp:178-197 | The space-making loop ends with room for the record, having dropped only a prefix of the records, the last of them in its way, and none if there was room |
| `Syslog.Log.Append` | sys/kern/syslog.cpp:168-228 | For every message length: refused exactly when it can never fit; otherwise the log is the old one and the new record without some of the oldest, of which the last was in its way or where the head comes to be. The record is in the log exactly when it leaves space for another header, and otherwise the log is empty |
| `LogRing.FillsEmpty` | sys/kern/syslog.cpp:178-228 | A record that leaves no space for another header is written only to an empty log |
| `LogRing.AcceptedYetFills` | sys/kern/syslog.cpp:168-228 | A length that is accepted and yet fills the log |
| `RingMoves.LeftStep` | sys/lib/circular_buffer.h:578-586 | One chunk of move_left: the elements needed arrive, also where the chunk overlaps itself or the ring wraps |
| `RingMoves.RightStep` | sys/lib/circular_buffer.h:603-613 | One chunk of move_right |
| `CircularBuffers.CircularBuffer.MoveLeft` | sys/lib/circular_buffer.h:574-587 | All needed elements arrive and nothing outside the destination changes, for any wrap of the indices |
| `CircularBuffers.CircularBuffer.MoveRight` | sys/lib/circular_buffer.h:599-615 | The same to the right |
| `CircularBuffers.CircularBuffer.Expand` | sys/lib/circular_buffer.h:625-664 | A gap is opened and every element keeps its place on either side, whichever side was moved |
| `CircularBuffers.CircularBuffer.Collapse` | sys/lib/circular_buffer.h:666-709 | The contents without the elements erased; the index returned is at the same position |
| `CircularBuffers.CircularBuffer.Insert` | sys/lib/circular_buffer.h:415-438 | The contents with the range inserted |
| `CircularBuffers.CircularBuffer.PushBack` | sys/lib/circular_buffer.h:342-347 | The element is added at the end |
| `CircularBuffers.CircularBuffer.PushFront` | sys/lib/circular_buffer.h:328-333 | The element is added at the front |
| `CircularBuffers.CircularBuffer.PopFront` | sys/lib/circular_buffer.h:356-361 | The first element is taken off |
| `CircularBuffers.CircularBuffer.PopBack` | sys/lib/circular_buffer.h:363-368 | The last element is taken off |
| `CircularBuffers.CircularBuffer.Data` | sys/lib/circular_buffer.h:518-543 | At most two spans of memory, not empty, that joined are the elements asked for |
| `IntScan.Narrow` | libc/src/internal/intscan.c:64-79 | The 32-bit loops: exact value, no overflow |
| `IntScan.Wide` | libc/src/internal/intscan.c:64-80 | The 64-bit loops: exact value without overflow, stopping early only if the whole number does not fit 64 bits |
| `IntScan.WideShift` | libc/src/internal/intscan.c:70-75 | The same with shifts, for bases that are a power of two |
| `IntScan.ShiftIs` | libc/src/internal/intscan.c:71-71 | The lookup of the shift gives the base for each of 2, 4, 8, 16 and 32 |
| `IntScan.Finish` | libc/src/internal/intscan.c:82-99 | The value, or the clamp of section 7.22.1.4 of ISO C11 with ERANGE, for every limit |
| `IntScan.Prefix` | libc/src/internal/intscan.c:40-63 | Base and start of the digits after 0x or 0, or that there are none |
| `IntScan.Scan` | libc/src/internal/intscan.c:26-100 | For every string and base: the number its longest prefix of the expected form stands for, within the limit, with errno and the position after it |
| `Charconv.Append4` | libc++/src/charconv.cpp:58-61 | Four digits with leading zeros |
| `Charconv.Append4NoZeros` | libc++/src/charconv.cpp:75-83 | The decimal digits of a number below 10000 |
| `Charconv.Append8NoZeros` | libc++/src/charconv.cpp:87-99 | The decimal digits of a number below 10^8 |
| `Charconv.U32toa` | libc++/src/charconv.cpp:102-120 | The decimal digits of every 32-bit value, in at most 10 characters |
| `Charconv.U64toa` | libc++/src/charconv.cpp:123-156 | The decimal digits of every 64-bit value, in at most 20 characters |
| `Charconv.DecValue` | libc++/src/charconv.cpp:123-156 | They stand for the value, and have no zero in front |
| `Charconv.RoundTrip` | libc/src/internal/intscan.c:26-100 | Reading back in base 10 what was written gives every 64-bit value, without error |
| `Dma.DirectSize` | sys/kern/dma.cpp:200-218 | A direct transfer obeys maximum and modulo, stays clear of the last partial cache line, and never leaves a rest shorter than the minimum |
| `Dma.FullBounce` | sys/kern/dma.cpp:104-129 | A full bounce buffer makes a transfer exactly when its size is a multiple of the modulo |
| `Dma.RouteOf` | sys/kern/dma.cpp:142-227 | Pieces that go straight are in memory DMA reaches, meet alignment, minimum, maximum and modulo, and end before the last partial cache line; the first in a buffer starts on a line |
| `Dma.Progress` | sys/kern/dma.cpp:142-236 | A turn goes on without anything done exactly when the bounce buffer is full, what waits in it is no transfer and the next piece is to go straight |
| `Dma.PlacedLimits` | sys/kern/dma.cpp:104-140 | A bounce misses the alignment only if a bounce behind an earlier one can start off it, and the maximum only if the bounce buffer is longer |
| `Dma.MisalignCheck` | sys/kern/dma.cpp:104-140 | When a bounce can start off the alignment, without a search: by the first or the second place for one |
| `Dma.BounceAddress` | sys/kern/dma.cpp:81-94 | In an aligned bounce buffer a bounce is aligned exactly when its place in the buffer is |
| `Dma.Planner.AddBounce` | sys/kern/dma.cpp:105-117 | When it succeeds and how much it takes, no byte lost or reordered |
| `Dma.Planner.AlignBounce` | sys/kern/dma.cpp:120-129 | True exactly when what is waiting makes a transfer; otherwise progress is made, unless the buffer is full and nothing changes |
| `Dma.Planner.FlushBounce` | sys/kern/dma.cpp:132-140 | What is waiting is transferred, no byte lost or reordered; marked as sent exactly when the device takes more transfers |
| `Dma.Planner.Turn` | sys/kern/dma.cpp:142-236 | What every turn does to offsets, bounce buffer and transfers, the bytes staying in order |
| `Dma.Planner.Spin` | sys/kern/dma.cpp:142-236 | Once stuck, any number of turns changes nothing |
| `Dma.TurnClean` | sys/kern/dma.cpp:142-236 | Every turn keeps direct transfers to known memory that DMA reaches and, where the cache matters, off the cache lines that the part of the buffer asked for shares with other memory |
| `Dma.Planner.StuckHangs` | sys/kern/dma.cpp:104-236 | The loop gets stuck only if the bounce buffer is no multiple of the modulo and both bounces and direct transfers are possible |
| `Dma.Planner.Iterate` | sys/kern/dma.cpp:60-243 | For a device that takes any number of transfers: the loop ends unless it gets stuck; no more transfers are made than the device takes unless the last slot goes to a bounce ahead of a direct transfer, which is then made twice; but for that the transfers in order are exactly a prefix of the bytes of the list, all of them if none are left. Bytes are left only when the device takes no more after a direct transfer, or when the next piece is to be bounced and the buffer is full or too short for a transfer from there on, and a fault is returned only at a piece whose memory is not known. Every direct one lies in one buffer, known and reached by DMA, clear of its partial cache lines where the cache matters, and meets alignment, minimum, maximum and modulo, every bounce but the last minimum and modulo, the last the modulo too if buffer and total are multiples of it, and bounces miss alignment or maximum only where limits and buffer allow it |
| `Dma.DmaIterate` | sys/kern/dma.cpp:60-243 | The whole call with its checks: which error exactly when, and the same of a call that runs, from the first byte asked for on |
| `DmaLimits.Hang` | sys/kern/dma.cpp:104-236 | For all limits and sizes that can hang, a list of buffers in memory of uniform pages with which the loop gets stuck and stays so |
| `DmaLimits.SixByteBounce` | sys/kern/dma.cpp:104-236 | Sixteen bytes through six bytes of bounce buffer in transfers of fours: ten are never transferred |
| `DmaLimits.MisalignedBounce` | sys/kern/dma.cpp:104-140 | For all limits and sizes that can misalign, and every such place, a list that makes a misaligned bounce there |
| `DmaLimits.LongBounce` | sys/kern/dma.cpp:104-140 | For all limits and sizes that can overrun, a list that makes a bounce longer than the maximum |
| `DmaLimits.RepeatedBounce` | sys/kern/dma.cpp:132-243 | For all limits and sizes that can repeat, and any number of transfers the device takes, a list with which one more is made |
| `KmemSpec.LiveApart` | sys/mem/kmem.cpp:213-280 | Live allocations are aligned to 16, within their page past its header, and do not overlap |
| `KmemSpec.CarvedInv` | sys/mem/kmem.cpp:251-274 | Splitting a free block keeps the tiling of the page, its count and the lists |
| `KmemSpec.FreedOk` | sys/mem/kmem.cpp:391-401 | Freeing a block keeps the tiling and puts the block on the list for its size |
| `KmemSpec.PageGone` | sys/mem/kmem.cpp:402-414 | Giving back an empty page, its blocks off their lists, keeps the invariant |
| `Kmem.Allocator.BlockFind` | sys/mem/kmem.cpp:188-204 | The smallest size class that has a free block and will do |
| `Kmem.Allocator.Alloc` | sys/mem/kmem.cpp:213-280 | Exactly one block becomes live, large enough and with little waste, in a page of the memory type asked for, from the smallest sufficient class; no other page changes; fails exactly when none fits and there is no page |
| `Kmem.Allocator.Free` | sys/mem/kmem.cpp:374-416 | Exactly that block is no longer live, and its page goes exactly when no live block is left in it |
| `Timer.TimerQueue.Insert` | sys/kern/timer.cpp:82-99 | The loop puts the timer before the first that expires later |
| `TimerSpec.InsertedSorted` | sys/kern/timer.cpp:82-99 | So a sorted timer list stays sorted |
| `Timer.TimerQueue.Callout` | sys/kern/timer.cpp:166-186 | The step of arming: off its list and on the timer list, to expire one period and the delay from now, no delay for 1 ns |
| `TimerSpec.CalloutInv` | sys/kern/timer.cpp:166-186 | Arming keeps the list sorted, expired timers due, and the active timers exactly those on one of the lists |
| `Timer.TimerQueue.Stop` | sys/kern/timer.cpp:206-216 | The step of stopping: timer inactive and off its list |
| `TimerSpec.StopInv` | sys/kern/timer.cpp:206-216 | Stopping keeps the same, for timers on either list |
| `Timer.TimerQueue.Tick` | sys/kern/timer.cpp:315-337 | The loop moves timers to the expired ones until no timer that is due stays on the timer list |
| `TimerSpec.TickInv` | sys/kern/timer.cpp:315-337 | A tick keeps the same, changes no timer, and leaves waiting exactly timers that are not due |
| `Timer.TimerQueue.Take` | sys/kern/timer.cpp:259-276 | The timer thread takes a timer that is due, and reloads it on the timer list or deactivates it |
| `TimerSpec.TakeInv` | sys/kern/timer.cpp:259-276 | The timer taken is active and due, and taking it keeps the same |
| `Timer.TimerQueue.Call` | sys/kern/timer.cpp:277-279 | The callback is that of the timer as it is by then |
| `TimerRuns.RunInv` | sys/kern/timer.cpp:82-346 | In every state of every run of arming, stopping, ticks and the two steps of the timer thread the lists are sorted, due and in step with the timers |
| `TimerRuns.RunHistory` | sys/kern/timer.cpp:158-281 | In every run, for every timer: it expires at arm time, period, delay and an interval for each time it was taken since it was armed; callbacks since then are one for each time it was taken, and one more if it was armed or stopped while taken |
| `TimerRuns.CallTime` | sys/kern/timer.cpp:158-281 | In every run, callback k since arming comes no earlier than arm time, period, the nanoseconds asked for (none for 1) and k intervals, once only without an interval, and never after a stop, unless the timer was taken when it was armed or stopped; then a stop is followed by at most one callback, and each callback after the first keeps the time of the one before it |
| `TimerRuns.RequestExact` | sys/kern/timer.cpp:158-281 | After arming or stopping a timer, every callback it leads to in every way the run can go on is in time and not after the stop if and only if the timer was not taken at that point, the tick period being at least a nanosecond |
| `TimerRuns.StaleCall` | sys/kern/timer.cpp:158-281 | The callback that comes right after arming or stopping a timer that is taken is too early, or after the stop, in every run |
| `TimerRuns.EarlyCalls` | sys/kern/timer.cpp:158-281 | A run for every delay and interval in which a timer is armed while taken: its first callback comes at once and its second when the first is due |
| `TimerRuns.CallAfterStop` | sys/kern/timer.cpp:205-281 | A run in which a timer is called back after it was stopped |
| `Pipes.Pipe.ReadTurn` | sys/fs/pipe.cpp:180-217 | Bytes come out in order, none lost, for any wrap of the counters; a read of a non-zero size returns 0 only from an empty pipe without writers |
| `Pipes.Pipe.WriteTurn` | sys/fs/pipe.cpp:239-277 | Bytes go in in order and never overrun the buffer; each result exactly when: an error only from a call that has written nothing, EPIPE without readers and EAGAIN when full, and SIGPIPE without readers in any case |
| `Pipes.Pipe.ReadNow` | sys/fs/pipe.cpp:166-220 | A whole call that does not wait: what was buffered, up to the size asked for |
| `Pipes.Pipe.WriteNow` | sys/fs/pipe.cpp:225-278 | A whole call that does not wait: as much as there is room for goes behind what is there, and an error only if nothing was written |
| `Links.Insert` | sys/lib/queue.cpp:68-74 | The ring of nodes with the new one after the given one |
| `Links.Enqueue` | sys/lib/queue.cpp:40-46 | The ring of nodes with the new one at its end |
| `Links.Remove` | sys/lib/queue.cpp:80-84 | The ring of nodes without the given one |
| `Links.Dequeue` | sys/lib/queue.cpp:52-62 | The first node and the ring without it, or none from an empty queue |

## Left out

- Regions.Region.constructor: starts from an initialised region; parsing of the boot memory map in page_init is not modelled.
- Regions.Region.ToggleUp: the bitmap is an array of bits; packing into words is not modelled.
- Vm.AddressSpace.MapFixed: the contents of memory (file data, zero filling) and cache and MPU calls are not modelled; nor are file access modes and vnode references.
- Syslog.Log.Append: writing a message, from syslog_begin to syslog_end, is one step; a writer that is overtaken by a whole lap of the buffer is not modelled, nor is roll-over of sequence numbers.
- CircularBuffers.CircularBuffer.Expand: plain elements only; destructors and element-wise moves are not modelled, nor a capacity of zero.
- Dma.Planner.Iterate: the copies, cache operations and lengths returned by dma_prepare and dma_finalise are not modelled.
- Kmem.Allocator.Alloc: one memory type at a time; kmem_alloc's fallback to another type, and the magic numbers, are not modelled.
- Timer.TimerQueue.Call: the callback itself, timer_redirect and the wake-up of the timer thread are not modelled.
- Pipes.Pipe.Open: error returns of pipe_open, and freeing the buffer at the last close, are not modelled.
- Pipes.Pipe.WriteTurn: the condition variable is not modelled, so neither is which waiting call goes on, or a wait that a signal ends.
- IntScan.Scan: a string in place of a stream; limits are odd, or even divisors of half of 2^64, as all callers have.
- Charconv.Append2: digit pairs are computed, not copied from the table of all pairs.
- Lock-less log readers and /dev/kmsg, which depend on racing memory reads.
- realloc, run_itimer, semaphores and cond_signal fairness.
- Fairness and liveness under arbitrary scheduling.
- System call wrappers, file systems, ELF loading, drivers, context switching.
- Floating point, hashing and template code of the libraries.
