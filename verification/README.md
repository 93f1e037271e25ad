# Verified models of the Nanvix kernel core

Nanvix is a microkernel for manycore processors. This project models the parts of it whose
correctness is hardest to see, in Dafny 4.11, and proves what they promise. The models keep the
branches, the error numbers and the loops of the C code.

| component | modules | source |
|---|---|---|
| paging of user memory | `MemoryLayout`, `PageTables`, `UserPages`, `UserPageProofs`, `UserPageRuns`, `MemoryManager` | `src/kernel/mm` |
| thread scheduling | `Scheduler`, `SchedulerRuns`, `ThreadManager` | `src/kernel/pm` |
| system calls over shared boards | `SysBoard`, `Dispatcher` | `src/kernel/sys/syscalls.c` |
| actives: request FIFOs, remote writes, local mail | `RequestFifo`, `OutputActive`, `Active`, `MessagePool`, `LocalMail`, `Mailbox` | `src/kernel/noc` |
| virtual mailboxes and portals | `Communicators`, `CommunicatorTable`, `VirtualMailboxes`, `MailNode`, `InputReads` | `src/kernel/noc` |
| virtual syncs | `NodeMasks`, `Syncs`, `SyncRuns`, `VirtualSyncs` | `src/kernel/noc/sync.c`, `src/kernel/sys/sync.c` |
| resumable vector writes of lwIP | `VectorWrite`, `VectorWriteCalls`, `VectorWriteLimits`, `Netconn` | `src/lwip/src/api` |

`Kernel`, `Sequences` and `Arithmetic` hold what the components share.

## How a component is built

* A *specification on values*: a datatype for the state and one function for each region of code
  that runs under a lock. Invariants, their preservation by every function, and theorems over
  whole runs are lemmas about these functions. A run is any interleaving of the regions by any
  number of cores, threads or callbacks. Creating and freeing a mailbox span several regions and
  are one step; "Left out" says why that is sound.
* A *class* that works as the C code does, on arrays and fields, with its loops. Its methods are
  proved equal to the specification functions on a `View()` of the fields.

What the hardware, TCP, the network or a caller may answer is a parameter of each step, so that
every theorem holds for every answer. Addresses are integers with the layout constants as
parameters; the memory management unit's page, directory and table sizes are not fixed.

## Where the code does less than it promises

Each of these is a theorem with the exact condition, and a lemma with a run that fails.

* `upage_link()` shares a frame without counting it. Freeing a page leaves all others on allocated
  frames if and only if no other page shares its frame (`FreeKeepsBackedIff`), and of two pages
  that share one the second free reports an I/O error (`SharedFrameFreesOnce`). All along a run
  every page is on an allocated frame if and only if the run has no such free, maps no page to a
  free frame, and frees no frame under a page (`RunIsBackedIff`); allocating, linking and freeing
  a page is a run that fails (`LinkedPageUnbacked`).
* `thread_create()` forgets the slot of a thread if and only if it finds a slot and then no page
  for a stack (`CreateForgetsIff`), which can be the first creation after boot
  (`CreateForgetsAtBoot`), and the slot stays forgotten in every run (`ForgottenForever`).
* `active_release()` leaves a port's request in the FIFO and `active_alloc()` clears its flag. The
  FIFO of an output active is the requested ports all along a run if and only if the run opens no
  port that is still requested (`FifoIsRequestsIff`); such a port gets a second entry
  (`ReopenedTwice`, `NextOwnerSendsOther`).
* `active_awrite()` copies the message when it takes a buffer and not when it is tried again, so
  that a write sends the message of the first attempt (`SendsFirstAttempt`). A caller who tries
  again with another message sends the first one (`RetrySendsOther`). The next owner of a port
  sends its own message if and only if the port came without a buffer (`SendsOwnIff`); it may come
  with one (`NextOwnerSendsOther`).
* `do_request_clear()` does nothing to a full FIFO (`Fifo.Clear`). So reading a local message gives
  its sender the turn back if and only if the FIFO is not full (`ReadFreesSenderIff`). The FIFO of
  the local active does fill up, however many buffers there are (`FifoFillsUp`), and from then on
  no local message can be sent on any port, even one opened anew (`FullForever`).
* A local write that finds no buffer leaves its port requested (`SendSticksIff`), which a run from
  boot comes to (`PortGetsStuck`), until the port is closed and opened anew and no earlier
  (`StuckUntilReopened`). A run is free of such ports if and
  only if it has no such write, no read of local mail with a full FIFO, and no opening of a port
  that is still requested (`RunIsHealthyIff`).
* `do_vmailbox_alloc()` calls `kpanic()` if and only if it took an input port for which mail is
  stored and found no communicator (`CommunicatorTable.CreateKeeps`). A node can come to that if
  and only if its actives have more ports than there are virtual mailboxes
  (`MailNode.PanicReachableIff`); a local write to a port without a mailbox leads there.
* `active_aread()` notes the node it lets send and takes the note back only when the read has
  started. After any reads the input active is found for a new mailbox if and only if the last
  read that was allowed did not fail afterwards (`FoundAfterReadsIff`); otherwise no mailbox can be
  created on any of its ports (`StrandedRefusesAll`).
* `do_vmailbox_aread()` and its like write buffer and size into the communicator before they check
  it. The operation under way has its own buffer and size all along a run if and only if nobody
  calls another one with other ones meanwhile, although that call is refused (`KeepsOwnBufferIff`,
  `RefusedCallTakesBuffer`).
* `sync_nodelist_is_valid()` returns a 64-bit mask as an `int`, so that a valid list is refused if
  and only if the local node is 32 or more (`NodelistIsValid`, `HighNodesHaveLists`).
* A virtual sync whose hardware release is refused stays in use with its count at zero
  (`Syncs.ReleaseKeepsIff`), after which a sync can be freed under a caller
  (`RefusedReleaseStrandsHandle`). Reference counts are the handles held all along a run if and
  only if the run has no such release (`EveryRunIsInterned`), and it can have one
  (`RefusalFromBoot`).
* `lwip_netconn_do_writemore()` compares lengths as 16-bit numbers. Its loop ends, whatever TCP
  answers, if and only if the write does not block or the free send buffer does not reach to a
  position a multiple of 65536 bytes before the end of a vector that is not the last (`EndsIff`).
  So a write can hang if and only if it blocks and a vector that is not the last has 65536 bytes
  or more (`HangsIff`).
* `netconn_write_vectors_partly()` cuts the length of a huge write to `SSIZE_MAX` but not its
  vectors; a blocking write can then run past its length and fail an assertion (`AbortsIff`).

## Model

| member | source | states |
|---|---|---|
| `MemoryLayout.KpoolConversions` | include/nanvix/kernel/mm.h:314-393 | a kernel page's id, address and frame number convert into each other without loss, and exactly the ids below NUM_KPAGES are kernel pages |
| `MemoryLayout.FrameConversions` | include/nanvix/kernel/mm.h:167-225 | frame ids and frame numbers are inverse on the user frames, and no other number converts |
| `MemoryLayout.WalkIsInjective` | src/kernel/mm/page.c:268-338 | directory index and table index together determine an aligned address, so two pages never share an entry |
| `PageTables.PgtabMapOwns` | src/kernel/mm/page.c:77-135 | a new table is a pool page that no other user of the pool has, with one reference |
| `PageTables.PgtabMapWalk` | src/kernel/mm/page.c:77-135 | a new table is empty: no translation of any user page changes |
| `PageTables.PgtabUnmapOwns` | src/kernel/mm/page.c:167-210 | a table in use stays and the call answers EBUSY; an empty one goes back to the pool, and no other table is touched |
| `PageTables.PgtabUnmapWalk` | src/kernel/mm/page.c:167-210 | giving a table back changes no translation |
| `PageTables.MapPageRefines` | src/kernel/mm/page.c:268-338 | past the address checks, mapping adds exactly one translation or fails and changes nothing; when each happens |
| `PageTables.UnmapPageRefines` | src/kernel/mm/page.c:368-424 | unmapping returns the page's frame, removes that translation alone, and drops the page from both TLBs |
| `PageTables.UnmapUndoesMap` | src/kernel/mm/page.c:268-424 | an unmap after a map restores the page pool, the TLBs and the presence of tables: a kernel page comes back exactly if one was taken |
| `UserPageProofs.UpageMapRefines` | src/kernel/mm/page.c:268-338 | upage_map() is insertion into the map from user pages to frames; each error number if and only if its cause; failures change nothing; kernel entries of the directory are not touched |
| `UserPageProofs.UpageUnmapRefines` | src/kernel/mm/page.c:368-424 | upage_unmap() is deletion from that map and returns what was there |
| `UserPageProofs.FrameAllocAllocated` | src/kernel/mm/frame.c:82-100 | frame_alloc() fails if and only if no frame is free, and otherwise adds one frame that was free to the allocated ones |
| `UserPageProofs.FrameFreeAllocated` | src/kernel/mm/frame.c:115-134 | frame_free() succeeds if and only if the frame is allocated, and removes that frame alone |
| `UserPageProofs.UpageAllocRefines` | src/kernel/mm/page.c:451-482 | upage_alloc() binds a frame that was free, or leaves bitmap, tables and page pool exactly as they were; when it succeeds |
| `UserPageProofs.UpageFreeRefines` | src/kernel/mm/page.c:506-531 | upage_free() unbinds the page and frees its frame; EIO if and only if the frame was not allocated |
| `UserPageProofs.UpageLinkRefines` | src/kernel/mm/page.c:540-583 | upage_link() binds the second page to the frame of the first, if and only if the first is mapped and the second can be; failures change nothing |
| `UserPageProofs.FreeUndoesAlloc` | src/kernel/mm/page.c:451-531 | upage_free() after upage_alloc() restores mapping, bitmap, page pool, table presence and TLBs |
| `UserPageRuns.FaultCachesWalk` | src/kernel/mm/page.c:605-673 | what the fault handler puts into a TLB for a user page is what the tables say, whichever address faults |
| `UserPageRuns.FaultCachesMapping` | src/kernel/mm/page.c:605-673 | a fault at a user address puts the page's frame, as the map has it, into the TLB that faulted and leaves the other one; for a page that is not mapped both stay |
| `UserPageRuns.StepRefines` | src/kernel/mm/page.c:219-673 | every operation on user pages, fault and eviction keeps the invariant and does to the map exactly what it is specified to do |
| `UserPageRuns.ReachableIsSound` | src/kernel/mm/page.c:77-210 | in every run from start: each user table is a pool page of its own with one reference and, unless tables are kept on purpose, an entry in use; no kernel page leaks; each TLB entry of a user page agrees with the tables |
| `UserPageRuns.AllocatingRunIsExclusive` | src/kernel/mm/page.c:451-531 | in runs of allocations and frees the mapping is injective, mapped frames are exactly the allocated ones, and no free reports EIO |
| `UserPageRuns.FreeKeepsExclusive` | src/kernel/mm/page.c:506-531 | freeing keeps one owner for each allocated frame, and then never reports EIO |
| `UserPageRuns.FreeKeepsBackedIff` | src/kernel/mm/page.c:506-531 | a free leaves every other page on an allocated frame if and only if no other page shares the frame |
| `UserPageRuns.LinkShares` | src/kernel/mm/page.c:540-583 | a successful link leaves two pages on one allocated frame |
| `UserPageRuns.SharedFrameFreesOnce` | src/kernel/mm/page.c:506-531 | of two pages that share a frame the first free succeeds and the second answers EIO |
| `UserPageRuns.StepBackedIff` | src/kernel/mm/page.c:268-583 | from a state in which every page is on an allocated frame, a step leads to another such state if and only if it does not map a page to a free frame, free a page that shares its frame, or free a frame in use |
| `UserPageRuns.RunIsBackedIff` | src/kernel/mm/page.c:268-583 | a run from start is in such states all along if and only if it has none of those steps |
| `UserPageRuns.LinkedPageUnbacked` | src/kernel/mm/page.c:451-583 | a run from start that fails: a page is allocated, linked to another, and freed |
| `MemoryManager.Memory.constructor` | src/kernel/mm/page.c:707-724 | the state at start satisfies the invariant and maps nothing |
| `MemoryManager.Memory.KpageGet` | src/kernel/mm/kpool.c:50-79 | the search loop takes the first page without a reference |
| `MemoryManager.Memory.KpagePut` | src/kernel/mm/kpool.c:95-119 | a reference is dropped; addresses outside the pool and unreferenced pages are refused |
| `MemoryManager.Memory.FrameAlloc` | src/kernel/mm/frame.c:82-100 | the first clear bit is set and its frame number returned |
| `MemoryManager.Memory.FrameFree` | src/kernel/mm/frame.c:115-134 | the bit of an allocated user frame is cleared, anything else refused |
| `MemoryManager.Memory.PgtabMap` | src/kernel/mm/page.c:77-135 | the loop clears the new table before the directory names it; every table stays a page of its own |
| `MemoryManager.Memory.PgtabUnmap` | src/kernel/mm/page.c:167-210 | the scan decides whether the table is empty, and only then gives it back; every table stays a page of its own |
| `MemoryManager.Memory.UpageInval` | src/kernel/mm/page.c:219-241 | the page leaves both TLBs, addresses outside user memory are refused, and the invariant and the map stay |
| `MemoryManager.Memory.UpageMap` | src/kernel/mm/page.c:268-338 | the in-place code keeps the invariant and inserts the page into the map, if and only if it is a free user page with a table to be had |
| `MemoryManager.Memory.UpageUnmap` | src/kernel/mm/page.c:368-424 | the in-place code, with its table scan, keeps the invariant, deletes the page from the map and returns its frame |
| `MemoryManager.Memory.UpageAlloc` | src/kernel/mm/page.c:451-482 | the in-place code keeps the invariant and binds a frame that was free, or gives the frame back and changes nothing; when it succeeds |
| `MemoryManager.Memory.UpageFree` | src/kernel/mm/page.c:506-531 | the in-place code keeps the invariant, deletes the page from the map and releases its frame; when it succeeds |
| `MemoryManager.Memory.UpageLink` | src/kernel/mm/page.c:540-583 | the in-place code keeps the invariant and binds the second page to the first page's frame, if and only if the first is mapped and the second can be |
| `MemoryManager.Memory.DoTlbFault` | src/kernel/mm/page.c:605-673 | the in-place code puts the frame that the map has for the page into the faulting TLB alone, so that the invariant and the map stay |
| `Scheduler.CurrIsActive` | src/kernel/pm/thread/multithread.c:172-196 | thread_get_curr() finds the one thread that occupies the core |
| `Scheduler.AllocFindsUser` | src/kernel/pm/thread/multithread.c:281-311 | the slot found is a user slot, not queued and on no core |
| `Scheduler.CreateKeeps` | src/kernel/pm/thread/multithread.c:661-727 | a creation succeeds if and only if there are stack pages and a free or zombie's slot; the new thread gets the first such slot and is appended to the run queue with one unit for it; otherwise EAGAIN and the queue is left alone; no other thread changes |
| `Scheduler.ExitKeeps` | src/kernel/pm/thread/multithread.c:565-601 | the caller is terminated, stays on its core until it yields, and nothing else changes; the invariant holds |
| `Scheduler.ReapKeeps` | src/kernel/pm/thread/multithread.c:469-478 | a zombie that the next field refers to is freed, in its slot and core, and the field cleared; without one nothing changes |
| `Scheduler.ArmKeeps` | src/kernel/pm/semaphore.c:44-61 | an idle thread takes exactly one unit and is then about to yield; units plus cores about to yield stay at least the length of the queue |
| `Scheduler.SleepKeeps` | src/kernel/pm/cond.c:44-63 | a thread that waits for a condition overwrites its own next field, which is not one of the run queue's, and nothing else |
| `Scheduler.YieldCaller` | src/kernel/pm/thread/multithread.c:388-457 | the sanity checks of thread_yield(): there is a caller, it is the core's idle thread or a user thread, it is not queued, and a terminated caller is not switched to |
| `Scheduler.YieldKeeps` | src/kernel/pm/thread/multithread.c:388-457 | a yield keeps the invariant, turns the queue q into q[1..] plus a live user caller, and gives the core to the old head, or with an empty queue to a live caller and else to the idle thread; a terminated caller is left as a zombie to the thread that gets the core |
| `Scheduler.MasterStays` | src/kernel/pm/thread/multithread.c:388-403 | the master's yield is refused with EINVAL and changes nothing |
| `Scheduler.YieldCores` | src/kernel/pm/thread/multithread.c:388-457 | after a yield the core is occupied by the next thread alone, and all other cores as before |
| `Scheduler.YieldWakes` | src/kernel/pm/thread/multithread.c:388-457 | a yield keeps units plus cores about to yield at least the length of the queue |
| `SchedulerRuns.StepKeeps` | src/kernel/pm/thread/multithread.c:322-727 | every region keeps the invariant, whichever core executes it |
| `SchedulerRuns.EveryRunGuarantees` | src/kernel/pm/thread/multithread.c:388-545 | in every interleaving from boot: the queue holds each waiting user thread once, each core has exactly one thread, and a queued thread never coexists with all idle cores asleep on a zero count |
| `SchedulerRuns.QueuePosition` | src/kernel/pm/thread/multithread.c:388-457 | a queued thread moves up by one with each thread taken and by nothing else |
| `SchedulerRuns.DispatchedInTurn` | src/kernel/pm/thread/multithread.c:388-457 | first come, first served: the thread at position p gets the core of the yield that takes the p+1st thread |
| `SchedulerRuns.ExitedStaysOut` | src/kernel/pm/thread/multithread.c:322-601 | in every run a thread that has exited is in no queue and runs on no core, until a creation answers its slot |
| `SchedulerRuns.ExitedBecomesZombie` | src/kernel/pm/thread/multithread.c:388-457 | in every run the next yield of its core makes it a zombie that the thread then on the core is to release |
| `SchedulerRuns.ExitedIsReleased` | src/kernel/pm/thread/multithread.c:469-478 | in every run the release that follows makes the slot free, unless a creation has taken it before |
| `SchedulerRuns.CreateForgetsIff` | src/kernel/pm/thread/multithread.c:661-727 | thread_create() leaves a taken slot outside the queue if and only if it found a slot and lacks a stack page |
| `SchedulerRuns.CreateLeavesForgotten` | src/kernel/pm/thread/multithread.c:661-727 | which slot that is |
| `SchedulerRuns.CreateForgetsAtBoot` | src/kernel/pm/thread/multithread.c:661-727 | the first creation after boot forgets the first user slot when it lacks a stack page |
| `SchedulerRuns.ForgottenForever` | src/kernel/pm/thread/multithread.c:281-727 | in every run such a slot is never run, never freed and never given to another thread |
| `SchedulerRuns.RunForgetsNone` | src/kernel/pm/thread/multithread.c:388-727 | when no creation lacks a stack page, no run forgets a thread |
| `ThreadManager.LinkAppends` | src/kernel/pm/thread/multithread.c:322-345 | linking behind the tail appends to the queue that head, tail, size and next fields represent |
| `ThreadManager.UnlinkDrops` | src/kernel/pm/thread/multithread.c:409-420 | following the head's next field drops it from that queue |
| `ThreadManager.SoundMayYield` | src/kernel/pm/thread/multithread.c:388-457 | what the locked region of thread_yield() demands holds in every sound state, and it leaves one |
| `ThreadManager.Threads.constructor` | src/kernel/pm/thread/multithread.c:800-862 | the table after initialization is the start of the runs |
| `ThreadManager.Threads.ThreadGetCurr` | src/kernel/pm/thread/multithread.c:172-196 | the search loop finds the core's thread |
| `ThreadManager.Threads.ThreadFree` | src/kernel/pm/thread/multithread.c:245-261 | a zombie's slot is free again |
| `ThreadManager.Threads.ThreadAlloc` | src/kernel/pm/thread/multithread.c:281-311 | the first free user slot is taken |
| `ThreadManager.Threads.ThreadSchedule` | src/kernel/pm/thread/multithread.c:322-345 | the linked queue gains the thread at its end, and the semaphore a unit |
| `ThreadManager.Threads.ThreadCreate` | src/kernel/pm/thread/multithread.c:661-727 | the code with its linked queue refines the creation, stack failures included, and leaves a sound table |
| `ThreadManager.Threads.ThreadExit` | src/kernel/pm/thread/multithread.c:565-601 | the code terminates the core's thread and changes no other state; it refines the exit and leaves a sound table |
| `ThreadManager.Threads.TakeHead` | src/kernel/pm/thread/multithread.c:409-420 | the head of the linked queue is unlinked and bound to the core |
| `ThreadManager.Threads.DispatchNext` | src/kernel/pm/thread/multithread.c:404-439 | the next thread is chosen, and a live user caller linked back |
| `ThreadManager.Threads.ThreadYield` | src/kernel/pm/thread/multithread.c:388-457 | the whole region computes the specified yield in every sound state, and leaves a sound state |
| `ThreadManager.Threads.ReapZombie` | src/kernel/pm/thread/multithread.c:469-478 | the thread that now runs frees the one it replaced |
| `ThreadManager.Threads.CondWait` | src/kernel/pm/cond.c:44-63 | the waiting thread's next field names the thread that waits already; the linked run queue is not disturbed |
| `ThreadManager.Threads.SemaphoreDown` | src/kernel/pm/semaphore.c:44-61 | an idle core takes a unit and is then about to yield |
| `SysBoard.StepKeeps` | src/kernel/sys/syscalls.c:61-80 | every single memory access of callers and dispatcher keeps the invariant |
| `SysBoard.AnsweredOnce` | src/kernel/sys/syscalls.c:366-371 | in every interleaving each core's calls are served once and in order, and each returns the reply recorded for its own request |
| `SysBoard.ReturnsOwnAnswer` | src/kernel/sys/syscalls.c:61-372 | in every interleaving the k-th reply a core reads is for the k-th request it wrote: the dispatcher served the core in a step in between, and the reply is EINVAL if and only if the number is out of range, ENOSYS if and only if nothing handles it, and the handler's own result otherwise |
| `SysBoard.ServesPending` | src/kernel/sys/syscalls.c:61-80 | pending boards are at least the semaphore's count plus the request in service, so the core served is always pending and core 0 is never served by default |
| `SysBoard.LookKeeps` | src/kernel/sys/syscalls.c:66-80 | a look of the sweep keeps the invariant, by which a sweep ends at a pending board and every other pending one comes nearer |
| `SysBoard.OvertakenCounts` | src/kernel/sys/syscalls.c:66-80 | the ghost count of a waiting core is the number of requests picked since it posted |
| `SysBoard.BoundedWaiting` | src/kernel/sys/syscalls.c:66-80 | at most CORES_NUM - 1 other requests are picked before that of a core which has posted |
| `Dispatcher.SweepFindsNearest` | src/kernel/sys/syscalls.c:66-80 | the sweep finds the pending board nearest in circular order, or none is pending, and stops behind it |
| `Dispatcher.SweepIsLooks` | src/kernel/sys/syscalls.c:66-80 | the loop is the sequence of the dispatcher's single looks |
| `Dispatcher.ServeRuns` | src/kernel/sys/syscalls.c:61-372 | in a sound system do_kcall2() is a sequence of the dispatcher's steps that finds a pending board and answers it, with the handler's result or the error that the request's number calls for |
| `Dispatcher.PostRuns` | src/kernel/sys/syscalls.c:497-515 | posting is the three steps of a caller |
| `Dispatcher.CollectRuns` | src/kernel/sys/syscalls.c:497-515 | collecting the reply is the last two |
| `Dispatcher.Boards.constructor` | src/kernel/sys/syscalls.c:538-546 | the boards start in the state from which the runs start |
| `Dispatcher.Boards.Post` | src/kernel/sys/syscalls.c:497-515 | the caller's board holds the request, is pending, and the semaphore has a unit more: the caller's steps up to its wait |
| `Dispatcher.Boards.Sweep` | src/kernel/sys/syscalls.c:66-80 | the loop over sys_next_coreid computes the specified sweep, with core 0 as its answer when no board is pending |
| `Dispatcher.Boards.Serve` | src/kernel/sys/syscalls.c:61-372 | a pending board is found, answered with the handler's result or the error that the request's number calls for, made not pending and its caller notified, no other board changes: the dispatcher's steps |
| `Dispatcher.Boards.Collect` | src/kernel/sys/syscalls.c:497-515 | the caller takes the reply of its own board: its last steps |
| `RequestFifo.PopRepresents` | src/kernel/noc/active.c:113-136 | moving the tail on takes the oldest request, at every wraparound position |
| `RequestFifo.ShiftOne` | src/kernel/noc/active.c:152-194 | one slot of the scan moves one later request up |
| `RequestFifo.ShiftedRepresents` | src/kernel/noc/active.c:152-194 | a finished scan has removed the port's request and kept the order of the rest |
| `RequestFifo.Fifo.Push` | src/kernel/noc/active.c:73-98 | a request is appended, or EBUSY if and only if the FIFO is full |
| `RequestFifo.Fifo.Pop` | src/kernel/noc/active.c:113-136 | the front request is removed if and only if it is the port's |
| `RequestFifo.Fifo.IsTurn` | src/kernel/noc/active.c:208-218 | whether the port is at the front |
| `RequestFifo.Fifo.Scan` | src/kernel/noc/active.c:152-194 | the shifting loop finds the request wherever it sits, except that on a full FIFO it does not start |
| `RequestFifo.Fifo.TakeOut` | src/kernel/noc/active.c:185-191 | the head moves back over the slot that the scan has freed |
| `RequestFifo.Fifo.Clear` | src/kernel/noc/active.c:152-194 | the request is taken out of the middle in order, or the FIFO is full or lacks it and stays as it is |
| `OutputActive.RoomForUnrequested` | src/kernel/noc/active.c:73-98 | by pigeonhole a port without a request never finds the FIFO full |
| `OutputActive.AwriteKeeps` | src/kernel/noc/active.c:661-800 | a write appends its port at most once; it reaches the hardware if and only if the port is in use, has or finds a buffer, is at the front and the active is idle, and answers what the hardware does; each error if and only if its cause; entries and flags stay sound |
| `OutputActive.AwriteQueue` | src/kernel/noc/active.c:661-800 | a write keeps the FIFO equal to the requested ports, each once, and finds room in it |
| `OutputActive.WaitEndKeeps` | src/kernel/noc/active.c:817-930 | a finished write gives the turn to the next request, and only on success; the port has no buffer afterwards and no other port changes; the FIFO stays equal to the requested ports if it was |
| `OutputActive.CompleteIff` | src/kernel/noc/active.c:113-136 | a request is completed if and only if it is the port's turn, which then passes on |
| `OutputActive.WaitBeginIff` | src/kernel/noc/active.c:817-859 | in every orderly state a wait is admitted if and only if the write of that port is in flight |
| `OutputActive.AllocKeeps` | src/kernel/noc/active.c:359-420 | opening takes the first unused port, clears its flag and leaves its buffer and all else, or fails if and only if none is unused |
| `OutputActive.OpenKeepsQueueIff` | src/kernel/noc/active.c:359-420 | opening a port keeps the FIFO equal to the requested ports if and only if the port chosen is not requested |
| `OutputActive.CloseKeepsQueue` | src/kernel/noc/active.c:435-489 | closing makes a port unused, with its request and buffer, and never harms the FIFO |
| `OutputActive.ReopenedTwice` | src/kernel/noc/active.c:359-489 | a port closed while requested comes back with two entries in the FIFO |
| `OutputActive.FifoIsRequestsIff` | src/kernel/noc/active.c:359-930 | all along a run the FIFO is exactly the requested ports, each once, if and only if the run opens no port that is still requested |
| `OutputActive.AwriteMessage` | src/kernel/noc/active.c:694-782 | a write fills the buffer it finds with its message if and only if its port is in use and has none; no other port changes |
| `OutputActive.SendsFirstAttempt` | src/kernel/noc/active.c:694-782 | in every run a write sends the message of the first attempt since the port last had no buffer, which is this attempt if and only if the port comes without a buffer |
| `OutputActive.SendsOwnAfterWait` | src/kernel/noc/active.c:694-930 | in every run the first write on a port after a wait on it has ended sends its own message |
| `OutputActive.SendsOwnIff` | src/kernel/noc/active.c:694-782 | in every run what a newly opened port sends first was written by its new owner if and only if the port came without a buffer |
| `OutputActive.RetrySendsOther` | src/kernel/noc/active.c:694-782 | a run from boot in which a refused write of one message and a second write of any other sends the first |
| `OutputActive.NextOwnerSendsOther` | src/kernel/noc/active.c:359-800 | a run from boot in which a port closed after a refused write sends the old message for its next owner and has two entries in the FIFO |
| `OutputActive.RunIsOrderly` | src/kernel/noc/active.c:661-930 | in every run, whatever ports are closed and opened, one hardware write is in flight at most and belongs to the front port, and writes complete in the order of requests |
| `Active.Writer.constructor` | src/kernel/noc/mailbox.c:85-172 | an active starts idle, with an empty FIFO and no port in use |
| `Active.Writer.DoRequestOperation` | src/kernel/noc/active.c:73-98 | the circular FIFO and the port's flag change as specified |
| `Active.Writer.DoRequestComplete` | src/kernel/noc/active.c:113-136 | the circular FIFO loses its front and the port its flag if and only if it is the port's turn |
| `Active.Writer.DoRequestClear` | src/kernel/noc/active.c:152-194 | the flag is cleared if and only if the request was taken out |
| `Active.Writer.ActiveAlloc` | src/kernel/noc/active.c:359-420 | the first unused output port is taken with its flags cleared |
| `Active.Writer.ActiveRelease` | src/kernel/noc/active.c:435-489 | an output port is given back without a look at its request or buffer |
| `Active.Writer.PrepareWrite` | src/kernel/noc/active.c:694-768 | the message goes into a buffer just taken and the port into the FIFO; a port with a buffer keeps what is in it |
| `Active.Writer.ActiveAwrite` | src/kernel/noc/active.c:661-800 | the code of a remote write computes the specified state and status, the message in its buffer included |
| `Active.Writer.ActiveWaitBegin` | src/kernel/noc/active.c:817-859 | a wait is admitted for the front port of a busy active |
| `Active.Writer.ActiveWaitEnd` | src/kernel/noc/active.c:863-930 | the end of a wait computes the specified state, in which the port has no buffer and the active is idle |
| `MessagePool.SearchFindsOldest` | src/kernel/noc/mbuffer.c:162-215 | the search fails if and only if nothing matches, and otherwise finds the oldest match |
| `MessagePool.AllocTakesUnused` | src/kernel/noc/mbuffer.c:49-87 | a buffer taken through one view was unused and is not handed out next by the other view, and no other buffer changes |
| `MessagePool.ComposeRoundTrip` | src/kernel/noc/active.h:56 | node and port can be read back from the address composed of them |
| `MessagePool.SourceCheckMeans` | src/kernel/noc/mailbox.c:266-289 | a mask admits exactly its node and its port, each wild card any |
| `MessagePool.Mbuffers.AllocBuffer` | src/kernel/noc/mbuffer.c:49-87 | the first unused buffer of the pool is taken |
| `MessagePool.Mbuffers.ReleaseBuffer` | src/kernel/noc/mbuffer.c:103-146 | a buffer is kept as a message with the next age, or freed; the age counter wraps at 64 bits |
| `MessagePool.Mbuffers.SearchBuffer` | src/kernel/noc/mbuffer.c:162-215 | the running minimum is the oldest match |
| `LocalMail.MessagesConserved` | src/kernel/noc/active.c:698-752 | in every run each message kept is either stored, in one buffer and as sent, or was delivered, once; nothing else is stored or was delivered |
| `LocalMail.ReadsOldestFirst` | src/kernel/noc/active.c:541-582 | in every run a read from storage returns the message kept first among those stored for its destination from a source its mask admits, for a local read in the buffers of local messages, and fails if and only if there is none |
| `LocalMail.ReleasedPortHasNoMail` | src/kernel/noc/active.c:435-489 | an input port is refused its release with EBUSY if and only if a message for it is stored; afterwards neither pool has one; an unused port gets EINVAL |
| `LocalMail.ForwardDoes` | src/kernel/noc/active.c:661-752 | a local write succeeds if and only if the port is in use and not requested, the FIFO has room and a buffer for local messages is unused, the first of which stores the message with its sender and the next age; each error if and only if its cause, and what it leaves |
| `LocalMail.ReadFreesSenderIff` | src/kernel/noc/active.c:541-582 | reading a local message gives its sender the turn back if and only if the FIFO is not full |
| `LocalMail.SendSticksIff` | src/kernel/noc/active.c:698-752 | a local write leaves its port stuck if and only if its request is registered and no buffer is found |
| `LocalMail.PortGetsStuck` | src/kernel/noc/active.c:698-752 | a run from boot, for any number of buffers, whose last write finds none and leaves its port stuck |
| `LocalMail.StuckStaysIff` | src/kernel/noc/active.c:359-489 | a stuck port stays so in a step if and only if the step does not open it anew |
| `LocalMail.StuckUntilReopened` | src/kernel/noc/active.c:698-752 | in every run a port is stuck exactly until it is opened anew, and until then all its writes are refused |
| `LocalMail.ReopenedSendsIff` | src/kernel/noc/active.c:359-420 | a port opened anew can send if and only if the FIFO, with the entries left in it, and the auxiliary pool have room |
| `LocalMail.FullForever` | src/kernel/noc/active.c:152-194 | in every run, once the FIFO of the local active is full, it stays as it is and no write on any port succeeds again, whatever is read, closed and opened |
| `LocalMail.FifoFillsUp` | src/kernel/noc/active.c:661-752 | a run that leads there, for any number of buffers: each port sends once before a message is read |
| `LocalMail.HealthyStaysIff` | src/kernel/noc/active.c:359-752 | that each requested port is owed its turn by exactly one stored message survives a step if and only if the step is none of three mishaps: a write without a buffer, a read with a full FIFO, the opening of a requested port |
| `LocalMail.RunIsHealthyIff` | src/kernel/noc/active.c:359-752 | a run from boot is so all along if and only if it has no mishap |
| `LocalMail.TakenIsExclusive` | src/kernel/noc/mbuffer.c:49-146 | in every run a buffer that a remote transfer has taken is handed out by neither of the overlapping pools and found by no read, until it is kept or dropped |
| `Mailbox.LocalMailbox.OpenPort` | src/kernel/noc/active.c:359-420 | opening a port of the local active computes the specified state |
| `Mailbox.LocalMailbox.ClosePort` | src/kernel/noc/active.c:435-489 | closing a port of the local active computes the specified state |
| `Mailbox.LocalMailbox.ForwardWrite` | src/kernel/noc/active.c:661-752 | the code of a local write computes the specified state and status |
| `Mailbox.LocalMailbox.StoreMessage` | src/kernel/noc/active.c:698-752 | the message goes into an auxiliary buffer with its sender's number, or no buffer changes |
| `Mailbox.LocalMailbox.StoredRead` | src/kernel/noc/active.c:506-582 | the code of a read from storage computes the specified state and message |
| `Mailbox.LocalMailbox.ClearSender` | src/kernel/noc/active.c:541-582 | the request of the message's local sender is cleared |
| `Communicators.PermissionsAccounted` | src/kernel/noc/communicator.c:176-316 | over the life of a communicator one operation at a time is under way, permissions granted are deliveries plus one if the flag is set, which is for the address last permitted, a retry consumes none, only a busy communicator is finished, and an output keeps its address |
| `Communicators.AllowDoes` | src/kernel/noc/vportal.c:267-301 | permission is given if and only if the portal is an input without an open one; each error if and only if its cause |
| `Communicators.OperateDoes` | src/kernel/noc/communicator.c:176-237 | an operation starts if and only if the communicator is of the direction, permitted and idle and the active takes it; each error if and only if its cause; buffer and size of the call are noted in every case |
| `Communicators.WaitBeginDoes` | src/kernel/noc/communicator.c:251-282 | a wait is refused, over at once or asks the active, each if and only if its cause |
| `Communicators.WaitEndDoes` | src/kernel/noc/communicator.c:284-316 | afterwards the communicator is idle without buffer and size; a delivery uses up the permission and an input forgets the address |
| `Communicators.KeepsOwnBufferIff` | src/kernel/noc/communicator.c:176-316 | all along a run the operation under way has the buffer and size it was called with if and only if nobody calls another one meanwhile with other ones |
| `Communicators.RefusedCallTakesBuffer` | src/kernel/noc/vportal.c:317-347 | a run that fails: a second write is refused and takes the first one's buffer |
| `CommunicatorTable.CreateKeeps` | src/kernel/noc/vmailbox.c:112-145 | creating makes one new pair of port and communicator or leaves the table as it was; an input is for the port asked for and any source, an output for the first free port and the remote address asked for; it panics if and only if an input port was taken for which the buffers store a message and no communicator is free |
| `CommunicatorTable.CreateAnswers` | src/kernel/noc/vmailbox.c:112-145 | a creation succeeds if and only if the first active for the nodes has the port asked for, or any for an output, and a communicator is unused; EAGAIN, EINVAL and EBUSY if and only if their causes |
| `CommunicatorTable.MailForIff` | src/kernel/noc/active.c:460-470 | the search that stands in the way of a release finds a message if and only if some buffer stores one for the address, from any source |
| `CommunicatorTable.FreeKeeps` | src/kernel/noc/communicator.c:110-161 | freeing succeeds if and only if the communicator is idle, of the right direction and the buffers store no message for its input port; EBADF if and only if it is not in use or of the wrong direction, EBUSY otherwise |
| `CommunicatorTable.FreeGives` | src/kernel/noc/communicator.c:110-161 | it gives back that communicator and its port, and nothing else |
| `CommunicatorTable.RunKeeps` | src/kernel/noc/communicator.c:53-161 | in every run communicators and ports in use are in bijection through their descriptors, as many of one as of the other, reference counts are the ports in use, and the counters tell the communicators of each direction |
| `MailNode.StepKeeps` | src/kernel/noc/vmailbox.c:112-235 | every call and every step of the mail layer keeps the table, the local active and the buffers sound and in agreement |
| `MailNode.CreateIsMailSteps` | src/kernel/noc/vmailbox.c:112-145 | to the mail a creation is the opening of a port of the local active, an opening and closing when no communicator is left, or nothing |
| `MailNode.NodeRunIsMailRun` | src/kernel/noc/vmailbox.c:112-235 | in every run of the node its mail goes through a run of the local active and the buffers |
| `MailNode.NodeConservesMail` | src/kernel/noc/active.c:541-752 | in every run of the node from boot each message kept is either stored, as sent, or was delivered, once |
| `MailNode.FreeFormula` | src/kernel/noc/vmailbox.c:112-145 | in every sound state free ports and virtual mailboxes in use add up: free ports exceed free communicators by what ports exceed communicators |
| `MailNode.PanicNeedsPorts` | src/kernel/noc/vmailbox.c:129-133 | a panic needs more ports than virtual mailboxes |
| `MailNode.SendStores` | src/kernel/noc/active.c:698-752 | a local write stores mail for an address whether or not there is a mailbox at it |
| `MailNode.FillUp` | src/kernel/noc/vmailbox.c:112-145 | with mail stored for a free input port and more ports than mailboxes, calls lead to the panic |
| `MailNode.PanicReachableIff` | src/kernel/noc/vmailbox.c:112-145 | some run from boot ends in kpanic() if and only if the actives of the node have more ports than there are virtual mailboxes |
| `InputReads.FoundAfterReadsIff` | src/kernel/noc/active.c:594-640 | after any sequence of reads the search for an input active finds it if and only if the last read that was allowed did not fail for want of a buffer or at its start |
| `InputReads.StrandedRefusesAll` | src/kernel/noc/active.c:292-341 | with the only input active of a node left so, every creation is refused with EBUSY and changes nothing |
| `VirtualMailboxes.Mailboxes.constructor` | src/kernel/noc/vmailbox.c:67-94 | no port and no communicator is in use and all counters are zero |
| `VirtualMailboxes.Mailboxes.PortpoolChoosePort` | src/kernel/noc/port.c:49-71 | the first free port |
| `VirtualMailboxes.Mailboxes.ActiveSearch` | src/kernel/noc/active.c:292-341 | the first active of the direction between the two nodes |
| `VirtualMailboxes.Mailboxes.ActiveAlloc` | src/kernel/noc/active.c:359-420 | a port is taken and counted, and its descriptor composed, or the table is left alone |
| `VirtualMailboxes.Mailboxes.ActiveRelease` | src/kernel/noc/active.c:435-489 | a port is given back and discounted unless the search of the buffers finds a message for it |
| `VirtualMailboxes.Mailboxes.CommunicatorAlloc` | src/kernel/noc/communicator.c:53-94 | the first unused communicator is taken with its fields reset |
| `VirtualMailboxes.Mailboxes.VmailboxAlloc` | src/kernel/noc/vmailbox.c:112-145 | the code takes port and communicator in order and undoes the first when the second fails |
| `VirtualMailboxes.Mailboxes.CommunicatorFree` | src/kernel/noc/communicator.c:110-161 | the code gives back port and communicator together, or neither; the descriptor's assertion holds and the invariant is kept |
| `VirtualMailboxes.Mailboxes.VportalAllow` | src/kernel/noc/vportal.c:267-301 | permission is granted to an idle input portal without one |
| `VirtualMailboxes.Mailboxes.CommunicatorOperate` | src/kernel/noc/communicator.c:176-237 | the communicator becomes busy, finished or stays as it was, as the active answers |
| `VirtualMailboxes.Mailboxes.CommunicatorWaitBegin` | src/kernel/noc/communicator.c:251-282 | a wait ends at once on a finished communicator and asks the active otherwise |
| `VirtualMailboxes.Mailboxes.CommunicatorWaitEnd` | src/kernel/noc/communicator.c:284-316 | what the wait's outcome does to the flags |
| `NodeMasks.MasksEqualIff` | src/kernel/noc/sync.c:184-192 | two lists have equal 64-bit masks if and only if they name the same set of nodes |
| `NodeMasks.DistinctMaskOnes` | src/kernel/sys/sync.c:62-75 | a list without repetitions has as many bits as nodes |
| `NodeMasks.BuildNodeslist` | src/kernel/noc/sync.c:184-192 | the loop computes the mask |
| `NodeMasks.NodelistIsValid` | src/kernel/sys/sync.c:47-79 | accepted if and only if the list has existing nodes once each, the local one among them and first exactly if it is the one, and the local node is below 32; accepted lists have nnodes bits |
| `NodeMasks.HighNodesHaveLists` | src/kernel/sys/sync.c:47-79 | every node from 32 on has lists that are to be accepted |
| `Syncs.AllocFinds` | src/kernel/noc/sync.c:210-275 | an allocation answers the entry of its key with one reference more, or makes one in the first unused entry with the hardware's sync, and keeps entries distinct; it fails only if no entry has the key, with EAGAIN if none is unused and else with the hardware's error, and then changes nothing |
| `Syncs.ReleaseDoes` | src/kernel/noc/sync.c:347-401 | EBADF and EBUSY if and only if their causes; a release that is not the last drops a reference; the last answers what the hardware does and clears the entry, or leaves it without references when refused; no other entry changes |
| `Syncs.BeginIff` | src/kernel/noc/sync.c:444-498 | an operation is admitted if and only if the entry is in use, of the direction and idle, and its end undoes its start |
| `Syncs.ReleaseKeepsIff` | src/kernel/noc/sync.c:347-401 | a release keeps reference counts equal to handles if and only if it is not a last one that the hardware refuses |
| `Syncs.KeysEqualIff` | src/kernel/noc/sync.c:137-192 | two requests have one key if and only if direction, mode, first node and set of nodes agree |
| `Syncs.SharedIff` | src/kernel/noc/sync.c:210-275 | while an entry is in use, a request answers it if and only if it has its direction, mode, first node and set of nodes |
| `SyncRuns.StepAccountedIff` | src/kernel/noc/sync.c:210-401 | reference counts stay the handles held in a step if and only if the step is not a last release that the hardware refuses |
| `SyncRuns.RunAccountedIff` | src/kernel/noc/sync.c:210-401 | they are so all along a run if and only if the run has no such step |
| `SyncRuns.EveryRunIsInterned` | src/kernel/noc/sync.c:137-401 | in every run from boot no two entries in use share direction, mode, master and node set and the counters tell the entries; reference counts are the handles held all along if and only if no last release is refused |
| `SyncRuns.RefusalFromBoot` | src/kernel/noc/sync.c:347-401 | a run from boot that fails: the first sync made is given back and the hardware refuses |
| `SyncRuns.HandleKeepsMeaning` | src/kernel/noc/sync.c:210-401 | while anybody holds a handle, and no last release is refused, it stands for the same nodes and hardware sync |
| `SyncRuns.OneOperationAtATime` | src/kernel/noc/sync.c:347-498 | in every run, until an operation admitted on an entry ends, no other is admitted, no release succeeds, and the entry stands for the same nodes and hardware sync; then it is idle |
| `SyncRuns.RefusedReleaseStrandsHandle` | src/kernel/noc/sync.c:347-401 | after a refused release and a second attempt, one of two later handles frees the sync under the other |
| `VirtualSyncs.Vsynctab.SyncSearch` | src/kernel/noc/sync.c:137-170 | the loop finds the first entry in use for the key |
| `VirtualSyncs.Vsynctab.SyncAlloc` | src/kernel/noc/sync.c:210-275 | the code on the list of nodes refines the interned allocation for the key of that list |
| `VirtualSyncs.Vsynctab.SyncRelease` | src/kernel/noc/sync.c:347-401 | the code refines the counted release, a refusal by the hardware included |
| `VirtualSyncs.Vsynctab.SyncOperateBegin` | src/kernel/noc/sync.c:444-477 | an idle entry of the right direction becomes busy, anything else is refused |
| `VirtualSyncs.Vsynctab.SyncOperateEnd` | src/kernel/noc/sync.c:483-498 | the entry is idle again |
| `VectorWrite.AcceptedIsPrefix` | src/lwip/src/api/api_msg.c:1677-1725 | the cursor in the vectors and the offset name one place, and what TCP accepted is the bytes before it |
| `VectorWrite.StepKeeps` | src/lwip/src/api/api_msg.c:1639-1803 | each call and each round of the loop keeps that, and leaves bytes behind when the write is to be resumed |
| `VectorWrite.EveryRunIsExact` | src/lwip/src/api/api_msg.c:1639-1803 | over the first call and every resumption the bytes accepted are the first offset bytes of the vectors; no assertion fails; a blocking write without timeout reports ERR_OK only with all bytes accepted; a write that ends without an error of TCP reports ERR_WOULDBLOCK if and only if nothing was accepted and else ERR_OK; other errors are those TCP gave in the last step, and never ERR_MEM |
| `VectorWrite.RoundEnds` | src/lwip/src/api/api_msg.c:1676-1802 | how a round ends the call: going on, waiting and each error if and only if its cause |
| `VectorWrite.CallStarts` | src/lwip/src/api/api_msg.c:1651-1675 | an expired timeout ends the write with ERR_WOULDBLOCK if and only if nothing was accepted; otherwise the loop starts with the send buffer's room |
| `VectorWriteCalls.EndsIff` | src/lwip/src/api/api_msg.c:1676-1726 | the loop of a call ends, whatever TCP answers, if and only if the write does not block or the send buffer does not reach to a position a multiple of 65536 bytes before the end of a vector that is not the last |
| `VectorWriteCalls.ShortVectorsNeverLand` | src/lwip/src/api/api_msg.c:1676-1726 | vectors of at most 65535 bytes have no such position, so that every call ends |
| `VectorWriteLimits.TakesAllThatFits` | src/lwip/src/api/api_msg.c:1676-1726 | when TCP takes what fits, a call gets to the end of the send buffer or of the vectors |
| `VectorWriteLimits.HangsIff` | src/lwip/src/api/api_msg.c:1676-1726 | some run of a write comes to a call whose loop need not end if and only if the write blocks and a vector that is not the last has 65536 bytes or more |
| `VectorWriteLimits.AbortsIff` | src/lwip/src/api/api_lib.c:1029-1050 | some run fails an assertion if and only if the write blocks and its length was cut below the total of its vectors |
| `Netconn.TotalSize` | src/lwip/src/api/api_lib.c:1020-1028 | the summing loop with its wraparound test accepts exactly the totals that fit, and computes them |
| `Netconn.WriteVectorsPartly` | src/lwip/src/api/api_lib.c:996-1059 | ERR_VAL and the immediate ERR_OK if and only if their causes; otherwise the message to send, and whether it can abort |
| `Netconn.Conn.Advance` | src/lwip/src/api/api_msg.c:1713-1725 | accepted bytes move offset, vector_off, vector and vector_cnt to the next place |
| `Netconn.Conn.WriteRound` | src/lwip/src/api/api_msg.c:1676-1725 | the loop's body: what is sent, the error it sets, which with a full send buffer is ERR_WOULDBLOCK if and only if nothing was accepted, and whether the loop goes on |
| `Netconn.EnoughRounds` | src/lwip/src/api/api_msg.c:1676-1726 | a loop that ends has ended after one round more than the bytes and vectors left |
| `Netconn.Conn.OneRound` | src/lwip/src/api/api_msg.c:1676-1725 | each round takes the call from its state after k rounds to that after k + 1 |
| `Netconn.Conn.WriteLoop` | src/lwip/src/api/api_msg.c:1676-1726 | after any number of rounds the loop is in the state of the specified rounds |
| `Netconn.Conn.WriteTail` | src/lwip/src/api/api_msg.c:1727-1802 | whether the write is finished, and with what error; a non-blocking write with a memory error reports ERR_WOULDBLOCK if and only if nothing was accepted |
| `Netconn.Conn.Transmit` | src/lwip/src/api/api_msg.c:1676-1802 | the loop and what follows it compute the specified rounds |
| `Netconn.Conn.WriteMore` | src/lwip/src/api/api_msg.c:1639-1803 | after any number of rounds the call is in the specified state, with its tail done once the loop has ended; a timeout that has expired ends the write with ERR_WOULDBLOCK if and only if nothing was accepted; the call is over after enough rounds when its loop ends |

## Left out

- Netconn.Conn.WriteMore: the loop is stated round by round up to any given number of rounds, because it need not end; `EndsIff` says exactly when it does, and `EnoughRounds` after how many rounds.
- Netconn.Conn.WriteMore: the send buffer counts at most 65535 bytes, as without LWIP_WND_SCALE; events, PSH flags and the semaphore that wakes the caller are not modelled.
- Netconn.WriteVectorsPartly: the hand-over to the TCP/IP thread and `lwip_netconn_do_write()`'s checks of the connection's state are single branches and left out.
- VectorWrite.EveryRunIsExact: what `tcp_write()` answers is any of the results its code has; that it has no memory error for an empty length is taken from `src/lwip/src/core/tcp_out.c`.
- ThreadManager.Threads.ThreadYield: saving and restoring contexts is one step with the yield, so races between a context switch and the reuse of a stack are not covered; thread numbers, stack pages, joins and shutdown are not modelled.
- ThreadManager.Threads.CondWait: the queue of a condition is a parameter.
- ThreadManager.Threads.SemaphoreDown: waiting is "blocked until the count is positive"; the wake-up of a sleeping core belongs to the hardware layer.
- SysBoard.AnsweredOnce: what a system call computes is a parameter, and the invalidation of pages after a call is left out.
- MemoryManager.Memory.UpageLink: the entry read through an address outside user memory is a parameter, because such tables are not kernel pool pages; null directories and the clearing of frames are not modelled.
- UserPageRuns.ReachableIsSound: one core; the invalidation of other cores' TLBs is not part of the code modelled.
- LocalMail.MessagesConserved: covers runs that store fewer than 2^64 - 1 messages, after which ages wrap around.
- OutputActive.RunIsOrderly: one thread waits on a port at a time, and no port is closed while its write is in flight, which the busy communicator refuses.
- Communicators.PermissionsAccounted: one thread waits on a communicator at a time; the active's answers are parameters. A read on a virtual mailbox gives itself permission first, which is left out: the accounts are those of portals.
- Communicators.KeepsOwnBufferIff: what a buffer's address refers to is not modelled.
- CommunicatorTable.RunKeeps: event counters do not wrap.
- CommunicatorTable.CreateKeeps: creating is one step, as in `MailNode`, although `do_vmailbox_alloc()` takes the locks of the active, of the communicators and of the counters one after the other. One master core serves all these calls, one at a time (`SysBoard`), so that nothing comes between.
- CommunicatorTable.FreeKeeps: freeing is one step for the same reason.
- InputReads.FoundAfterReadsIff: only what a read does to the remote node; its other effects are remote traffic.
- MailNode.PanicReachableIff: the nodes that the actives serve are fixed. `active_aread()` notes a remote node in an input active while it reads, and leaves it there when the read fails after it was allowed, which makes later creations fail; that is stated apart in `InputReads`. Messages that a remote read keeps may be for any address.
- SyncRuns.EveryRunIsInterned: event counters do not wrap, and node numbers are below 64, as the check of the list ensures.
- Active: remote reads, latency and volume statistics and cache maintenance; `src/kernel/noc/portal.c` has the structure of `src/kernel/noc/mailbox.c` with another number of ports, which is a parameter.
- Exceptions, signals, condition variables, sleeping, the single-threaded variant, and the argument checks of system calls: only easier members.
- The rest of lwIP and the device drivers.
- Locks, bitmaps, resources and page table entries are taken to do what their names say; the hardware abstraction layer is not part of this model.
