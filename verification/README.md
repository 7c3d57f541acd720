# DripOS in Dafny

A model of the hard parts of DripOS, an x86_64 kernel written in C, with proofs of what they promise.
`dafny verify dfyconfig.toml` checks everything. The model covers four parts of the kernel.

**Memory.** `Pmm.dfy` is the bitmap frame allocator. `PageTables.dfy` holds physical memory as frames of
512 words, the hardware's page walk and access rights (sections 4.5 and 4.6 of Intel SDM volume 3A) as
the reference, and a ghost map from frame to place in the tree that says no table has two parents.
`VirtualPages.dfy` is the address arithmetic and the kernel's own translation; `Vmm.dfy` the mapping
loops; `VmmRuns.dfy` whole sequences of calls against a flat map; `VmmFork.dfy` and
`VmmTeardown.dfy` the deep copy of an address space and its undoing; `Heap.dfy` the guard-page allocator on top. Where the kernel halts because no
frame is free, a method answers `None` or `false` and states that no frame was free.

**Scheduling.** `SleepQueue.dfy` and `SleepList.dfy` are the delta list of sleepers, on values and on
linked nodes. `Contexts.dfy`, `SchedSteps.dfy`, `SchedInv.dfy`, `SchedRuns.dfy`, `SchedFutex.dfy`,
`SchedEvents.dfy`, `SchedAccounts.dfy`, `SchedSleep.dfy`, `SchedContexts.dfy` and
`SchedWaits.dfy` are a machine of any number of processors and threads whose steps are the sections under
`sched_lock` (and single accesses to event counters and futex words outside it), its invariant, and what
holds over every run. `Cyclic.dfy` is the cyclic search. `Scheduler.dfy` is the imperative kernel code,
each operation proved to take exactly one step of the machine.
`UserStack.dfy` builds the first stack of a program and reads it back.

**File system.** `EchfsChains.dfy` is the allocation table as a flat array, `EchfsDisk.dfy` the bytes that
hold it, `Echfs.dfy` the driver with its block cache, allocation and byte ranges.

**Disk.** `Ahci.dfy` is the byte layer and the commands under it, against a device that decodes them.

`Common.dfy` and `Bytes.dfy` hold shared arithmetic, little-endian words and byte patches.

Several properties one would expect turn out to hold only under a condition. Each is stated as an
if-and-only-if, with inputs on the failing side: the free-page sentinel (`Pmm.FrameAllocator.FindFreePage`,
`Pmm.SentinelMisses`), the translation of an address whose P3 slot is absent
(`VirtualPages.VirtToPhysExact`, `VirtualPages.StrayHugeExample`), a sleep of zero ticks
(`SleepQueue.InsertAddsDeadline`, `SleepQueue.ZeroHeadWraps`), the unsigned timeout test
(`SchedFutex.TimeoutExact`, `SchedFutex.TimeoutExample`), FS.base across a switch (`Contexts.SaveRestore`,
`SchedRuns.RunIsolates`), freeing a block of size zero (`Heap.KmallocThenKfree`), allocating more blocks
than are free or fewer than the file has (`EchfsChains.AllocateLength`, `EchfsChains.OverrunExample`),
reading an empty range at a block boundary (`Echfs.Volume.ReadForRange`), directory writes past the cache
(`Echfs.DirWriteCoherent`, `Echfs.StaleDirectoryExample`), odd descriptor lengths (`Ahci.PrdtExact`) and the
largest sector count (`Ahci.CommandExact`, `Ahci.FullCountExample`).

## Model

| member | source | states |
|---|---|---|
| Pmm.BitUpdates | src/mm/pmm.c:18-37 | setting or clearing bit i of a byte changes how bit i reads and no other bit |
| Pmm.MaskShifts | src/mm/pmm.c:18-37 | bit i of a byte is the one that shifting 1 left by i sets |
| Pmm.BitmapUpdates | src/mm/pmm.c:18-30 | writing one bit moves exactly that page into or out of the set of taken pages |
| Pmm.TakenPagesDetermineBitmap | src/mm/pmm.c:18-37 | two bitmaps of one length with the same taken pages hold the same bytes, so restoring the set restores the memory |
| Pmm.FewestPages | src/mm/pmm.c:145 | the page count of a size holds it, and one page fewer does not |
| Pmm.FrameAllocator.SetBit | src/mm/pmm.c:18-23 | the page becomes taken and every other page keeps its state |
| Pmm.FrameAllocator.ClearBit | src/mm/pmm.c:25-30 | the page becomes free and every other page keeps its state |
| Pmm.FrameAllocator.GetBit | src/mm/pmm.c:32-37 | reads membership in the set of taken pages |
| Pmm.FrameAllocator.constructor | src/mm/pmm.c:64-91 | after setup a page is taken exactly if it starts in no usable region at or above 1 MiB or belongs to the kernel and bitmap; the total is 4096 times the pages that start in the regions |
| Pmm.FrameAllocator.FreeRegions | src/mm/pmm.c:67-80 | the loop over the memory map frees exactly the pages that start in a usable region at or above 1 MiB and counts 4096 bytes for each |
| Pmm.RegionRange | src/mm/pmm.c:68-76 | the pages between the rounded ends of a region are exactly those that start in it, and the rounded length is their bytes |
| Pmm.UsableBytesCounted | src/mm/pmm.c:67-80 | the rounded lengths added up are the bytes of the pages, region by region |
| Pmm.PageSumCounts | src/mm/pmm.c:67-80 | when no two regions share a page that sum is the number of usable pages |
| Pmm.LowPageReserved | src/mm/pmm.c:72 | no usable region reaches page 0, so page 0 is always taken |
| Pmm.FrameAllocator.FindFreePage | src/mm/pmm.c:113-139 | the answer is the lowest free run of the length asked for; the scan halts if and only if there is no such run; the one exception, a free page 0, is characterised exactly |
| Pmm.SentinelMisses | src/mm/pmm.c:118-132 | with page 0 free the `first_page == 0` sentinel reports a run that starts one page too late: the exact failing family |
| Pmm.FrameAllocator.Claim | src/mm/pmm.c:141-163 | the pages of the lowest free run become taken and the counters move by their bytes |
| Pmm.FrameAllocator.Alloc | src/mm/pmm.c:141-163 | page-aligned address of the lowest free run; page 0 only for size 0; None exactly on exhaustion; available + used == total and their drift against the bitmap is kept |
| Pmm.FrameAllocator.Unalloc | src/mm/pmm.c:166-198 | halts exactly when the range passes the bitmap's end; otherwise exactly those pages become free and the counters move back |
| Pmm.AccountsGet | src/mm/pmm.c:141-163 | an allocation keeps the accounts: taken pages are the reserved ones plus the disjoint union of live blocks, and the counters agree |
| Pmm.AccountsPut | src/mm/pmm.c:166-198 | a free of a live block keeps the accounts |
| Pmm.ServeFrames | src/mm/pmm.c:141-198 | over every run of allocations and matching frees the accounts hold in every state |
| PageTables.LeafWrite | src/mm/vmm.c:212-297 | writing a P1 slot changes the one page it stands for and keeps the table tree unaliased |
| PageTables.InstallTable | src/mm/vmm.c:119-125 | hanging a zeroed fresh table under an absent slot changes no translation of any address space and keeps the tree unaliased |
| PageTables.SplitTable | src/mm/vmm.c:127-143 | replacing a 2 MiB entry by a table of 512 4 KiB entries changes no translation of any address space, the other 511 pages included |
| PageTables.HangKeepsTree | src/mm/vmm.c:119-143 | a fresh frame hung into the tree keeps it a tree: no table has two parents |
| PageTables.DataWrite | src/mm/vmm.c:376-379 | overwriting a frame that holds no table is invisible to every address space |
| PageTables.AddRoot | src/mm/vmm.c:335-351 | a fresh root whose upper slots name shared tables is a new address space, and the others do not notice |
| PageTables.GrantedByLeaf | src/mm/vmm.c:119-143 | every table entry the kernel makes lets writes and user accesses through, so what the processor grants for a page is what the page's own entry allows |
| VirtualPages.OffsetsRoundTrip | src/mm/vmm.c:51-73 | splitting an address into table offsets and joining them again are inverse on 48-bit page addresses |
| VirtualPages.OffsetSteps | src/mm/vmm.c:51-60 | the next page, 2 MiB, 1 GiB and 512 GiB move the first, second, third and fourth table index on by one |
| VirtualPages.VirtToPhysExact | src/mm/vmm.c:83-109 | virt_to_phys agrees with the hardware walk at an address if and only if the P3 slot is present or the word of frame 0 read in its place has no 2 MiB bit |
| VirtualPages.StrayHugeExample | src/mm/vmm.c:92-97 | a concrete memory in which an unmapped address is given a translation |
| VirtualPages.WantedDoes | src/mm/vmm.c:212-297 | what the flat map wants of a page is what the calls promise: mapped pages keep what they had or get frame and permissions, remapped ones get the frame and the permissions with the present bit added, unmapped ones are gone |
| VirtualPages.PageWrite | src/mm/vmm.c:228-236 | rewriting the P1 slot of a page changes that page, no other page of the space and no lower-half page of another space |
| VirtualPages.PageStep | src/mm/vmm.c:212-297 | one more page of a run: the flat map is updated one page further |
| Vmm.HangIsGrown | src/mm/vmm.c:119-143 | making a table is growth: translations, other roots' slots and freedom from 2 MiB entries are kept |
| Vmm.RunGrows | src/mm/vmm.c:182-209 | making the tables for the next page leaves the run where it was |
| Vmm.RunWrites | src/mm/vmm.c:212-297 | writing the next slot takes the run one page further |
| Vmm.RunDoes | src/mm/vmm.c:212-297 | a finished run did to each of its pages what the call promises and nothing to any other page |
| Vmm.PageMapper.NewFrame | src/mm/vmm.c:119-125 | a frame that was free and is not 0, or exhaustion |
| Vmm.PageMapper.EnsureTable | src/mm/vmm.c:119-125 | the slot then names a table; a new one has the present, write and user bits and is the only table added; nothing translates differently; fails only with no frame left |
| Vmm.PageMapper.RemapTo4K | src/mm/vmm.c:127-143 | the 2 MiB entry becomes a table with the present, write and user bits, whose entry k has frame plus k and the old flags; nothing translates differently |
| Vmm.PageMapper.GetP2 | src/mm/vmm.c:182-195 | the P2 table of the page exists afterwards; nothing translates differently |
| Vmm.PageMapper.GetP1 | src/mm/vmm.c:194-205 | the slot then names a P1 table, split out of a 2 MiB entry if there was one; nothing translates differently |
| Vmm.PageMapper.GetTable | src/mm/vmm.c:182-209 | the P1 table of the page exists afterwards; nothing translates differently |
| Vmm.PageMapper.MapPages | src/mm/vmm.c:212-242 | absent pages of the run get frame phys/4096 + k and exactly the permissions given, present ones stay, all others survive; returns 1 iff some page was present; halts only with no frame left |
| Vmm.PageMapper.RemapPages | src/mm/vmm.c:245-269 | page k of the run gets frame phys/4096 + k with the present bit set and every other bit as in the permissions; all other translations survive; returns 0 |
| Vmm.PageMapper.UnmapPages | src/mm/vmm.c:272-297 | every page of the run is absent afterwards, all other translations survive; returns 1 iff some page was absent |
| VmmRuns.RunIsCall | src/mm/vmm.c:212-297 | a finished page operation is one update of the flat map from virtual page to frame and flags |
| VmmRuns.LastCallDecides | src/mm/vmm.c:212-297 | after any calls a page is as the last call on it promises, frame and permission bits included |
| VmmRuns.UntouchedPage | src/mm/vmm.c:212-297 | a page no call touches is as it was |
| VmmRuns.ViewTranslates | src/mm/vmm.c:83-109 | virt_to_phys reads the flat map at an address if and only if it does not stray into frame 0 there |
| VmmRuns.CleanTranslates | src/mm/vmm.c:83-109 | over any calls, if no word of frame 0 looks like a 2 MiB entry before them, virt_to_phys agrees with the flat map at every address |
| VmmRuns.Perform | src/mm/vmm.c:212-297 | one call refines its update of the flat map, return value included; other address spaces keep their lower halves and frames without tables their contents |
| VmmRuns.PerformAll | src/mm/vmm.c:83-297 | every sequence of map, remap and unmap calls leaves the tree translating as the flat map updated call by call, each page as the last call on it promises and granted the access its own entry allows, each return value is the flat map's, virt_to_phys agrees with that map at an address if and only if it does not stray into frame 0, and other address spaces keep their lower halves |
| VmmFork.CopyPage | src/mm/vmm.c:373-384 | one page copied: same flags, equal contents, into a frame that was free |
| VmmFork.CopyStep | src/mm/vmm.c:373-384 | the copied page takes the fork one page further and disturbs nothing copied before |
| VmmFork.AbsentSubtree | src/mm/vmm.c:360-372 | an absent entry leaves every page under it unmapped, so skipping it is right |
| VmmFork.ForkP1 | src/mm/vmm.c:370-386 | the loop over one P1 table copies exactly its pages |
| VmmFork.ForkP2 | src/mm/vmm.c:366-388 | the loop over one P2 table |
| VmmFork.ForkP3 | src/mm/vmm.c:362-390 | the loop over one P3 table |
| VmmFork.ForkHigherHalf | src/mm/vmm.c:335-351 | a new root with a blank lower half and the parent's 256 upper slots |
| VmmFork.ForkStateIsFork | src/mm/vmm.c:353-396 | the finished copy translates exactly the parent's lower pages with the same flags, each to a frame of its own that was free, with equal contents; the upper half translates as the parent's; the parent is unchanged |
| VmmFork.SharedSlot | src/mm/vmm.c:344-346 | two roots with a slot in common translate everything under it alike |
| VmmFork.Fork | src/mm/vmm.c:353-396 | the child is a fork of the parent in that sense, or no frame is left |
| VmmTeardown.HoldingsClose | src/mm/vmm.c:456-492 | a place's holdings are those of the places under it and its own table: what each loop level adds |
| VmmTeardown.StartUnder | src/mm/vmm.c:456-492 | tables that start inside the pages of a place lie at or under it, so the walk meets every table |
| VmmTeardown.FreeFrame | src/mm/vmm.c:477 | one taken page becomes free |
| VmmTeardown.TearP1 | src/mm/vmm.c:472-480 | frees the pages of one P1 table and the table, each once |
| VmmTeardown.TearP2 | src/mm/vmm.c:468-483 | frees everything under one P2 table and the table |
| VmmTeardown.TearP3 | src/mm/vmm.c:464-486 | frees everything under one P3 table and the table |
| VmmTeardown.AllHoldings | src/mm/vmm.c:456-492 | data frames, lower tables and the root are everything an address space holds |
| VmmTeardown.ForgetSpace | src/mm/vmm.c:456-492 | dropping the space leaves the tables of the others well formed |
| VmmTeardown.Teardown | src/mm/vmm.c:456-492 | exactly the data frames, the tables and the root of the space become free, each once; memory and other spaces are untouched |
| VmmTeardown.ForkIsTearReady | src/mm/vmm.c:353-396 | a fork's child meets what teardown asks for |
| VmmTeardown.ForkThenTeardown | src/mm/vmm.c:353-396 | fork then teardown of the child restores the bitmap bytes, both counters and all contents |
| Heap.DirectTranslation | src/mm/vmm.c:83-109 | a direct-map page is translated by the kernel as by the hardware |
| Heap.DirectRun | src/mm/vmm.c:494-504 | taking one page out of the direct map, or putting it back, changes that page alone |
| Heap.LastPageFound | src/klibc/stdlib.c:50-52 | the page arithmetic of kfree lands on the last page that kmalloc unmapped |
| Heap.FreeRunApart | src/klibc/stdlib.c:12-34 | a free run of frames lies clear of every live block |
| Heap.GuardsRemove | src/klibc/stdlib.c:47-55 | the guards of a block are no other block's, so remapping them uncovers nobody else |
| Heap.BlockAdded | src/klibc/stdlib.c:12-34 | a new block keeps the heap in order |
| Heap.BlockRemoved | src/klibc/stdlib.c:38-70 | removing a block keeps the heap in order |
| Heap.KernelHeap.UnmapDirect | src/mm/vmm.c:502-504 | the one direct-map page becomes absent and nothing else changes |
| Heap.KernelHeap.MapDirect | src/mm/vmm.c:494-496 | the one direct-map page maps its own frame again and nothing else changes |
| Heap.KernelHeap.StoreDirect | src/klibc/stdlib.c:20-21 | a kernel store through the direct map reaches that word of that frame only |
| Heap.KernelHeap.Kmalloc | src/klibc/stdlib.c:12-34 | the block is the lowest free run with room for both guards, its header holds size and signature, guards are unmapped; None exactly on exhaustion, with nothing changed |
| Heap.KernelHeap.Kfree | src/klibc/stdlib.c:38-70 | recomputes and restores exactly the guards and frames of the block; panics if and only if the address is unaligned or the block was of size 0 |
| Heap.KernelHeap.Poke | src/klibc/stdlib.c:12-34 | a write to the payload changes neither headers nor mappings |
| Heap.HeapGuarantees | src/klibc/stdlib.c:12-70 | in every state the heap reaches: payloads mapped, an unmapped page before and after each, blocks disjoint, headers holding size plus 0x2000 and the signature, every free frame mapped in the direct map |
| Heap.BlockByte | src/klibc/stdlib.c:12-34 | byte by byte: every byte asked for is backed by its own physical byte, writable and not for user code, and every address in the page before the block and in the page after it faults |
| Heap.KmallocThenKfree | src/klibc/stdlib.c:12-70 | a free right after restores bitmap bytes, counters and every translation; it succeeds if and only if the size is at least 1 |
| Heap.Serve | src/klibc/stdlib.c:12-70 | any run of allocations, frees of held blocks and payload writes keeps the heap in order |
| Heap.Boot | src/mm/pmm.c:93-101 | the blank root and the direct map set up at boot start the heap in order |
| SleepQueue.DeadlinesSorted | src/proc/sleep_queue.c:17-55 | the delta list keeps deadlines in order |
| SleepQueue.InsertSplices | src/proc/sleep_queue.c:17-55 | an insertion splices in one deadline, the given ticks from now, and moves no other |
| SleepQueue.InsertAddsDeadline | src/proc/sleep_queue.c:17-55 | the multiset of deadlines gains exactly the new one; the head stays positive if and only if the sleep is of at least one tick |
| SleepQueue.TickWakesTheDue | src/proc/sleep_queue.c:70-91 | a counted tick wakes exactly the sleepers due at it and keeps all other deadlines |
| SleepQueue.ZeroHeadWraps | src/proc/sleep_queue.c:73 | a sleep of zero at the head wraps: nobody wakes and every deadline moves out by 2^64 ticks |
| SleepQueue.AdvanceKeepsLater | src/proc/sleep_queue.c:69-92 | after n counted ticks the sleepers left are those due later |
| SleepQueue.AdvanceWakesAllDue | src/proc/sleep_queue.c:69-92 | a thread is woken within n counted ticks if and only if it is due by then |
| SleepQueue.StepRefines | src/proc/sleep_queue.c:57-103 | each sleep and each timer tick, lock busy or free, is the step of a plain map of alarms; a tick that gets the lock wakes exactly the threads whose alarm has come |
| SleepQueue.RunRefines | src/proc/sleep_queue.c:57-103 | over every run the delta list stands for the alarms, ticks delivered are ticks counted plus ticks lagged, and no tick is lost |
| SleepList.Chain | src/klibc/linked_list.h:8-12 | the doubly linked list gains the node after the given one, linked both ways |
| SleepList.UnchainFirst | src/klibc/linked_list.h:4-6 | the first sleeper leaves the list, which stays linked both ways |
| SleepList.InsertedAt | src/proc/sleep_queue.c:23-40 | the walk stops exactly where the specification inserts |
| SleepList.SetTimes | src/proc/sleep_queue.c:47-53 | the new node's relative time and the next node's less that |
| SleepList.SleepList.FindPlace | src/proc/sleep_queue.c:20-40 | all sleepers passed are due before the new one and the next is not; no underflow |
| SleepList.SleepList.Insert | src/proc/sleep_queue.c:17-55 | the linked list then holds the inserted queue |
| SleepList.SleepList.DropExpired | src/proc/sleep_queue.c:74-90 | unlinks exactly the sleepers at the head with nothing left, and reports them |
| SleepList.SleepList.CountTick | src/proc/sleep_queue.c:70-91 | the linked list then holds the ticked queue |
| SleepList.SleepList.Advance | src/proc/sleep_queue.c:57-94 | the linked list then holds the advanced queue, and the threads woken are the specification's |
| Contexts.SaveRestore | src/proc/scheduler.c:520-555 | saving and restoring put each register, stack and floating-point word in its own place and leave the rest of the record alone; restoring what was saved gives back the whole context if and only if FS.base on the processor was the thread's own |
| Cyclic.Next | src/proc/scheduler.c:446-476 | the first flagged entry in cyclic order, None if and only if none is flagged |
| Cyclic.Hop | src/proc/scheduler.c:575-616 | one more hop of a scan goes further with nothing flagged between, or has come around to its first entry |
| SchedInv.Departs | src/proc/scheduler.c:520-571 | a thread that leaves its processor leaves the table in order |
| SchedInv.Arrives | src/proc/scheduler.c:592-624 | a picked thread is ready or was waiting, runs nowhere and is nobody's idle thread, as the kernel asserts; running it restores the invariant |
| SchedInv.Idles | src/proc/scheduler.c:578-591 | falling to the idle thread restores the invariant |
| SchedInv.ScheduleKeeps | src/proc/scheduler.c:516-701 | schedule restores the invariant |
| SchedInv.TickTransit | src/proc/scheduler.c:520-571 | a tick on any processor puts its thread away in order |
| SchedInv.LeavesChanged | src/proc/event.c:7-27 | a thread that starts to wait leaves in order |
| SchedInv.SleepTransit | src/proc/sleep_queue.c:96-103 | a thread that goes to sleep is queued once and leaves in order |
| SchedInv.FutexTransit | src/proc/sched_syscalls.c:368-388 | a thread that waits for a futex is listed once and leaves in order |
| SchedInv.AdvanceTids | src/proc/sleep_queue.c:69-92 | the threads an advance wakes, followed by those it leaves, are the threads that slept |
| SchedInv.TimerKeeps | src/proc/sleep_queue.c:57-94 | every thread woken was asleep, as the kernel asserts, and the invariant is kept |
| SchedInv.StartKeeps | src/proc/scheduler.c:117-126 | a new thread takes a slot nobody knew; the invariant is kept |
| SchedInv.BootKeeps | src/proc/scheduler.c:81-92 | a processor joins with an idle thread of its own; the invariant is kept |
| SchedInv.FutexCallKeeps | src/proc/sched_syscalls.c:323-366 | the steps of a futex call that switch no thread keep the invariant |
| SchedInv.WakeReadyKeeps | src/proc/sched_syscalls.c:336-341 | the waiter found was blocked and ran nowhere; readying it keeps the invariant |
| SchedInv.WakeClearKeeps | src/proc/sched_syscalls.c:343 | emptying its place keeps the invariant |
| SchedRuns.StepKeeps | src/proc/scheduler.c:516-701 | every step of every processor keeps the invariant |
| SchedRuns.RunKeeps | src/proc/scheduler.c:516-701 | the invariant holds from power-on in every state of every run |
| SchedRuns.OneToOne | src/proc/scheduler.c:618-644 | RUNNING threads and the current threads of busy processors correspond one to one, the running flag agrees, and threads[t]->tid == t |
| SchedRuns.IdleIffNoneRunnable | src/proc/scheduler.c:573-616 | with a current thread to start from, schedule idles if and only if no thread is ready and no waiting thread's event fired or timeout expired; otherwise it takes the first such thread in cyclic order |
| SchedRuns.StepSwitches | src/proc/scheduler.c:573-682 | one thread becomes current with the context of its record, as the idle thread or as a runnable one; no other thread, processor or queue changes |
| SchedRuns.PassesCloser | src/proc/scheduler.c:453-473 | each schedule that passes over a thread that can run is strictly closer to it in cyclic order |
| SchedRuns.DistanceShrinks | src/proc/scheduler.c:453-473 | turns taken by a processor use up the cyclic distance to a thread that stays able to run |
| SchedRuns.ReadyUntilRun | src/proc/scheduler.c:516-701 | a ready thread stays ready until a processor runs it |
| SchedRuns.BoundedBypass | src/proc/scheduler.c:453-473 | over any run in which a processor gets as many turns as the table has slots, and the table does not grow, a ready thread is run |
| SchedRuns.TurnsPassOver | src/proc/scheduler.c:453-473 | over as many turns no thread, ready or waiting with a signal there or its timeout expired, stays able to run: it is run unless its signals go to others |
| SchedRuns.LeaverKeepsContext | src/proc/scheduler.c:520-571 | being switched out, and perhaps straight back in, keeps everything a thread runs with except FS.base, which falls back to the recorded one |
| SchedRuns.StepIsolates | src/proc/scheduler.c:516-701 | whatever step is taken by whom, a thread that does not take it keeps its context; only being switched out resets FS.base to the recorded one |
| SchedRuns.RunKeepsContext | src/proc/scheduler.c:646-682 | between two states of a run in which a thread takes no step of its own its context stays, FS.base falling back to the recorded one exactly if it was switched out |
| SchedRuns.RunIsolates | src/proc/scheduler.c:646-682 | between any two states of a run a thread that took no step of its own has the same registers, stacks, address space and floating-point state, wherever it is resumed; FS.base too, if and only if it was not switched out or its FS.base was the recorded one |
| SchedContexts.ScheduleLoads | src/proc/scheduler.c:520-682 | register by register: after a step that schedules, the processor has each register of the record of the thread chosen in its own place, FS.base included, the record of the thread that left has what was live, and every other record is untouched |
| SchedContexts.FirstRun | src/proc/scheduler.c:117-148 | over every run the first time a processor runs a started thread it does so with the registers, stacks, address space and floating-point words the thread was made with |
| SchedContexts.GoesOnWhereItLeft | src/proc/scheduler.c:520-682 | over every run a thread that executed up to some registers has those registers wherever it is resumed, until it executes again |
| SchedContexts.FsBaseSurvives | src/proc/sched_syscalls.c:317-320 | over every run the FS.base a thread sets is in its record and on the processor wherever it is resumed, until it changes its registers itself |
| SchedFutex.WaitersBlocked | src/proc/sched_syscalls.c:323-390 | with the futex lock free every waiter is BLOCKED and stands in exactly one place |
| SchedFutex.ListsKept | src/proc/sched_syscalls.c:323-390 | no other step changes a wait list or the futex lock |
| SchedFutex.BlockTakesPlace | src/proc/sched_syscalls.c:368-388 | futex_wait takes exactly one free place, for the thread that holds the lock |
| SchedFutex.WakeFindsWaiter | src/proc/sched_syscalls.c:324-335 | futex_wake finds the lowest waiter, or nobody if and only if nobody waits |
| SchedFutex.WakeReadiesOne | src/proc/sched_syscalls.c:336-341 | exactly that waiter turns from BLOCKED to READY; no other thread changes |
| SchedFutex.WakeClearsPlace | src/proc/sched_syscalls.c:343-348 | exactly its place is emptied |
| SchedFutex.LastStored | src/proc/sched_syscalls.c:351-366 | over every run the word a futex check reads is the one stored last |
| SchedFutex.WaitersConserved | src/proc/sched_syscalls.c:323-390 | over every run waits entered less wakes delivered is the number of waiters |
| SchedFutex.ListedOnlyIfChecked | src/proc/sched_syscalls.c:352-366 | over every run a thread is listed only if, holding the lock, it saw the word equal the value it expected |
| SchedFutex.TimeoutExact | src/proc/scheduler.c:609 | the unsigned start-minus-now test agrees with "the timeout has passed" if and only if no tick has gone or the ticks gone lie between the timeout and its 64-bit complement |
| SchedFutex.TimeoutExample | src/proc/scheduler.c:609 | a wait of 100 ticks is over at the first tick |
| SchedEvents.StepCounts | src/proc/event.c:7-32 | a step moves an event's count by its trigger or its use and by nothing else, in 32 bits |
| SchedEvents.PickCounts | src/proc/scheduler.c:596-615 | schedule takes one signal from the event of the thread it resumes and touches no other event |
| SchedEvents.SignalsConserved | src/proc/event.c:7-32 | over every run an event's count is what it was plus the triggers less the signals used: no signal is lost or used twice |
| SchedEvents.WaitEndsBySignal | src/proc/scheduler.c:596-603 | a thread in await_event waits on until a processor resumes it with a signal of its event, which is used up |
| SchedWaits.AwaitEndsBySignal | src/proc/event.c:7-18 | over every run a thread that takes await_event for e waits for that e until a step that schedules resumes it and uses up one signal of that same e |
| SchedWaits.TimedWaitEnds | src/proc/event.c:20-28 | over every run a thread that takes await_event_timeout waits for the event and timeout it asked for, from the tick it asked at, until a step that schedules resumes it by a signal of that event, used up, or by the timeout test with none there; meanwhile it can run if and only if there is a signal or the test holds |
| SchedWaits.ClockCounts | src/drivers/pit.c:10-13 | over every run the clock is the number of timer ticks delivered, modulo 2^64 |
| SchedWaits.PreemptedIsReady | src/proc/scheduler.c:557-571 | a thread interrupted by the timer is READY afterwards or runs on |
| SchedAccounts.ScheduleTraces | src/proc/scheduler.c:516-701 | a thread that could be found before a switch can be found after it, and one that was not blocked is blocked by futex_wait only |
| SchedAccounts.TimerAccounts | src/proc/sleep_queue.c:57-94 | the timer readies exactly the threads it takes off the queue |
| SchedAccounts.WakeClearAccounts | src/proc/sched_syscalls.c:336-348 | the waiter taken off its list is not blocked: it cannot have blocked again while the futex lock was held |
| SchedAccounts.StepAccounts | src/proc/scheduler.c:516-701 | every step keeps every thread accounted for |
| SchedAccounts.NobodyLost | src/proc/scheduler.c:516-701 | from power-on, in every state of every run, a sleeping thread is in the sleep queue and a blocked one is on a futex list, is an idle thread or was started blocked: no thread is lost |
| SchedAccounts.NoneParked | src/proc/scheduler.c:117-126 | without threads started blocked nobody is excepted |
| SchedSleep.SleepStep | src/proc/sleep_queue.c:57-103 | of all steps of all processors only sleep_ms and the timer change the sleep queue or the lag, each as the queue's specification says |
| SchedSleep.ClockOk | src/proc/sleep_queue.c:57-94 | over every run of the machine the lag never exceeds the ticks delivered and nobody at the head of the queue is due already |
| SchedSleep.StillDue | src/proc/sleep_queue.c:57-103 | until a tick that gets the lock comes at or after its deadline, a sleeping thread is in the queue with exactly that deadline |
| SchedSleep.SleeperWakes | src/proc/sleep_queue.c:57-103 | over every run of the machine with sleeps of at least one tick, a thread that sleeps ms when delivered minus lagged ticks have been counted sleeps until the first timer tick that gets the lock at or after their sum, and that tick makes it READY |
| Scheduler.ScanOn | src/proc/scheduler.c:575-616 | the repick scan has come around, or met the next runnable thread, or has strictly less ahead |
| Scheduler.Machine.constructor | src/proc/scheduler.c:25-36 | the empty machine satisfies the invariant |
| Scheduler.Machine.PickTask | src/proc/scheduler.c:446-476 | the first eligible thread in cyclic order after the current one, or none |
| Scheduler.Machine.PutAway | src/proc/scheduler.c:520-571 | the current thread's record gets every register, stack and floating-point word that was live, each in its own place, FS.base apart, and the thread stops running; nothing else changes |
| Scheduler.Machine.Accept | src/proc/scheduler.c:596-615 | a waiting thread is made ready exactly if its event fired, which uses the event up, or its timeout is taken for expired |
| Scheduler.Machine.Repick | src/proc/scheduler.c:573-616 | terminates, at the first runnable thread or at the idle thread if there is none |
| Scheduler.Machine.Load | src/proc/scheduler.c:618-682 | with the kernel's asserts proved, marks the thread as running on the processor and loads each register of its record into its own place, FS.base included |
| Scheduler.Machine.Reschedule | src/proc/scheduler.c:516-701 | one schedule step of the machine, invariant kept |
| Scheduler.Machine.OnTick | src/proc/scheduler.c:491-504 | a tick or yield is one step of the machine; registers are saved and loaded place by place |
| Scheduler.Machine.AwaitEvent | src/proc/event.c:7-18 | with a signal of e there uses one up and goes on; otherwise the thread waits for e afterwards, its registers saved: one step of the machine |
| Scheduler.Machine.AwaitEventTimeout | src/proc/event.c:20-28 | the thread waits for e with the timeout given since the present tick, or runs on having used up a signal of e or given a timeout of zero: one step of the machine |
| Scheduler.Machine.TriggerEvent | src/proc/event.c:30-32 | one step of the machine |
| Scheduler.Machine.SleepMs | src/proc/sleep_queue.c:96-103 | one step of the machine, with the RUNNING assert proved |
| Scheduler.Machine.AdvanceTime | src/proc/sleep_queue.c:57-94 | the timer's step of the machine, ticks missed included |
| Scheduler.Machine.CountTick | src/proc/sleep_queue.c:70-91 | wakes the sleepers that reach zero, in order |
| Scheduler.Machine.AddTid | src/proc/process_management.c:32-55 | the first empty slot, or a table ten longer |
| Scheduler.Machine.StartThread | src/proc/scheduler.c:117-126 | one step of the machine, for a thread made READY or BLOCKED; the thread is stored with its own slot number |
| Scheduler.Machine.StartCpu | src/proc/scheduler.c:81-92 | one step of the machine: a processor with no thread yet and the given thread as its idle thread |
| Scheduler.Machine.SetFsBase | src/proc/sched_syscalls.c:317-320 | one step of the machine |
| Scheduler.Machine.FutexCheck | src/proc/sched_syscalls.c:351-366 | takes the lock exactly if the word equals the value expected, else changes nothing |
| Scheduler.Machine.FutexEnqueue | src/proc/sched_syscalls.c:368-390 | one step of the machine: listed, blocked and switched away |
| Scheduler.Machine.FutexFind | src/proc/sched_syscalls.c:323-335 | one step of the machine: the lowest waiter, if any |
| Scheduler.Machine.FutexReady | src/proc/sched_syscalls.c:336-341 | one step of the machine |
| Scheduler.Machine.FutexClear | src/proc/sched_syscalls.c:343-348 | one step of the machine |
| UserStack.OffsetsTile | src/proc/scheduler.c:256-279 | the copied strings tile the space below the top: no two overlap and none leaves it |
| UserStack.StaysAligned | src/proc/scheduler.c:279-287 | for every parity of the arguments the number of words is even, so the stack pointer is a multiple of 16 |
| UserStack.PointersRead | src/proc/scheduler.c:304-314 | each pushed pointer leads to its string, terminator included |
| UserStack.ReadsBack | src/proc/scheduler.c:239-331 | a reader after section 3.4.1 of the System V AMD64 ABI recovers exactly argv, envp and auxv |
| UserStack.CopyText | src/klibc/string.c:11-16 | writes the string and its terminator and nothing else |
| UserStack.PushWord | src/proc/scheduler.c:183-187 | moves down eight bytes and writes the word there, little-endian, and nothing else |
| UserStack.CopyTexts | src/proc/scheduler.c:256-278 | the strings lie packed below the top and the offsets say where each begins |
| UserStack.PushAux | src/proc/scheduler.c:288-297 | the pairs are pushed last one first, value above type |
| UserStack.PushPointers | src/proc/scheduler.c:301-319 | the pointers are pushed last one first |
| UserStack.PushWords | src/proc/scheduler.c:282-322 | the words of the stack in the order the ABI asks for, padding included |
| UserStack.BuildStack | src/proc/scheduler.c:239-331 | with these registers a program reads its arguments back, rsi and rdx point to argv and auxv, the final alignment assert holds, and nothing below the stack pointer is written |
| Bytes.LittleEndian | src/proc/scheduler.c:183-187 | the eight bytes of a word in memory, low byte first |
| Bytes.DecodeWord | src/fs/filesystems/echfs.c:191-199 | reading a word weighs each byte by its place |
| EchfsChains.ChainAcyclic | src/fs/filesystems/echfs.c:369-379 | a chain that ends has no cycle |
| EchfsChains.ChainUnique | src/fs/filesystems/echfs.c:369-379 | a starting block has one chain |
| EchfsChains.LinkExtends | src/fs/filesystems/echfs.c:381-386 | a round links exactly one block to the end of the chain |
| EchfsChains.RoundKeeps | src/fs/filesystems/echfs.c:381-386 | one round keeps every file's chain terminated, apart from the others and behind the reserved blocks |
| EchfsChains.AllocateExtends | src/fs/filesystems/echfs.c:369-387 | with enough free blocks the chain reaches exactly the length asked for, old chain as prefix, free blocks only; all other files keep their chains |
| EchfsChains.TwoRounds | src/fs/filesystems/echfs.c:212-220 | with nothing free a round links to block 0 and the round after undoes it, because a pointer to 0 reads as free |
| EchfsChains.AllocateOverruns | src/fs/filesystems/echfs.c:381-386 | asked for more than is free, the code takes all free blocks and then adds and removes block 0 in turn |
| EchfsChains.AllocateExact | src/fs/filesystems/echfs.c:369-387 | n rounds give the file n more blocks, none of them reserved, if and only if enough blocks are free |
| EchfsChains.GrownIsChain | src/fs/filesystems/echfs.c:369-387 | which chain the file has after any number of rounds |
| EchfsChains.AllocateLength | src/fs/filesystems/echfs.c:369-387 | asked for a total length the file gets exactly that length without a reserved block if and only if the target is no smaller than its chain and enough blocks are free; a smaller target wraps to a huge round count |
| EchfsChains.OverrunExample | src/fs/filesystems/echfs.c:381-386 | on a full volume a file of two blocks gets block 0, asked for three or for one |
| EchfsDisk.EntryAddress | src/fs/filesystems/echfs.c:191-199 | entries through table blocks are one flat array of 8-byte words behind the first 16 blocks |
| EchfsDisk.TableFits | src/fs/filesystems/echfs.c:62-70 | the table ends before the main directory, and both fit the volume |
| EchfsDisk.EntryInBlock | src/fs/filesystems/echfs.c:191-199 | reading an entry through its block reads the flat array |
| EchfsDisk.EntryThroughBlock | src/fs/filesystems/echfs.c:202-210 | writing an entry through its block is a patch of the flat array |
| EchfsDisk.EntryWritten | src/fs/filesystems/echfs.c:202-210 | exactly one entry of the table changes |
| EchfsDisk.EntryElsewhere | src/fs/filesystems/echfs.c:202-210 | no block outside the table changes |
| EchfsDisk.BlockWritten | src/fs/filesystems/echfs.c:117-134 | writing a block changes that block and no other |
| EchfsDisk.TableKept | src/fs/filesystems/echfs.c:117-134 | writing a block behind the table leaves the table alone |
| EchfsDisk.StoredElsewhere | src/fs/filesystems/echfs.c:547-579 | writing along a list of blocks leaves every other block, and the table, alone |
| EchfsDisk.StoredContents | src/fs/filesystems/echfs.c:547-579 | blocks written without repetition then hold exactly the buffer |
| EchfsDisk.ContentsAt | src/fs/filesystems/echfs.c:425-463 | block i of a chain gives the contents from i blocks on, straight off the disk |
| Echfs.WriteCoherent | src/fs/filesystems/echfs.c:117-134 | a block write keeps the cache equal to the disk |
| Echfs.DirWriteCoherent | src/fs/filesystems/echfs.c:164-173 | a directory-entry write keeps the cache coherent if and only if the entry repeats every byte it is written over in a cached block, and so whenever the main directory is not cached |
| Echfs.StaleDirectoryExample | src/fs/filesystems/echfs.c:164-173 | a concrete volume whose cached directory block is stale after an entry is written |
| Echfs.DirEntryElsewhere | src/fs/filesystems/echfs.c:164-173 | a directory entry changes blocks of the main directory only |
| Echfs.DirEntryWritten | src/fs/filesystems/echfs.c:164-173 | the 256 bytes at the start of the main directory plus 256 times the entry number become the entry, all other bytes and so every other entry stay |
| Echfs.RangeFits | src/fs/filesystems/echfs.c:425-431 | the rounding covers the range with less than a block to spare, never leaves the buffer, and lies inside the chain exactly if the range does |
| Echfs.EmptyBuffer | src/fs/filesystems/echfs.c:428-432 | the block buffer is empty if and only if the range is empty and at a block boundary |
| Echfs.BlocksRead | src/fs/filesystems/echfs.c:466-478 | what is cut out of the blocks read is the range of the file |
| Echfs.RangeWritten | src/fs/filesystems/echfs.c:582-599 | what is written back changes the range of the file and nothing else of it |
| Echfs.StoredRun | src/fs/filesystems/echfs.c:547-579 | writing over part of a file leaves its chain, the table and all other blocks alone |
| Echfs.Volume.constructor | src/fs/filesystems/echfs.c:62-77 | an empty cache is coherent |
| Echfs.Volume.ReadBlock | src/fs/filesystems/echfs.c:87-112 | a cached read gives the bytes of the disk at the block's place |
| Echfs.Volume.WriteBlock | src/fs/filesystems/echfs.c:117-134 | exactly the bytes at the block's place change, on disk and in the cache |
| Echfs.Volume.WriteDirEntry | src/fs/filesystems/echfs.c:164-173 | exactly the 256 bytes at (16 + table blocks) * block size + 256 * e become the entry; all other bytes and all other entries stay; the cache stays coherent |
| Echfs.Volume.GetEntry | src/fs/filesystems/echfs.c:191-199 | the word at byte 16 * block size + 8 * b of the disk, the entry of the flat table |
| Echfs.Volume.SetEntry | src/fs/filesystems/echfs.c:202-210 | exactly the eight bytes at 16 * block size + 8 * b change |
| Echfs.Volume.FindFreeBlock | src/fs/filesystems/echfs.c:212-220 | the lowest block whose entry is zero, or 0 if there is none |
| Echfs.Volume.ChainEnd | src/fs/filesystems/echfs.c:369-379 | the length and last block of the chain; terminates on every chain |
| Echfs.Volume.Grow | src/fs/filesystems/echfs.c:381-386 | one round of the loop on the flat table |
| Echfs.Volume.AllocateBlocks | src/fs/filesystems/echfs.c:369-387 | the table becomes the extended one, with the round count taken modulo 2^64 as in the code; no block outside the table changes |
| Echfs.Volume.ExtendFile | src/fs/filesystems/echfs.c:369-387 | on a file system in order the chain afterwards has the old one as prefix; it has the length asked for without a reserved block if and only if the target is no smaller than the old chain and enough blocks are free, and then the file system stays in order |
| Echfs.Volume.SeekBlock | src/fs/filesystems/echfs.c:435-443 | the n-th block of the chain, or the end mark if and only if the chain is shorter |
| Echfs.Volume.ReadBlocksForRange | src/fs/filesystems/echfs.c:425-463 | the whole blocks around the range if and only if the chain holds them; otherwise refused, or a panic when the buffer to be freed is empty |
| Echfs.Volume.ReadForRange | src/fs/filesystems/echfs.c:466-479 | exactly the bytes of the range; refused if and only if the chain does not hold them; an empty range at a block boundary panics in kfree |
| Echfs.Volume.WriteBlocksForRange | src/fs/filesystems/echfs.c:547-579 | stores the buffer along the chain; fails if and only if the chain is too short, having written exactly the blocks there were |
| Echfs.Volume.WriteForRange | src/fs/filesystems/echfs.c:582-600 | the range becomes the data, the rest of the file, every block outside the chain and the table stay; a chain too short is refused before anything is written; an empty range at a block boundary panics with nothing written |
| Echfs.Volume.WriteThenRead | src/fs/filesystems/echfs.c:466-600 | reading after writing returns what was written |
| Echfs.Volume.Serve | src/fs/filesystems/echfs.c:87-210 | over every run of block reads and writes, table updates and directory-entry writes the cached volume answers and ends like a plain disk |
| Ahci.PrdtExact | src/drivers/pci_drivers/ahci.h:59 | the byte-count field holds length minus one if and only if the length is even |
| Ahci.DescribeExact | src/drivers/pci_drivers/ahci.c:302-314 | address and length survive the descriptor |
| Ahci.TiledGathers | src/drivers/pci_drivers/ahci.c:700-714 | pieces that tile a buffer read as the buffer |
| Ahci.TiledScatters | src/drivers/pci_drivers/ahci.c:700-714 | pieces that tile a buffer are written as the buffer |
| Ahci.CommandExact | src/drivers/pci_drivers/ahci.c:681-698 | the device understands count and address as meant if and only if they are within the command's reach |
| Ahci.FullCountExample | src/drivers/pci_drivers/ahci.c:692-698 | 0xffff sectors are sent as a request for 0x10000 |
| Ahci.TransferExact | src/drivers/pci_drivers/ahci.c:651-749 | addressable sectors move as one block between disk and buffer |
| Ahci.TransferRefused | src/drivers/pci_drivers/ahci.c:719-749 | a command past the end of the disk is refused |
| Ahci.Rewritten | src/drivers/pci_drivers/ahci.c:622-640 | reading the outer sectors, patching and writing all of them changes the range alone |
| Ahci.RangeSectors | src/drivers/pci_drivers/ahci.c:584-587 | the sectors cover the range with less than a sector to spare and lie on the disk if the range does |
| Ahci.Port.FillPrdts | src/drivers/pci_drivers/ahci.c:700-714 | the descriptors tile the buffer with no gap or overlap in pieces of at most 4 MiB |
| Ahci.Port.IoSectors | src/drivers/pci_drivers/ahci.c:651-749 | an addressable transfer moves exactly the sectors asked for; a fault is returned as it is and a command past the end of the disk as error 2, with disk and memory untouched |
| Ahci.Port.ReadBytes | src/drivers/pci_drivers/ahci.c:583-609 | returns exactly the bytes of the range; error 5 for more than 0xffff sectors, 6 for none, otherwise the fault of the transfer; 0 only without a fault |
| Ahci.Port.Rewrite | src/drivers/pci_drivers/ahci.c:622-640 | read-modify-write over the sectors changes the range alone; 0 only if no transfer had a fault, otherwise the fault of the first transfer that had one, with the disk untouched |
| Ahci.Port.WriteBytes | src/drivers/pci_drivers/ahci.c:611-649 | exactly the bytes of the range change; error 5 for more than 0xffff sectors, 6 for none; 0 only if no transfer had a fault, otherwise the fault of the first transfer that had one, with the disk untouched |

## Left out

- Locks, interrupts, IPIs, TLB invalidation and control registers appear only through their effect: one step per section under `sched_lock`, a lock held across steps for futexes.
- No-execute bits, 1 GiB pages, accessed and dirty bits.
- `vmm_set_pat_pages`, `range_mapped`, `is_mapped_in_userspace` and `range_mapped_in_userspace`.
- Pmm.FrameAllocator.constructor: takes the size of the bitmap and the kernel's page range, which the code computes from linker symbols and the last entry of the memory map.
- Pmm.FrameAllocator.Unalloc: the code checks neither that the pages were taken nor that the counters stay non-negative, and the contract says so.
- Vmm.PageMapper.MapPages: permissions of 12 bits and runs within one canonical half.
- Vmm.PageMapper.RemapPages: permissions of 12 bits and runs within one canonical half.
- Vmm.PageMapper.UnmapPages: runs within one canonical half.
- VmmFork.Fork: for lower halves made of 4 KiB pages in frames that are taken, which is what user mappings are; the code copies a 2 MiB entry as if it were a table.
- VmmTeardown.Teardown: for address spaces whose frames serve one page each; the code frees a shared frame twice.
- VmmTeardown.ForkThenTeardown: for the same lower halves as `Fork`.
- Heap.Boot: leaves out the slot 511 that boot copies from the bootloader's root, whose tables the frame allocator does not know.
- Heap.KernelHeap.Kfree: an aligned address is one that kmalloc returned and that is still live; what the signature check does with any other address is not modelled.
- Sizes are unbounded integers: no wrap-around of `size + 0x2000`, `seek + count` or `start + count` in 64 bits.
- `unmap_alloc`, `remap_alloc`, `kcalloc` and `krealloc`: only easy additions to `kmalloc` and `kfree`.
- SleepQueue.StepRefines: for sleeps of at least one tick; `ZeroHeadWraps` says what a sleep of zero does.
- SleepQueue.RunRefines: for sleeps of at least one tick, on the queue alone; `SchedSleep.SleeperWakes` is the same over runs of the whole machine.
- SchedSleep.SleeperWakes: for runs whose sleeps are of at least one tick.
- Killing threads, the request manager, `execve`, processes and their thread lists: a killed thread's sleep node and `cpu` field do not stay consistent in the code.
- SchedAccounts.NobodyLost: threads started BLOCKED are excepted by name (`ParkedBy`); threads that the request manager or the interrupt code set BLOCKED while they run, and the request manager's later READY, are outside the machine.
- Time stamps, debug registers and idle statistics of `schedule`.
- SchedSteps.Before: events are assumed stable during one scan, and each check of an event with its decrement is one step.
- Scheduler.Machine.AwaitEvent: the check of the event and its decrement are one step.
- Scheduler.Machine.StartThread: a thread starts READY or BLOCKED, the two states in which the kernel starts threads.
- Scheduler.Machine.AdvanceTime: works on the queue's contents; the linked list itself is `SleepList.SleepList.Advance`.
- Scheduler.Machine.FutexCheck: the hash map of wait lists is a map; its own chaining is not modelled.
- UserStack.BuildStack: takes the stack's memory as one array and needs room for the data, which the code does not check; `add_argv`, `add_env` and `add_auxv` are not modelled.
- Echfs.Volume.ReadBlock: reads stay outside the main directory, as all callers' do; block sizes are multiples of 8.
- `echfs_write`, path lookup, directory entries as such and their cache.
- Ahci.Port.IoSectors: command slots, waiting and the device's own errors are a parameter, a failing command moves nothing, and what a request outside the command's reach does is left open; sector sizes are even.
- Ahci.Port.ReadBytes: the DMA buffer is handed in instead of being allocated and freed.
- Ahci.Port.WriteBytes: the DMA buffer is handed in instead of being allocated and freed.
- AHCI set-up, identify, ports and registers.
- Pipes, file descriptors, IPC, drivers other than the above, ELF loading, ACPI, the terminal and all logging.
