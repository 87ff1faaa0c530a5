# SudoOS-Plus: verified models of the kernel's hardest parts

SudoOS-Plus is a Rust kernel for RISC-V and LoongArch. This project models the
parts of it whose correctness rests on an invariant that spans several
functions, and proves those invariants in Dafny. `dafny verify dfyconfig.toml`
checks everything.

Concurrent parts are step systems: a `State`, a `Step` for each atomic
operation, locked region, or check-and-enqueue on a wait queue, a guard
`Enabled` and a transition `Do`. Any number of CPUs, tasks, slots, threads and
locks take part, and theorems hold for every run from an initial state. An
`assert!` or `panic!` of the kernel becomes a fault of the model, so that "it
never fires" is a theorem. Parts that update memory in place are classes and
methods with loops, each proved against a function on values; the theorems are
about those functions.

| file | part of the kernel |
|---|---|
| `CallFunction.dfy`, `CallFunctionSafety.dfy`, `CallFunctionRequests.dfy` | cross-CPU calls, IPI mailboxes, CPU bring-up states; what one caller gets |
| `PageTableModel.dfy`, `PageTableEntries.dfy`, `RuntimePageTable.dfy`, `SharedRoots.dfy` | page tables, their raw entries, and user roots that borrow the kernel's high half |
| `BlockDevice.dfy`, `BufferCache.dfy` | byte access to block devices, the write-back cache, the page cache |
| `Ext4Extents.dfy`, `Ext4Reader.dfy` | the two ext4 extent walkers and the chunk cache |
| `Lockdep.dfy` | the lock-order checker and the spin lock that calls it |
| `Pipe.dfy` | the pipe's ring buffer, its sleep/wake protocol, and what its calls return |
| `ExecStack.dfy`, `Relr.dfy` | the initial user stack, RELR relocation |
| `GroupExit.dfy`, `Processes.dfy` | group exit; threads, exec, children and zombies |
| `Initramfs.dfy` | printing and parsing newc archives |
| `Clockevent.dfy`, `Asid.dfy` | scheduler ticks; address-space IDs |
| `Machine.dfy` | bytes, words, little-endian numbers |

One `Geometry` covers both page-table forms: three plain levels as in Sv39
(section 4.4 of the RISC-V Privileged Architecture), or LoongArch's levels where
a missing child is a pointer to a permanent invalid table. Levels and width are
arbitrary. A page is the vector of its table indices.

## Model

| member | source | states |
|---|---|---|
| `CallFunctionSafety.StepKeeps` | kernel/src/call_function.rs:59-289 | one atomic operation of any task, handler or CPU keeps the nine-part protocol invariant, or stops at an assertion that only a caller can provoke |
| `CallFunctionSafety.EveryState` | kernel/src/call_function.rs:148-289 | the invariant holds in every state of every run |
| `CallFunctionSafety.ProtocolAssertionsHold` | kernel/src/call_function.rs:70-120 | in no run does an ownership, double-queue, double-complete, payload or early-release assertion fail, nor does the send inside a call |
| `CallFunctionSafety.FourPlaces` | kernel/src/call_function.rs:184-240 | each target of a READY request is in exactly one of: not yet queued, pending, in the handler's batch, completed; a CPU that is no target is in none |
| `CallFunctionSafety.NeverReusedEarly` | kernel/src/call_function.rs:59-120 | no CPU refers to a slot that is free or being filled in |
| `CallFunctionSafety.CallbackRunsExactlyOnce` | kernel/src/call_function.rs:148-240 | the payload recorded when a slot is released has run exactly once on each target in it and on no other CPU; `CallReturns` ties that payload to the arguments of the call |
| `CallFunctionSafety.CallbackNeverRunsTwice` | kernel/src/call_function.rs:215-240 | while a call is in flight its function has run at most once on any CPU, and only on targets |
| `CallFunctionSafety.NoIpiIsLost` | kernel/src/ipi.rs:71-189 | a non-empty mailbox has a doorbell pending, a sender that owes one, or a draining handler; a pending call slot has its message still under way |
| `CallFunctionSafety.RestMeansCompleted` | kernel/src/call_function.rs:261-289 | when nothing is left to do every waiting caller's targets have completed, so the wait ends |
| `CallFunctionSafety.LifecycleAdvances` | kernel/src/smp.rs:229-302 | CPU states only advance and IPI-readiness is for good, which is what makes the readiness check of a call sufficient |
| `CallFunctionRequests.CarriesItsRequest` | kernel/src/call_function.rs:148-212 | in every run, from a call that passes its checks until the task is idle again, the task carries exactly the job and the targets it was called with |
| `CallFunctionRequests.CallReturns` | kernel/src/call_function.rs:148-212 | when that call returns, its own job has run exactly once on each of its own targets and on no other CPU, under a generation no callback had run for when the call was made |
| `CallFunctionRequests.NoLateCallback` | kernel/src/call_function.rs:215-289 | after a call has returned no callback of it runs any more |
| `CallFunctionRequests.WasCalled` | kernel/src/call_function.rs:148-196 | whatever request a task carries, a call with just that job and those targets is behind it |
| `CallFunctionRequests.RecordWasCalled` | kernel/src/call_function.rs:148-196 | so is one behind every released request |
| `CallFunctionRequests.FaultCauses` | kernel/src/call_function.rs:158-189 | each assertion a caller can trip is tripped exactly by its own step and reason: a mask that is empty, contains the caller's CPU or an undiscovered one; a scan that missed a target; the last generation; a refused send; a wrong lifecycle state |
| `CallFunctionRequests.UnreadyTargets` | kernel/src/call_function.rs:175-182 | a call whose scan is over is refused if and only if a target was not IPI-ready when the scan looked at it; such a target was not ready when the call was made, and one not ready now is certain to be refused |
| `CallFunctionRequests.ScanMarks` | kernel/src/smp.rs:182-223 | the scan looks at each CPU once and marks exactly those that were ready then |
| `CallFunctionRequests.SendReturns` | kernel/src/ipi.rs:106-136 | a send that returns has put its own message into its own target's mailbox, and has rung the doorbell unless it is a reschedule that found an earlier message |
| `CallFunctionRequests.WorkCanGoOn` | kernel/src/ipi.rs:144-189 | a pending doorbell can be answered, and a handler or task that is not at rest can take its next step |
| `CallFunctionRequests.BringUp` | kernel/src/smp.rs:229-302 | a present CPU can be brought up to IPI-ready, by either way into the scheduler |
| `PageTableModel.Geometry.WalkAnswers` | kernel/src/runtime_page_table.rs:535-624 | along any chain of table pointers a walk answers by the entry at its end: a leaf, an empty entry, a leaf where a table is expected, a sentinel, anything else or no table, each with its answer or error, in both forms |
| `PageTableEntries.Sv39LeafRoundTrip` | arch/riscv64/src/memory/paging/entry.rs:73-160 | a 64-bit Sv39 leaf can be written exactly for the mappings the page table accepts, and is read back as that frame and those permissions |
| `PageTableEntries.Sv39TableRoundTrip` | arch/riscv64/src/memory/paging/entry.rs:61-71 | the same for a directory entry, which is never taken for a leaf or for no entry |
| `PageTableEntries.LaLeafRoundTrip` | arch/loongarch64/src/memory/paging/entry.rs:74-156 | the same for a LoongArch leaf, memory type included |
| `PageTableEntries.LaTableRoundTrip` | arch/loongarch64/src/memory/paging/entry.rs:189-220 | the same for a LoongArch directory entry |
| `PageTableEntries.LaInvalidIsEmpty` | arch/loongarch64/src/memory/paging/entry.rs:158-165 | the global invalid entry is read as no mapping |
| `PageTableModel.Geometry.WalkDecided` | kernel/src/runtime_page_table.rs:582-624 | a walk of any tree is decided by the single entry at which its layout ends |
| `PageTableModel.Geometry.TreeFrame` | kernel/src/runtime_page_table.rs:582-624 | only the tables of a tree matter to its translations |
| `PageTableModel.Geometry.LeafWrite` | kernel/src/runtime_page_table.rs:426-472 | writing one leaf entry changes the translation of exactly that page |
| `PageTableModel.Geometry.Attach` | kernel/src/runtime_page_table.rs:360-424 | linking a blank table changes no translation |
| `PageTableModel.Geometry.Detach` | kernel/src/runtime_page_table.rs:474-533 | unlinking a blank table changes no translation: the inverse of `Attach` |
| `PageTableModel.Geometry.Install` | kernel/src/runtime_page_table.rs:360-424 | a finished chain of any length maps exactly one page |
| `RuntimePageTables.ChainPublished` | kernel/src/runtime_page_table.rs:360-424 | the same for a chain of freshly allocated tables, with the grown tree |
| `RuntimePageTables.ChainSeen` | kernel/src/runtime_page_table.rs:360-424 | at every entry write while the chain is built a walker sees the old translations or the final ones |
| `RuntimePageTables.PhysMemory.LinkChain` | kernel/src/runtime_page_table.rs:360-424 | the bottom-up loop: succeeds exactly when every pointer can be encoded; all intermediate memories differ from the old one in private tables only |
| `RuntimePageTables.RuntimePageTable.PublishChain` | kernel/src/runtime_page_table.rs:360-424 | one binding is added, or every table is given back and memory is as before |
| `RuntimePageTables.RuntimePageTable.InstallMissingChain` | kernel/src/runtime_page_table.rs:360-424 | success exactly when enough usable frames are free, else out-of-frames or a bad entry, each with its condition; a failure restores tables, tree, owned list and allocator |
| `RuntimePageTables.RuntimePageTable.MapPage` | kernel/src/runtime_page_table.rs:313-358 | a success adds one binding to the finite map and changes no other; a failure changes none; for both forms success and every error are decided exactly by the entry where the way to the page ends and by the free frames; after every entry write a walker sees the old or the new map |
| `RuntimePageTables.RuntimePageTable.Remap` | kernel/src/runtime_page_table.rs:426-472 | one binding changes and the old frame is returned: protect leaves the old frame with the new options, replace the new frame with the new options, unmap nothing; or nothing changes, with the exact error |
| `RuntimePageTables.RuntimePageTable.LeafEntry` | kernel/src/runtime_page_table.rs:535-580 | finds a leaf exactly for the mapped pages, borrowed high-half pages of a user root included |
| `RuntimePageTables.RuntimePageTable.Translate` | kernel/src/runtime_page_table.rs:582-624 | the walk loop returns the answer of the map for every page, borrowed ones included, or the error of a damaged tree |
| `RuntimePageTables.RuntimePageTable.TableIsFilled` | kernel/src/runtime_page_table.rs:627-643 | true exactly for tables that hold nothing but the blank entry of their level |
| `RuntimePageTables.RuntimePageTable.Retire` | kernel/src/runtime_page_table.rs:474-533 | unlinking one blank owned table keeps all translations and drops it from tree and owned list |
| `RuntimePageTables.RuntimePageTable.ReclaimLevel` | kernel/src/runtime_page_table.rs:949-1013 | a round either hands over one emptied owned table or finds that it must stay |
| `RuntimePageTables.RuntimePageTable.ReclaimEmptyTables` | kernel/src/runtime_page_table.rs:474-533 | changes no translation at any entry write, moves each emptied owned table to `retired` exactly once, and stops only where nothing more can go |
| `RuntimePageTables.RuntimePageTable.RetireAllPrivateTables` | kernel/src/runtime_page_table.rs:301-311 | afterwards every managed page is unmapped and exactly the owned tables were handed over; after every entry write each managed page shows its old translation or none |
| `RuntimePageTables.RuntimePageTable.FromUserRoot` | kernel/src/runtime_page_table.rs:269-279 | a root with blank managed entries is a valid empty tree |
| `RuntimePageTables.SwapRemoveCounts` | kernel/src/runtime_page_table.rs:474-533 | taking a table out of the owned vector loses and duplicates none |
| `SharedRoots.OtherTree` | kernel/src/runtime_page_table.rs:131-181 | a step on one tree leaves every tree apart from it, and its translations, alone |
| `SharedRoots.RetiredOnce` | kernel/src/runtime_page_table.rs:474-533 | the retired list never holds a table twice |
| `SharedRoots.CopiedHalf` | kernel/src/runtime_page_table.rs:285-295 | copying the upper half of a root touches no managed translation and makes all upper entries equal |
| `SharedRoots.HighFollows` | kernel/src/runtime_page_table.rs:62-129 | between any two moments at which a user root holds the same high entries, its high half changed at most where the kernel's view of that page changed, and to the kernel's view |
| `SharedRoots.MergedViews` | kernel/src/runtime_page_table.rs:285-295 | at every look while the high half is copied, low pages and the kernel root answer as before, and high pages as before or as the kernel root |
| `SharedRoots.AddressSpaces.BorrowedView` | kernel/src/runtime_page_table.rs:62-129 | in every run each high-half page of a user root translates as the kernel does now, or not at all |
| `SharedRoots.AddressSpaces.NoDanglingEntry` | kernel/src/runtime_page_table.rs:165-181 | in every run no copied entry points at a retired or freed table page |
| `SharedRoots.AddressSpaces.MapPage` | kernel/src/runtime_page_table.rs:131-139 | one root gains one binding, under exactly the conditions of its own `map_page`; every other root keeps all translations of the pages it manages, and a user root changes in its high half only where the kernel root did, and then like it |
| `SharedRoots.AddressSpaces.Remap` | kernel/src/runtime_page_table.rs:141-163 | the same for protect, replace and unmap, with what each leaves at the page and the frame it returns |
| `SharedRoots.AddressSpaces.Reclaim` | kernel/src/runtime_page_table.rs:165-181 | keeps every translation of every root, high halves included because the kernel root keeps its own; while user roots exist the kernel's high tables stay; otherwise it stops only where nothing more can go |
| `SharedRoots.AddressSpaces.RetireAll` | kernel/src/runtime_page_table.rs:193-198 | empties one user root, page by page for a walker, and leaves the others alone |
| `SharedRoots.AddressSpaces.FreeRetired` | kernel/src/runtime_page_table.rs:233-242 | the retired pages can go back to the allocator without any root noticing |
| `SharedRoots.AddressSpaces.Synchronize` | kernel/src/runtime_page_table.rs:89-100 | afterwards user and kernel root translate every high-half page identically; after every entry write a low page shows its old translation and a high page its old one or the kernel's; exact errors |
| `SharedRoots.AddressSpaces.NewUser` | kernel/src/runtime_page_table.rs:62-81 | a new root maps nothing of its own, agrees with the kernel on the high half, and no existing root changes; exact errors |
| `SharedRoots.AddressSpaces.ReleaseEmpty` | kernel/src/runtime_page_table.rs:105-116 | succeeds exactly for an owned root without tables of its own, gives back its root page, and changes no other root |
| `BlockDevices.MemoryBlockDevice.Create` | kernel/src/block.rs:441-459 | which geometries are accepted, and the error of each other one |
| `BlockDevices.PowersOfTwo` | kernel/src/block.rs:441-459 | the block sizes that are accepted are the powers of two |
| `BlockDevices.MemoryBlockDevice.WriteBlock` | kernel/src/block.rs:494-504 | one block of the device is replaced, or nothing changes, with the exact error |
| `BlockDevices.MemoryBlockDevice.ReadBlocks` | kernel/src/block.rs:50-64 | consecutive blocks come out as one slice of the device exactly if all are inside it, and the error otherwise |
| `BlockDevices.ReadAt` | kernel/src/block.rs:540-582 | the cursor loop returns exactly the bytes of the device at any offset and length, clipped at its end, and leaves the rest of the buffer alone |
| `BlockDevices.WriteAt` | kernel/src/block.rs:201-234 | the device afterwards is the old one with the clipped input laid over it, for any alignment |
| `BlockDevices.WriteThenRead` | kernel/src/block.rs:193-234 | what was written at an offset is read back from it |
| `BufferCaches.ShownOnce` | kernel/src/block.rs:256-366 | cache and device determine the logical contents |
| `BufferCaches.WriteBack` | kernel/src/block.rs:354-357 | writing a dirty entry back keeps coherence and the logical contents |
| `BufferCaches.Refill` | kernel/src/block.rs:358-364 | giving a clean entry to another block keeps coherence, so eviction preserves the contents |
| `BufferCaches.AllClean` | kernel/src/block.rs:309-319 | with no dirty entry the device equals the logical contents |
| `BufferCaches.BufferCache.Create` | kernel/src/block.rs:256-290 | accepted block sizes, capacity of at least one, contents equal to the device |
| `BufferCaches.BufferCache.Victim` | kernel/src/block.rs:347-353 | the first entry that no other precedes: an unused one if there is any, else the one with the lowest age |
| `BufferCaches.BufferCache.GetOrFill` | kernel/src/block.rs:332-366 | the block is cached afterwards, once, with the newest age; a miss replaces the least recently used entry only; contents unchanged |
| `BufferCaches.BufferCache.Read` | kernel/src/block.rs:292-298 | returns the logical block, with the validation errors |
| `BufferCaches.BufferCache.Write` | kernel/src/block.rs:300-307 | replaces one logical block, or nothing on failure |
| `BufferCaches.BufferCache.Flush` | kernel/src/block.rs:309-319 | the device equals the logical contents and no entry is dirty |
| `BufferCaches.Run` | kernel/src/block.rs:292-366 | any sequence of reads, writes and flushes is answered as by a plain array of blocks, whatever is evicted |
| `BufferCaches.LastWriteWins` | kernel/src/block.rs:292-307 | on that array a block is what the last accepted write to it put there |
| `BufferCaches.JoinedStored` | kernel/src/block.rs:388-426 | a page that was written in blocks is read back whole |
| `BufferCaches.PageDoesNotWrap` | kernel/src/block.rs:388-426 | if the first block number of a page is a 64-bit number so are all of them, so the unchecked additions in the loops cannot overflow |
| `BufferCaches.PageCache.Create` | kernel/src/block.rs:375-386 | accepted geometries, the capacity in blocks, and the error otherwise |
| `BufferCaches.PageCache.ReadPage` | kernel/src/block.rs:388-406 | the buffer holds the logical blocks of the page in order, or the error of the first failing check; no block number of the loop overflows |
| `BufferCaches.PageCache.WritePage` | kernel/src/block.rs:408-426 | the logical blocks of the page become the slices of the input; a failure has its exact error and has stored a prefix of them |
| `Ext4Extents.ExtentRoundTrip` | kernel/src/ext4.rs:899-911 | twelve bytes written for any extent that can be expressed, written or unwritten, are read as that extent |
| `Ext4Extents.ChildRoundTrip` | kernel/src/ext4.rs:915-919 | twelve bytes written for an index entry are read as the block it points to |
| `Ext4Extents.LeafRoundTrip` | kernel/src/ext4.rs:886-912 | a node that was written as a leaf is read as exactly its extents, in order |
| `Ext4Extents.IndexRoundTrip` | kernel/src/ext4.rs:886-922 | a node that was written as an index is read as exactly its blocks, in order |
| `Ext4Extents.MalformedExactly` | kernel/src/ext4.rs:889-897 | a node is refused exactly for its size, its magic number, or counts that do not fit |
| `Ext4Extents.TreeRoundTrip` | kernel/src/ext4.rs:880-923 | for every extent tree laid out on a disk, the walk finds the extents that were meant, each of them, in order |
| `Ext4Extents.TooDeep` | kernel/src/ext4.rs:886-888 | an index with children at the sixth level is refused |
| `Ext4Extents.LastWrittenAt` | kernel/src/ext4.rs:899-911 | a byte of a file comes from the last written extent that spans it, at the extent's own place on the disk |
| `Ext4Extents.HoleAt` | kernel/src/ext4.rs:899-911 | where only unwritten extents, or none, span an offset the file has a hole |
| `Ext4Extents.WalkMeans` | kernel/src/ext4.rs:880-1003 | each of the two tree walks, where it succeeds, leaves in the buffer exactly what the flattened extents put at each file offset |
| `Ext4Extents.WholePaints` | kernel/src/ext4.rs:1014-1051 | copying an extent block by block puts its bytes, and only them, at their file offsets |
| `Ext4Extents.PartPaints` | kernel/src/ext4.rs:925-1003 | so does reading the overlap of an extent with a range |
| `Ext4Extents.WalkIsFile` | kernel/src/ext4.rs:861-1003 | on a zeroed buffer holes and unwritten extents come out as zeros |
| `Ext4Extents.PartWalks` | kernel/src/ext4.rs:925-1003 | where the whole-file walk succeeds no range inside the file fails |
| `Ext4Extents.RangeIsSlice` | kernel/src/ext4.rs:880-1003 | for every tree and every range the range walk returns that slice of the whole-file walk |
| `Ext4Extents.EntryBounds` | kernel/src/ext4.rs:1005-1051 | the overflow checks of an extent never fail for entries of a node |
| `Ext4Reader.Ext4.CopyExtentInto` | kernel/src/ext4.rs:1014-1051 | the in-place loop computes the extent copy on values, error for error |
| `Ext4Reader.Ext4.ReadExtentBytes` | kernel/src/ext4.rs:880-923 | the recursive walk in place computes the whole-file walk on values, whose decoding `TreeRoundTrip` ties to the trees that were written |
| `Ext4Reader.Ext4.ReadExtentRange` | kernel/src/ext4.rs:925-1003 | the recursive walk in place, over a window of the buffer, computes the range walk on values and leaves the rest of the buffer alone |
| `Ext4Reader.Ext4.Insert` | kernel/src/ext4.rs:531-574 | what another thread cached meanwhile wins; cached bytes equal the sum of the chunks and never exceed the capacity |
| `Ext4Reader.Ext4.ReadDataChunkCached` | kernel/src/ext4.rs:531-574 | a hit returns the cached chunk, a chunk is always that piece of the file, and there is none only if the cache is full or memory short |
| `Ext4Reader.Ext4.ReadRest` | kernel/src/ext4.rs:507-523 | without a chunk the rest of the request is walked in place over the zeros it still holds, and the whole request then holds the file |
| `Ext4Reader.Ext4.ReadInodeBytes` | kernel/src/ext4.rs:861-878 | returns the whole file exactly when the whole-file walk succeeds, with the size and feature errors |
| `Ext4Reader.Ext4.ReadInodeAt` | kernel/src/ext4.rs:471-529 | for every offset, length and cache state, and whatever other threads do to the cache meanwhile, the bytes are that slice of the whole-file walk; what is no regular file is refused; the rest of the buffer is untouched |
| `Ext4Reader.TotalWithout` | kernel/src/ext4.rs:531-574 | the byte total of the cache is additive in its chunks |
| `Lockdep.KeyOrder` | kernel/src/lockdep.rs:75-77 | for orders below 1024 the keys compare as the ranks do, and as the orders within one rank |
| `Lockdep.OrderBound` | kernel/src/lockdep.rs:75-77 | a bound on the orders makes that so for all classes if and only if it is at most 1024 |
| `Lockdep.DeclaredOrder` | kernel/src/lockdep.rs:39-58 | the order of the ranks that the compile-time assertions spell out holds between the keys |
| `Lockdep.AdmitsByRank` | kernel/src/lockdep.rs:147-193 | with such orders a lock is admitted exactly if it is not owned or held here and, consoles aside, none that is held belongs inside it |
| `Lockdep.CpuHeldLocks.BeforeLock` | kernel/src/lockdep.rs:147-193 | the scan over the held stack admits a lock exactly when it is not recursive, not owned here, and in order after every held lock |
| `Lockdep.CpuHeldLocks.AfterLock` | kernel/src/lockdep.rs:195-209 | pushes the lock, or refuses a seventeenth |
| `Lockdep.CpuHeldLocks.BeforeUnlock` | kernel/src/lockdep.rs:211-245 | pops exactly the most recent lock of that instance and class name |
| `LockOrder.StepKeeps` | kernel/src/irq_lock.rs:43-92 | every step of every CPU keeps owner words, held stacks and positions consistent |
| `LockOrder.MutualExclusion` | kernel/src/irq_lock.rs:43-92 | in no reachable state do two CPUs hold one lock |
| `LockOrder.LockTakes` | kernel/src/irq_lock.rs:43-63 | the steps of a lock on a free lock that the check admits add up to: held last on this CPU's stack, inner lock and owner word this CPU's, nothing else changed |
| `LockOrder.TryTakes` | kernel/src/irq_lock.rs:65-92 | so do those of a try-lock |
| `LockOrder.TryFails` | kernel/src/irq_lock.rs:65-92 | a try-lock on a lock that is held changes nothing |
| `LockOrder.TryOwn` | kernel/src/irq_lock.rs:65-70 | neither does one on a lock this CPU owns |
| `LockOrder.UnlockUndoes` | kernel/src/irq_lock.rs:125-132 | unlocking undoes locking |
| `LockOrder.RecursionChecksAgree` | kernel/src/irq_lock.rs:43-63 | in every reachable state the owner word and the held stack detect the same recursion |
| `LockOrder.CycleShape` | kernel/src/lockdep.rs:147-193 | every wait-for cycle has at least two CPUs, and contains a console lock or only locks of one key |
| `LockOrder.DeadlockExactly` | kernel/src/lockdep.rs:75-193 | a wait-for cycle is reachable if and only if there are two CPUs and two locks that lockdep leaves unordered |
| `LockOrder.UnorderedExactly` | kernel/src/lockdep.rs:75-193 | two locks are unordered if and only if one is a console lock or their keys are equal |
| `LockOrder.DeadlockRun` | kernel/src/irq_lock.rs:43-63 | the run that deadlocks two CPUs on such a pair although every check passes |
| `LockOrder.NoDeadlock` | kernel/src/lockdep.rs:147-193 | with distinct keys and no console lock no set of CPUs is ever deadlocked |
| `LockOrder.DeadlockIsForever` | kernel/src/irq_lock.rs:43-63 | a deadlocked set can take no step and stays deadlocked whatever the others do |
| `PipeRing.TakeFront` | kernel/src/pipe.rs:82-93 | a chunk that does not wrap is the front of the queue |
| `PipeRing.AddBack` | kernel/src/pipe.rs:140-152 | filling free cells behind the tail appends to the queue |
| `PipeRing.PipeState.Take` | kernel/src/pipe.rs:82-93 | the read loop terminates and takes the front of the queue, as much as there is room for |
| `PipeRing.PipeState.Put` | kernel/src/pipe.rs:140-152 | the write loop terminates and appends as much of the input as fits |
| `PipeProtocol.StepKeeps` | kernel/src/pipe.rs:51-223 | every step of every thread keeps the wake-up and byte-accounting invariant |
| `PipeProtocol.ReadLocked` | kernel/src/pipe.rs:51-95 | the locked region of a read on the ring buffer: it takes exactly the first bytes, as many as there are and fit; which queue and writers make it return, fail or block; and it does to queue, delivered bytes and thread what the step of the protocol does |
| `PipeProtocol.WriteLocked` | kernel/src/pipe.rs:97-158 | the same for one round of a write: exactly as many of the remaining bytes as there is room for are appended |
| `PipeProtocol.NoLostReader` | kernel/src/pipe.rs:51-95 | a reader parked although there is data or no writer has an epoch bump or a wake-up on its way |
| `PipeProtocol.NoLostWriter` | kernel/src/pipe.rs:97-158 | the same for a writer parked although there is room or no reader |
| `PipeProtocol.WakeUpArrives` | kernel/src/pipe.rs:211-223 | a thread bumps the epoch it owes, others interleave at will, it calls `wake_all`: in every state from then on whoever sleeps on that side has looked since the bump |
| `PipeProtocol.MayStillWake` | kernel/src/pipe.rs:211-223 | nothing others do between bump and `wake_all` keeps the thread from calling it, and the epoch stays ahead |
| `PipeProtocol.SleepersHaveReason` | kernel/src/pipe.rs:51-158 | with all wake-ups delivered every sleeper still has its reason, and readers and writers are never both asleep |
| `PipeProtocol.BytesConserved` | kernel/src/pipe.rs:51-158 | in every run bytes accepted are bytes delivered followed by bytes buffered, and the pipe never overflows |
| `PipeProtocol.ResultsTell` | kernel/src/pipe.rs:97-158 | an error return has moved no byte and a success tells how many it moved |
| `PipeResults.ReadStepGoesOn` | kernel/src/pipe.rs:51-95 | one step of anybody, seen from a thread inside a read: it still wants its bytes and has taken none, or its own step settles the read |
| `PipeResults.ReadReturns` | kernel/src/pipe.rs:51-95 | for every read of every run: one of its steps settles it, and it takes the first Min(queued, room) bytes and returns their number, or returns 0 at an empty queue without writers, EAGAIN at an empty queue with writers if it may not block, EINTR on a forced exit |
| `PipeResults.WriteStepGoesOn` | kernel/src/pipe.rs:97-158 | the same for a write, each round of which appends exactly Min(rest, free space) bytes |
| `PipeResults.WriteReturns` | kernel/src/pipe.rs:97-158 | for every write of every run: it has put in a prefix of its input and returns its length, short only without readers or at a full pipe; EPIPE without readers, EAGAIN at a full pipe if it may not block and EINTR on a forced exit, each with nothing put in |
| `PipeResults.EndsOpenUntilClosed` | kernel/src/pipe.rs:160-187 | in every run each end is open exactly until it is closed |
| `PipeResults.EndOfFile` | kernel/src/pipe.rs:51-58 | a reader with room is told of the end only after the writer has closed and every accepted byte was delivered |
| `PipeResults.BrokenPipe` | kernel/src/pipe.rs:97-109 | EPIPE is reported only after the reader has closed |
| `ExecStack.PushString` | kernel/src/exec.rs:1018-1035 | succeeds exactly if string and terminator fit; memory above the cursor is unchanged |
| `ExecStack.PushStrings` | kernel/src/exec.rs:871-1016 | all strings are placed, pointers in the order of the strings, exactly if they fit |
| `ExecStack.StringRead` | kernel/src/exec.rs:1018-1035 | a NUL-free string that was placed is read back |
| `ExecStack.StoredWords` | kernel/src/exec.rs:871-1016 | the serialised block is read back word by word |
| `ExecStack.WalkRecovers` | kernel/src/exec.rs:871-1016 | from block and strings a user program recovers argc, argv, envp and auxv |
| `ExecStack.AuxvInforms` | kernel/src/exec.rs:950-969 | under each number of the ABI the vector has one value: program headers, base, entry, page size, clock tick, zero identities, and the addresses of platform name, random bytes and executable name |
| `ExecStack.BuildInitialStack` | kernel/src/exec.rs:871-1066 | succeeds exactly for clean arguments that fit, with the exact error otherwise; the pointer is 16-byte aligned, all lies inside the stack, the block lies below the strings, a walk from the pointer recovers everything that was passed, the vector says under each of its ABI numbers what the program is to find there, and memory outside the stack is untouched on success and on failure |
| `Relr.BitOfBitmap` | kernel/src/exec.rs:763-779 | bit k of the bitmap for a set of addresses says whether the k-th word behind the cursor is one of them |
| `Relr.SelectsMarked` | kernel/src/exec.rs:763-779 | such a bitmap selects exactly those of the addresses that lie in its words, in order |
| `Relr.TableRoundTrip` | kernel/src/exec.rs:720-782 | for all increasing, aligned addresses: the table that encodes them, with bitmaps where the next word is near and addresses where it is not, decodes to them |
| `Relr.BitmapFits` | kernel/src/exec.rs:763-779 | a bitmap of 63 words with its marker bit is a 64-bit word |
| `Relr.AddsCount` | kernel/src/exec.rs:785-795 | each word gets the bias once for every time its address was decoded; no word else changes |
| `Relr.DecodeIncreases` | kernel/src/exec.rs:720-782 | if every address entry is at or past the cursor the decoded addresses strictly increase |
| `Relr.EachWordOnce` | kernel/src/exec.rs:720-795 | so each decoded word gets the bias exactly once and no other word changes |
| `Relr.UserWords.ApplyOne` | kernel/src/exec.rs:785-795 | one word gets the bias, or the exact error and no change |
| `Relr.UserWords.ApplyTable` | kernel/src/exec.rs:720-782 | the loop succeeds exactly for well-formed tables over mapped words, applies the recursive decoding of the stream, and returns its length; a failure has relocated exactly a first part of the decoded words, and its error says what is wrong with the next one or with the table |
| `GroupExit.StepKeeps` | kernel/src/process.rs:704-742 | every atomic access of every caller and observer keeps the protocol invariant |
| `GroupExit.AllAgree` | kernel/src/process.rs:704-742 | all callers and observers, at any two moments of a run, learn one status |
| `GroupExit.WinnerDecides` | kernel/src/process.rs:704-729 | that status is the one of the caller whose claim succeeded |
| `GroupExit.WinnersArgument` | kernel/src/process.rs:704-729 | from the winner's call on, whatever the others do: the status everyone learns is the argument of that call |
| `GroupExit.NoStatusFromNowhere` | kernel/src/process.rs:704-742 | no status is learnt that no call of the run asked for |
| `GroupExit.LateComer` | kernel/src/process.rs:704-742 | whoever calls or observes after the publication learns that status, in at most three accesses of its own |
| `GroupExit.OneWinner` | kernel/src/process.rs:704-729 | whoever is publishing in any two states of a run is the same thread with the same status |
| `GroupExit.OneClaim` | kernel/src/process.rs:704-729 | after one successful claim no later claim of the run succeeds |
| `GroupExit.PublishedForGood` | kernel/src/process.rs:731-742 | a published status never changes |
| `Processes.StepKeeps` | kernel/src/process.rs:504-944 | every step of every thread keeps thread groups, children and zombie lists consistent |
| `Processes.NoFault` | kernel/src/process.rs:756-927 | the assertions of finishing an exec and of detaching a thread never fail |
| `Processes.ListedOnce` | kernel/src/process.rs:602-651 | a child is in at most one of `children` and `zombie_children`, of its own parent only, and in none once it was returned |
| `Processes.ReturnedOnceAndDead` | kernel/src/process.rs:638-651 | a child is returned at most once, and only after its group was empty and its descriptors closed |
| `Processes.WaitReturnsDead` | kernel/src/process.rs:638-651 | whatever `wait_zombie_child` hands out has been empty and closed and was not returned before |
| `Processes.ForkMakesChild` | kernel/src/process.rs:504-545 | a fork makes one process, listed last among its parent's children, and changes no other |
| `Processes.ChildStays` | kernel/src/process.rs:602-636 | a living child stays on its parent's list until a thread of its own reports |
| `Processes.ReportHandsOver` | kernel/src/process.rs:613-636 | a report moves exactly that child, with exactly that status, to the end of the zombies; without memory it is lost, as in the code |
| `Processes.StatusArrives` | kernel/src/process.rs:613-651 | in every run after the report a wait for that child hands out the status it reported, until one has |
| `Processes.StatusWasReported` | kernel/src/process.rs:613-651 | every status a wait can hand out was reported by a thread of that child to that parent |
| `Processes.WaitTakesFirst` | kernel/src/process.rs:638-651 | a wait takes the first zombie that matches and leaves the others in their order, or changes nothing |
| `Processes.WaitReturnsEmpty` | kernel/src/process.rs:638-651 | in every run that creates no initial thread for a process that was dead already, the group of whatever is handed out is empty at that moment |
| `Processes.OnlyInitialRefills` | kernel/src/process.rs:773-880 | no step but `create_initial_thread` puts a thread into an empty group |
| `Processes.RevivedChild` | kernel/src/process.rs:773-821 | a run with such an initial thread, in which a child with a live thread is waiting to be handed out |
| `Processes.ExecExcludes` | kernel/src/process.rs:749-880 | while a thread is inside exec no other thread of its process is, and creating a thread fails |
| `Processes.ExecShrinks` | kernel/src/process.rs:749-927 | from a successful `begin_exec` to `finish_exec` the member set only shrinks, whatever else happens |
| `Processes.ExitShrinks` | kernel/src/process.rs:829-880 | once a group exit has begun no thread joins the group any more |
| `Processes.CreateThreadExactly` | kernel/src/process.rs:829-880 | a thread is added exactly to a group that has its leader and neither exits nor execs |
| `Processes.MarkedLists` | kernel/src/process.rs:613-636 | moving a child from the living to the dead keeps both lists disjoint and without repetitions |
| `Initramfs.HexRoundTrip` | kernel/src/initramfs.rs:259-280 | a number printed in hexadecimal is read back |
| `Initramfs.ParseHexField` | kernel/src/initramfs.rs:265-280 | the accumulator loop computes the value of the eight digits, or the error |
| `Initramfs.DigitExactly` | kernel/src/initramfs.rs:265-280 | which bytes are which hexadecimal digits |
| `Initramfs.ParsedMeans` | kernel/src/initramfs.rs:156-215 | the parts of a parsed entry stand in the archive where the format has them: magic, mode and sizes in their fields, name with its NUL, aligned data, aligned end |
| `Initramfs.KindOfMode` | kernel/src/initramfs.rs:199-204 | the four type bits decide the kind, whatever the other bits are |
| `Initramfs.NamesAreText` | kernel/src/initramfs.rs:184-185 | the names that are accepted are exactly the UTF-8 forms (RFC 3629, section 3) of sequences of characters |
| `Initramfs.Builder.Append` | kernel/src/initramfs.rs:217-257 | appends exactly the encoding of one entry, padding included |
| `Initramfs.EntryRoundTrip` | kernel/src/initramfs.rs:156-257 | the printed bytes of any entry that fits, anywhere in an archive, are parsed back to it, and parsing stops where printing did |
| `Initramfs.PrintThenParse` | kernel/src/initramfs.rs:85-257 | for every list of files that fit, the printed archive lists the same names and data in order, then the trailer |
| `Initramfs.BuildArchive` | kernel/src/initramfs.rs:144-149 | the builder prints the archive those theorems are about |
| `Initramfs.Validate` | kernel/src/initramfs.rs:85-97 | accepts exactly the archives whose entries can be listed up to a trailer, and reports the first error |
| `Initramfs.EntryIterator.Next` | kernel/src/initramfs.rs:109-125 | yields the entries in turn, ends after the trailer or the first error |
| `Initramfs.Drain` | kernel/src/initramfs.rs:109-125 | an iterator run to its end yields exactly the entries of the listing in order, or ends with the error of the listing |
| `Initramfs.PrintAndIterate` | kernel/src/initramfs.rs:85-257 | printing any files that fit, validating and iterating succeeds and yields the same names and data in order, then the trailer |
| `Initramfs.FindEntry` | kernel/src/initramfs.rs:71-83 | the search loop computes the search on values |
| `Initramfs.LookupFindsFirst` | kernel/src/initramfs.rs:71-83 | in a printed archive a path finds the first file of that path, where one of two equal paths may have one leading slash more, or nothing if there is none |
| `Initramfs.PrintAndFind` | kernel/src/initramfs.rs:71-83 | printing any files that fit and searching with the iterator finds that file |
| `Clockevent.WindowOrder` | kernel/src/time.rs:404-426 | what the wrapping comparisons say about instants anywhere on the counter, in terms of signed distances: right exactly below half the range |
| `Clockevent.CyclesFor` | kernel/src/time.rs:326-339 | the fewest cycles that last at least the duration |
| `Clockevent.DurationToCycles` | kernel/src/time.rs:326-339 | the conversion panics exactly if those cycles reach half the range; the overflow checks before that decide nothing more |
| `Clockevent.MinDelta` | kernel/src/time.rs:450-455 | the fewest cycles, but at least one, that last a microsecond |
| `Clockevent.LocalClock.BeginTimerInterrupt` | kernel/src/time.rs:169-206 | a due tick advances the deadline by whole periods into (now, now + period] and counts exactly those periods; otherwise nothing is counted; when it panics |
| `Clockevent.LocalClock.Reprogram` | kernel/src/time.rs:210-256 | for all deadlines: the tick is armed no later than due if and only if no software deadline lies half the range or more behind it and beyond the minimum delta, and the same for the software deadline; where the hardware is set; when it panics |
| `Clockevent.FarDeadlineHidesTick` | kernel/src/time.rs:417-426 | an input on which arming fails: a tick one cycle overdue loses against a software deadline of the longest duration |
| `Clockevent.FarTimerRun` | kernel/src/time.rs:210-256 | that input as a run of the kernel's operations, after which an active tick is not armed for |
| `Clockevent.LocalClock.HandleTimerInterrupt` | kernel/src/irq.rs:34-39 | no tick is lost or counted twice; the moved tick is armed in time under exactly that condition; it panics exactly if the tick is too late to move or the moved tick is 0 |
| `Clockevent.LocalClock.Arm` | kernel/src/time.rs:137-162 | the first deadline is one period away and armed under that condition; when it panics |
| `Clockevent.LocalClock.EnterIdle` | kernel/src/time.rs:258-272 | the tick stops and only the software timer stays programmed, wherever on the counter it lies |
| `Clockevent.LocalClock.LeaveIdle` | kernel/src/time.rs:274-310 | the tick is active again; where the hardware is programmed anew it is armed under that condition, where it is left alone if and only if what it is set for does not lie half the range behind the tick; when it panics |
| `Asid.AsidAllocator.Create` | mm/src/asid.rs:71-81 | refuses exactly an allocator without user IDs |
| `Asid.AsidAllocator.Allocate` | mm/src/asid.rs:98-121 | a fresh token, never ID 0; keeps IDs below `next` exactly the disjoint union of free and live ones; rolls over exactly when predicted; fails only at the end of the generations |
| `Asid.AsidAllocator.Release` | mm/src/asid.rs:126-134 | a live current token becomes free, stale and kernel tokens are ignored |
| `Asid.AsidAllocator.RollsWhenAllLive` | mm/src/asid.rs:94-96 | a generation rolls over if and only if every hardware ID is live in it |
| `Asid.Serve` | mm/src/asid.rs:98-134 | in every run that releases only held tokens no two holders of one generation share an ID |

## Left out

- Weak memory ordering: every atomic access is one step of a sequentially consistent interleaving; fences and orderings are not modelled.
- Timeouts, diagnostics, dumps and statistics counters of the call, IPI, lock and timer code.
- Allocation failure of `Vec` and failing physical-memory access in page tables and caches; the page allocator itself is a list of free frames.
- Device errors other than a refused write: a transfer inside the device succeeds, so the tag a failed fill would leave behind in the buffer cache is not modelled.
- PageTableEntries.Sv39LeafRoundTrip: an Sv39 entry has no bits for the memory type, so that a mapping of device memory is read back as one of normal memory. The page-table theorems are about decoded entries, and virtual addresses are vectors of table indices.
- SharedRoots.AddressSpaces.Reclaim: only the RISC-V form shares the kernel's high half through copied entries, so the sharing theorems are about that form; the check that a user root is only changed inside the user address range is, for LoongArch, a range of addresses and not visible in table indices.
- RuntimePageTables.RuntimePageTable.RetireAllPrivateTables: is stated for user roots and for LoongArch roots, as its documentation has it; on the RISC-V kernel root it would clear the lower half only and hand over tables that still hang in the upper one.
- TLB invalidation, hardware root switching and virtual memory areas; a retired table is freed at any later moment.
- The request queue, the device registry and device names.
- `TrackedSpinLock`, whose IRQ-enabled windows need a model of nested interrupts, and interrupt handlers that run on top of a lock holder.
- PipeProtocol.StepKeeps: epochs do not wrap at 2^64, and serialised operations on one file and polling are not modelled. A forced exit may be noticed before, during or after any wait.
- Ext4Reader.Ext4.ReadInodeAt: superblock, block groups, inode decoding and directories are not modelled; the table of inodes is a parameter.
- ExecStack.BuildInitialStack: random bytes, platform string and program header values are parameters, and writes to user memory inside the stack succeed. ELF parsing and segment loading are not modelled.
- Relr.UserWords.ApplyTable: the table is given as words; finding it in the dynamic section and the other LoongArch relocations are not modelled.
- Processes.StepKeeps: signals, sessions, credentials, vfork completion, the scheduler and the contents of descriptor tables are not modelled.
- Processes.NoFault: that the assertion of `finish_exec` holds rests on the discipline of its callers, which the steps build in: a thread between `begin_exec` and `finish_exec` does nothing else to its process, in particular it neither begins another exec nor exits.
- Initramfs.LookupFindsFirst: symbolic links are not followed.
- Initramfs.Validate: archives are shorter than half the address space, as every slice in memory is.
- The timer queue: the earliest software timer is a parameter, as is the counter at each reading.
- Asid.AsidAllocator.Release: only live, stale or kernel tokens are released; the double-release assertion is what a caller must respect.
- Pseudo-terminals, devices, procfs, sysfs, random numbers, the real-time clock and the system-call table: the same algorithms again, tables, or glue.
