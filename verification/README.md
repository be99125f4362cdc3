# A verified model of the lcore teaching kernel

This project models the parts of a small x86 teaching kernel where correctness depends on
many functions agreeing with each other, and proves what they promise over every input, every
interleaving or every run. The kernel sources live under `code-with-comments/`.

- **Synchronisation** (`Monitor.dfy`, `Philosophers.dfy`, `PhilosophersSem.dfy`): hand-off semaphores, the Hoare
  monitor built on them, and the dining philosophers in both versions, as interleavings of atomic semaphore operations
  for any number of processes.
- **Scheduling** (`SkewHeap.dfy`, `Stride.dfy`, `Scheduling.dfy`, `Timers.dfy`): the skew heap with parent pointers, stride
  scheduling with wrapping strides, the round-robin queue together with process states and semaphores over whole runs,
  and the delta-encoded timer list.
- **Virtual memory** (`Swap.dfy`, `AddressSpace.dfy`, `ForkFrames.dfy`, `Fork.dfy`, `ForkRuns.dfy`): demand paging with
  FIFO eviction as a refinement of flat memory, the copying and tearing down of address spaces, and whole runs of them.
- **Allocators** (`FreeList.dfy`, `FirstFit.dfy`, `PageAlloc.dfy`, `Slob.dfy`, `SlobHeap.dfy`, `SlobAlloc.dfy`, `Kmalloc.dfy`): the
  first-fit page allocator and the SLOB heap, over one theory of address-ordered free lists.
- **SFS** (`Sfs.dfy`, `SfsGrow.dfy`, `SfsFile.dfy`, `SfsResize.dfy`, `Bitmap.dfy`, `InodeCache.dfy`): block accounting, the
  block map, unaligned reads and writes, truncation, the word-wise bitmap, and the inode cache with its reclaim race.
- **mksfs** (`Mksfs.dfy`, `MksfsFiles.dfy`, `MksfsImage.dfy`): the image builder, against what the kernel reads.
- **Processes** (`Pids.dfy`, `ProcTree.dfy`, `ProcLife.dfy`, `Processes.dfy`, `ProcRuns.dfy`): process numbers, the process
  tree, fork, exit, wait and kill, and whole runs of them against a simple process table.

Objects that the source updates in place are classes; their methods are proved against functions or predicates on plain
values, and what is promised is proved about those. Protocols are step functions over a state, with the results stated for
every run. Addresses of the SLOB heap count 8-byte units, addresses of address spaces count pages. `dafny verify
dfyconfig.toml` checks the whole project.

Where the code does less than one would expect, the code is followed and the exact condition is proved:

- A big `kmalloc` block is shorter than the request exactly for sizes just above a power-of-two number of pages
  (`Kmalloc.BigCovers`); 8193 bytes get two pages.
- A failed extension in `sfs_truncfile` leaves the blocks it got so far, so `blocks = ceil(size/4096)` survives exactly when
  not even one step could be paid for (`SfsResize.FailedGrowth`); truncating such a file to its own size then trips an
  assertion (`SfsFile.Sfs.Truncate`).
- Cutting a file inside a block leaves its old bytes behind the end, where later growth shows them again
  (`SfsResize.TailZeroAfterResize`, `SfsResize.StaleBytesReturn`).
- A growth shows zeros exactly when the bytes it takes in were zeros (`SfsResize.ContentAfterResize`), and a write that
  begins behind the end and writes nothing raises the size without a block (`SfsResize.BlocksAfterWrite`). Reading such a
  file allocates the missing blocks, or fails for lack of them (`SfsFile.Sfs.Read`, `SfsResize.FailedWriteOccurs`).
- A page fault panics exactly when it cannot have its frames (`Paging.FaultNeeds`, `Paging.Mm.DoPgfault`); one frame more
  than the page tables in use is enough for any run (`Paging.NeverPanics`).
- The stride comparison of two strides less than 2^32 apart is right exactly when their difference lies between
  -BIG_STRIDE - 1 and BIG_STRIDE, and reversed otherwise (`SkewHeap.CompareExact`); processes enter with stride 0, so the
  window is a condition on enqueueing.
- `copy_range` asserts that a data page could be allocated. A fork panics exactly when the first frame that cannot be had
  is one for a page; when it is one for the directory or a table the fork fails and leaves no trace
  (`ForkExit.Memory.CopyMm`, `ForkRuns.ForkPanics`).
- Dividing BIG_STRIDE by the priority rounds down, so a process may get ahead of its share by one run and by less than one
  in `BIG_STRIDE / priority` more; the exact bound is `Stride.FairByPriority`.
- An inode that is freed is held by nobody as long as no thread drops more references than it was given; the counts always
  agree with what was given and dropped (`InodeCache.RefsAreHeld`, `InodeCache.DeadUnheld`).
- `mm_map` refuses an area whose first page lies in another one; an area that meets another one further on trips an
  assertion instead (`ForkExit.Memory.MmMap`).
- A request for one unit, as `kmalloc(0)` makes it, hands out the arena exactly when the search begins there
  (`SlobAllocator.Slob.SlobAlloc`, `Kmalloc.Kheap.Kmalloc`). Its block has no unit behind the header, so its address may be
  that of a big block, which `kfree` then frees; blocks with a payload are told apart (`Kmalloc.Kheap.Kfree`,
  `Kmalloc.EmptyBlockClash`).

## Model

| member | source | states |
|---|---|---|
| `Semaphores.DownQueues` | code-with-comments/kern/sync/sem.c:32-54 | a failed down queues exactly the caller; units left and a queue never coexist |
| `Semaphores.UpUnqueues` | code-with-comments/kern/sync/sem.c:16-30 | an up unqueues exactly the process it wakes, which was queued, and nobody else; units left and a queue never coexist |
| `Semaphores.FirstComeFirstServed` | code-with-comments/kern/sync/sem.c:16-54 | over any sequence of ups and downs those who had to wait are woken in the order of arrival, an up wakes somebody exactly when somebody waits, and no unit is lost |
| `Monitor.StepKeeps` | code-with-comments/kern/sync/monitor.c:27-73 | every atomic step of enter, leave, signal and wait, by any process, moves the one baton to the place computed from the step and keeps the whole invariant |
| `Monitor.CodeInOrder` | code-with-comments/kern/sync/monitor.c:27-73 | after a step its process is asleep exactly when it found a semaphore without units, and otherwise may do exactly what comes next in the code of enter, leave, signal and wait |
| `Monitor.OthersInOrder` | code-with-comments/kern/sync/monitor.c:27-73 | for the other processes nothing changes, but that the one woken goes on where it fell asleep |
| `Monitor.InitOk` | code-with-comments/kern/sync/monitor.c:10-24 | a fresh monitor has the baton in its mutex |
| `Monitor.RunInv` | code-with-comments/kern/sync/monitor.c:10-73 | the invariant holds in every state of every interleaving, for any number of processes and condition variables |
| `Monitor.MutualExclusion` | code-with-comments/kern/sync/monitor.c:27-73 | at most one process is active in the monitor, in every state of every run |
| `Monitor.BatonNeverLost` | code-with-comments/kern/sync/monitor.c:27-73 | in every reachable state either the monitor is idle or some process can carry the baton on: it is never posted to a semaphore nobody will take |
| `Monitor.CountersExact` | code-with-comments/kern/sync/monitor.c:27-73 | next_count is the number of signallers not yet resumed and each cv.count the number of its waiters not yet resumed |
| `Monitor.HandOff` | code-with-comments/kern/sync/monitor.c:27-45 | Hoare's rule: from a signal until the signalled waiter resumes, nobody else is active inside, so what the signaller established is what the waiter finds |
| `Monitor.HandingStarts` | code-with-comments/kern/sync/monitor.c:27-45 | a hand-over begins only with a signal's post |
| `MonitorPhilosophers.AccessKeeps` | code-with-comments/kern/sync/check_sync.c:173-222 | every access to the state array keeps the forks exclusive and the promises to waiting neighbours |
| `MonitorPhilosophers.OperationKeeps` | code-with-comments/kern/sync/check_sync.c:173-222 | every monitor operation of a philosopher keeps them too, also when cond_signal gives up the monitor between the two neighbour tests |
| `MonitorPhilosophers.NobodyWaitsOnOwn` | code-with-comments/kern/sync/check_sync.c:184-203 | an active philosopher's own condition variable has no waiter, so its test never signals itself |
| `MonitorPhilosophers.RunInv` | code-with-comments/kern/sync/check_sync.c:173-222 | the invariant over every run of any number of philosophers from two on |
| `MonitorPhilosophers.Safety` | code-with-comments/kern/sync/check_sync.c:173-222 | no two neighbours eat at once, and whoever returned from take_forks eats, in every state of every run |
| `MonitorPhilosophers.NoMissedWakeup` | code-with-comments/kern/sync/check_sync.c:173-222 | with the monitor idle, whoever is still hungry is blocked by an eating neighbour: no wake-up was missed |
| `MonitorPhilosophers.CallsEnd` | code-with-comments/kern/sync/check_sync.c:173-222 | a philosopher that takes forks ends up dining and one that puts them back resting, after a bounded number of its own steps, whatever the others do |
| `MonitorPhilosophers.AwakeGoesOn` | code-with-comments/kern/sync/check_sync.c:173-222 | only a philosopher asleep in the monitor cannot go on |
| `SemaphorePhilosophers.StepKeeps` | code-with-comments/kern/sync/check_sync.c:87-113 | every step of the semaphore version keeps the invariant |
| `SemaphorePhilosophers.RunInv` | code-with-comments/kern/sync/check_sync.c:87-113 | the invariant over every run |
| `SemaphorePhilosophers.Safety` | code-with-comments/kern/sync/check_sync.c:87-113 | no two neighbours eat at once, and whoever returned from take_forks eats, in every state of every run |
| `SemaphorePhilosophers.NoMissedWakeup` | code-with-comments/kern/sync/check_sync.c:87-113 | with the mutex free, whoever is hungry has an eating neighbour |
| `SemaphorePhilosophers.CallsEnd` | code-with-comments/kern/sync/check_sync.c:87-113 | a philosopher that takes forks ends up dining and one that puts them back resting, after a bounded number of its own steps, whatever the others do |
| `InodeCache.Find` | code-with-comments/kern/fs/sfs/sfs_inode.c:139-155 | the hash lookup finds the cached inode of a block number if there is one |
| `InodeCache.StepKeeps` | code-with-comments/kern/fs/sfs/sfs_inode.c:139-195 | every step of lookup, reference drop and reclaim, by any thread, keeps the invariant of lock, reclaim counts and cached numbers |
| `InodeCache.StepGains` | code-with-comments/kern/fs/sfs/sfs_inode.c:139-195 | every step changes the reference count of every inode by exactly what its thread gains: one for a finished load of its number or an Inc, one less for a Drop |
| `InodeCache.RefsAreHeld` | code-with-comments/kern/fs/sfs/sfs_inode.c:139-195 | in every state of every run the reference count is the number of references the threads were given and have not dropped |
| `InodeCache.DeadUnheld` | code-with-comments/kern/fs/sfs/sfs_inode.c:873-911 | in every state of every run an inode being freed or freed is held by nobody, and one that a thread holds is in the cache, while no thread drops more than it was given |
| `InodeCache.HonestRun` | code-with-comments/kern/fs/sfs/sfs_inode.c:873-911 | threads that drop only what they hold never drop more than they were given |
| `InodeCache.LoadGivesWanted` | code-with-comments/kern/fs/sfs/sfs_inode.c:164-195 | a load that finishes gives its thread a reference to the cached inode of the number it asked for, and to no other |
| `InodeCache.CodeInOrder` | code-with-comments/kern/fs/sfs/sfs_inode.c:164-195 | after a step its thread may do exactly what comes next in the code, as far as lock and references allow |
| `InodeCache.LastReclaimFrees` | code-with-comments/kern/fs/sfs/sfs_inode.c:873-911 | a pending reclaim goes on to free the inode exactly when nobody references it and it is the only one pending |
| `InodeCache.KillIsSafe` | code-with-comments/kern/fs/vfs/inode.c:42-47 | an inode that is killed is unreferenced and no other thread can reach it |
| `InodeCache.StepKeepsNoLeak` | code-with-comments/kern/fs/sfs/sfs_inode.c:873-911 | unless a flush fails, no step leaves an unreferenced inode cached with no reclaim pending |
| `InodeCache.RunInv` | code-with-comments/kern/fs/sfs/sfs_inode.c:139-195 | the invariant in every state of every interleaving |
| `InodeCache.ReclaimCountExact` | code-with-comments/kern/fs/vfs/inode.c:53-76 | reclaim_count is one for being referenced plus the pending reclaims, and no two cached inodes have one block number, in every state of every run |
| `InodeCache.FreedForGood` | code-with-comments/kern/fs/sfs/sfs_inode.c:873-911 | a freed inode is never referenced again |
| `InodeCache.FreedOnce` | code-with-comments/kern/fs/sfs/sfs_inode.c:873-911 | no inode is freed twice in a run |
| `InodeCache.NothingLeaks` | code-with-comments/kern/fs/sfs/sfs_inode.c:873-911 | in a run without flush failures every cached inode is referenced or about to be reclaimed |
| `SkewHeap.CompareExact` | code-with-comments/kern/schedule/stride_sched.c:16-25 | for any two strides, exactly when the signed 32-bit difference orders them as the true ones; closer than 2^32 that is -BIG_STRIDE - 1 <= x - y <= BIG_STRIDE, and outside it the answer is reversed |
| `SkewHeap.CompareInWindow` | code-with-comments/kern/schedule/stride_sched.c:16-25 | inside that window the wrapped comparison is the true one |
| `SkewHeap.MergedNodes` | code-with-comments/libs/skew_heap.h:34-64 | merging keeps exactly the nodes of both heaps |
| `SkewHeap.MergedOrdered` | code-with-comments/libs/skew_heap.h:34-64 | merging ordered heaps gives an ordered heap |
| `SkewHeap.Merge` | code-with-comments/libs/skew_heap.h:34-64 | the in-place merge builds that heap with consistent left, right and parent pointers |
| `SkewHeap.Insert` | code-with-comments/libs/skew_heap.h:66-72 | insert adds exactly the one node and keeps a heap with consistent pointers |
| `SkewHeap.RemovedNodes` | code-with-comments/libs/skew_heap.h:74-90 | removal takes out exactly the one node |
| `SkewHeap.RemovedOrdered` | code-with-comments/libs/skew_heap.h:74-90 | the result is ordered even when the removed node's own key was out of order |
| `SkewHeap.Spliced` | code-with-comments/libs/skew_heap.h:74-90 | redirecting one child pointer of the parent turns the old pointer structure into that of the tree without the node |
| `SkewHeap.Remove` | code-with-comments/libs/skew_heap.h:74-90 | the in-place removal of any node leaves a heap of the remaining nodes with consistent parent pointers |
| `Stride.Pass` | code-with-comments/kern/schedule/stride_sched.c:131-134 | a pass is the longest step that BIG_STRIDE holds priority times, BIG_STRIDE itself for priority 0, and never longer than that |
| `Stride.Advance` | code-with-comments/kern/schedule/stride_sched.c:131-134 | advancing the root by a pass keeps the window and the order everywhere but at the root |
| `Stride.RefillSlice` | code-with-comments/kern/schedule/stride_sched.c:58-75 | the time slice is refilled exactly when it is used up or too long |
| `Stride.Joins` | code-with-comments/kern/schedule/stride_sched.c:58-75 | a process whose stride lies in the window of the queued ones may join |
| `Stride.Enqueue` | code-with-comments/kern/schedule/stride_sched.c:58-75 | enqueue adds exactly that process and keeps heap, window and count |
| `Stride.PickNext` | code-with-comments/kern/schedule/stride_sched.c:110-136 | the picked process has the truly least stride and has advanced by its pass |
| `Stride.Dequeue` | code-with-comments/kern/schedule/stride_sched.c:85-97 | removing the process whose key was just raised leaves a sound queue of the others |
| `Stride.TakeNext` | code-with-comments/kern/schedule/sched.c:147-152 | pick and dequeue together hand out a process of least true stride, or none if the queue is empty |
| `Stride.Schedule` | code-with-comments/kern/schedule/sched.c:136-159 | requeueing the current process and taking the next keeps everything, priorities too, and runs a least process |
| `Stride.PickLeast` | code-with-comments/kern/schedule/stride_sched.c:110-136 | a process that no other comes before in the wrapped strides has the least true stride, if all lie in a window |
| `Stride.WrapSafe` | code-with-comments/kern/schedule/stride_sched.c:16-25 | over any run whose picks are made by the wrapped comparison, from inside the window: strides stay within BIG_STRIDE of each other, every comparison equals the true one, and every pick is of least true stride |
| `Stride.StrideCountsRuns` | code-with-comments/kern/schedule/stride_sched.c:110-136 | a stride is its start plus the number of runs times the pass |
| `Stride.AheadByOnePass` | code-with-comments/kern/schedule/stride_sched.c:110-136 | from equal starts nobody is ever ahead of anybody by more than the own pass |
| `Stride.Fair` | code-with-comments/kern/schedule/stride_sched.c:110-136 | from equal starts the run counts of any two processes, weighted by their passes, differ by at most one pass and so by at most BIG_STRIDE |
| `Stride.FairByPriority` | code-with-comments/kern/schedule/stride_sched.c:110-136 | from equal starts the run counts of any two processes are as their priorities: neither is more than one run ahead of its share, but for less than one run in BIG_STRIDE / priority that the rounding of the pass adds |
| `Stride.AheadByShare` | code-with-comments/kern/schedule/stride_sched.c:131-134 | pass-weighted counts that differ by at most a pass are counts in proportion to the priorities |
| `Stride.ExactShare` | code-with-comments/kern/schedule/stride_sched.c:131-134 | while the rounding adds up to less than a run it adds nothing |
| `Stride.RunGrows` | code-with-comments/kern/schedule/sched.c:136-159 | a pick of least stride extends a run in the wrapped strides by one |
| `Stride.Round` | code-with-comments/kern/schedule/sched.c:136-159 | one call of schedule among a fixed set of processes leaves them ready for the next, with their priorities |
| `Stride.Rounds` | code-with-comments/kern/schedule/sched.c:136-159 | n calls of schedule on the skew heap by a fixed set of processes: the processes that ran are such a run, so from equal starts they are balanced as Fair says and have run in proportion to their priorities |
| `Paging.Words` | code-with-comments/kern/mm/swap.h:21-31 | present entries and swap entries are told apart by their words, with the bits and the shift of the source, and frame, permission and slot can be read back from them |
| `Paging.EvictKeeps` | code-with-comments/kern/mm/swap.c:85-124 | evicting the oldest page keeps the invariant: every page is present, in its own slot, or untouched, with contents equal to flat memory |
| `Paging.EvictsOldest` | code-with-comments/kern/mm/swap_fifo.c:65-85 | the victim is the page that has been present longest |
| `Paging.MapKeeps` | code-with-comments/kern/mm/pmm.c:657-676 | mapping a loose frame keeps the invariant |
| `Paging.AddTableKeeps` | code-with-comments/kern/mm/pmm.c:453-489 | adding a page table keeps it |
| `Paging.StoreKeeps` | code-with-comments/kern/mm/vmm.c:543-585 | a store through a mapped page keeps frames, slots and flat memory in agreement |
| `Paging.LastSeenStep` | code-with-comments/kern/mm/vmm.c:543-585 | one operation extends the agreement between flat memory and the byte last written or read to every address |
| `Paging.FaultNeeds` | code-with-comments/kern/mm/vmm.c:543-585 | a fault is served exactly when one frame, or two with a missing page table, are free or can be had by evicting the oldest pages into slots that exist |
| `Paging.NeverPanics` | code-with-comments/kern/mm/vmm.c:429-588 | with one frame more than the page tables the accesses of a run need and a slot for every page, no access of the run panics, however many pages it touches |
| `Paging.QueuePresent` | code-with-comments/kern/mm/swap_fifo.c:47-60 | the list of frames, read as pages, names exactly the present pages |
| `Paging.Mm.FindVma` | code-with-comments/kern/mm/vmm.c:79-103 | the cached search finds the area of an address exactly when there is one |
| `Paging.Mm.SwapOut` | code-with-comments/kern/mm/swap.c:85-124 | swap_out succeeds exactly when a victim with a free slot exists, and is then the eviction of the oldest page |
| `Paging.Mm.AllocPage` | code-with-comments/kern/mm/pmm.c:189-210 | one frame, from the free ones or by evicting the oldest page: it succeeds exactly when one of the two can be done, told from the state before, and otherwise changes nothing |
| `Paging.Mm.GetPte` | code-with-comments/kern/mm/pmm.c:453-489 | the table of a page is there afterwards, without changing any content; exactly when a frame for a missing table can be had, and with exactly that eviction |
| `Paging.Mm.Install` | code-with-comments/kern/mm/pmm.c:700-726 | the page becomes present at the head of the FIFO list with its address recorded |
| `Paging.Mm.BringIn` | code-with-comments/kern/mm/vmm.c:543-585 | an absent page becomes present with its old content, or with any content if it had none, exactly when a frame can be had; which page made room is told from the state before |
| `Paging.Mm.SwappedPage` | code-with-comments/kern/mm/swap.c:126-143 | the slot named by a swap entry holds the page's flat content |
| `Paging.Mm.DoPgfault` | code-with-comments/kern/mm/vmm.c:429-588 | the fault handler refuses exactly the accesses outside the areas' permissions and panics exactly when, in the state before, the frames it needs cannot be had; otherwise the page is present, writable as its area is, and the free count, tables and list are the computed ones |
| `Paging.Mm.LoadByte` | code-with-comments/kern/mm/vmm.c:429-588 | a read is served, refused or panics exactly as computed from the free count, tables, list and areas before it; served, it returns the byte of flat memory and leaves that memory alone |
| `Paging.Mm.StoreByte` | code-with-comments/kern/mm/vmm.c:429-588 | a write is served, refused or panics exactly as computed from the state before; served, it changes exactly that byte of flat memory |
| `Paging.Mm.constructor` | code-with-comments/kern/mm/vmm.c:42-60 | an address space with nothing mapped |
| `Paging.Mm.Execute` | code-with-comments/kern/mm/vmm.c:429-588 | any run of reads and writes, with any number of frames: the outcome of each access is the computed one, and a read returns the byte last written to or read from its address |
| `SfsBlocks.EntryRoundTrip` | code-with-comments/kern/fs/sfs/sfs_io.c:99-139 | the 32-bit cells of an index block are independent of each other |
| `SfsBlocks.TakeKeeps` | code-with-comments/kern/fs/sfs/sfs_inode.c:89-101 | allocating a block keeps the accounting invariant and touches no file |
| `SfsBlocks.ReleaseKeeps` | code-with-comments/kern/fs/sfs/sfs_inode.c:103-109 | freeing an unlinked block keeps it |
| `SfsBlocks.LinkKeeps` | code-with-comments/kern/fs/sfs/sfs_inode.c:263-299 | entering a new block in the block map keeps single ownership of every block and leaves other files alone |
| `SfsBlocks.LinkBytes` | code-with-comments/kern/fs/sfs/sfs_inode.c:263-299 | the file's bytes are the old ones followed by those of the block |
| `SfsBlocks.LinkIndexKeeps` | code-with-comments/kern/fs/sfs/sfs_inode.c:206-251 | hanging in an empty index block keeps the invariant |
| `SfsBlocks.UnlinkKeeps` | code-with-comments/kern/fs/sfs/sfs_inode.c:304-351 | taking the last entry out leaves exactly that block loose |
| `SfsBlocks.PutDataKeeps` | code-with-comments/kern/fs/sfs/sfs_io.c:124-139 | writing inside a block keeps the invariant and other files |
| `SfsBlocks.PutDataBytes` | code-with-comments/kern/fs/sfs/sfs_io.c:124-139 | exactly the addressed bytes of the file change |
| `SfsGrow.FirstFree` | code-with-comments/kern/fs/sfs/bitmap.c:54-72 | the allocated bit is the lowest free one, or none is free |
| `SfsGrow.FreeCount` | code-with-comments/kern/fs/sfs/sfs_inode.c:89-101 | unused_blocks is the number of free bits, so it tells exactly whether one or two blocks can still be had |
| `SfsGrow.GrowAppends` | code-with-comments/kern/fs/sfs/sfs_inode.c:206-299 | extending a file, with or without a new index block, appends one zeroed block, keeps the invariant and every other file, and costs exactly what is needed |
| `SfsGrow.ShrinkShortens` | code-with-comments/kern/fs/sfs/sfs_inode.c:304-397 | dropping the last block keeps the invariant, the remaining bytes and every other file |
| `SfsFile.Sfs.BlockAlloc` | code-with-comments/kern/fs/sfs/sfs_inode.c:89-101 | allocation succeeds exactly when a bit is free, takes the lowest and zeroes the block |
| `SfsFile.Sfs.BlockFree` | code-with-comments/kern/fs/sfs/sfs_inode.c:103-109 | the bit and the count come back |
| `SfsFile.Sfs.AllocPair` | code-with-comments/kern/fs/sfs/sfs_inode.c:206-251 | two blocks are allocated, or the first is given back when the second fails |
| `SfsFile.Sfs.Extend` | code-with-comments/kern/fs/sfs/sfs_inode.c:206-299 | an extension succeeds exactly when the blocks it needs are free; otherwise nothing but free blocks changed |
| `SfsFile.Sfs.BmapLoad` | code-with-comments/kern/fs/sfs/sfs_inode.c:363-381 | loading block i returns the block map's entry, growing the file only for i equal to its block count |
| `SfsFile.Sfs.WritePiece` | code-with-comments/kern/fs/sfs/sfs_inode.c:619-654 | one phase writes its bytes into one block, extending the file if need be, or fails leaving the prefix written so far |
| `SfsFile.Sfs.WriteBlocks` | code-with-comments/kern/fs/sfs/sfs_inode.c:634-654 | the aligned and tail phases write the rest of the range, or report exactly the prefix they wrote |
| `SfsFile.Sfs.WriteRange` | code-with-comments/kern/fs/sfs/sfs_inode.c:619-654 | head, aligned and tail phases together write exactly the range, or the reported prefix |
| `SfsFile.Sfs.ReadPiece` | code-with-comments/kern/fs/sfs/sfs_inode.c:619-654 | one phase reads its bytes out of one block, which is allocated first if it is the next one of the file |
| `SfsFile.Sfs.Write` | code-with-comments/kern/fs/sfs/sfs_inode.c:564-662 | sfs_io_nolock for writing, also on a file whose size and blocks disagree: refused exactly for a negative offset, one at or past 128 MB, or an end past 2^31; served exactly when it begins in a block of the file or the next one, the block map reaches its end and the free blocks suffice, index block included; then every byte up to 128 MB is written, otherwise the reported prefix; and the new size and block cost |
| `SfsFile.Sfs.ReadRange` | code-with-comments/kern/fs/sfs/sfs_inode.c:619-654 | the three phases read exactly the bytes of the range; where it goes past the blocks of the file they allocate the missing ones, or report exactly how they fail |
| `SfsFile.Sfs.Read` | code-with-comments/kern/fs/sfs/sfs_inode.c:564-662 | sfs_io_nolock for reading: refused exactly as a write is; served, it returns the smallest of the length asked for, what is left of the file and what is left of 128 MB, and these are the bytes of the content. A file whose blocks reach its size is not changed; for any other one, exactly when the missing blocks are allocated and read as zeros, and when they cannot be |
| `SfsFile.Sfs.GrowTo` | code-with-comments/kern/fs/sfs/sfs_inode.c:954-999 | growing block by block: done, out of blocks or past the block map, told exactly from the block count, the target and the free count, with the file's bytes intact |
| `SfsFile.Sfs.DropLast` | code-with-comments/kern/fs/sfs/sfs_inode.c:386-397 | the last block is unlinked and freed |
| `SfsFile.Sfs.ShrinkTo` | code-with-comments/kern/fs/sfs/sfs_inode.c:954-999 | shrinking block by block keeps the remaining bytes and frees the rest |
| `SfsFile.Sfs.Truncate` | code-with-comments/kern/fs/sfs/sfs_inode.c:954-999 | sfs_truncfile on any file: refused exactly outside 0 to 128 MB; to the own size Ok exactly when the blocks are those the size needs; a shrink is always Ok; growth is served, fails for lack of blocks or panics exactly as the free blocks and the block map say; and that it otherwise resizes the file |
| `SfsFile.GrowOutcome` | code-with-comments/kern/fs/sfs/sfs_inode.c:206-299 | growth block by block ends as the bytes say: enough free blocks for the blocks that hold them and for a first index block, within 1036 blocks |
| `SfsFile.SignedEnd` | code-with-comments/kern/fs/sfs/sfs_inode.c:568-573 | the end of a request, in 32 bits with a sign, lies below its offset exactly when the sum passes 2^31 |
| `SfsFile.ContentAfterWrite` | code-with-comments/kern/fs/sfs/sfs_inode.c:564-662 | the content after a write at or before the end is the old content with the written bytes spliced in; all other files are as before |
| `SfsFile.UntouchedContent` | code-with-comments/kern/fs/sfs/sfs_inode.c:564-662 | a file whose blocks were not touched has its old content |
| `SfsResize.ContentAfterResize` | code-with-comments/kern/fs/sfs/sfs_inode.c:954-999 | for any file: the content after a resize is the old one cut; or padded with zeros exactly when the bytes taken in were zeros already; blocks = ceil(size/4096); other files as before |
| `SfsResize.BlocksAfterWrite` | code-with-comments/kern/fs/sfs/sfs_inode.c:564-662 | blocks = ceil(size/4096) survives a write exactly when it wrote something or began within the blocks there were; always for one that begins within the file |
| `SfsResize.TailZeroAfterWrite` | code-with-comments/kern/fs/sfs/sfs_inode.c:564-662 | writes keep the unused tail of the last block zero |
| `SfsResize.TailZeroAfterResize` | code-with-comments/kern/fs/sfs/sfs_inode.c:954-999 | a resize keeps it zero exactly when the bytes from the new length to the end of its block were zero; always for whole-block lengths |
| `SfsResize.StaleBytesReturn` | code-with-comments/kern/fs/sfs/sfs_inode.c:954-999 | a cut inside a block followed by growth brings the old bytes back, for every such cut |
| `SfsResize.FailedGrowth` | code-with-comments/kern/fs/sfs/sfs_inode.c:954-999 | after a failed extension the block count still fits the size exactly when not even one step of growth could be paid for |
| `SfsResize.FailedGrowthOccurs` | code-with-comments/kern/fs/sfs/sfs_inode.c:954-999 | two calls of sfs_truncfile on a disk with one free block: the first fails and leaves a block the size does not need, the second, to the file's own size, panics |
| `SfsResize.FailedWriteOccurs` | code-with-comments/kern/fs/sfs/sfs_inode.c:564-662 | a write behind the end on a full disk: nothing is written, and the size is raised without a block, so that reading there runs out of blocks |
| `Bitmaps.SetBitAt` | code-with-comments/kern/fs/sfs/bitmap.c:74-98 | word index and offset address each bit independently |
| `Bitmaps.LowBit` | code-with-comments/kern/fs/sfs/bitmap.c:54-72 | a non-zero word has a lowest set bit, and the inner loop finds it |
| `Bitmaps.Bitmap.constructor` | code-with-comments/kern/fs/sfs/bitmap.c:19-51 | all bits free, the leftover bits of the last word in use |
| `Bitmaps.Bitmap.Alloc` | code-with-comments/kern/fs/sfs/bitmap.c:54-72 | the word-wise search takes the lowest free bit, never a leftover one, and fails exactly when none is free |
| `Bitmaps.Bitmap.Test` | code-with-comments/kern/fs/sfs/bitmap.c:83-89 | reads the bit |
| `Bitmaps.Bitmap.Release` | code-with-comments/kern/fs/sfs/bitmap.c:91-98 | sets exactly that bit |
| `MksfsBitmap.WriteBlock` | code-with-comments/tools/mksfs.c:390-410 | one freemap block has bits set exactly for the unused blocks it covers, in all three positions relative to next_ino and ninos |
| `MksfsBitmap.CloseFreemap` | code-with-comments/tools/mksfs.c:381-410 | the freemap blocks, as bytes, have free bits exactly at next_ino up to ninos |
| `MksfsBitmap.LoadFreemap` | code-with-comments/kern/fs/sfs/sfs_fs.c:163-176 | loading block by block gives the kernel the words of all the blocks, whatever they hold |
| `MksfsBitmap.BytesRoundTrip` | code-with-comments/kern/fs/sfs/sfs_fs.c:163-176 | the words the kernel reads out of a block are the words mksfs wrote into it |
| `MksfsBitmap.SameBits` | code-with-comments/kern/fs/sfs/sfs_fs.c:163-176 | so bit i of the loaded map is set exactly for the blocks from next_ino up to ninos |
| `MksfsBitmap.CountUnused` | code-with-comments/kern/fs/sfs/sfs_fs.c:267-272 | the mount counts the free bits |
| `MksfsBitmap.CountRange` | code-with-comments/kern/fs/sfs/sfs_fs.c:258-273 | bits set exactly on a range count its length |
| `MksfsBitmap.CountWritten` | code-with-comments/kern/fs/sfs/sfs_fs.c:267-272 | the kernel counts ninos - next_ino free blocks in the freemap mksfs wrote |
| `MksfsFiles.DirectKeeps` | code-with-comments/tools/mksfs.c:486-488 | appending to the direct entries keeps the block list |
| `MksfsFiles.IndexKeeps` | code-with-comments/tools/mksfs.c:489-494 | appending through the index block keeps it |
| `MksfsFiles.GroupKeeps` | code-with-comments/tools/mksfs.c:495-502 | appending through the doubly indirect block keeps it |
| `MksfsFiles.GroupEntry` | code-with-comments/tools/mksfs.c:497-499 | the group's index block is missing exactly when a group starts, and is the one at hand otherwise |
| `MksfsFiles.ElsewhereKeeps` | code-with-comments/tools/mksfs.c:462-506 | changes to one file's index blocks do not disturb another file |
| `MksfsImage.Builder.constructor` | code-with-comments/tools/mksfs.c:264-311 | a new image: root directory, everything behind the freemap unused |
| `MksfsImage.Builder.AllocIno` | code-with-comments/tools/mksfs.c:206-213 | blocks come in order; unused_blocks stays ninos - next_ino |
| `MksfsImage.Builder.AddInode` | code-with-comments/tools/mksfs.c:238-250 | a new inode has a fresh block and an empty list; there is one exactly while a block is left |
| `MksfsImage.Builder.UpdateCache` | code-with-comments/tools/mksfs.c:462-475 | the hash lookup is reached exactly when a non-zero entry is not the block at hand |
| `MksfsImage.Builder.AppendBlock` | code-with-comments/tools/mksfs.c:477-506 | append_block extends the file's list by the block and no other list, never reaches the hash lookup, and fails exactly when the file is full or the index blocks it needs are not left |
| `MksfsImage.Builder.AddChunk` | code-with-comments/tools/mksfs.c:600-606 | one round of open_file: the bytes, padded to a block, become the file's next block, and when that fails |
| `MksfsImage.Builder.OpenFile` | code-with-comments/tools/mksfs.c:596-611 | the blocks of a host file are appended in order and the size grows by its length; it succeeds exactly when the blocks it needs, index blocks included, are left |
| `MksfsImage.Builder.FlushCache` | code-with-comments/tools/mksfs.c:413-418 | every cached index block is written, and no other block changes |
| `MksfsImage.Builder.FlushInodes` | code-with-comments/tools/mksfs.c:420-424 | every inode is written, and no other block changes |
| `MksfsImage.Builder.Close` | code-with-comments/tools/mksfs.c:381-426 | after close_sfs the super block on disk says magic, ninos, the unused count and the text, the freemap on disk is free exactly from next_ino on, and the kernel finds, from its inode on disk, every file with its type, size and all its blocks |
| `MksfsImage.Mount` | code-with-comments/kern/fs/sfs/sfs_fs.c:190-273 | mounting any device: which magic and sizes are refused, a freemap past the end of the device included, and that the assertion on the count holds exactly when the bits of the freemap on the device are as many as its super block says |
| `MksfsImage.Builder.CloseAndMount` | code-with-comments/kern/fs/sfs/sfs_fs.c:190-273 | after any building steps the image that close_sfs leaves mounts, with the unused count of the builder |
| `MksfsImage.FlushBlock` | code-with-comments/tools/mksfs.c:371-374 | a cached index block reads back entry by entry |
| `MksfsImage.DinRead` | code-with-comments/kern/fs/sfs/sfs.h:59-68 | the inode mksfs wrote, its type word and doubly indirect block included, is the one the kernel reads, although theirs differ by a field |
| `MksfsImage.KernelFollows` | code-with-comments/kern/fs/sfs/sfs_inode.c:263-299 | the kernel's block map returns the k-th appended block, for every k below 1036 |
| `MksfsImage.KernelReads` | code-with-comments/kern/fs/sfs/sfs_inode.c:263-299 | so the kernel reads, block for block, what was written |
| `MksfsImage.KernelContent` | code-with-comments/kern/fs/sfs/sfs_inode.c:564-662 | a host file written to an empty inode is what the kernel reads, byte for byte, in no more blocks than it needs, the rest of the last one zero |
| `SlobList.FitsAt` | code-with-comments/kern/mm/kmalloc.c:166-168 | the two-part exit test of the search holds at the predecessor of the block's address and nowhere else |
| `SlobHeap.ReleasedOk` | code-with-comments/kern/mm/kmalloc.c:153-185 | after freeing, the circular list is in address order with one wrap, disjoint and fully coalesced, and covers exactly the old free units and the block |
| `SlobHeap.CarvedOk` | code-with-comments/kern/mm/kmalloc.c:123-134 | after carving, the same, less exactly the units handed out |
| `SlobHeap.ReleasedWords` | code-with-comments/kern/mm/kmalloc.c:170-182 | the relinking assignments compute exactly that list |
| `SlobAllocator.RunInOne` | code-with-comments/kern/mm/kmalloc.c:153-185 | consecutive free units lie in one block |
| `SlobAllocator.PageFits` | code-with-comments/kern/mm/kmalloc.c:136-148 | once a whole page is free, every request below a page fits |
| `SlobAllocator.Slob.constructor` | code-with-comments/kern/mm/kmalloc.c:76-77 | the arena linked to itself |
| `SlobAllocator.Slob.Place` | code-with-comments/kern/mm/kmalloc.c:164-168 | the search ends, from any starting block, at the one predecessor |
| `SlobAllocator.Slob.SlobFree` | code-with-comments/kern/mm/kmalloc.c:153-185 | slob_free frees exactly the block and keeps the list sound and the sizes of allocated blocks |
| `SlobAllocator.Slob.Scan` | code-with-comments/kern/mm/kmalloc.c:107-136 | one round finds the first block that fits, or none fits |
| `SlobAllocator.Slob.Carve` | code-with-comments/kern/mm/kmalloc.c:123-134 | cutting from the found block hands out exactly its first units |
| `SlobAllocator.Slob.SlobAlloc` | code-with-comments/kern/mm/kmalloc.c:98-151 | slob_alloc for any size: it panics exactly for sizes next to a page; otherwise it grows by one page exactly when nothing fits and returns nothing exactly when then no page is to be had. One unit is the arena exactly when the search begins there; no units are the first block tried, whose size becomes 0; in every other case it takes exactly a free block and keeps the list sound |
| `Kmalloc.FindOrder` | code-with-comments/kern/mm/kmalloc.c:215-221 | the loop computes the order |
| `Kmalloc.OrderBounds` | code-with-comments/kern/mm/kmalloc.c:215-221 | size < 4097 * 2^order, and the order is the least such |
| `Kmalloc.BigCovers` | code-with-comments/kern/mm/kmalloc.c:234-247 | a big block is shorter than the request exactly when the size lies in a gap just above a power-of-two number of pages |
| `Kmalloc.BigFallsShort` | code-with-comments/kern/mm/kmalloc.c:215-221 | 8193 bytes get two pages |
| `Kmalloc.ClaimKeeps` | code-with-comments/kern/mm/kmalloc.c:223-232 | taking a block keeps the partition of the heap into free units, small blocks and list nodes; the heap gains at most the one page |
| `Kmalloc.ReturnKeeps` | code-with-comments/kern/mm/kmalloc.c:260-285 | giving a block back keeps the partition and the set of heap units |
| `Kmalloc.NotBig` | code-with-comments/kern/mm/kmalloc.c:268-283 | no small block with a payload has the address of a big one, page-aligned or not |
| `Kmalloc.BigUnits` | code-with-comments/kern/mm/kmalloc.c:234-247 | each of the 2^order pages of a big block lies outside the heap and in no other big block |
| `Kmalloc.EmptyBlockClash` | code-with-comments/kern/mm/kmalloc.c:268-283 | a block without payload, as kmalloc(0) makes it, can have the address of a big one |
| `Kmalloc.Kheap.constructor` | code-with-comments/kern/mm/kmalloc.c:76-78 | an empty heap |
| `Kmalloc.Kheap.Take` | code-with-comments/kern/mm/kmalloc.c:223-238 | taking a block fails exactly when nothing fits and no page is to be had, and grows exactly when nothing fits; it is the arena exactly for one unit with the search beginning there |
| `Kmalloc.Kheap.Kmalloc` | code-with-comments/kern/mm/kmalloc.c:223-257 | kmalloc of any size: a small block of its own, or a big one on the list, or no trace; exactly when it fails, grows or panics, and exactly when kmalloc(0) hands out the arena |
| `Kmalloc.Kheap.Kfree` | code-with-comments/kern/mm/kmalloc.c:260-285 | kfree of an address of the big list takes exactly that big block, of any other one exactly the small block, always for a block with a payload, and conserves the heap's units |
| `FirstFitLists.Canonical` | code-with-comments/kern/mm/default_pmm.c:165-196 | the set of free pages determines the free list and every block length |
| `FirstFit.TakenListOk` | code-with-comments/kern/mm/default_pmm.c:140-150 | splitting a block keeps the list sorted, disjoint and coalesced and frees no page |
| `FirstFit.TakenHeads` | code-with-comments/kern/mm/default_pmm.c:140-150 | PG_property stays exactly on the block heads |
| `FirstFit.AbsorbStep` | code-with-comments/kern/mm/default_pmm.c:175-190 | absorbing a touching block on either side keeps the invariant of the merging loop, the pages and their number |
| `FirstFit.Finish` | code-with-comments/kern/mm/default_pmm.c:191-196 | the grown block goes back where its address says, with a maximally coalesced list |
| `PageAllocator.RoundTrip` | code-with-comments/kern/mm/default_pmm.c:125-196 | a state in which the same pages are free again has the same list, block lengths and nr_free |
| `PageAllocator.Pmm.AllocThenFree` | code-with-comments/kern/mm/default_pmm.c:125-196 | freeing what was just allocated restores the list, every block length and nr_free |
| `PageAllocator.TooMany` | code-with-comments/kern/mm/default_pmm.c:125-130 | the early exit is right: more pages than nr_free fit nowhere |
| `PageAllocator.Pmm.constructor` | code-with-comments/kern/mm/default_pmm.c:100-104 | nothing free |
| `PageAllocator.Pmm.InitMemmap` | code-with-comments/kern/mm/default_pmm.c:106-122 | a region above all blocks becomes one block |
| `PageAllocator.Pmm.AllocPages` | code-with-comments/kern/mm/default_pmm.c:124-154 | alloc returns the lowest-addressed block that fits, fails exactly when none does, and keeps the invariant with nr_free |
| `PageAllocator.Pmm.MergeBlocks` | code-with-comments/kern/mm/default_pmm.c:174-190 | after the merging loop nothing on the list touches the block, and no page was lost |
| `PageAllocator.Pmm.FreePages` | code-with-comments/kern/mm/default_pmm.c:157-196 | free adds exactly the block's pages and keeps list, flags and nr_free |
| `AddressSpace.WithTableKeeps` | code-with-comments/kern/mm/pmm.c:471-480 | a new page table keeps the partition of frames into free, directory, table and data |
| `AddressSpace.MapKeeps` | code-with-comments/kern/mm/pmm.c:657-676 | a new entry for a free frame keeps it, incrementing a reference count that is 0 for every free frame |
| `AddressSpace.ShareKeeps` | code-with-comments/kern/mm/pmm.c:657-676 | one more entry for a frame in use keeps it, and ref the number of entries that name the frame |
| `AddressSpace.RepermKeeps` | code-with-comments/kern/mm/pmm.c:663-667 | mapping a frame again where it is mapped changes the permission only |
| `AddressSpace.UnmapKeeps` | code-with-comments/kern/mm/pmm.c:511-546 | removing an entry keeps ref equal to the number of entries that name the frame, freeing it with the last |
| `AddressSpace.DropTableKeeps` | code-with-comments/kern/mm/pmm.c:574-577 | freeing an empty table keeps it |
| `AddressSpace.DropSpaceKeeps` | code-with-comments/kern/process/proc.c:376-380 | freeing the directory of an emptied space keeps it |
| `ForkExit.UseDetermined` | code-with-comments/kern/mm/pmm.c:511-580 | the address spaces determine which frames are in use and for what: no leak, nothing freed early |
| `ForkExit.CopyDisjoint` | code-with-comments/kern/mm/pmm.c:588-638 | a copied page shares its frame with no other space |
| `ForkExit.InsertVma` | code-with-comments/kern/mm/vmm.c:116-145 | insertion keeps the areas in order of address; comparing with the two neighbours tells whether the new area meets any |
| `ForkExit.Memory.PageRemovePte` | code-with-comments/kern/mm/pmm.c:511-546 | removes the entry, freeing the frame exactly when it was the last |
| `ForkExit.Memory.UnmapRange` | code-with-comments/kern/mm/pmm.c:548-564 | removes exactly the entries of the range, skipping missing tables |
| `ForkExit.Memory.ExitRange` | code-with-comments/kern/mm/pmm.c:566-580 | frees exactly the page tables the range reaches |
| `ForkExit.Memory.ExitMmap` | code-with-comments/kern/mm/vmm.c:221-234 | all entries and tables go, each table once even when areas share it |
| `ForkExit.Memory.PutPgdir` | code-with-comments/kern/process/proc.c:376-380 | the directory goes |
| `ForkExit.Memory.Exit` | code-with-comments/kern/process/proc.c:656-664 | the whole space is gone, other spaces see no change, and its directory, tables and unshared pages are free again, counted once each |
| `ForkExit.Memory.GetPte` | code-with-comments/kern/mm/pmm.c:453-489 | makes the table if it is missing; fails exactly when it is missing and no frame is free |
| `ForkExit.Memory.CopyPage` | code-with-comments/kern/mm/pmm.c:601-634 | one page is copied with its user permission bits and content to a private frame; error, panic or success told exactly from the free frames and whether its table is there |
| `ForkExit.Memory.CopyRange` | code-with-comments/kern/mm/pmm.c:588-638 | every page of the range is copied, or the failure leaves a space that can be torn down; which of the three is decided by the first request for a frame that cannot be met |
| `ForkExit.Memory.DupMmap` | code-with-comments/kern/mm/vmm.c:198-219 | the same areas, and every page a private copy, or the outcome of the first request that cannot be met, the areas taken last first |
| `ForkExit.Memory.SetupPgdir` | code-with-comments/kern/process/proc.c:362-374 | an empty space with a directory of its own, exactly when a frame is free |
| `ForkExit.FramesNeeded` | code-with-comments/kern/mm/pmm.c:588-638 | the frames a copy asks for are a directory, one for every page and one for every table that serves a page |
| `ForkExit.Memory.CopyMm` | code-with-comments/kern/process/proc.c:384-435 | the copy has the areas of its parent, a private page with the same bytes for every page, with the same present, writable and user bits and no other bit; or no trace; or a panic; which of them is told from the parent's pages and areas and the number of free frames |
| `ForkExit.Memory.constructor` | code-with-comments/kern/mm/vmm.c:42-60 | all frames free, no address space |
| `ForkExit.Memory.MmMap` | code-with-comments/kern/mm/vmm.c:165-196 | mm_map told by the bytes asked for, when the request does not wrap: refused exactly below 2 MB, past 0xB0000000 or with its first page in an area; made exactly when no page of it lies in an area, otherwise a panic; afterwards the areas hold exactly the pages they held and those with a byte of the request |
| `ForkExit.AskedPages` | code-with-comments/kern/mm/vmm.c:170-170 | the area asked for begins in the page of the first byte and ends with the page of the last |
| `ForkExit.OddRequest` | code-with-comments/kern/mm/vmm.c:170-170 | a request for no bytes, or one that wraps, is for one page or for none, and for which |
| `ForkExit.UserBits` | code-with-comments/kern/mm/pmm.c:605-605 | the three bits of PTE_USER are kept and all others dropped |
| `ForkExit.Memory.PageInsert` | code-with-comments/kern/mm/pmm.c:657-676 | page_insert of a new frame or of one in use, shared or not: it makes the table if need be, the entry names the frame with the permission, and a frame that was there is freed exactly when no other entry names it |
| `ForkExit.SoleName` | code-with-comments/kern/mm/pmm.c:511-546 | a reference count is one exactly for the only entry of a frame |
| `ForkExit.Memory.PgdirAllocPage` | code-with-comments/kern/mm/pmm.c:700-726 | a page at the address, or everything as it was, exactly when page and table cannot both be had |
| `ForkRuns.StoreSeen` | code-with-comments/kern/mm/pmm.c:588-638 | a store shows at its own address of its own space and nowhere else |
| `ForkRuns.Execute` | code-with-comments/kern/process/proc.c:384-435 | any run of creating, mapping, touching, writing, forking and ending address spaces answers as a reference without frames in which every space is a private map from pages to contents, and leaves those contents; no run loses a frame |
| `ForkRuns.ForkShows` | code-with-comments/kern/mm/vmm.c:198-219 | in the reference a fork that is done gives the child the areas, pages and bytes of its parent, with the same present, writable and user bits and no other, and changes nobody else |
| `ForkRuns.MapShows` | code-with-comments/kern/mm/vmm.c:163-196 | in the reference a request for an area is refused, panics or is made, and covers pages, as its bytes say |
| `ForkRuns.Conserves` | code-with-comments/kern/process/proc.c:384-435 | each operation moves frames between memory and the address spaces and loses none |
| `ForkRuns.RunConserves` | code-with-comments/kern/process/proc.c:384-435 | so does every run |
| `ForkRuns.AllGivenBack` | code-with-comments/kern/process/proc.c:656-664 | memory is whole again once every address space has ended |
| `ForkRuns.ForkPanics` | code-with-comments/kern/mm/pmm.c:607-611 | a one-page program forked with three to any number of frames: refused below five, a panic at five, done above |
| `ForkExit.Restored` | code-with-comments/kern/process/proc.c:427-431 | the same spaces leave the same frames free |
| `ProcTree.PushKeeps` | code-with-comments/kern/process/proc.c:167-177 | set_links keeps cptr, optr and yptr consistent with the list of children |
| `ProcTree.UnlinkKeeps` | code-with-comments/kern/process/proc.c:179-193 | remove_links does, for a child at any place |
| `ProcTree.PopKeeps` | code-with-comments/kern/process/proc.c:680-682 | taking the first child off leaves at most its successor's upward link stale |
| `ProcTree.MoveRooted` | code-with-comments/kern/process/proc.c:680-689 | after a child moved to init every process is still a child of its parent, which is older |
| `ProcLife.DieKeeps` | code-with-comments/kern/process/proc.c:666-677 | a dying process leaves no parent asleep that waits for it |
| `ProcLife.HandOver` | code-with-comments/kern/process/proc.c:680-695 | handing a child to init leaves init awake if the child is dead already |
| `ProcLife.SleepKeeps` | code-with-comments/kern/process/proc.c:1098-1101 | a process falls asleep for children only while the ones it awaits live |
| `Processes.Kernel.constructor` | code-with-comments/kern/process/proc.c:1246-1300 | idle and its child init, both runnable and awake |
| `Processes.Kernel.FindProc` | code-with-comments/kern/process/proc.c:295-308 | the hash chain finds a number exactly when its process lives |
| `Processes.Kernel.SetLinks` | code-with-comments/kern/process/proc.c:167-177 | the links of the new first child |
| `Processes.Kernel.RemoveLinks` | code-with-comments/kern/process/proc.c:179-193 | the links around the removed child |
| `Processes.Kernel.Fork` | code-with-comments/kern/process/proc.c:587-599 | the child is first among its parent's children, in both tables, runnable, and not marked for its end, whoever had its number before |
| `Processes.Kernel.Exit` | code-with-comments/kern/process/proc.c:646-701 | every child goes to init in order, the process is dead, and at most its parent and init are woken: the parent exactly if it waits for a child, init also if it does and is handed a dead child |
| `Processes.Kernel.Reap` | code-with-comments/kern/process/proc.c:1116-1123 | a reaped process had no children and leaves list, hash table, tree and the marks |
| `Processes.Kernel.Seek` | code-with-comments/kern/process/proc.c:1079-1097 | the search finds the first dead child among those asked for, or none of them is dead |
| `Processes.Kernel.Wait` | code-with-comments/kern/process/proc.c:1067-1125 | one pass of do_wait: reap the first dead child asked for, sleep with a living child to wait for, or nothing to wait for |
| `Processes.Kernel.DoSleep` | code-with-comments/kern/process/proc.c:1324-1346 | a process goes to sleep for a timer, unless the time is 0 |
| `Processes.Kernel.BlockOnSemaphore` | code-with-comments/kern/sync/sem.c:32-45 | a process goes to sleep for a semaphore |
| `Processes.Kernel.Kill` | code-with-comments/kern/process/proc.c:1133-1147 | succeeds exactly for a living process not yet marked, and wakes exactly interruptible sleepers, never one on a semaphore |
| `Processes.Ancestry` | code-with-comments/kern/process/proc.c:167-193 | the line of parents of any process ends at idle |
| `Pids.SomeUnused` | code-with-comments/kern/process/proc.c:198-200 | so many processes cannot use up every number |
| `Pids.PassOver` | code-with-comments/kern/process/proc.c:211-227 | the search never comes round to the number it began with |
| `Pids.FoundFirst` | code-with-comments/kern/process/proc.c:198-230 | a number nobody has is the first such one from a start on when every number before it, cyclically, is taken |
| `Pids.PidAllocator.constructor` | code-with-comments/kern/process/proc.c:203-203 | the static variables' start values |
| `Pids.PidAllocator.Search` | code-with-comments/kern/process/proc.c:209-228 | the scan with its restarts ends, with the first number at or after the one it began at, cyclically, that nobody has, and an empty gap above it |
| `Pids.PidAllocator.GetPid` | code-with-comments/kern/process/proc.c:198-230 | the first number after last_pid, cyclically in [1, MAX_PID), that no live process holds, on the fast path too |
| `Pids.PidAllocator.Fork` | code-with-comments/kern/process/proc.c:531-599 | the new process gets a number of its own, or there are 4096 processes already, idle counted |
| `Pids.PidAllocator.Reap` | code-with-comments/kern/process/proc.c:1116-1121 | a reaped number is free again, and the gap stays empty |
| `Pids.Execute` | code-with-comments/kern/process/proc.c:198-230 | over any run of forks and reaps the numbers handed out are the first unused ones after the last, cyclically; live numbers are distinct and in range and none lies strictly between last_pid and next_safe |
| `ProcRuns.DoFork` | code-with-comments/kern/process/proc.c:527-599 | do_fork with get_pid: the child gets the first unused number, or there are too many processes |
| `ProcRuns.DoExit` | code-with-comments/kern/process/proc.c:646-701 | do_exit changes the tree, the statuses and the waits as the process table says |
| `ProcRuns.DoWait` | code-with-comments/kern/process/proc.c:1067-1125 | one pass of do_wait answers and changes the table as it says, the number of a reaped child included |
| `ProcRuns.DoKill` | code-with-comments/kern/process/proc.c:1133-1147 | do_kill likewise |
| `ProcRuns.GoodSound` | code-with-comments/kern/process/proc.c:527-701 | kernel and number allocator together: everybody but idle has one parent, parents are older than their children, the numbers in use are the live processes, distinct and in range, nobody dead has children, and whoever sleeps for a child has one that lives |
| `ProcRuns.Execute` | code-with-comments/kern/process/proc.c:527-701 | any run of fork, exit, wait, kill and sleep by any processes, with the tree, the tables and the number allocator as they are in the source: every answer, process numbers included, is that of the simple process table, and in its last state these things hold |
| `Scheduling.StepKeeps` | code-with-comments/kern/schedule/sched.c:95-159 | every step of fork, exit, reap, up, down, sleep, timer, wake and schedule keeps the invariant of run queue, process states, timers and semaphores |
| `Scheduling.RunInv` | code-with-comments/kern/schedule/sched.c:95-159 | it holds in every state of every run |
| `Scheduling.QueueExact` | code-with-comments/kern/schedule/sched.c:95-159 | the run queue holds each runnable process that is not current or idle exactly once and no other |
| `Scheduling.HistoryExact` | code-with-comments/kern/schedule/sched.c:95-159 | in every state of every run the processes are those forked and not reaped, zombies those that ended, asleep exactly those that went to sleep and were not woken, and timers are pending for exactly those in do_sleep whose timer has not fired |
| `Scheduling.MayGoOn` | code-with-comments/kern/schedule/sched.c:95-159 | what the current process may do next, told by what has happened so far |
| `Scheduling.ValueCounts` | code-with-comments/kern/sync/sem.c:16-54 | in every run the value of a semaphore is its initial value and its ups, less the downs granted |
| `Scheduling.Accounts` | code-with-comments/kern/sync/sem.c:16-65 | value > 0 means an empty wait queue, and value = initial + ups - granted downs, for every semaphore of every run |
| `Scheduling.AssertsHold` | code-with-comments/kern/schedule/sched.c:228-245 | the assertions of __up, down, run_timer_list and wakeup_proc never fail: whom an up wakes sleeps for that semaphore, whoever runs again inside down was granted it, and whom a timer wakes, without a look at its state, is an interruptible sleeper or woken and not yet resumed |
| `Scheduling.TimerPending` | code-with-comments/kern/process/proc.c:1324-1346 | whoever sleeps in do_sleep has a timer pending, whose firing wakes it |
| `Scheduling.TimerStep` | code-with-comments/kern/schedule/sched.c:228-245 | any pending timer may fire, and the invariant is kept |
| `Scheduling.UpStep` | code-with-comments/kern/sync/sem.c:16-30 | an up keeps the invariant, waking the first waiter |
| `Scheduling.DownStep` | code-with-comments/kern/sync/sem.c:32-54 | a down keeps it, whether it blocks or not, by idle too when a unit is left |
| `Scheduling.ScheduleStep` | code-with-comments/kern/schedule/sched.c:136-159 | a switch keeps it |
| `Scheduling.MovesUp` | code-with-comments/kern/schedule/rr_sched.c:14-42 | a queued process moves up one place per switch and is never overtaken |
| `Scheduling.Runs` | code-with-comments/kern/schedule/rr_sched.c:14-42 | no starvation: the process at place i runs at the latest with the (i+1)-th switch of any run |
| `Timers.AddKeeps` | code-with-comments/kern/schedule/sched.c:161-181 | inserting a timer in the delta list represents its absolute deadline, behind equal ones |
| `Timers.RemoveKeeps` | code-with-comments/kern/schedule/sched.c:188-205 | removing a timer keeps every other deadline |
| `Timers.TickKeeps` | code-with-comments/kern/schedule/sched.c:221-226 | one tick off the head is one tick off every deadline |
| `Timers.NoOverflow` | code-with-comments/kern/schedule/sched.c:194-199 | del_timer's addition fits in 32 bits |
| `Timers.Front` | code-with-comments/kern/schedule/sched.c:228-245 | the head is the next timer to fire: of those due, the earliest inserted |
| `Timers.FiresOnTime` | code-with-comments/kern/schedule/sched.c:161-252 | a timer fires on its expires-th tick after insertion and on none before |
| `Timers.Waits` | code-with-comments/kern/schedule/sched.c:161-252 | a timer that is not deleted keeps its deadline through any other calls |
| `Timers.TimerList.constructor` | code-with-comments/kern/schedule/sched.c:72-72 | no timers |
| `Timers.TimerList.AddTimer` | code-with-comments/kern/schedule/sched.c:161-181 | records the deadline; the head delta stays positive |
| `Timers.TimerList.DelTimer` | code-with-comments/kern/schedule/sched.c:188-205 | forgets exactly that timer, if it is there |
| `Timers.TimerList.RunTimerList` | code-with-comments/kern/schedule/sched.c:214-252 | a tick wakes exactly the timers due, equal deadlines in order of insertion; its assertion on the head holds |
| `Timers.Execute` | code-with-comments/kern/schedule/sched.c:161-252 | any mix of add, delete and tick wakes on every tick exactly what the map of absolute deadlines says |

## Left out

- Boot code, traps, interrupt controllers, devices, console, cache and TLB effects, and context switching itself: hardware effects.
- Device errors: disk transfers succeed; running out of blocks, slots and frames is modelled.
- Swapping with several address spaces, and fork with swapped-out pages: the source keeps one FIFO list and skips absent entries.
- The ELF loader, `copy_string` and `user_mem_check`: loops that would only add easier members.
- File descriptors, path lookup, directory entries and the VFS open paths: no deep property beyond the inode cache.
- Semaphore and lock calls inside SFS and the mm: operations run one at a time there; the interleavings are modelled in the inode cache, the monitor and the scheduler.
- Stride.Schedule: the run queue is a value passed and returned while processes are objects updated in place, so aliasing of the queue structure itself is not modelled.
- SlobAllocator.Slob.SlobAlloc: the alignment argument, which is 0 at every call.
- Kmalloc.Kheap.Kmalloc: that pages handed out are fresh and not next to the arena is assumed of the page allocator.
- ForkExit.Memory.MmMap: whether `vma_create` gets its memory is a parameter.
- ForkExit.Memory.AllocPage: no eviction during fork; a frame is free or allocation fails.
- Paging.Mm.DoPgfault: accesses are to single bytes, and a fresh page has arbitrary content, as the source does not zero it.
- Bitmaps.Bitmap.Alloc: a machine word is the sequence of its bits; masks and shifts are bit positions.
- Processes.Kernel.Fork: the resources of a process (stack, files, memory) are not part of the tree model.
- Processes.Kernel.Wait: one pass up to `schedule`; the caller loops.
- Scheduling.RunInv: time slices and the tick only decide when `schedule` is called, and it may be called at any step; semaphore operations from interrupt handlers do not occur in the source.
- MksfsImage.Builder.OpenFile: reads of the host file return full blocks until its end; names, directory entries and link counts are not modelled, and an inode's type word is a parameter.
- MksfsImage.Builder.Close: the text in the super block is a parameter.
- MksfsImage.Mount: memory for the mount's own structures is there.
- Hash quality, random numbers, printing, logging and the kernel's own self tests.
