# A model of the teaching kernel's memory, threads and inodes

Four parts of the kernel, each as functions on its state together with objects whose methods change it in
place the way the C code does, and theorems about every state the code can reach.

**Memory** (`kernel/memory.c`, `lib/bitmap.c`, `proc/process.c`, the loader's page tables). Frames and virtual
pages in bitmaps, page tables reached through directory entry 1023, and the arena heap above them. `Paging`
has the MMU's walk as a function of memory, independent of the kernel's own address arithmetic; `PageTables`
compares the two. `Pages` is the allocator on values, `PagesInvariant` and `PageAlloc` keep bitmaps, tables
and pools in agreement, `PageCounts` says in advance what malloc_page will need, `AccessRights` that its pages
can be written in user mode, `PoolLayout` splits memory and starts the pools, `PageManager` runs the loops,
and `PallocRuns` interleaves the steps of palloc and vaddr_get. `Heap` to `HeapSafety` do the same for
sys_malloc and sys_free, `HeapAnswers` says what each call gives and changes, and `HeapManager` runs their
loops. `Processes` and `HeapProcess` make the address space of a process, whose directory is itself a frame of
the kernel pool.

**Threads** (`thread/thread.c`, `thread/lock.c`, `device/timer.c`, `device/io_queue.c`). `Scheduler` is a
transition system with any number of threads and semaphores on one processor. What runs with interrupts off is
one step, up to a context switch; a failed assertion stops the kernel (`panic`). A thread asleep in sem_down
is woken to retest. `Semaphores`, `Accounting` and `KernelRuns` prove the invariants of every run,
`TimeSlices` how long a thread runs. `Mutexes` and `IoQueues` put program counters on top: each statement of
mutex_lock, mutex_unlock, putchar and getchar is a step of its own, and anything else may happen between two
of them, for the queue also an interrupt that calls putchar on top; `IoQueueJams` says who then waits for
ever. `Processor`, `MutexManager` and `IoQueueManager` have the functions in place.

**Lists** (`lib/list.c`). Nodes linked between two sentinels refine a duplicate-free sequence. The other parts
use sequences for the lists.

**Disk and inodes** (`device/disk.c`, `fs/inode.c`). Requests are cut into commands that the device decodes
from its registers; 76-byte records lie across sectors; open inodes are counted in a cache (`InodeCache`),
which any number of threads open, close, sync and change statement by statement (`InodeRuns`); `InodeSyncs`
says what that does to the disk, and `InodeRaces` has the runs that go wrong.

Counters that only the proofs need (`ticks`, `refills`, `downs`, `ups`, `depth`, `inside`, `written`, `read`,
`lost`, `nullTables`, `commands`, `opens`, `closes`, `synced`, `given`, `wild`, `unset`) are history: no
branch of the code depends on them.

## Where the code and its intent differ

Modelled as it is, with what it costs:

- `bitmap_scan` (lib/bitmap.c:40-41) overwrites `position` before it computes `left`, so a failed search for two
  or more bits stops the kernel unless every bit is set: `Bitmaps.ScanMeetsItsPromise`. Its test of the byte
  before the bound (lib/bitmap.c:21) is modelled with the bound first.
- `malloc_page` (kernel/memory.c:201-203) returns NULL without undoing its reservation and mappings. They are
  recorded in `lost`; `PageAlloc.RefusalLeaksIff` says when nothing leaks.
- `page_table_add` (kernel/memory.c:176) uses physical address 0 as a page table when the kernel pool is empty:
  `PageTables.NullTablesCollide`. `PageAlloc.MallocPageKeeps` and `HeapInvariant.UncoveredBreaks` say exactly
  when that happens, before the call: when the kernel pool has fewer clear bits than the run lacks page tables.
  Kernel heap pages have their tables from boot on, so kernel-context calls never need one.
- palloc and vaddr_get are a search of a bitmap and then bitmap_sets, and not every caller holds a lock:
  get_kern_pages (kernel/memory.c:276-282) holds none for the kernel pool and the kernel's virtual pages, and a
  user sys_malloc holds the user pool's when page_table_add takes a table from the kernel pool
  (kernel/memory.c:387, 176). `PallocRuns.ExclusiveIff` says when two callers get the same,
  `PallocRuns.RacingPallocs` that they can, `PallocRuns.DisturbedSearchIff` when a search goes astray.
- `vaddr_to_phy` answers a number for an unmapped page: `Paging.VaddrToPhyAgreesWithWalk`.
- The loader enters its first page table twice (boot/loader.S:239-240): `PoolLayout.BootDirectoryAliases`. The
  translation theorems therefore speak of the pages that share an entry.
- `mem_pool_init` subtracts 2 MiB unsigned and keeps 16 bits of the page count: `PoolLayout.FramesAreRealIff`,
  `PoolLayout.AllMemoryIff`.
- A thread's priority is a byte and its slice a word (thread/thread.c:76-78): `Accounting.NewThreadBooks`. The
  tick counters wrap at 2^32.
- `sem_up` overflows its byte at 255 and stops the kernel, exactly then.
- `mutex_unlock` assigns in its assertion (thread/lock.c:72), so any thread may call it:
  `Mutexes.UnlockKeepsIff`, `Mutexes.StrangerUnlockBreaks`, `Mutexes.FreeUnlockFails`. `recursion` is a byte:
  `Mutexes.DeepNestingBreaks`.
- The keyboard handler calls io_queue_putchar on top of whatever thread runs (device/keyboard.c:161). On top of
  idle that is harmless exactly while the semaphores are positive: `SchedulerProofs.IdleDownIff`,
  `KernelRuns.IdleMustNotSleep`, `KernelRuns.SleepingIdleRuns`. On top of an operation of the same queue that holds the mutex it sleeps for
  ever, and so does everybody who calls the queue after that: `IoQueueJams.StuckIff`,
  `IoQueueJams.StrangerSticks`. The buffer itself stays correct.
- `io_queue_full` (device/io_queue.c:14) takes the indices the wrong way round: `IoQueues.QueueFullIff`.
- `ide_write` has the arms of its chunk choice swapped and cuts the count to a byte (device/disk.c:231-232):
  `Disks.SentIff`. `Disk.IdeWrite` is the function as it is, `Disk.IdeWriteMeant` has the arms of ide_read, and
  the inode theorems rest on the latter; `InodeCache.SyncAsWrittenIff` says what a sync does with the former.
- `inode_open` is not atomic: two threads may link the same number (`InodeRaces.RacingOpens`), a user may be
  counted before the count is set (`InodeRaces.LostCount`, `InodeRaces.LateCount`), and an inode or a node of the
  list may be closed and freed under it (`InodeRaces.StaleCount`, `InodeRaces.StaleReuse`, `InodeRaces.WalkFreed`,
  `InodeRaces.LinkFreed`). `InodeRuns.OneCopyIff` and `InodeRuns.ServesIff` say exactly when it goes wrong.
- Nor is `inode_sync`: `InodeSyncs.SyncsIff` says exactly when it takes back what was written beside its record,
  `InodeRaces.LostSync` that it can.
- `inode_open` trusts the number in the record it reads (fs/inode.c:99-104). A formatted partition has record 0
  and zeroes (fs/fs.c:80-91), so files never synced all come in as number 0: `InodeRaces.FormattedOpens`,
  `InodeCache.SecondOpenIff`. A number once synced is read back: `InodeSyncs.SyncedRead`.

Modelled as meant, because what the code does has no defined meaning:

- `pte_ptr` (kernel/memory.c:137-142) has no return statement; it is taken to return `pte`.
- `intr_set_status` (kernel/interrupt.c:167-173) tests an uninitialised variable; interrupts are taken to be
  restored to the saved status.

## Model

| member | source | states |
|---|---|---|
| Bitmaps.Bitmap.constructor | lib/bitmap.c:6-9 | A new bitmap of `len` bytes has 8 * len clear bits. |
| Bitmaps.Bitmap.Has | lib/bitmap.c:12-17 | The bit at a position inside the bitmap. |
| Bitmaps.Bitmap.FirstClear | lib/bitmap.c:20-36 | The lowest clear bit, found by bytes and then by mask; none exactly when every bit is set. |
| Bitmaps.Bitmap.Scan | lib/bitmap.c:19-54 | For every bitmap and every cnt >= 1 the loops return the lowest start of cnt consecutive clear bits, or -1 for a full bitmap or a failed search for one bit, and stop the kernel in every other failed search. |
| Bitmaps.Bitmap.Set | lib/bitmap.c:63-68 | Exactly one bit changes: it is set. |
| Bitmaps.Bitmap.Clear | lib/bitmap.c:56-61 | Exactly one bit changes: it is cleared. |
| Bitmaps.ScanMeetsItsPromise | lib/bitmap.c:19-54 | The scan answers -1 when no run exists, rather than tripping the assertion of bitmap_has, if and only if a run exists, one bit was wanted, or every bit is set. |
| Bitmaps.FailedScanPanics | lib/bitmap.c:39-53 | A concrete failed search that stops the kernel: one clear bit, two wanted. |
| Bitmaps.SetThenClearRestores | lib/bitmap.c:56-68 | Setting and then clearing the run a scan found restores the bitmap bit for bit. |
| Bitmaps.BitPlace | lib/bitmap.c:12-17 | Bit i is in byte i / 8, of weight 1 for the first of eight and 128 for the last. |
| LinkedLists.ListInsertBefore | lib/list.c:14-24 | On any chain of linked nodes, the four assignments insert the node before the target and link the new chain; only three nodes are written. |
| LinkedLists.ListRemove | lib/list.c:37-45 | On any chain, unlinks an inner node and leaves the rest linked. |
| LinkedLists.LinkedList.constructor | lib/list.c:6-11 | A new list is valid and empty. |
| LinkedLists.LinkedList.InsertBefore | lib/list.c:14-24 | Refines insertion into a duplicate-free sequence; prev and next stay mutually inverse from head to tail. |
| LinkedLists.LinkedList.PushFront | lib/list.c:27-29 | The node becomes the first element. |
| LinkedLists.LinkedList.PushBack | lib/list.c:32-34 | The node becomes the last element. |
| LinkedLists.LinkedList.Remove | lib/list.c:37-45 | The element is dropped and the others keep their order. |
| LinkedLists.LinkedList.Size | lib/list.c:48-56 | Terminates with the length of the sequence. |
| LinkedLists.LinkedList.PopFront | lib/list.c:59-66 | Null for the empty list; otherwise the first element, which is dropped. |
| LinkedLists.LinkedList.PopBack | lib/list.c:69-76 | Null for the empty list; otherwise the last element, which is dropped. |
| LinkedLists.LinkedList.Traversal | lib/list.c:79-88 | Terminates with the first element the test accepts, null when none does. |
| LinkedLists.LinkedList.Exist | lib/list.c:90-99 | True exactly for the elements of the sequence, so never for a sentinel. |
| LinkedLists.LinkedList.Empty | lib/list.c:101-103 | True exactly for the empty sequence. |
| LinkedLists.WakeFirst | thread/lock.c:18-22 | The same tag leaves the front of the wait queue and enters the front of the ready list; both stay valid lists. |
| LinkedLists.InsertBeside | lib/list.c:14-24 | Inserting into one list leaves every node and link of another list as it was. |
| Paging.PdePtrHitsPde | kernel/memory.c:145-150 | With the self-map in directory entry 1023, walking the tables on pde_ptr(v) lands on the directory entry the MMU uses for v. |
| Paging.PtePtrHitsPte | kernel/memory.c:137-142 | Walking the tables on pte_ptr(v) lands on the page-table entry the MMU uses for v, and faults exactly when v has no page table (section 4.3 of the Intel 64 and IA-32 manual, volume 3A). |
| Paging.VaddrToPhyAgreesWithWalk | kernel/memory.c:327-330 | vaddr_to_phy equals the MMU's walk if and only if v is mapped or has no page table; it always answers a number for an unmapped page with a table. |
| PageTables.AddTranslation | kernel/memory.c:167-182 | After page_table_add, with or without a new zeroed page table, the translation of every page below 0xffc00000: the page and those that share its entry have the frame, every other page is as before. The rights: `AccessRights.AddAccess`. |
| PageTables.AddRefusesMapped | kernel/memory.c:169-181 | A page that is mapped already fails the assertion. |
| AccessRights.AddAccess | kernel/memory.c:167-182 | With the access rights of 32-bit paging at both levels (section 4.6 of the Intel 64 and IA-32 manual, volume 3A): after page_table_add on a page whose directory entry is absent or grants R/W and U/S, a user-mode write to the page is permitted and reaches the frame, and every page that does not share its entry has the rights it had. |
| AccessRights.AddRights | kernel/memory.c:167-182 | page_table_add keeps it so that every entry present grants user-mode writes. |
| AccessRights.MappedWritable | kernel/memory.c:174-180 | Then a user-mode write is permitted on exactly the mapped pages, and reaches the frame the page is mapped to. |
| AccessRights.MallocRights | kernel/memory.c:187-208 | malloc_page keeps that and hands out only pages that can be written in user mode. |
| AccessRights.FreeRights | kernel/memory.c:260-271 | So does free_page for what stays mapped. |
| AccessRights.BootRights | boot/loader.S:230-270 | The loader's directory and tables grant user-mode writes in every entry. |
| AccessRights.ProcessRights | proc/process.c:49-71 | So do the directory create_page_dir makes and its entry on itself. |
| PageTables.AddLeavesOthersIff | kernel/memory.c:167-182 | Another page translates as before if and only if it does not share the entry written. |
| PageTables.AddThenVaddrToPhy | kernel/memory.c:327-330 | vaddr_to_phy finds the frame just added, at every offset. |
| PageTables.AddKeepsSelfMap | kernel/memory.c:167-182 | Adding a page keeps directory entry 1023 pointing at the directory. |
| PageTables.RemoveTranslation | kernel/memory.c:228-234 | After page_table_remove exactly the pages on that entry are unmapped; all others translate as before. |
| PageTables.NullTablesCollide | kernel/memory.c:176-178 | What the unchecked palloc costs: with the kernel pool empty, mapping a page in a second directory entry without a table puts that table at address 0 too and erases the first page's mapping there. |
| PagesInvariant.PallocFacts | kernel/memory.c:154-163 | palloc gives the lowest free frame of its own pool and sets just its bit; it fails exactly when the pool is full. |
| PageAlloc.MappingInjective | kernel/memory.c:187-208 | Under the invariant distinct mapped heap pages have distinct frames, and the pool bit of each is set. |
| PageAlloc.KernelFramesAccounted | kernel/memory.c:154-182 | Conservation: a kernel frame is taken exactly when it backs a kernel heap page, is a page table of this address space, or belongs to another one (`Pinned`); `MallocPageKeeps`, `FreePageKeeps` and the run theorems keep the pinned frames what they were, so no call leaks a frame into that class. |
| PageAlloc.UserFramesAccounted | kernel/memory.c:154-182 | A user frame is taken exactly when it backs a user heap page or belongs to another address space; never for a page table. |
| PageAlloc.ReservedIffMapped | kernel/memory.c:105-132 | With nothing leaked, a heap page's virtual bit is set exactly when its entry is present. |
| PageAlloc.VaddrGetKeeps | kernel/memory.c:105-132 | vaddr_get reserves a run of its own range none of which was reserved, and keeps the invariant. |
| PageAlloc.MapPagesKeeps | kernel/memory.c:199-206 | The loop of malloc_page maps the pages in order to fresh frames of its pool and keeps the invariant, whether it completes or runs out. |
| PageAlloc.MapFailsOnlyWhenFull | kernel/memory.c:199-203 | The loop returns NULL only when its pool has no free frame left. |
| PageCounts.MapCounts | kernel/memory.c:199-206 | The loop of malloc_page counted before it runs: it completes if and only if its pool has a clear bit for each page; and, with user frames, it puts exactly as many page tables at physical address 0 as the directory entries it comes to that lack a table exceed the clear bits of the kernel pool. |
| PageAlloc.MallocCounts | kernel/memory.c:187-208 | malloc_page stops the kernel exactly when its count is out of range, the scan panics, or a user run starts at the last page below 3 GiB; it grants a run exactly when one is found and its pool has cnt clear bits; it puts no table at address 0 exactly when the kernel pool covers the tables the run lacks, and otherwise no account of the frames satisfies the invariant any more. |
| PageAlloc.MallocPageKeeps | kernel/memory.c:187-208 | malloc_page keeps the agreement of bitmaps, page tables and pools if and only if, before the call, the kernel pool covers the page tables the run lacks; it then grants a mapped, reserved, formerly unused run or returns NULL having reserved and mapped what is then leaked, and pins no frame. |
| PageAlloc.RefusalLeaksIff | kernel/memory.c:191-203 | malloc_page returns NULL with the state as it was if and only if the count is in range and the virtual bitmap was full; it returns NULL and leaks if and only if a run was found for which its pool has too few clear bits. |
| PageAlloc.UnmapOneKeeps | kernel/memory.c:266-268 | One round of free_page returns the page's frame and clears its entry, keeping the invariant with the page in limbo. |
| PageAlloc.UnmapPagesKeeps | kernel/memory.c:265-270 | The whole loop releases exactly the frames of the run. |
| PageAlloc.FreePageKeeps | kernel/memory.c:260-271 | free_page of a mapped, unleaked run that the directory is not in passes every assertion, releases its frames and bits and keeps the invariant. |
| PageAlloc.FreeUndoesMalloc | kernel/memory.c:187-271 | free_page after a successful malloc_page whose page tables the kernel pool covered restores both virtual bitmaps, the translation of every heap page and the data frames; only page tables newly made for user pages stay. |
| PallocRuns.TwoStepsArePalloc | kernel/memory.c:154-163 | With nobody in between, the search and the setting of the bit are palloc. |
| PallocRuns.StepsAreVaddrGet | kernel/memory.c:105-132 | And the search and as many bitmap_sets as pages are vaddr_get. |
| PallocRuns.StepExclusiveIff | kernel/memory.c:105-163 | A step of any caller, with others between their search and their bitmap_sets, gives no frame or page twice if and only if it does not set a bit that is set already. |
| PallocRuns.ExclusiveIff | kernel/memory.c:105-163 | So over every interleaving of searches, sets and frees, whatever position a search ends with while others change the bitmap. |
| PallocRuns.DisturbedSearchIff | lib/bitmap.c:30-36 | The second loop of bitmap_scan, reading the byte afresh in each round, stops behind it, on bit 0 of the next byte or past the end, if and only if every round found its own bit set; otherwise on the first bit its round found clear. |
| PallocRuns.SteadySearchIff | lib/bitmap.c:30-36 | With the byte at rest during that loop, if and only if it was filled since the first loop looked at it. |
| PallocRuns.NeverFull | lib/bitmap.c:30-36 | With bits freed and set during the loop it happens in a byte that is never full. |
| PallocRuns.LockedExclusive | kernel/memory.c:105-163 | Callers that go one at a time, as under one lock, never get the same frame or page, and never set a bit past the end. |
| PallocRuns.RacingPallocs | kernel/memory.c:276-282 | get_kern_pages takes frames and virtual pages without a lock: two callers whose searches both end before either sets a bit get the same, whenever there is anything to get. |
| Processes.ProcessTranslation | proc/process.c:59-71 | A new process directory translates the kernel's quarter as before and no other page. |
| Processes.SwitchInv | proc/process.c:59-71 | Switching to a directory whose frame backs a kernel heap page keeps the page invariant, the creator's user frames now belonging to another address space. |
| Processes.ProcessInv | proc/process.c:49-71 | From every state of the page invariant, what create_page_dir leaves satisfies it: the directory is a taken kernel-pool frame that backs the page just allocated, kernel pages translate as before, no user page is mapped. |
| PoolLayout.BitmapsFit | kernel/memory.c:52-102 | For every 32-bit memory size the three bitmaps follow one another inside the four reserved pages. |
| PoolLayout.MemSplit | kernel/memory.c:52-98 | For every 32-bit memory size: the pools together are the pages above 2 MiB, as 16 bits; the user pool starts behind the kernel pool and is as large or one page larger; each bitmap is the longest whose bits all stand for pages of its pool, and the kernel's virtual bitmap is as long as its pool's. |
| PoolLayout.AllMemoryIff | kernel/memory.c:55-58 | All of memory above 2 MiB but for less than a page is in the pools if and only if there are at least 2 MiB and less than 258 MiB. |
| PoolLayout.SplitOf32M | kernel/memory.c:52-98 | With 32 MiB: 3840 pages each, the user pool from 0x1100000. |
| PoolLayout.PoolsDisjoint | kernel/memory.c:52-102 | Frames of the kernel pool lie in it and below all frames of the user pool; no frame comes from both. How large they are: `PoolLayout.MemSplit`. |
| PoolLayout.FrameInPool | kernel/memory.c:154-163 | Every frame palloc can hand out lies inside its own pool. |
| PoolLayout.WrappedSize | kernel/memory.c:52-60 | Below 2 MiB the unsigned subtraction wraps and gives a non-empty kernel pool past the end of memory. |
| PoolLayout.FramesAreRealIff | kernel/memory.c:52-102 | Every frame either pool can hand out lies in real memory if and only if there are at least 2 MiB. |
| PoolLayout.BootInv | boot/loader.S:222-270 | The loader's page directory and mem_pool_init establish the page invariant, for every memory size. |
| PoolLayout.BootPools | kernel/memory.c:52-102 | The pools and ranges after mem_init: where they start, how many bits they have for the memory size, all clear. |
| PoolLayout.BootTranslation | boot/loader.S:230-270 | What every virtual page translates to under the loader's directory: the low megabyte at 0 and 3 GiB, the tables and the directory through entry 1023, and nothing else. |
| PoolLayout.BootDirectoryAliases | boot/loader.S:238-240 | Entries 0 and 768 share a page table, so the first kernel heap page once mapped also appears at virtual address 0x100000. |
| PageManager.Memory.constructor | kernel/memory.c:52-102 | Creates the bitmaps and the boot directory: the boot state. `PoolLayout.BootPools` gives its pools for the memory size. |
| PageManager.Memory.SetBits | kernel/memory.c:110-112 | The loop of vaddr_get sets exactly the run's bits. |
| PageManager.Memory.ClearBits | kernel/memory.c:253-256 | The loop of vaddr_remove clears exactly the run's bits. |
| PageManager.Memory.VaddrGet | kernel/memory.c:105-132 | Does to the bitmaps what Pages.VaddrGet says, in every case. |
| PageManager.Memory.Reserve | kernel/memory.c:109-126 | Sets the bits of the run found and checks the user range. |
| PageManager.Memory.Palloc | kernel/memory.c:154-163 | Does to the pool what Pages.Palloc says. |
| PageManager.Memory.PageTableAdd | kernel/memory.c:167-182 | Writes the entries through the self-map addresses and does what Pages.PageTableAdd says; false exactly where the kernel stops. What that means: `PageTables.AddTranslation`, `AccessRights.AddAccess`. |
| PageManager.Memory.MapPages | kernel/memory.c:199-206 | The loop of malloc_page does what Pages.MapPages says. |
| PageManager.Memory.MallocPage | kernel/memory.c:187-208 | Does what Pages.MallocPage says. |
| PageManager.Memory.Pfree | kernel/memory.c:211-225 | Does what Pages.Pfree says. |
| PageManager.Memory.PageTableRemove | kernel/memory.c:228-234 | Clears the present bit through the self-map address, as Pages.PageTableRemove says. |
| PageManager.Memory.UnmapOne | kernel/memory.c:266-268 | One round of free_page's loop, as Pages.UnmapOne says. |
| PageManager.Memory.FreePage | kernel/memory.c:260-271 | Does what Pages.FreePage says. |
| HeapBlocks.BlockInPage | kernel/memory.c:344-352 | A block lies in its arena's page behind the 12-byte header, and masking its address gives the arena. |
| HeapBlocks.BlocksApart | kernel/memory.c:344-347 | Different blocks of an arena do not overlap. |
| HeapBlocks.TakeKeeps | kernel/memory.c:441-445 | Popping a free block makes it live, counts it off its own arena and keeps every other block, list and counter. |
| HeapBlocks.PutKeeps | kernel/memory.c:477-478 | Pushing a live block back makes it free, counts it on its arena and keeps everything else; the counter never passes the number of blocks. |
| HeapArenas.CutAppends | kernel/memory.c:432-436 | The cutting loop's assertion never fails and the list gains exactly the arena's blocks in order. |
| HeapArenas.RemoveBlocksIsWithout | kernel/memory.c:482-487 | The removal loop takes out exactly the arena's blocks; the others keep their relative order. |
| HeapArenas.NewArenaOk | kernel/memory.c:418-427 | A granted run overlaps no arena. |
| HeapArenas.ReleaseArena | kernel/memory.c:475 | Giving an arena's pages back succeeds and leaves every other arena its mapped pages. |
| HeapInvariant.NewArenaKeeps | kernel/memory.c:418-438 | A new arena has all its blocks free and its counter says so; all else is kept. |
| HeapInvariant.SysMallocKeeps | kernel/memory.c:360-450 | sys_malloc keeps the heap invariant: a new object of the size asked for, or NULL; it stops the kernel exactly when it needs pages and malloc_page stops. Which it is: `HeapAnswers.NullIff`, `TakesFirst`, `TakesNew`, `TakesPages`. |
| HeapInvariant.FullArenaNotLive | kernel/memory.c:480-481 | When cnt reaches the number of blocks, none of the arena's blocks is live and all are on the list. |
| HeapInvariant.ReclaimKeeps | kernel/memory.c:481-489 | Reclaiming a wholly free arena succeeds, removes exactly its blocks and its page, and keeps the rest. |
| HeapInvariant.SysFreeKeeps | kernel/memory.c:453-492 | sys_free of a live object in its context passes every assertion and keeps the invariant; a small arena is given back if and only if the object was its last live one. |
| HeapInvariant.SomeLive | kernel/memory.c:481 | An arena whose counter is short of its blocks has a live object. |
| HeapAnswers.NullIff | kernel/memory.c:360-450 | Where sys_malloc does not stop the kernel it returns NULL if and only if the size exceeds that of the pool, or the call wants n pages and, before it, there is no run of n clear virtual bits or the pool has fewer than n clear bits. It wants as few pages as hold the object behind the header, or one when no block of the smallest class holding it is free. |
| HeapAnswers.HaltIff | kernel/memory.c:360-450 | It stops the kernel if and only if the size is in range and malloc_page stops on the pages wanted. |
| HeapAnswers.PageHaltsIff | kernel/memory.c:187-197 | malloc_page stops the kernel if and only if the count is 0 or at least 3840, or the range is not full but has no run of that length, or every run of a user range starts in the last page below 3 GiB. |
| HeapAnswers.FreeHaltsIff | kernel/memory.c:236-271 | And free_page of mapped pages if and only if the count is out of range or the run not in its range. |
| HeapAnswers.UnmapHaltsIff | kernel/memory.c:211-234 | One round of free_page stops the kernel if and only if the page has no page table or the frame in its entry, present or not, is not of the pool. |
| HeapAnswers.LowestPages | kernel/memory.c:105-132 | The pages given are the lowest free run of their range. |
| HeapAnswers.TakesFirst | kernel/memory.c:409-449 | With a node on the list of the smallest class holding the size, the answer is the first node; exactly it leaves the list, its arena counts it off, and pages and all other lists are unchanged. |
| HeapAnswers.TakesNew | kernel/memory.c:417-449 | With none, the answer is the block 12 bytes into the page malloc_page gives; the others of the new arena are on the list in ascending order. |
| HeapAnswers.TakesPages | kernel/memory.c:388-406 | A large object is 12 bytes into the first of its pages, and no list changes. |
| HeapAnswers.FreeNullStops | kernel/memory.c:454 | sys_free of NULL stops the kernel. |
| HeapAnswers.PutsLast | kernel/memory.c:477-478 | sys_free of a block whose arena has others in use puts it at the end of its list and changes nothing else but the arena's count. |
| HeapAnswers.GivesArena | kernel/memory.c:475-489 | Of the last one in use, it gives the page back and takes the arena's nodes off the list, which keeps the others in their order; no other list changes. |
| HeapAnswers.GivesPages | kernel/memory.c:474-475 | Of a large object, it gives all its pages back and changes no list. |
| HeapAnswers.FirstObjects | kernel/memory.c:360-450 | From boot with any memory of at least 16 free pages, the first object is at 0xc010000c and the next of its class one block on. |
| HeapSafety.ObjectInArena | kernel/memory.c:344-450 | A live object is at least as long as requested and lies behind its header inside the arena that masking gives back. |
| HeapSafety.ObjectMapped | kernel/memory.c:360-450 | Every byte of a live object is in a mapped page. |
| HeapSafety.ObjectsDisjoint | kernel/memory.c:360-450 | Live objects do not overlap. |
| HeapSafety.NodeMapped | kernel/memory.c:453-492 | No free-list node lies in an unmapped page. |
| HeapSafety.ObjectsApartFromMetadata | kernel/memory.c:344-492 | No byte of a live object belongs to an arena header or a free-list node. |
| HeapSafety.RunKeeps | kernel/memory.c:360-492 | Every sequence of sys_malloc and sys_free calls, kernel or user context, in any address space, keeps the heap invariant and pins no frame if before each sys_malloc the kernel pool covers the page tables its run lacks. |
| HeapInvariant.UncoveredBreaks | kernel/memory.c:176-178 | And not otherwise: after a sys_malloc the kernel pool does not cover, no account of frames and objects satisfies the invariant. |
| HeapSafety.KernelMallocKeeps | kernel/memory.c:360-450 | In kernel context no page table is ever needed, so sys_malloc keeps the invariant unconditionally. |
| HeapSafety.KernelRunKeeps | kernel/memory.c:360-492 | Every sequence of kernel-context calls keeps the invariant. |
| HeapSafety.BootHeapInv | kernel/memory.c:517-521 | The heap mem_init leaves satisfies the invariant, for every memory size. |
| HeapAnswers.BootSizes | kernel/memory.c:517-521 | After mem_init each pool counts its half of the free pages as its size, and nothing is allocated or on a list. |
| HeapSafety.BootKernelRunSafe | kernel/memory.c:360-521 | From boot, every run of kernel-context calls keeps the invariant, with no frame unaccounted for. |
| HeapSafety.FramesFromBoot | kernel/memory.c:154-521 | After any covered run from boot, a kernel frame is taken exactly when it backs a mapped kernel heap page or is the table of some directory entry, and a user frame exactly when it backs a mapped user page. |
| HeapSafety.HeapSafe | kernel/memory.c:344-521 | Heap safety in whole after any run from boot in which the kernel pool covers the page tables before each call: objects long enough, behind their header, in the arena masking gives, mapped, pairwise disjoint; cnt equals the arena's blocks on the free list; a block is free exactly when it is not live. |
| HeapRights.ObjectsWritable | kernel/memory.c:167-450 | After any such run a user-mode write to any byte of a live object is permitted and reaches the frame its page is mapped to. |
| HeapProcess.ProcessHeapInv | proc/process.c:49-80 | The heap a new process finds, the kernel's arenas and objects in its own address space and none of its own, satisfies the heap invariant. |
| HeapProcess.ProcessSafe | proc/process.c:49-80 | Heap safety in a process: boot, any kernel or user calls, the creation of a process, then any covered calls in it leave its objects long enough, mapped and disjoint, every cnt equal to the free blocks of its arena, every block free exactly when it is not live, and the heap invariant. |
| HeapManager.MemBlockInit | kernel/memory.c:333-341 | The loop gives the seven descriptors the sizes 16, 32, 64, 128, 256, 512, 1024 and the counts 255, 127, 63, 31, 15, 7, 3. |
| HeapManager.KernelHeap.constructor | kernel/memory.c:517-521 | mem_init: the boot heap. |
| HeapManager.KernelHeap.CutArena | kernel/memory.c:432-436 | The cutting loop, as Heap.CutBlocks says. |
| HeapManager.KernelHeap.NewArena | kernel/memory.c:418-438 | As Heap.NewArena says. |
| HeapManager.KernelHeap.TakeBlock | kernel/memory.c:441-445 | As Heap.TakeBlock says. |
| HeapManager.KernelHeap.FindClass | kernel/memory.c:409-415 | The loop finds the first descriptor large enough. |
| HeapManager.KernelHeap.SysMalloc | kernel/memory.c:360-450 | As Heap.SysMalloc says, both paths. `HeapAnswers` has what that answers. |
| HeapManager.KernelHeap.DropBlocks | kernel/memory.c:482-487 | The removal loop, as Heap.RemoveBlocks says. |
| HeapManager.KernelHeap.SysFree | kernel/memory.c:453-492 | As Heap.SysFree says, both paths. |
| SchedulerProofs.RequeueKeeps | thread/thread.c:140-147 | A running thread that calls schedule goes to the back of the ready list, in which it was not. |
| SchedulerProofs.IdleIsAsleep | thread/thread.c:149-152 | With nothing ready and no thread running, idle is BLOCKED and in no queue, also when idle itself is blocking. |
| SchedulerProofs.WakeIdleKeeps | thread/thread.c:149-152 | So waking idle meets its assertions and the ready list is not empty afterwards. |
| SchedulerProofs.DispatchKeeps | thread/thread.c:154-161 | The first ready thread becomes the one running thread, out of every queue. |
| SchedulerProofs.ScheduleKeeps | thread/thread.c:135-162 | schedule never fails and always finds a thread to run; nobody but idle starts or stops sleeping. |
| SchedulerProofs.DownKeepsSched | thread/lock.c:31-46 | A pass of sem_down's loop, going through or falling asleep, keeps the queues in order and meets the assertions. |
| SchedulerProofs.IdleDownIff | device/keyboard.c:161 | A sem_down on top of the idle thread, as a key press causes, keeps the queues in order if and only if the semaphore is positive. |
| SchedulerProofs.WakeWaiterKeeps | thread/lock.c:18-22 | The thread sem_up wakes was BLOCKED, in that wait queue only, and not ready. |
| SchedulerProofs.UpKeepsSched | thread/lock.c:14-27 | sem_up keeps the queues in order; its assertion fails exactly when the byte was at 255. |
| SchedulerProofs.YieldKeepsSched | thread/thread.c:237-248 | thread_yield keeps the queues in order. |
| SchedulerProofs.TickKeepsSched | device/timer.c:33-49 | The tick handler keeps the queues in order, with or without preemption. |
| SchedulerProofs.IdleBlockKeepsSched | thread/thread.c:185-214 | idle's thread_block keeps the queues in order. |
| SchedulerProofs.StartKeepsSched | thread/thread.c:108-124 | thread_start keeps the queues in order and meets its assertions. What it starts: `TimeSlices.StartOrder`. |
| TimeSlices.StartOrder | thread/thread.c:71-124 | After thread_start with 0 <= prio < 256 the new thread is READY with priority and slice prio, no time charged and no wait, last of the ready and of all threads; every other thread, list and semaphore is unchanged. Other priorities are cut to a byte, and the slice to a word. |
| TimeSlices.AssertionsStop | thread/thread.c:108-248 | In every state the kernel stops where an assertion of thread_unblock, schedule, thread_yield, sem_down or thread_start fails: on unblocking a thread that is not blocked or is ready, and on queueing one that is in the queue. |
| TimeSlices.WaitingKeeps | thread/thread.c:108-248 | While other threads run, whatever they do, a thread keeps its slice, its priority and its time. |
| TimeSlices.SliceLasts | device/timer.c:33-49 | A thread keeps the processor for as many ticks as its slice; the next tick calls schedule, which refills the slice and puts it behind all ready threads. |
| TimeSlices.FirstSlice | thread/thread.c:71-124 | So the first slice of a new thread, however long it waits for it, is prio ticks on which it stays, and schedule is called on tick prio + 1. |
| SchedulerProofs.StepKeepsSched | thread/thread.c:108-248 | Every step keeps: READY threads are exactly the ready list, the one RUNNING thread is current, every waiter is BLOCKED in its one queue; no assertion fails except sem_up's at 255, exactly then. |
| SchedulerProofs.OneQueue | thread/thread.c:135-248 | A tag is in at most one queue of the whole system; the running thread's is in none. |
| SchedulerProofs.RoundRobin | thread/thread.c:140-155 | A running thread that calls schedule goes behind all ready threads and the first of them runs; with none ready it runs on. |
| SchedulerProofs.YieldOrder | thread/thread.c:237-248 | thread_yield rotates the ready list in the same way. |
| SchedulerProofs.SleepOrder | thread/lock.c:36-41 | Sleepers queue in order; the first ready thread runs next, or idle when there is none. |
| SchedulerProofs.IdleBlockOrder | thread/thread.c:185-214 | Idle, when it blocks, gives way to the first ready thread, and with none ready runs on. |
| SchedulerProofs.WakeOrder | thread/lock.c:18-22 | sem_up wakes the thread that slept longest and puts it first, so it is the next to run. |
| Semaphores.StepEffect | thread/lock.c:14-46 | What a step changes of values, counts and waits: only the completed down or up of that semaphore. |
| Semaphores.StepKeepsSem | thread/lock.c:14-46 | No lost wake-up: with waiters queued, at least as many woken threads have yet to retest as the value says; and value + downs == initial + ups. |
| Semaphores.StaysAsleep | thread/lock.c:14-46 | A thread asleep on a semaphore stays asleep until somebody raises that semaphore. |
| Accounting.NewThreadBooks | thread/thread.c:71-85 | The books of a new thread balance if and only if its priority fits the byte it is stored in. The values: `TimeSlices.StartOrder`. |
| Accounting.ScheduleSlices | thread/thread.c:140-144 | schedule refills the slice of the running caller and touches no other. |
| Accounting.TickBooks | device/timer.c:33-49 | After a tick each thread has ticks == refills * (priority + 1) + (priority - ava_time) and elapsed_time equal to ticks modulo 2^32. |
| Accounting.TickTotal | device/timer.c:40-41 | After a tick the elapsed times of all threads still sum to total_times modulo 2^32. |
| Accounting.StepKeepsBooks | device/timer.c:33-49 | Every mix of ticks, yields, blocks, wake-ups and starts keeps the books. |
| KernelRuns.BootInv | thread/thread.c:194-201 | The state thread_init leaves, with any initialised semaphores, satisfies all invariants. |
| TimeSlices.BootThreads | thread/thread.c:194-201 | After thread_init main runs with priority and slice 32, idle is ready with 10. |
| KernelRuns.NewSemaphore | thread/lock.c:7-10 | sem_init of a new semaphore disturbs no invariant. |
| KernelRuns.RunKeeps | thread/thread.c:108-248 | In every run, any interleaving, all invariants hold; an assertion fails if and only if some semaphore is raised past 255. |
| KernelRuns.RunFromBoot | thread/thread.c:108-248 | The same from boot, spelled out for a semaphore and a thread: queue membership, wake-ups, conservation, books and total. |
| KernelRuns.IdleMustNotSleep | device/keyboard.c:161 | What happens otherwise: with nothing ready, idle at once runs while its tag is linked in the wait queue. |
| KernelRuns.SleepingIdleRuns | thread/thread.c:149-161 | With something ready: over every run after that sem_down in which nobody raises the semaphore, the tag of idle stays linked in its queue, so idle is linked whenever it runs, and it runs as soon as the last ready thread falls asleep. |
| Processors.Processor.constructor | thread/thread.c:194-201 | thread_init: main runs, idle is ready. |
| Processors.Processor.ThreadUnblock | thread/thread.c:218-229 | As Scheduler.ThreadUnblock says, assertions included. |
| Processors.Processor.Schedule | thread/thread.c:135-162 | As Scheduler.Schedule says. |
| Processors.Processor.ThreadBlock | thread/thread.c:204-214 | As Scheduler.ThreadBlock says. |
| Processors.Processor.ThreadYield | thread/thread.c:237-248 | As Scheduler.ThreadYield says. |
| Processors.Processor.ThreadStart | thread/thread.c:108-124 | As Scheduler.ThreadStart says. `TimeSlices.StartOrder` has the new state. |
| Processors.Processor.SemInit | thread/lock.c:7-10 | An empty queue and the value. |
| Processors.Processor.SemUp | thread/lock.c:14-27 | As Scheduler.SemUp says. |
| Processors.Processor.SemDown | thread/lock.c:31-46 | One pass of the loop, as Scheduler.SemDown says. |
| Processors.Processor.TimeIntrHandler | device/timer.c:33-49 | As Scheduler.Tick says. |
| Mutexes.InitInv | thread/lock.c:49-53 | A new mutex satisfies the invariant. |
| Mutexes.StepKeeps | thread/lock.c:57-80 | Every statement of every thread, in any interleaving, keeps the mutex invariant, and the assertion recursion == 0 does not fail. |
| Mutexes.RunKeeps | thread/lock.c:57-80 | So does every run in which nobody nests beyond 256 levels and each unlocks only what it locked. |
| Mutexes.MutualExclusion | thread/lock.c:57-80 | In every reachable state at most one thread is past sem_down and not past its sem_up, the semaphore says whether there is one, the holder is that thread, recursion is its nesting depth in a byte, and only that thread holds locks. |
| Mutexes.UnlockAtOne | thread/lock.c:71-80 | With recursion at 1, mutex_unlock raises the semaphore, whoever calls it. |
| Mutexes.UnlockKeepsIff | thread/lock.c:71-73 | A call of mutex_unlock by any thread in any reachable state keeps the mutex invariant, and its assigning assertion leaves the holder as it was, if and only if the caller holds a lock. |
| Mutexes.UnlockReleasesIff | thread/lock.c:71-80 | mutex_unlock run to its end by a thread that holds locks takes one away, and lets the thread out and raises the semaphore if and only if it was the only one. |
| Mutexes.StrangerUnlockBreaks | thread/lock.c:71-80 | From every state with a thread inside, a mutex_unlock by another thread leads to a run in which both are inside. |
| Mutexes.FreeUnlock | thread/lock.c:71-80 | From every state with nobody inside, a mutex_unlock leaves the caller as holder, recursion at 255 and the semaphore free. |
| Mutexes.FreeUnlockSkips | thread/lock.c:57-66 | The caller's next mutex_lock then returns without sem_down, the mutex still free. |
| Mutexes.FreeUnlockFails | thread/lock.c:57-62 | And the next mutex_lock by another thread stops the kernel at its assertion. |
| Mutexes.DeepNestingBreaks | thread/lock.c:57-80 | From mutex_init, 257 nested locks and one unlock give the mutex back with 256 locks still held. |
| MutexManager.Mutex.constructor | thread/lock.c:49-53 | mutex_init over a new semaphore; the invariant holds. |
| MutexManager.Mutex.LockStatement | thread/lock.c:57-66 | Each statement of mutex_lock, as Mutexes.Apply says. |
| MutexManager.Mutex.UnlockStatement | thread/lock.c:71-80 | Each statement of mutex_unlock, as Mutexes.Apply says. |
| IoQueues.InitInv | device/io_queue.c:4-10 | A new queue satisfies the invariant. |
| IoQueues.StepKeeps | device/io_queue.c:19-36 | Every statement of every producer and consumer, in any interleaving and with operations interrupting each other on one thread, keeps the invariant; the queue's own sem_ups never overflow. |
| IoQueues.ReadStep | device/io_queue.c:22 | A consumer about to read finds a pending character, and it is the next one written. |
| IoQueues.WriteStep | device/io_queue.c:32 | A write puts its character at the end of the pending ones and leaves those alone. |
| IoQueues.BoundedBuffer | device/io_queue.c:19-36 | In every reachable state what was read is a prefix of what was written, at most 64 characters are pending and sit in order modulo 64, slots + items + operations in flight make 64, and one operation at most is inside. |
| IoQueues.WritesFreeCell | device/io_queue.c:31-33 | No unread cell is overwritten. |
| IoQueues.PutcharWrites | device/io_queue.c:28-36 | Whatever happens between a call of putchar and its write, it writes the character it was called with, at rear. |
| IoQueues.GetcharReturns | device/io_queue.c:19-27 | And getchar returns the character it read, the next written that nobody had read. |
| IoQueues.QueueFullIff | device/io_queue.c:12-17 | The test of io_queue_full has the indices the wrong way round: with no operation in flight it answers full if and only if one character is pending, so it is right if and only if neither one nor 64 are. |
| IoQueueJams.LiveStep | device/io_queue.c:19-36 | Every statement keeps the operations of each thread nested: with one in the critical section, those on top of it are before the mutex; and a thread asleep on one of the semaphores is at that sem_down. |
| IoQueueJams.InterruptSticks | device/io_queue.c:29-31 | A putchar on top of an operation of the same thread in the critical section puts the thread to sleep on the mutex below which it holds it. |
| IoQueueJams.StuckForever | device/io_queue.c:19-36 | In every run from such a jam, whatever anybody does, each thread asleep on the mutex stays asleep. |
| IoQueueJams.Enter | device/io_queue.c:19-36 | Without a jam there is always a run of ticks, retests and statements of the queue that takes a given sleeper into the critical section. |
| IoQueueJams.StuckIff | device/io_queue.c:19-36 | So a thread asleep on the mutex is never woken if and only if the operation in the critical section is below another operation of its own thread, whichever thread that is; otherwise some run takes the sleeper in. |
| IoQueueJams.StuckFromInit | device/io_queue.c:4-36 | The same in every state reached from io_queue_init. |
| IoQueueJams.HandlerSticks | device/keyboard.c:161 | A jam comes about from every fresh queue: putchar as far as its write, and a key press on top. |
| IoQueueJams.StrangerSticks | device/io_queue.c:29-31 | A second thread that calls putchar after that waits for ever too, though no operation of its own is in the way. |
| IoQueueManager.IoQueue.constructor | device/io_queue.c:4-10 | io_queue_init over three new semaphores at 64, 0 and 1: a fresh queue with 64 cells. |
| IoQueueManager.IoQueue.Putchar | device/io_queue.c:29-30 | A call of io_queue_putchar, as IoQueues.Apply says. |
| IoQueueManager.IoQueue.Getchar | device/io_queue.c:19-20 | A call of io_queue_getchar, as IoQueues.Apply says. |
| IoQueueManager.IoQueue.SemStatement | device/io_queue.c:19-36 | The semaphore statements, as IoQueues.Apply says. |
| IoQueueManager.IoQueue.BufferStatement | device/io_queue.c:22-33 | The statements on the array and its indices, as IoQueues.Apply says. |
| Disks.LbaReassembles | device/disk.c:139-152 | The four register pieces reassemble to the address modulo 2^28, so to the address if and only if it fits; the assertion's range does; the disk bit is undisturbed. |
| Disks.CountDecodes | device/disk.c:132-135 | The count byte decodes to the chunk size if and only if that is 1 to 256. |
| Disks.ChunksCover | device/disk.c:197-217 | The commands of a request cover exactly its sectors in order, in chunks of 1 to 256. |
| Disks.ChunkAt | device/disk.c:197-217 | There are as few chunks as hold the request: each but the last has 256 sectors. |
| Disks.ReadBack | device/disk.c:190-251 | What was written is read back, and no other byte changed. |
| Disks.SentIff | device/disk.c:231 | ide_write as it is sends what it was asked for if and only if that is 0 or 256 sectors. |
| Disks.SentExamples | device/disk.c:231 | One sector asked for, 256 overwritten; 257 asked for, one written. |
| Disks.Disk.SelectDisk | device/disk.c:126-129 | The device byte with an empty address. |
| Disks.Disk.SelectSector | device/disk.c:139-152 | The registers decode to the address; fails exactly from sector 163840 on. |
| Disks.Disk.DiskRead | device/disk.c:162-166 | Copies as many sectors as the count byte says and no more. |
| Disks.Disk.DiskWrite | device/disk.c:169-173 | Overwrites as many sectors as the count byte says and no more. |
| Disks.Disk.IdeRead | device/disk.c:190-220 | For every cnt: succeeds if and only if all sectors exist; then the buffer holds sectors lba .. lba+cnt-1 in order, the rest of it is unchanged, and the commands were the request's chunks. The loop terminates. |
| Disks.Disk.IdeWriteMeant | device/disk.c:223-251 | The same for writing, with ide_read's chunk choice: the disk holds the buffer there and is unchanged elsewhere. |
| Disks.Disk.IdeWrite | device/disk.c:223-251 | ide_write as it is: one command of Sent(cnt) sectors. |
| Inodes.RoundTrip | fs/inode.h:16-34 | Decoding the 76 bytes of a record gives the record back. |
| Inodes.RecordLayout | fs/inode.h:16-34 | The 76 bytes one by one: two zero link words, then number, size and count in little-endian words, the flag, its padding, and the 13 sectors. |
| Inodes.PositionIsSlot | fs/inode.c:21-36 | The position names bytes [76n, 76n+76) of the table, its one or two sectors hold all of them and belong to the table. |
| Inodes.SlotsDisjoint | fs/inode.c:21-36 | Different records share no byte. |
| Inodes.SectorEdit | fs/inode.c:58-60 | Reading whole sectors, replacing some bytes and writing back replaces just those bytes, across a sector boundary too. |
| InodeCache.SyncOnly | fs/inode.c:47-61 | A sync changes no byte outside [76n, 76n+76). |
| InodeCache.SyncStored | fs/inode.c:47-61 | The table after a sync: under its number the record has the number, size and sectors the inode has in memory, open_cnt 0 and writing 0; every other record is as before. |
| InodeCache.SyncZeroes | fs/inode.c:39-44 | On the disk the two link words, the count and the flag of the record are zero. |
| InodeCache.OpenReadsSynced | fs/inode.c:83-109 | Opening an inode not in memory gives what the disk has, in front of the list, with one user; for a number ever synced that is the number, size and sectors last synced, with nobody writing. |
| InodeCache.CloseKeeps | fs/inode.c:112-125 | inode_close by a user keeps the cache and frees exactly when the count was 1. |
| InodeCache.CloseCounts | fs/inode.c:112-125 | In any state inode_close leaves one user less, and no inode where there was one; closing an inode with a count of 0 wraps it. |
| InodeCache.HitIff | fs/inode.c:86-89 | Counting one more user of an inode found keeps the cache if and only if the count does not wrap. |
| InodeCache.LinkIff | fs/inode.c:103 | Linking the record read keeps one copy for each number if and only if the number in the record is not in memory. |
| InodeCache.LinkKeeps | fs/inode.c:103 | Then the cache is in order with the inode on the list and its count still as it was read. |
| InodeCache.SetKeeps | fs/inode.c:104 | Setting the count to 1 keeps the cache if the inode linked is there and nobody was counted in it before. |
| InodeCache.SecondOpenIff | fs/inode.c:83-104 | A second open finds the first copy if and only if the record on the disk carries its own number. |
| InodeCache.SyncAsWrittenIff | fs/inode.c:58-60 | With ide_write as it is a sync sends 256 sectors, and the disk comes out right if and only if the memory behind the buffer equals the sectors that follow. |
| InodeCache.WriteBackIff | fs/inode.c:58-60 | A sync whose read and write are apart changes only its record if and only if nothing changed beside the record in its sectors in between. |
| InodeCache.SyncSteps | fs/inode.c:47-61 | With nobody in between, the steps of inode_sync are InodeSync. |
| InodeRuns.StepOneCopyIff | fs/inode.c:47-125 | A step of any thread keeps one copy for each number if and only if it does not link a record whose number is in memory. |
| InodeRuns.OneCopyIff | fs/inode.c:47-125 | Over every interleaving of the steps of inode_open, inode_close, inode_sync and changes, whatever the disk holds: all states of the run have one copy for each number if and only if no record linked has its number in memory. |
| InodeRuns.StepServesIff | fs/inode.c:68-125 | A step goes to no freed memory, leaves one copy for each number, and if inode_open returns in it, returns the only open inode of the number asked for with open_cnt equal to its opens less its closes, if and only if the step is not spoiled, a test on the state before it: that the node walked on, the inode found or linked, and the node to link in front of are still there, under the number asked for, and that nobody was counted between list_push_front and open_cnt = 1. |
| InodeRuns.ServesIff | fs/inode.c:47-125 | Over every interleaving: every step serves if and only if none is spoiled; and then the cache and the threads inside inode_open are in order in every state. |
| InodeRuns.StepKeeps | fs/inode.c:47-125 | Every step that is not spoiled keeps the cache and the threads inside inode_open, also between list_push_front and open_cnt = 1. |
| InodeRuns.CacheSafety | fs/inode.c:47-125 | In every state reached from a mounted partition while every step served, an inode is on the list exactly while it is in memory, in one copy, and open_cnt is opens less closes, on top of the count it was read with until inode_open sets it; and while nobody is between link and count, a number is in memory exactly while its opens outnumber its closes. |
| InodeSyncs.StepOnlyIff | fs/inode.c:58-60 | The write of a sync changes only its record, and every other step nothing on the disk, if and only if the write is not stale: nothing changed beside the record in its sectors since they were read. |
| InodeSyncs.SyncedStep | fs/inode.c:47-61 | Every step that is not a stale write leaves on the disk what was last synced, under its number, with open_cnt 0 and writing 0. |
| InodeSyncs.CopyAsInMemory | fs/inode.c:51-56 | The copy a sync takes has the number, size and sectors the inode has at that moment, open_cnt 0 and writing 0. |
| InodeSyncs.CopyStays | fs/inode.c:51-60 | Until its write a sync keeps that copy, whatever other threads do. |
| InodeSyncs.SyncStores | fs/inode.c:47-61 | After the write, stale or not, the record under its number has the number, size and sectors the inode had when it was copied, open_cnt 0 and writing 0. |
| InodeSyncs.SyncsIff | fs/inode.c:47-61 | Over every interleaving, whatever inode_open does: each sync changes its own record alone if and only if none is stale; and then the disk holds what was last synced, under its number, with open_cnt 0 and writing 0. |
| InodeSyncs.SyncSafety | fs/inode.c:47-61 | So in every state reached from a mounted partition. |
| InodeSyncs.SyncedRead | fs/inode.c:99-104 | A miss on a number that is synced on the disk reads that number, with the data last synced. |
| InodeSyncs.ReadStaysFreshIff | fs/inode.c:47-104 | The record a thread has read and not yet linked stays what the disk holds under every step but the write of a sync; under a sync of that number exactly when it writes what was read, under any other exactly when what that puts back in its sectors makes the same record. |
| InodeRaces.LookupLeads | fs/inode.c:68-77 | The walk along the list with nobody in between finds what Find says. |
| InodeRaces.OpenLeads | fs/inode.c:83-109 | The steps of inode_open with nobody in between are InodeOpen. |
| InodeRaces.FormattedOpens | fs/inode.c:83-109 | On a partition as fs/fs.c:80-91 formats it, opening two files never synced makes two copies of number 0, without any race. |
| InodeRaces.RacingOpens | fs/inode.c:84-104 | Two threads that both miss before either links the inode make two copies, from every state in which nobody has it. |
| InodeRaces.LostCount | fs/inode.c:103-104 | A thread counted between list_push_front and open_cnt = 1 is lost: two users, and a count of 1. |
| InodeRaces.LostInode | fs/inode.c:103-121 | The first close then frees the inode from under the other user. |
| InodeRaces.LateCount | fs/inode.c:103-104 | If that thread closes the inode before the assignment, it goes to freed memory. |
| InodeRaces.StaleCount | fs/inode.c:84-89 | From every state in which an inode has one user, that user may close it between another thread's search and its count: the count goes to freed memory. |
| InodeRaces.StaleReuse | fs/inode.c:84-104 | Or the memory holds another file by then: inode_open returns that file's inode, which counts a user too many. |
| InodeRaces.WalkFreed | fs/inode.c:68-77 | The node the walk stands on may be closed and freed under it. |
| InodeRaces.LinkFreed | lib/list.c:27-29 | So may the head of the list between list_push_front's look at it and the link in front of it. |
| InodeRaces.LostSync | fs/inode.c:58-60 | Of two inodes whose records share sectors, the sync that read first and writes last takes the other's record back to what it was. |
| InodeManager.OpenPartition.FindInList | fs/inode.c:68-77 | The loop finds the first open inode of that number. |
| InodeManager.OpenPartition.ReadSlot | fs/inode.c:97-100 | Reads the one or two sectors of a record. |
| InodeManager.OpenPartition.InodeOpen | fs/inode.c:83-109 | As Inodes.InodeOpen says, hit or miss; fails exactly on a number out of range. |
| InodeManager.OpenPartition.InodeClose | fs/inode.c:112-125 | As Inodes.InodeClose says. |
| InodeManager.OpenPartition.WriteSlot | fs/inode.c:58-60 | Read, replace, write: the disk changes in the record's bytes only. |
| InodeManager.OpenPartition.InodeSync | fs/inode.c:47-61 | As Inodes.InodeSync says; fails exactly on a number out of range. `InodeCache.SyncStored` has the record. |

## Left out

- Masks, shifts and `&`/`|` of disjoint fields in addresses and registers are written as divisions, remainders and sums on natural numbers; page-aligned addresses as page numbers.
- Contents of heap blocks and pages: memset of new blocks, and the bytes clients write. That clients write only inside their objects is why the heap's headers and links are values of their own; `HeapSafety.ObjectsApartFromMetadata` and `PageTables.DataWritesChangeNoTranslation` show they cannot be hit.
- The TLB, cr3, switch_to and interrupt entry: a context switch is a change of the current thread.
- The memory layer's functions run one at a time in `PageAlloc` and `HeapSafety`. The pool mutexes do not give that: get_kern_pages holds none, and a user sys_malloc takes page tables from the kernel pool under the user pool's. `PallocRuns` has the interleaving of palloc and vaddr_get alone, and the mutex itself is in `Mutexes`.
- PallocRuns.ExclusiveIff: the `|=` of bitmap_set and the `&=` of bitmap_clear are one step each; a search is the step at which it ends, with any position.
- Other address spaces: a run is in one address space at a time, the loader's or that of a process `Processes.CreatePageDir` makes; frames of other processes are `Pinned`. Switching back to an earlier process, and page tables the kernel's quarter might gain after the copy, which it never needs, are not modelled.
- Freeing in another context than the allocation's, as inode_open does with its buffer (fs/inode.c:106): a run frees each object in its own context.
- The memory behind the loader's first page table is taken to be zero at boot, as the loader leaves it unwritten.
- `bitmap_scan` for zero bits, which no caller asks for; `bitmap_has`, `bitmap_set` and `bitmap_clear` outside the bitmap, where their assertions stop the kernel, are preconditions.
- get_page and its early return without unlocking (kernel/memory.c:297-323), get_user_pages, and the kernel pages process_execute takes for a task_struct and its bitmap, which are further calls of malloc_page.
- PageAlloc.FreeUndoesMalloc, HeapSafety.RunKeeps, HeapSafety.HeapSafe, HeapProcess.ProcessSafe: for calls and runs in which the kernel pool covers the page tables before each call; when it does not, no account of frames fits the state after that call (`HeapInvariant.UncoveredBreaks`), and nothing is said about the calls after it.
- Mutexes.MutualExclusion: for runs in which no thread nests beyond 256 levels and each unlocks what it locked, because beyond that it is false.
- Mutexes, IoQueues: the increments and single assignments of shared fields are taken to be indivisible, as on one processor where only the thread inside writes them.
- IoQueues.BoundedBuffer: a putchar on top of idle is part of a run as long as it need not sleep; when it must, the queues themselves break (`SchedulerProofs.IdleDownIff`).
- IoQueueJams.StuckIff: for runs in which handlers on top of an operation of the queue only tick, raise semaphores and call putchar, as the kernel's handlers do. The keyboard handler's branch for unknown codes (device/keyboard.c:175-178), which takes the console's lock on its way to a failing assertion, is left out; safety of the buffer does not need this.
- IoQueueJams.Enter: the run may let the clock tick while the current thread is inside the keyboard handler, whose gate keeps interrupts off; there the handler would run on to its end or its sleep first.
- thread_start inserts into two lists one after the other with interrupts possibly on; that is one step here.
- Starvation: unblocked threads go to the front of the ready list, so fairness does not hold. Thread exit, HANGING and WAITING sleepers, which nothing uses.
- The disk's mutex, interrupts and waiting; partitions and the identify command. The device honours every command whose sectors exist.
- InodeRuns.ServesIff: a run ends with an access to freed memory, since what that reads or damages is not modelled; what comes before is.
- InodeRuns: `++open_cnt`, the copy of an inode into or out of a buffer, sys_kmalloc and one ide_read or ide_write of a record's sectors are one step each; inode_close and list_insert_before run with interrupts off.
- The list links inside an inode in memory are the sequence `open`; on the disk they are zero, as clear_status makes them.
- inode_init, formatting, directories, files and paths; console, keyboard tables, printf, strings.
