# Linux 0.11 and nctuos: a verified model

This project models the parts of two small kernels that keep shared state: the Linux 0.11 kernel of
`lab1/linux-0.11` (copy-on-write memory, wait queues, scheduling, timers, the buffer cache, files,
descriptors and pipes, the kernel's malloc, the argument stack of execve) and the teaching kernel of
`lab5/nctuos` (page tables, fork and kill, round robin).

Each part is written twice. A *value* model (`CowModel`, `BufferCache`, `FileModel`, `PageModel`,
`BucketModel`, `FileTable`, and the datatypes of the other modules) says what the state means and
carries the lemmas. A *class* with arrays and fields follows the source's own loops and stores in
place; its methods are proved against the value model. Kernel code is not preempted, so in the wait
queues, the buffer cache, the descriptor tables and pipes a call is a series of atomic steps, cut
where it may sleep. What is true of whole runs is stated of every list of steps: each state of the run
follows from the one before, and the theorem speaks of all of them. `Common` holds what several
modules share.

| files | what they cover |
|---|---|
| `CowModel`, `CowMemory`, `CowRun` | `mm/memory.c`, the memory half of `fork.c` and `exit.c`: copy-on-write is eager copying |
| `WaitQueue` | `sleep_on` and `wake_up`: no wake-up is lost |
| `BufferCache`, `BufferQueues` | `fs/buffer.c`: unique buffers, exact chains, coherence over every interleaving |
| `FileModel`, `FileBlocks` | `_bmap`, `file_read`, `file_write`, `new_block`, `truncate`: files are byte arrays |
| `PageModel`, `PageTables`, `TaskMemory`, `TaskRun` | nctuos `mem.c` and `task.c`: tables refine a flat map; over every run kill undoes fork, and a task costs 79 pages |
| `BucketModel`, `BucketAllocator`, `BucketRun` | `lib/malloc.c`: live objects are apart and untouched; when memory runs out |
| `ExecArgs` | `fs/exec.c`: the new program finds its arguments |
| `FileTable`, `PipePages`, `Descriptors`, `DescriptorRun`, `PipeRing` | descriptor counts, the life of a pipe's page over every run, the pipe ring |
| `Scheduler`, `Timers`, `RoundRobin` | time slices, the timer list, the nctuos scheduler |

Five places where the code does less than one would expect are kept as they are, with the exact
condition and an input: a script run with no arguments (`ExecArgs.Execve`, `ExecArgs.NoArguments`), a
timer that others are put in front of (`Timers.Delayed`, `Timers.GoesOff`, `Timers.FirstIsLate`),
truncating a file with an unreadable index block (`FileBlocks.TruncateLeaks`, `FileBlocks.LeakExample`), `page_remove` with a
local variable that happens to be zero (`PageTables.Memory.PageRemove`, `PageTables.DanglingExample`),
and nctuos' `sys_kill` of a task that is not the caller (`RoundRobin.Tasks.SysKill`,
`RoundRobin.KillOther`), which its own system call never asks for. One is repaired:
`insert_into_queues` stores through the first buffer of an empty chain, and the model guards that
store (`BufferQueues.Buffers.Enhash` reports when the guard is needed).

`dafny verify dfyconfig.toml` checks everything.

## Model

| member | source | states |
|---|---|---|
| CowModel.TablePrivate | lab1/linux-0.11/mm/memory.c:150-189 | in every state of the invariant a page table's frame is named by one directory entry and by no page-table entry |
| CowModel.SoleMapping | lab1/linux-0.11/mm/memory.c:221-238 | a frame with count 1 that is mapped somewhere is mapped nowhere else, so a writable page is seen by one task |
| CowModel.DuplicateKeeps | lab1/linux-0.11/mm/memory.c:165-186 | sharing a write-protected frame at the same offset of another slot keeps counts exact and adds one page to the user's view |
| CowModel.DropKeeps | lab1/linux-0.11/mm/memory.c:105-131 | dropping an entry lowers exactly its frame's count and removes exactly its page from the view |
| CowModel.CopyPageKeeps | lab1/linux-0.11/mm/memory.c:221-238 | moving an entry to a fresh copy of its frame keeps the invariant and changes nothing anyone reads |
| CowModel.CountBound | lab1/linux-0.11/mm/memory.c:150-189 | all mappings of a frame sit at one offset, so it is mapped at most once per task and its count is below 64: the byte cannot overflow |
| CowModel.CountsDetermined | lab1/linux-0.11/kernel/fork.c:40-63 | same mappings, same counts: what lets a failed fork put every count back |
| CowMemory.MemoryManager.constructor | lab1/linux-0.11/mm/memory.c:400-412 | mem_init sets up a state of the invariant with an empty user view; the frames from start to end are free and the kernel holds all others |
| CowMemory.MemoryManager.GetFreePage | lab1/linux-0.11/mm/memory.c:63-83 | the highest frame with count 0, zeroed and held; 0 exactly when there is none |
| CowMemory.MemoryManager.FreePage | lab1/linux-0.11/mm/memory.c:89-99 | one count less; its panic is its callers' obligation, met at every call |
| CowMemory.MemoryManager.FreePageTables | lab1/linux-0.11/mm/memory.c:105-131 | every mapping in the range is gone, every other page reads as before |
| CowMemory.MemoryManager.CopyPageTables | lab1/linux-0.11/mm/memory.c:150-189 | all entries up to the end copied, or all up to some directory entry; it stops exactly when there are fewer frames with count 0 than page tables to copy |
| CowMemory.MemoryManager.CopyMem | lab1/linux-0.11/kernel/fork.c:40-63 | the user's view gains an eager copy of the parent, or it and every count are as before, exactly when there are fewer free frames than page tables |
| CowMemory.CopyIsEager | lab1/linux-0.11/mm/memory.c:150-189 | a finished table copy reads as a copy of every page |
| CowMemory.RolledBack | lab1/linux-0.11/kernel/fork.c:57-61 | freeing a half-done copy restores every frame count and every page |
| CowMemory.MemoryManager.PutPage | lab1/linux-0.11/mm/memory.c:197-219 | the page appears at its address and nothing else changes; it fails exactly when a table is missing and no frame is free |
| CowMemory.MemoryManager.UnWpPage | lab1/linux-0.11/mm/memory.c:221-238 | the entry becomes writable and nobody reads anything different; it fails exactly when the frame is shared or not counted and no frame is free |
| CowMemory.CopiesOnlyShared | lab1/linux-0.11/mm/memory.c:221-238 | a store copies a page exactly when it is write-protected and its frame is low memory or is mapped by another page too |
| CowMemory.MemoryManager.UserStore | lab1/linux-0.11/mm/memory.c:247-259 | a store through its write fault changes one word of one page of one task; it fails exactly when it needs a copy and no frame is free |
| CowMemory.MemoryManager.AddPage | lab1/linux-0.11/mm/memory.c:366-398 | demand loading adds one page; it fails exactly when there are fewer free frames than the page and, if it is missing, its table need |
| CowMemory.MemoryManager.TryToShare | lab1/linux-0.11/mm/memory.c:292-335 | shares exactly when the other page is present, clean and in main memory and the table is there or can be had; the new page reads as the old one |
| CowRun.Machine.FindEmptyProcess | lab1/linux-0.11/kernel/fork.c:140-152 | the first empty slot, 0 exactly when there is none |
| CowRun.Machine.CopyTask | lab1/linux-0.11/kernel/fork.c:79-124 | the child's slot, task page and eager copy, or everything as before, exactly when there are fewer free frames than the task page and the parent's page tables need |
| CowRun.Machine.CopyProcess | lab1/linux-0.11/kernel/fork.c:70-138 | a fork is one eager copy into the first empty slot; it is nothing at all exactly without an empty slot or without a frame for the task page and each of the parent's page tables |
| CowRun.Machine.DoExit | lab1/linux-0.11/kernel/exit.c:102-106 | exit removes exactly the task's own pages |
| CowRun.Machine.Release | lab1/linux-0.11/kernel/exit.c:19-33 | a reaped slot is empty, its task page is free, and the kernel still holds exactly its boot frames and one for each task |
| CowRun.Machine.DoWrite | lab1/linux-0.11/mm/memory.c:247-259 | a store to a present page is that store, or kills the task exactly when the page must be copied and no frame is free; no other slot of the task table changes |
| CowRun.Machine.DoTouch | lab1/linux-0.11/mm/memory.c:366-398 | a fault on a missing page adds that page, or kills the task exactly when the page and its table cannot both be had; no other slot changes |
| CowRun.Machine.DoShare | lab1/linux-0.11/mm/memory.c:345-364 | the page of another task at the same place is seen by both, or the task is killed exactly when its table is missing and no frame is free, or nothing happens; no slot changes |
| CowRun.Machine.DoExec | lab1/linux-0.11/fs/exec.c:328-333 | the old pages are gone and the limit is the whole slot |
| CowRun.WriteIsPrivate | lab1/linux-0.11/mm/memory.c:221-238 | whatever a store does, no page of another task changes |
| CowRun.ForkReads | lab1/linux-0.11/kernel/fork.c:40-63 | after a fork the child reads at every linear address below its limit what its parent reads at the same offset, and no other task sees a change |
| CowRun.FirstForkReads | lab1/linux-0.11/mm/memory.c:150-189 | the first child reads the 160 pages of low memory that task 0 maps |
| CowRun.DropReads | lab1/linux-0.11/kernel/exit.c:102-106 | after an exit no address of the slot is mapped, and every other one reads as before |
| CowRun.SharesCleanPages | lab1/linux-0.11/mm/memory.c:292-335 | a present, clean page of another task in main memory is shared; only a missing table and no free frame prevent it |
| CowRun.OneEvent | lab1/linux-0.11/mm/memory.c:150-259 | the state before a step decides what the step comes to, so nothing fails for any other reason than those stated |
| CowRun.Machine.Run | lab1/linux-0.11/mm/memory.c:150-238 | over every run of forks, stores, faults, shares, execs, exits and reaps, each state follows from the one before by the one event the step asked for can have, and in every one of them the counting invariant holds, the kernel itself holds what it reserved at boot and one frame for each task structure and no more, and tasks read what a machine that copies eagerly would have by then |
| CowRun.FreeOrUsed | lab1/linux-0.11/mm/memory.c:57-99 | no frame is lost: in every such state a frame that boot left free is free exactly when no page table, page or task structure uses it, and its count is the number of those |
| WaitQueue.StepRefines | lab1/linux-0.11/kernel/sched.c:151-165 | the links on the sleepers' stacks spell one stack per queue and one list per wake-up still being passed on, whatever step is taken |
| WaitQueue.NoLostWakeup | lab1/linux-0.11/kernel/sched.c:151-194 | in every reachable state each sleeper is reached through saved links from its queue's head or from a woken task |
| WaitQueue.WaveAdvances | lab1/linux-0.11/kernel/sched.c:151-194 | with any other steps in between, a sleeper of a wake-up moves up one place for each resumption ahead of it, and is woken when it is first |
| WaitQueue.WaveDrains | lab1/linux-0.11/kernel/sched.c:151-194 | n resumptions wake exactly the n tasks of a wake-up and touch no other |
| WaitQueue.Kernel.SleepOnEnter | lab1/linux-0.11/kernel/sched.c:155-162 | sleep_on up to schedule pushes the task on its queue's stack |
| WaitQueue.Kernel.SleepOnExit | lab1/linux-0.11/kernel/sched.c:163-165 | a resumed sleeper wakes the one it found on the queue |
| WaitQueue.Kernel.WakeUp | lab1/linux-0.11/kernel/sched.c:188-194 | the queue is empty afterwards and the task that was its head is woken |
| WaitQueue.WakeUpReachesAll | lab1/linux-0.11/kernel/sched.c:151-194 | told from the pointers alone: wake_up clears the queue and wakes its head, and when the tasks that the saved pointers lead to resume in order, each can, all of them are awake in the end, and no other has changed |
| WaitQueue.SleepOnSpells | lab1/linux-0.11/kernel/sched.c:155-162 | sleep_on puts its task in front of those the pointers lead to, and disturbs no other queue |
| WaitQueue.WakeUpIsPassedOn | lab1/linux-0.11/kernel/sched.c:151-194 | in any state of a run a task at place i of a queue is woken once the i before it have resumed after a wake_up, whatever happens in between |
| BufferCache.FindAgrees | lab1/linux-0.11/fs/buffer.c:169-177 | find_buffer agrees with a scan of all buffers |
| BufferCache.HashIsXor | lab1/linux-0.11/fs/buffer.c:131-132 | a block belongs to the chain that the exclusive or of its device and number, taken bit by bit, gives modulo the number of chains |
| BufferCache.PickIsBest | lab1/linux-0.11/fs/buffer.c:209-227 | the search of the ring finds an unused buffer of least badness, none exactly when all are in use |
| BufferCache.PickPrefers | lab1/linux-0.11/fs/buffer.c:208-227 | a clean unlocked buffer is taken before any other, a clean one before a dirty one |
| BufferCache.PickIsFirst | lab1/linux-0.11/fs/buffer.c:216-226 | among equals the first of the ring is taken |
| BufferCache.RingByAge | lab1/linux-0.11/fs/buffer.c:152-168 | over every run the ring is in the order in which buffers last got a new block, so the oldest is found first |
| BufferCache.HeldTagStays | lab1/linux-0.11/fs/buffer.c:186-199 | a buffer somebody holds carries that holder's block |
| BufferCache.RetagKeeps | lab1/linux-0.11/fs/buffer.c:241-254 | giving a clean unused buffer a new block keeps buffers unique, chains and ring exact, and the cache coherent |
| BufferCache.StepKeeps | lab1/linux-0.11/fs/buffer.c:84-284 | every atomic step of getblk, bread, brelse, write-back, driver and invalidation, also of a buffer in use, keeps the invariant |
| BufferCache.BootOk | lab1/linux-0.11/fs/buffer.c:351-384 | the state left by buffer_init satisfies it |
| BufferCache.RetaggedOnlyWhenClean | lab1/linux-0.11/fs/buffer.c:231-248 | a buffer changes its block only when unused, unlocked and clean; unless the block was invalidated, the disk then holds its last contents |
| BufferCache.TruthIsLastWritten | lab1/linux-0.11/fs/buffer.c:256-284 | what the cache stands for is what was last written, and the blocks it gives no promise for are those invalidated, block by block, over every run |
| BufferCache.BreadReturnsLastWritten | lab1/linux-0.11/fs/buffer.c:270-284 | after any evictions and syncs, and whatever other blocks were invalidated in use, bread returns the last contents written to a block that was not |
| BufferCache.BreadSucceeds | lab1/linux-0.11/fs/buffer.c:270-284 | over every run a bread that has its buffer returns it, with what was last written, unless the disk reported an error on that buffer or its contents were dropped since |
| BufferCache.QuietBread | lab1/linux-0.11/fs/buffer.c:209-284 | with nobody else at work and a disk that works, bread of any block returns it, through getblk, write-back of a dirty victim and the read, unless it is not cached and every buffer is in use |
| BufferCache.ReleaseGives | lab1/linux-0.11/fs/buffer.c:256-264 | brelse leaves the buffer with one user less and its contents as they were |
| BufferCache.ForgottenIsReread | lab1/linux-0.11/fs/buffer.c:87-100 | once a buffer has been invalidated, bread goes to the disk again and returns what is there |
| BufferQueues.Buffers.constructor | lab1/linux-0.11/fs/buffer.c:351-384 | the linked buffers spell the boot state |
| BufferQueues.Buffers.RemoveFromQueues | lab1/linux-0.11/fs/buffer.c:134-150 | the buffer leaves its chain and the ring and every other link stands |
| BufferQueues.Buffers.Enring | lab1/linux-0.11/fs/buffer.c:152-159 | it joins the end of the ring |
| BufferQueues.Buffers.Enhash | lab1/linux-0.11/fs/buffer.c:160-167 | it joins the front of its chain; the guard at line 166 is needed exactly for an empty chain |
| BufferQueues.Buffers.Take | lab1/linux-0.11/fs/buffer.c:241-254 | the relinking at the end of getblk is the retagging step of the protocol |
| BufferQueues.Buffers.FindBuffer | lab1/linux-0.11/fs/buffer.c:169-177 | walking the chain finds what the protocol's search finds |
| BufferQueues.Buffers.PickVictim | lab1/linux-0.11/fs/buffer.c:209-227 | walking the ring finds the protocol's victim |
| FileModel.DataRefInjective | lab1/linux-0.11/fs/inode.c:72-138 | direct, indirect and double-indirect arithmetic gives each file block its own slot |
| FileModel.DataRefOnDisk | lab1/linux-0.11/fs/inode.c:72-138 | a file block's zone, told from the disk: one of seven numbers of the inode, one of 512 two-byte entries of the block the eighth names, or two index blocks deep from the ninth |
| FileModel.ByteOnDisk | lab1/linux-0.11/fs/inode.c:72-138 | byte 1024 * b + k of a file is byte k of the zone of its block b |
| FileModel.ZonesDistinct | lab1/linux-0.11/fs/inode.c:72-138 | distinct file blocks, of one file or two, never share a zone |
| FileModel.GrowWf | lab1/linux-0.11/fs/bitmap.c:75-105 | one allocation keeps zones exclusive and the bitmap exact |
| FileModel.GrowBytes | lab1/linux-0.11/fs/inode.c:72-138 | an allocation changes no byte of any file |
| FileModel.FillBytes | lab1/linux-0.11/fs/file_dev.c:48-90 | storing into a data block changes exactly those bytes of that file |
| FileBlocks.FileSystem.constructor | lab1/linux-0.11/fs/super.c:162 | an empty file system, with the reserved bit set, is well formed |
| FileBlocks.FileSystem.NewBlock | lab1/linux-0.11/fs/bitmap.c:75-105 | the lowest free zone, marked and zeroed; 0 only when every data zone is taken |
| FileBlocks.WasteKept | lab1/linux-0.11/fs/bitmap.c:90-95 | the bit that new_block sets past the last zone belongs to no file and does no harm |
| FileBlocks.FileSystem.FreeBlock | lab1/linux-0.11/fs/bitmap.c:47-73 | the bit that is cleared was set, by the inverse of new_block's arithmetic |
| FileBlocks.FileSystem.Bmap | lab1/linux-0.11/fs/inode.c:72-138 | the zone of the block's slot, created if asked; 0 only for a hole, an unreadable index block or a full disk; the panic exactly past the largest file; the zone is the one that the inode and its index blocks hold on disk for this file block |
| FileBlocks.FileSystem.FileWrite | lab1/linux-0.11/fs/file_dev.c:48-90 | exactly the bytes reported are stored, in blocks that can be read, every other byte of every file stands; it stops short only where a block cannot be had and panics exactly where the largest file ends |
| FileBlocks.FileSystem.FileRead | lab1/linux-0.11/fs/file_dev.c:17-46 | the file's bytes, holes as zero; it stops early only in front of an unreadable data block and panics exactly where the largest file ends |
| FileBlocks.FileSystem.WriteThenRead | lab1/linux-0.11/fs/file_dev.c:17-90 | reading back gives all that was written, whatever the disk can or cannot read and however short the write was |
| FileBlocks.FileSystem.FreeInd | lab1/linux-0.11/fs/truncate.c:11-27 | exactly the entries of a readable index block, and the block, are freed once each |
| FileBlocks.FileSystem.FreeDind | lab1/linux-0.11/fs/truncate.c:29-45 | the same through both levels |
| FileBlocks.FileSystem.Truncate | lab1/linux-0.11/fs/truncate.c:47-64 | exactly the zones reached from the inode are freed, each once; the file reads as empty and no other changes |
| FileBlocks.TruncateWf | lab1/linux-0.11/fs/truncate.c:47-64 | with every index block readable, bits and owned zones agree again afterwards |
| FileBlocks.TruncateLeaks | lab1/linux-0.11/fs/truncate.c:11-45 | with one unreadable, some marked zone is owned by no file |
| FileBlocks.LeakExample | lab1/linux-0.11/fs/truncate.c:11-27 | a file of one block behind an index block that cannot be read: a well-formed disk with a whole map block that truncate leaves with a lost zone |
| PageModel.SetPteUpdates | lab5/nctuos/kernel/mem.c:392-419 | writing one table entry is one update of one directory's flat map |
| PageModel.WalkAgrees | lab5/nctuos/kernel/mem.c:392-419 | the flat map is what the processor reads: upper ten bits of an address in the directory, the next ten in the table, at every byte of a page |
| PageModel.RemoveKeeps | lab5/nctuos/kernel/mem.c:534-545 | deleting a mapping keeps pp_ref equal to the counted mappings and frees the page with the last one |
| PageModel.InsertKeeps | lab5/nctuos/kernel/mem.c:470-492 | adding one keeps pp_ref exact |
| PageModel.DroppedKeeps | lab5/nctuos/kernel/mem.c:547-564 | giving back a directory and its tables leaves every other address space as it was |
| PageTables.Memory.constructor | lab5/nctuos/kernel/mem.c:246-303 | the free list is exactly base memory above page 0 and what lies above the kernel; page 0, the I/O hole and kernel pages can never be handed out |
| PageTables.Memory.PageAlloc | lab5/nctuos/kernel/mem.c:317-335 | the head of the list, zeroed, with no map changed; fails exactly when the list is empty |
| PageTables.Memory.PageFree | lab5/nctuos/kernel/mem.c:341-357 | the page heads the list and num_free_pages stays its length |
| PageTables.Memory.PageDecref | lab5/nctuos/kernel/mem.c:363-368 | freed exactly with the last reference |
| PageTables.Memory.PgdirWalk | lab5/nctuos/kernel/mem.c:392-419 | the table that the upper ten bits of the address select, or a new one with its permissions; no translation changes; fails only when one must be made and no page is free |
| PageTables.Memory.BootMapRegion | lab5/nctuos/kernel/mem.c:432-443 | a range update of one flat map, with no reference counted; it fails exactly when the tables it has to make outnumber the free pages |
| PageTables.TouchedCount | lab5/nctuos/kernel/mem.c:432-443 | n consecutive pages need (vp + n - 1)/1024 - vp/1024 + 1 page tables |
| PageTables.Neighbours | lab5/nctuos/kernel/mem.c:392-419 | neighbouring pages in one 4 MB stretch are neighbouring entries of one table |
| PageTables.Memory.PageInsert | lab5/nctuos/kernel/mem.c:470-492 | one update of one flat map, with pp_ref moved by the mappings gained and lost, whatever page_remove's local holds; a failed insert changes nothing; when a store goes through a null pointer on the way |
| PageTables.Memory.PageLookup | lab5/nctuos/kernel/mem.c:505-517 | the page of the flat map; the entry's address is stored exactly if the variable for it was nonzero |
| PageTables.Memory.PageRemove | lab5/nctuos/kernel/mem.c:534-545 | one deletion when page_remove's own uninitialised local is nonzero; when it is zero the reference is dropped, the entry stays, a store goes through a null pointer and pp_ref no longer counts the mappings |
| PageTables.DanglingExample | lab5/nctuos/kernel/mem.c:534-545 | one directory, one table, one mapping, all in pages that are handed out: with a zero local the page ends up free and still mapped |
| PageTables.InsertOverDangling | lab5/nctuos/kernel/mem.c:478-490 | page_insert, writing the entry afterwards, ends in the same state either way |
| PageTables.Memory.DropDirectory | lab5/nctuos/kernel/mem.c:547-564 | the directory and exactly its tables are free again |
| TaskMemory.KernelMap | lab5/nctuos/kernel/mem.c:593-606 | setupkvm's regions stay clear of the stack and map the page descriptors, the kernel stack, all memory at KERNBASE and the I/O hole |
| TaskMemory.KernelNeeds | lab5/nctuos/kernel/mem.c:593-606 | a task takes 79 pages: a directory, ten of stack and 68 page tables, whatever sections above KERNBASE its program has |
| TaskMemory.MapRegions | lab5/nctuos/kernel/mem.c:578-606 | the regions overlay the flat map in order and take only page tables, one for each directory entry not yet in use; it fails exactly when these outnumber the free pages |
| TaskMemory.AddStack | lab5/nctuos/kernel/task.c:119-130 | ten stack pages, each the child's own, all from the free pages; it fails exactly when these and their tables outnumber the free pages |
| TaskMemory.StackPlace | lab5/nctuos/kernel/task.c:119-130 | every byte of the 40 kB below USTACKTOP is in a writable page of the task's own |
| TaskMemory.CopyStack | lab5/nctuos/kernel/task.c:231-236 | the child's stack equals the parent's and nothing else is written |
| TaskMemory.TaskCreate | lab5/nctuos/kernel/task.c:98-148 | a directory with the kernel's regions and ten stack pages of its own, all from the free pages, exactly so many as it needs; it fails exactly when there are fewer; for setupkvm's own regions exactly if 79 pages are free |
| TaskMemory.SetupUser | lab5/nctuos/kernel/task.c:238-242 | the program's sections join the regions and take only page tables; it fails exactly when these outnumber the free pages |
| TaskMemory.SysFork | lab5/nctuos/kernel/task.c:218-248 | the child has the regions and a copy of the stack, every page it takes was free, address spaces, page tables and page contents of the others stand; it fails exactly when there are fewer free pages than directory, stack and page tables need; for setupkvm's own regions it succeeds exactly if 79 pages are free |
| TaskMemory.TaskFree | lab5/nctuos/kernel/task.c:168-177 | directory, tables and stack pages nobody else holds are free again, none twice, and nothing else is; address spaces, tables and page contents of the others stand |
| TaskRun.NextHoused | lab5/nctuos/kernel/task.c:98-248 | in every state each page of memory is free or belongs to a task, and stays so whichever task is made or killed |
| TaskRun.TakenApart | lab5/nctuos/kernel/task.c:98-148 | no page is taken by two tasks |
| TaskRun.OthersStand | lab5/nctuos/kernel/task.c:168-248 | making or killing a task changes no translation, table or counted mapping of another |
| TaskRun.RunTaken | lab5/nctuos/kernel/task.c:168-248 | over every run a task keeps exactly the pages it was given until it is killed |
| TaskRun.FreeUndoesFork | lab5/nctuos/kernel/task.c:168-248 | with any forks and kills of others in between, killing a task makes free exactly the pages that making it took |
| TaskRun.RunRestores | lab5/nctuos/kernel/task.c:168-248 | when the tasks left are those of the beginning, so are the free pages and their number |
| TaskRun.RunCounts | lab5/nctuos/kernel/task.c:98-248 | over every run from boot each live task has equally many pages, so the number of free ones is decided by the number of tasks |
| TaskRun.TasksPossible | lab5/nctuos/kernel/task.c:98-248 | with nctuos' own regions k tasks take 79 * k pages, and one more can be made exactly if 79 * (k + 1) were free at boot |
| TaskRun.Run | lab5/nctuos/kernel/task.c:168-248 | every list of starts, forks and kills from boot is such a run, one event for each step, up to the first start or fork for which there are too few pages |
| BucketModel.GiveBucket | lab1/linux-0.11/lib/malloc.c:203-207 | freeing an object keeps free list and live objects a partition of the page and refcnt the number live |
| BucketModel.BucketFull | lab1/linux-0.11/lib/malloc.c:156-170 | free and live objects together are all that fit in the page |
| BucketModel.LiveApart | lab1/linux-0.11/lib/malloc.c:117-173 | no byte belongs to two live objects |
| BucketModel.RetireKeeps | lab1/linux-0.11/lib/malloc.c:208-228 | giving back an empty bucket conserves descriptors and pages and leaves no empty bucket chained |
| BucketAllocator.Allocator.constructor | lab1/linux-0.11/lib/malloc.c:77-92 | no chains, no descriptors, no objects |
| BucketAllocator.Allocator.InitBucketDesc | lab1/linux-0.11/lib/malloc.c:97-115 | a page of 256 linked descriptors heads the free ones; fails exactly without a page |
| BucketAllocator.Allocator.ThreadPage | lab1/linux-0.11/lib/malloc.c:159-164 | a new page is one list of all its objects |
| BucketAllocator.Allocator.NewBucket | lab1/linux-0.11/lib/malloc.c:146-167 | a new bucket heads its chain and no object is touched; fails exactly without enough pages |
| BucketAllocator.Allocator.Malloc | lab1/linux-0.11/lib/malloc.c:117-173 | a new object of the smallest size that fits, other objects unmoved and unwritten; panics exactly when too large or out of pages; a page of descriptors is made exactly when none is left |
| BucketAllocator.Allocator.Find | lab1/linux-0.11/lib/malloc.c:187-202 | the bucket of the object's page, and a descriptor before it, for every size hint up to its size; the panic for a larger one or for an address in no bucket's page |
| BucketAllocator.Allocator.FindPrev | lab1/linux-0.11/lib/malloc.c:213-217 | the true predecessor, whatever descriptor `prev` has become in the meantime |
| BucketAllocator.Allocator.Retire | lab1/linux-0.11/lib/malloc.c:208-228 | an empty bucket leaves its chain, its page and descriptor are free again |
| BucketAllocator.Allocator.Finish | lab1/linux-0.11/lib/malloc.c:203-231 | with a stale `prev` too, exactly this object is freed and the "chains corrupted" panic is not reached |
| BucketAllocator.Allocator.FreeS | lab1/linux-0.11/lib/malloc.c:182-231 | frees the object exactly when it is live and the hint is valid, and changes nothing otherwise |
| BucketAllocator.FreedOnce | lab1/linux-0.11/lib/malloc.c:182-231 | the state after free_s does not depend on the hint |
| BucketAllocator.StillFound | lab1/linux-0.11/lib/malloc.c:191-204 | what free_s found stays right through any number of other calls that come in before interrupts are off |
| BucketRun.FullIsCrammed | lab1/linux-0.11/lib/malloc.c:138-140 | every bucket of a size is full exactly when each page with objects of that size is full of them |
| BucketRun.FreeDescs | lab1/linux-0.11/lib/malloc.c:97-115 | the free descriptors are used up exactly when there are 256 pages of objects for each page of descriptors |
| BucketRun.MemoryLeft | lab1/linux-0.11/lib/malloc.c:117-173 | whether malloc finds room, and whether it makes descriptors, can be told from the objects and the numbers of pages alone |
| BucketRun.FreeInterrupted | lab1/linux-0.11/lib/malloc.c:182-231 | free_s with any run of other calls in its window is that run followed by freeing the object; a panic in the window is one the calls alone would have had |
| BucketRun.Run | lab1/linux-0.11/lib/malloc.c:97-231 | over every run the objects are what a plain map of separate objects would hold, and the kernel panics exactly when a request is too large or the objects held leave neither a place nor the pages for it |
| ExecArgs.ArgPages.CopyStrings | lab1/linux-0.11/fs/exec.c:104-152 | the strings lie one after the other, in order, below `p`, across pages; no other byte changes and no page is lost; it takes the missing pages that the strings touch and fails exactly when there are fewer free ones or the strings fill the area to its first byte |
| ExecArgs.ArgPages.ChangeLdt | lab1/linux-0.11/fs/exec.c:154-177 | the pages are the top 128 kB of the data segment and the rest reads as zero |
| ExecArgs.ParseLine | lab1/linux-0.11/fs/exec.c:238-256 | the interpreter's path, what follows its last slash, and all behind one more blank as its argument; none exactly for a blank line |
| ExecArgs.ReadsOnce | lab1/linux-0.11/fs/exec.c:238-256 | there is only one such reading of a line |
| ExecArgs.Interpret | lab1/linux-0.11/fs/exec.c:223-256 | a script exactly with "#!"; its first line must end inside the block, before a zero byte, and not be blank |
| ExecArgs.CreateTables | lab1/linux-0.11/fs/exec.c:46-70 | argc, argv and envp, null-ended tables of addresses of the strings, below the strings and disjoint from them |
| ExecArgs.CopyAll | lab1/linux-0.11/fs/exec.c:261-317 | environment and arguments in place, for a script with interpreter, argument and file name spliced in, or 0 for want of pages or because they fill the area |
| ExecArgs.Execve | lab1/linux-0.11/fs/exec.c:261-334 | the new program finds its arguments and environment exactly when it is not a script or was given at least one argument, and else one argument is missing; it succeeds exactly when there are as many free pages as missing pages that the strings touch and the strings do not fill the area to its first byte; a script's interpreter finds its name, its argument if there is one, the script and the script's arguments, in this order |
| ExecArgs.NoArguments | lab1/linux-0.11/fs/exec.c:261-334 | a script for the interpreter `s`, called with none, is given one argument and not two |
| FileTable.CloseReady | lab1/linux-0.11/fs/open.c:203-207 | neither panic on the way of sys_close can be reached |
| FileTable.StepKeeps | lab1/linux-0.11/fs/open.c:138-209 | each atomic step keeps f_count the number of descriptors and i_count the number of holders |
| FileTable.RunKeeps | lab1/linux-0.11/fs/open.c:138-209 | so does every run of every interleaving |
| FileTable.LeadsOnce | lab1/linux-0.11/fs/open.c:138-209 | where a list of steps leads is decided by the state it starts in |
| FileTable.PipeInUse | lab1/linux-0.11/fs/inode.c:228-242 | a pipe that has its page has a descriptor |
| FileTable.PageFreed | lab1/linux-0.11/fs/inode.c:157-166 | closing frees a pipe's page exactly when it closes the last descriptor of both ends |
| PipePages.StepPipe | lab1/linux-0.11/fs/inode.c:157-166 | a step makes a pipe, or ends one by closing its last descriptor, or leaves every pipe with its page |
| PipePages.StepPool | lab1/linux-0.11/fs/inode.c:157-166 | a page leaves the free ones exactly when a pipe is made of it and joins them exactly when the last descriptor of its pipe is closed |
| PipePages.RunPages | lab1/linux-0.11/fs/inode.c:157-242 | over every run the free pages and the pages of pipes together stay the same, and none is both |
| PipePages.PipeLife | lab1/linux-0.11/fs/inode.c:157-242 | over every run, from the step that makes a pipe its page is that inode's and not free until the one step that closes the last descriptor of both ends, and that step frees it |
| PipePages.FreedOnce | lab1/linux-0.11/fs/inode.c:157-242 | over every run a page is freed once for each time it was taken, less one while it is in use |
| PipePages.FreeIffUnused | lab1/linux-0.11/fs/inode.c:157-242 | in every state of every run a page is free exactly when no task has a descriptor of a pipe with that page |
| PipePages.CloseRefers | lab1/linux-0.11/fs/open.c:193-209 | closing takes that descriptor from its pipe and no other |
| PipePages.StepRefers | lab1/linux-0.11/fs/fcntl.c:18-34 | which inode a descriptor of a task refers to is a table of which each step of open, close, dup, pipe, fork and exit is one update |
| PipePages.ExitFrees | lab1/linux-0.11/kernel/exit.c:114-116 | an exit frees exactly the pages of the pipes that no other task has a descriptor of |
| Descriptors.Tables.OpenStart | lab1/linux-0.11/fs/open.c:145-156 | the first empty slot gets the first unused entry; fails exactly without one of them |
| Descriptors.Tables.OpenEnd | lab1/linux-0.11/fs/open.c:157-185 | the entry gets its inode, or slot and entry are given up |
| Descriptors.Tables.CloseFd | lab1/linux-0.11/fs/open.c:193-209 | the slot is empty, the count one less, the inode put with the last one; a pipe's page is free afterwards exactly when this was its last descriptor |
| Descriptors.Tables.Iput | lab1/linux-0.11/fs/inode.c:150-192 | one reference less, a pipe's page freed with the last |
| Descriptors.Tables.DupFd | lab1/linux-0.11/fs/fcntl.c:18-34 | the first free descriptor from `arg` names the same entry; each error exactly when it applies |
| Descriptors.Tables.Dup2 | lab1/linux-0.11/fs/fcntl.c:36-40 | closes the new descriptor if it is open and then duplicates the old one if that still is, and does nothing else; succeeds exactly for an open descriptor and another number in range, so a descriptor onto itself is closed; which pipe pages become free |
| Descriptors.Tables.PipeStart | lab1/linux-0.11/fs/pipe.c:78-97 | the first two unused entries and the first two empty slots are taken exactly when there are two of each; otherwise nothing changes |
| Descriptors.Tables.PipeEnd | lab1/linux-0.11/fs/pipe.c:98-110 | both ends share one inode with a free page, or everything is given back, exactly when there is no page; each is two steps of the model |
| Descriptors.Tables.ForkFiles | lab1/linux-0.11/kernel/fork.c:125-127 | the child names every entry its parent names, and every count has followed: one sharing step for each open descriptor, in order |
| Descriptors.Tables.ExitFiles | lab1/linux-0.11/kernel/exit.c:114-116 | every descriptor of the task is closed, in order, and no other task's is; a pipe's page is free afterwards exactly when no other task has a descriptor of it |
| DescriptorRun.OneExpansion | lab1/linux-0.11/fs/open.c:138-209 | the state decides which steps a call takes, but for which free page a new pipe gets |
| DescriptorRun.LeadsPages | lab1/linux-0.11/fs/inode.c:157-242 | whatever steps are taken, no pipe page is made or lost, and one is free exactly when nobody has its pipe open |
| DescriptorRun.Run | lab1/linux-0.11/fs/open.c:138-209 | any calls of open, close, dup, dup2, pipe, fork and exit by any tasks in any order change the tables by exactly the steps the model gives them, each in the state the calls before it left |
| PipeRing.Pipe.WriteChunk | lab1/linux-0.11/fs/pipe.c:45-66 | bytes join the end of the queue, as many as are given, fit, and lie before the wrap-around; none exactly when there are none or it is full |
| PipeRing.Pipe.ReadChunk | lab1/linux-0.11/fs/pipe.c:17-36 | bytes leave the front, as many as are asked for, are there, and lie before the wrap-around; none exactly when none are asked for or it is empty |
| PipeRing.Pipe.Run | lab1/linux-0.11/fs/pipe.c:13-69 | for every interleaving of chunks the ring is a queue of at most 4095 bytes |
| PipeRing.QueueConserves | lab1/linux-0.11/fs/pipe.c:13-69 | what was held and written equals what was read and is held |
| Scheduler.RechargeSane | lab1/linux-0.11/kernel/sched.c:136-139 | a recharge keeps counters and priorities sane and gives every runnable task time |
| Scheduler.Machine.CheckSignals | lab1/linux-0.11/kernel/sched.c:109-120 | exactly the interruptible tasks with a deliverable signal or an expired alarm become runnable |
| Scheduler.Machine.Pick | lab1/linux-0.11/kernel/sched.c:125-134 | the runnable task with the greatest counter, the last slot among equals |
| Scheduler.Machine.Choose | lab1/linux-0.11/kernel/sched.c:124-141 | at most one recharge, exactly when every runnable task is out of time, and then each has used what it was granted; the best task, or task 0 exactly when none is runnable |
| Scheduler.Machine.Schedule | lab1/linux-0.11/kernel/sched.c:104-142 | the signal loop, then at most one recharge and the best runnable task, with no other change to any task |
| Scheduler.Machine.DoTimer | lab1/linux-0.11/kernel/sched.c:332-335 | one tick is charged to the current task, and a new one is elected exactly when its time is up in user mode |
| Scheduler.Machine.Nice | lab1/linux-0.11/kernel/sched.c:378-383 | the priority changes, to whatever is asked, only if it stays positive |
| Scheduler.Machine.Fork | lab1/linux-0.11/kernel/fork.c:86-94 | the child starts with a full slice and does not run yet |
| Scheduler.Machine.Run | lab1/linux-0.11/kernel/sched.c:104-142 | every list of ticks, schedules, forks, reaps, nices and state changes is a run: each state follows from the one before by the step asked for |
| Scheduler.StaysGood | lab1/linux-0.11/kernel/sched.c:104-142 | every step keeps counters nonnegative, priorities positive and the current task in the table |
| Scheduler.RunBounded | lab1/linux-0.11/kernel/sched.c:136-139 | over every run with priorities up to P, counters stay below 2P |
| Scheduler.EpochFalls | lab1/linux-0.11/kernel/sched.c:332-335 | between two recharges a task's counter goes down by the ticks it ran, to 0, and by nothing else |
| Scheduler.RechargeFair | lab1/linux-0.11/kernel/sched.c:124-141 | at a recharge every runnable task has run for all the time it had since the last one |
| Scheduler.SleepPays | lab1/linux-0.11/kernel/sched.c:136-139 | over every run a task that is not charged has after k recharges all of twice its priority but 1/2^k, rounded up, of what it lacked |
| Scheduler.SavedTop | lab1/linux-0.11/kernel/sched.c:136-139 | that comes to 2P - 1 exactly when 2^k is at least what it lacked, never to more, and stays there |
| Scheduler.RewardOrder | lab1/linux-0.11/kernel/sched.c:136-139 | of two tasks of one priority the one with at least two ticks more before a recharge has more after it |
| Scheduler.TickPreempts | lab1/linux-0.11/kernel/sched.c:332-335 | after a tick in user mode the current task has time left, or nothing can run |
| Scheduler.MostTimeRuns | lab1/linux-0.11/kernel/sched.c:124-141 | schedule leaves the processor to a runnable task with at least as much time left as any other, and more than any in a later slot |
| Scheduler.SignalWakes | lab1/linux-0.11/kernel/sched.c:109-120 | schedule wakes exactly the tasks that sleep interruptibly with a signal that is not blocked or cannot be, or with an alarm that has gone off; the alarm is cleared and SIGALRM pending |
| Scheduler.ChildWaits | lab1/linux-0.11/kernel/fork.c:86-94 | over every run a new task has its parent's priority as its time and does not run before its state is changed |
| Timers.InsertSums | lab1/linux-0.11/kernel/sched.c:287-300 | the new timer goes off after the ticks asked for, earlier ones keep their time, later ones move by its residue |
| Timers.Delayed | lab1/linux-0.11/kernel/sched.c:291-300 | a pending timer is made later by exactly the requests for no more ticks than it has left |
| Timers.FirstIsLate | lab1/linux-0.11/kernel/sched.c:291-300 | of two timers of five ticks the first goes off after ten |
| Timers.PlaceIsOne | lab1/linux-0.11/kernel/sched.c:291-300 | there is one place for a new timer |
| Timers.PlaceIsThere | lab1/linux-0.11/kernel/sched.c:291-300 | and this is how it is found |
| Timers.StaysGood | lab1/linux-0.11/kernel/sched.c:272-329 | a request and a tick keep every pending timer on the clock: it goes off when it is due plus what it is late, never early |
| Timers.RunAccounts | lab1/linux-0.11/kernel/sched.c:272-329 | over every run what was pending and what was asked for is what has been called and what is pending, each once |
| Timers.RunTracks | lab1/linux-0.11/kernel/sched.c:272-329 | followed through a run, a pending timer is late by the rests of the requests put in front of it |
| Timers.GoesOff | lab1/linux-0.11/kernel/sched.c:272-329 | a request goes off at the tick when it is due plus the rests of the requests put in front of it until then, and at no other; as long as it is pending that time is still to come |
| Timers.TimerList.AddTimer | lab1/linux-0.11/kernel/sched.c:272-303 | the exchange of contents along the list is that insertion; panics exactly with 64 timers pending |
| Timers.TimerList.Tick | lab1/linux-0.11/kernel/sched.c:319-329 | at most one timer goes off on a tick, never early, and on time exactly if none was put in front of it |
| Timers.Run | lab1/linux-0.11/kernel/sched.c:272-329 | over every run, from any list, the list in memory is what the requests and ticks make it, each function is called when that says, and the kernel panics exactly at the first request that has to wait and finds 64 pending; each request before that has been called once or is pending |
| RoundRobin.Tasks.Yield | lab5/nctuos/kernel/sched.c:22-41 | the first runnable task after the current one; afterwards exactly one task is running and it is the current one, exactly if the old one had stopped running or goes on |
| RoundRobin.Tasks.Timer | lab5/nctuos/kernel/timer.c:44-56 | sleepers count down and wake at zero, and the processor is given up exactly when the quantum ends |
| RoundRobin.Tasks.SysSleep | lab5/nctuos/kernel/syscall.c:63-72 | the caller sleeps with its ticks and the next runnable task runs |
| RoundRobin.Tasks.SysKill | lab5/nctuos/kernel/task.c:179-192 | the slot, whether or not it held a task, is free and the next runnable task runs; nothing for 0 or a number out of range; exactly one task is running afterwards if and only if the caller was killed or no other could run |
| RoundRobin.KillOther | lab5/nctuos/kernel/task.c:179-192 | task 0 killing task 1 while task 2 can run leaves two tasks marked as running; the system call itself always passes the caller's own number |
| RoundRobin.Tasks.Run | lab5/nctuos/kernel/sched.c:22-41 | every list of ticks, sleeps, kills of the caller and forks is a run, each state following from the one before |
| RoundRobin.StaysGood | lab5/nctuos/kernel/sched.c:22-41 | exactly one task is running in every state of a run |
| RoundRobin.WaitBound | lab5/nctuos/kernel/sched.c:22-41 | while a runnable task waits there are fewer than NR_TASKS - 1 yields and (NR_TASKS - 1) * TIME_QUANT ticks, whatever the others do |
| RoundRobin.GetsTurn | lab5/nctuos/kernel/sched.c:22-41 | so in every run that long it gets the processor within that many |
| RoundRobin.SleepsOn | lab5/nctuos/kernel/timer.c:44-51 | over every run a task that sleeps for k ticks is asleep until max(k, 1) ticks have passed, whatever the others do |
| RoundRobin.WakesUp | lab5/nctuos/kernel/timer.c:44-51 | with the last of them it is runnable, or has the processor already |
| RoundRobin.SleeperRuns | lab5/nctuos/kernel/timer.c:44-56 | it has the processor again not before that, and at most (NR_TASKS - 1) * TIME_QUANT ticks later |
| RoundRobin.KilledGone | lab5/nctuos/kernel/task.c:179-192 | over every run a task that was killed does not run again before its slot is given to a new one |
| RoundRobin.ChildRuns | lab5/nctuos/kernel/task.c:98-148 | a new task gets the processor within (NR_TASKS - 1) * TIME_QUANT ticks |
| RoundRobin.TurnLasts | lab5/nctuos/kernel/timer.c:52-56 | a task that neither sleeps nor is killed keeps the processor for TIME_QUANT ticks, and then loses it if any other can run |

## Left out

- TLB and segment registers, entry bit patterns (a table entry is a record), FPU state, traps, drivers, boot code: hardware.
- Contents of pages shared by try_to_share compared with the executable's file: rests on hardware dirty bits.
- Slot 0 of the memory map: its pages are not counted by mem_map, and what task 0 stores after its first fork is not followed.
- verify_area and writes of the kernel into user pages.
- put_page failing inside change_ldt, which the source ignores: the model gives the new segment every page.
- interruptible_sleep_on: it can leave an earlier sleeper off its queue.
- fs/block_dev.c, fs/namei.c, fs/super.c, fs/char_dev.c: outside the contracts above, or only more of the same.
- The disk request queue: a driver step finishes any locked buffer, and a write always succeeds.
- CowMemory.MemoryManager.AddPage: the page's contents are an argument, and do_no_page's sleep in bread_page, during which another task could run, is not a step of its own; the same holds of CowRun.Machine.DoTouch.
- FileBlocks.FileSystem.Bmap: `_bmap`, file_read, file_write and truncate are one step each, though each can sleep in bread; two calls on one file are not interleaved.
- CowRun.Machine.FindEmptyProcess: does not model the search for an unused last_pid.
- TaskMemory.TaskCreate: does not model the task slot and the trap frame.
- PageTables.Memory.PageInsert: requires that a page to be replaced was put there by page_insert; over one that boot_map_region mapped, the source would lower a count nobody raised.
- RoundRobin.Tasks.SysKill: does not call task_free (TaskMemory.TaskFree), which the source does even for a slot in range that is free already, with the directory of its last task.
- BufferQueues.Buffers.constructor: at least two buffers, because with one the ring cannot be unlinked from itself.
- FileBlocks.FileSystem.FreeBlock: does not model the early return for a zone whose buffer somebody else holds.
- BucketAllocator.Allocator.FreeS: requires a live object or an address in no bucket's page; an address inside a bucket that is no live object the source would put on its free list.
- ExecArgs.ArgPages.CopyStrings: requires that the strings fit, because the test at line 128 compares an unsigned number with 0 and never fires.
- ExecArgs.Execve: takes the script's parsed first line (ExecArgs.Interpret) as an argument; permissions, the a.out header and looking up the interpreter are not modelled.
- PageTables.Memory.PageRemove: the store through a null pointer is reported, not made.
- TaskMemory.TaskFree: takes page_remove's local to be nonzero.
- PageTables.Memory.PageDecref: does not model the 16-bit width of pp_ref.
- TaskMemory.SysFork: does not model the trap frame, nor what is left behind when pages run out half-way; a failing page_insert returns -E_NO_MEM, which task_create does not compare with.
- RoundRobin.Tasks.Yield: when no other task is runnable the current one runs on, asleep or killed as it may be, as in the source.
- BucketAllocator.Allocator.Find: the walk along the chains is one step; interrupts are modelled between it and the rest of free_s.
- PipeRing.Pipe.ReadChunk: a chunk is one step, though a page fault inside it could sleep; signals and return codes of the surrounding loops are not modelled.
- Descriptors.Tables.Iput: does not model writing back or truncating an inode.
- Timers.TimerList.Tick: a request made by the function that goes off is the next step of the run.
- The lab2 tree, lab3, lab4 and lab6; user programs, shells, string and printf routines: the same code again, or user interface.
