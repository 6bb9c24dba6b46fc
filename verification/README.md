# ChaOS in Dafny

A verification project for ChaOS, a RISC-V kernel written in Rust. It models the kernel's small
stateful components, in the form the code has (classes and loops where the code updates in place),
and proves that each behaves as a simple abstract object over every run: page tables as finite
maps, the block cache as a plain disk, a directory block as a map, a pipe as a queue.

| file | what it models |
|---|---|
| `Bytes.dfy`, `Seqs.dfy` | little-endian words, overwriting a range, facts about sequences |
| `Sv39.dfy` | page numbers, canonical addresses, page-table entries (section 4.4 of the RISC-V Privileged Architecture, version 20211203) |
| `TableTree.dfy`, `AddressSpaces.dfy`, `Spaces.dfy` | the three-level tables at the level of entries: one table, then all tables of a running system |
| `PhysMem.dfy`, `PageTable.dfy` | the same on the bytes of physical frames, with the frame allocator |
| `MemorySet.dfy`, `Isolation.dfy` | fork, and what parent and child see of each other afterwards |
| `Loader.dfy`, `UserStack.dfy` | loading, user buffers, the argument stack and the user-side `_start` |
| `BlockCache.dfy`, `Fat32.dfy` | the write-back cache and FAT32 files over it |
| `Ext4Dir.dfy`, `Ext4Read.dfy`, `Crc32c.dfy`, `Bitmap.dfy` | ext4 directory blocks, file reading, checksums, bitmaps |
| `Scheduler.dfy`, `ProcessTree.dfy`, `Pipe.dfy`, `Recycle.dfy`, `KernelStack.dfy` | scheduling and semaphores, the process tree, pipes, id allocation and kernel stacks |

`dafny verify dfyconfig.toml` checks the project. State that the code changes in place is a class
whose methods are proved against functions on values; the theorems over runs are lemmas about those
functions. Hardware words are unbounded integers with wrap-around and truncation written out where
they matter; panics, failed assertions and endless scans are values of a result type.

## What the code does differently from what one would expect

The model follows the code. Each point below names the members that state it; where the expected
property holds for some inputs only, they give the exact condition.

- `VirtAddr::from` also accepts the addresses in [2^38, 2^39) and in [2^64-2^39, 2^64-2^38), which are not canonical (`Sv39.VirtAddrCheck`).
- A process sees the kernel half through the root entries present at its creation only (`Spaces.KernelHalfShared`).
- FAT32 `read_at` reads from one cluster only and panics across a boundary (`Fat32.ReadRight`).
- A FAT32 write that needs more clusters than the file has never returns, unless it ends below the recorded size, and takes every free cluster; sizes are recorded in 32 bits (`Fat32.Fat32Inode.IncreaseSize`, `Fat32.Fat32Inode.WriteAt`).
- An exited task keeps the recorded status `Running` (`Scheduler.RecordedRunning`).
- A pipe's read end accepts writes, so end of file need not be final (`Pipes.NoMoreBytes`, `Pipes.StrayWrite`).
- ext4 removal of a missing name or of the first record doubles the first record's length; removal after a record that starts beyond 3832, or in a block with a malformed tail, panics (`Ext4Dir.RemoveIff`). Insertion without room never returns (`Ext4Dir.TryInsertEntry`).
- ext4 reading keeps 32 bits of a disk block, misses an extent that ends at 2^32, reads unwritten extents as data, reads past the end of file when asked to start there, and asks for sectors beyond the last block (`Ext4Read.LookupIff`, `Ext4Read.UnwrittenLookup`, `Ext4Read.SizeRightIff`, `Ext4Read.LastBlockPanics`).
- The bitmap scan from an unaligned start may report a taken bit, and an unsuccessful search hands out bit 0 (`Bitmap.RightIff`, `Bitmap.FullNamesZero`).
- Below the first kernel stack there is no guard page if the kernel maps the page under MEMORY_END (`KernelStacks.Below`).
- fork gives every copied heap and mmap page user read-write permission, so an mmap page loses execute permission in the child (`Isolation.ForkSameIff`).
- `munmap` gives the frame back and leaves the page mapped (`Isolation.UserSpace.MunmapPage`). No other process is affected, because the allocator never hands a frame out again.

In two places only a comment differs from the code:

- The stack diagram in `build_stack` shows a platform string; the code writes none.
- The comment above `sys_wait4` speaks of -1 and -2; the code returns ECHILD, 0 or a pid, and waits otherwise.

## Model

| member | source | states |
|---|---|---|
| `Sv39.Indexes` | os/src/mm/address.rs:228-236 | the reverse loop leaves the three table indexes of the page number, root first |
| `Sv39.IndexDigits` | os/src/mm/address.rs:228-236 | the three indexes are the base-512 digits of the low 27 bits of the page number |
| `Sv39.SameSlot` | os/src/mm/address.rs:228-236 | two page numbers use the same leaf slot exactly when they agree modulo 2^27 |
| `Sv39.IndexesInjective` | os/src/mm/address.rs:119-131 | on canonical page numbers the indexes determine the page number |
| `Sv39.VirtAddrCheck` | os/src/mm/address.rs:110-118 | the address check accepts exactly the canonical addresses and those in [2^38, 2^39) and [2^64-2^39, 2^64-2^38), none of which is canonical |
| `Sv39.PteRoundTrip` | os/src/mm/page_table.rs:33-50 | an entry gives back its flags and the low 44 bits of the page number it was made from |
| `Sv39.PteLayout` | os/src/mm/page_table.rs:33-50 | V, R, W, X, U, G, A and D are bits 0 to 7 of the entry, bits 8 and 9 are clear, the page number starts at bit 10 |
| `Bytes.LittleEndian` | os/src/fs/fat32/fat.rs:70-73 | byte i of a word counts 256^i |
| `TableTree.WalkFollowsTree` | os/src/mm/page_table.rs:149-170 | the walk through the frames ends in the leaf table the tree names, or nowhere |
| `TableTree.CreateCorrect` | os/src/mm/page_table.rs:125-148 | creating missing levels fails exactly for lack of frames; otherwise the tree grows by the missing tables, keeps its shape and every leaf, and touches no other frame |
| `TableTree.SetLeafCorrect` | os/src/mm/page_table.rs:173-191 | storing one leaf entry keeps the shape and changes that leaf only |
| `AddressSpaces.MapRefines` | os/src/mm/page_table.rs:173-184 | map panics exactly when the page is mapped (unless covering is allowed) or frames run out; otherwise the finite map gains that one binding |
| `AddressSpaces.UnmapRefines` | os/src/mm/page_table.rs:187-191 | unmap panics exactly when the page is not mapped; otherwise exactly that binding goes |
| `AddressSpaces.TranslateRefines` | os/src/mm/page_table.rs:193-195 | translate agrees with the finite map; an unmapped page gives nothing or an invalid entry |
| `Spaces.StepRefines` | os/src/mm/page_table.rs:100-195 | every map, unmap, process creation, data allocation and data write keeps all tables the disjoint trees that stand for the abstract address spaces |
| `Spaces.StepTakes` | os/src/mm/frame_allocator.rs:71-88 | an operation takes one frame for a process root or for data, at most two for tables, none otherwise; the new process and the new data frame are that frame |
| `Spaces.TablesAreMaps` | os/src/mm/page_table.rs:125-195 | over every run from boot and for every canonical page, each table's walk finds a valid leaf exactly if the last call made on that page was a map, and the leaf has that call's frame number, its R, W, X, U and G, and V, A and D |
| `Spaces.KernelIsVpnMap` | os/src/mm/page_table.rs:125-195 | over every run from boot, translating a canonical page number through the kernel's table is lookup in the map, keyed by page number, that the calls built, each binding with the frame and permissions of the last map call |
| `Spaces.TablesStayTrees` | os/src/mm/page_table.rs:125-148 | in every run from boot the owned tables form trees: none reachable twice, none shared between two address spaces, none a data frame |
| `Spaces.KernelHalfShared` | os/src/mm/page_table.rs:100-123 | after any later run a process sees a kernel page as the kernel does if and only if the kernel's root entry was in use at its creation or the kernel maps nothing there |
| `Spaces.SharedFromBoot` | os/src/mm/page_table.rs:100-148 | the same for every process created in any run from boot |
| `Spaces.OthersUntouched` | os/src/mm/page_table.rs:173-191 | a process's own maps and unmaps change no other table's view of any page |
| `PhysMem.LookStore` | os/src/mm/page_table.rs:33-38 | eight bytes stored for an entry are seen by the walk as that entry, and no other entry changes |
| `PhysMem.Machine.constructor` | os/src/mm/frame_allocator.rs:56-62 | the allocator over the frames from l to r, none handed out, none recycled |
| `PhysMem.Machine.FrameAlloc` | os/src/mm/frame_allocator.rs:71-88 | the frame handed out was never handed out before and is zeroed; failure only at the end of memory |
| `PhysMem.Machine.FrameDealloc` | os/src/mm/frame_allocator.rs:104-114 | giving back panics exactly for a frame not handed out or given back already |
| `PageTables.PageTable.constructor` | os/src/mm/page_table.rs:83-91 | a new table stands for the empty map |
| `PageTables.PageTable.NewProcess` | os/src/mm/page_table.rs:100-124 | a process table copies root entries 256 to 511 byte for byte and has an empty lower half |
| `PageTables.PageTable.FindPteCreate` | os/src/mm/page_table.rs:125-148 | the byte-level walk creates exactly the tables the entry-level function creates |
| `PageTables.PageTable.Map` | os/src/mm/page_table.rs:173-184 | on the bytes of physical memory: success and new finite map as stated above, the binding with the caller's frame number and permissions and V, A and D, other frames' bytes kept |
| `PageTables.PageTable.Unmap` | os/src/mm/page_table.rs:187-191 | on bytes: exactly that binding goes, or the assertion fires exactly for an unmapped page |
| `PageTables.PageTable.Translate` | os/src/mm/page_table.rs:193-195 | on bytes: the entry of the finite map, or nothing valid |
| `MemorySets.MapArea` | os/src/mm/memory_set.rs:936-946 | every page of the area gets a new zeroed frame with the area's permissions; other pages keep their bytes |
| `MemorySets.CopyAreas` | os/src/mm/memory_set.rs:449-465 | the area loop of fork: same ranges and permissions, byte-equal pages in new frames |
| `MemorySets.FromExistedUser` | os/src/mm/memory_set.rs:441-495 | fork copies every user page of areas, heap and mmap byte for byte into frames and tables that did not exist, keeps area permissions, leaves everything older untouched, and fails only for lack of frames |
| `MemorySets.AddPage` | os/src/mm/memory_set.rs:907-923 | a fresh zeroed frame is mapped; every other page and every frame outside the table's own tree keeps its bytes; it fails only on a mapped page or for lack of frames |
| `Isolation.UserSpace.MapPage` | os/src/mm/memory_set.rs:548-565 | what the process sees gains exactly one zeroed page; no frame of anybody else changes |
| `Isolation.UserSpace.UnmapPage` | os/src/mm/memory_set.rs:930-935 | exactly that page goes and its frame is given back, which never panics; it fails exactly on a page that is not there |
| `Isolation.UserSpace.MunmapPage` | os/src/mm/memory_set.rs:656-667 | the frame of an mmap page is given back, which never panics, and the process still sees the page as before |
| `Isolation.UserSpace.StorePage` | os/src/mm/page_table.rs:212-232 | exactly those bytes of that page change; it fails exactly on a page that is not mapped |
| `Isolation.EffectIs` | os/src/mm/memory_set.rs:548-667 | byte by byte what each operation does to what a process sees: new pages are zero with the caller's permissions, for mmap R, W, X and U; a store changes those bytes; other pages stay |
| `Isolation.Act` | os/src/mm/memory_set.rs:441-495 | an operation of one process leaves every page, byte and binding of the other as it was, even when it fails, and the two still share no frame |
| `Isolation.RunBoth` | os/src/mm/memory_set.rs:441-495 | over any interleaving of page additions, unmaps, munmaps and stores of two processes without common frames, each ends up seeing what its own operations alone make of its first view, and they share no frame; a run stops only at an operation its own view refuses or for lack of frames |
| `Isolation.Fork` | os/src/mm/memory_set.rs:441-495 | after fork parent and child share no frame; the parent sees what it saw, the child the same bytes, with the same permissions in areas and user, read and write elsewhere |
| `Isolation.ForkThenRun` | os/src/mm/memory_set.rs:441-495 | both together: after fork and any run, parent and child each see their own operations only |
| `Isolation.ForkSameIff` | os/src/mm/memory_set.rs:466-494 | a heap or mmap page looks the same in the child exactly if the parent had it user, read, write and nothing more |
| `Isolation.BootAndFork` | os/src/mm/memory_set.rs:441-495 | from a machine at boot: a process with one area is made and forked, and both see that area's zeroed pages |
| `Loader.CopyData` | os/src/mm/memory_set.rs:976-997 | the data goes to the area at the given byte offset, page by page; every other byte keeps its value |
| `Loader.TranslatedByteBuffer` | os/src/mm/page_table.rs:212-232 | the slices, none empty, concatenate to exactly the bytes the program sees in the range |
| `Loader.LoadThenRead` | os/src/mm/memory_set.rs:976-997 | loading and translating the same range gives non-empty slices that concatenate to the data |
| `Loader.LoadThenIterate` | os/src/mm/page_table.rs:290-325 | loading, translating and iterating over the user buffer yields the data byte by byte |
| `Loader.PushArea` | os/src/mm/memory_set.rs:183-214 | a pushed area reads as zeros with the data at the offset; other pages are not touched |
| `Loader.BufferIterator.Next` | os/src/mm/page_table.rs:309-325 | each call yields the next byte of the concatenation, and nothing exactly at its end |
| `UserStack.WriteToUser` | os/src/mm/memory_set.rs:857-872 | the bytes land in the new space at that address and nowhere else; the current table gets that page, for the kernel to read and write only; fails only for lack of frames |
| `UserStack.PushString` | os/src/mm/memory_set.rs:712-745 | a string lands zero-terminated, byte by byte, at the pointer recorded for it; bytes above are not disturbed |
| `UserStack.PlaceOrder` | os/src/mm/memory_set.rs:669-854 | argc, argv, envp and auxv are contiguous below the strings; every block is at the highest aligned place that leaves room for what is above |
| `UserStack.BuildStack` | os/src/mm/memory_set.rs:669-854 | the finished stack holds every string; the word at its pointer is argc, followed by the argument and environment pointers, each list closed by a zero, and the auxiliary headers with the two added and the end; none is overwritten by a later write; fails only for lack of frames |
| `UserStack.Start` | user/src/lib.rs:33-53 | the user-side parser returns each argument up to its first zero byte |
| `UserStack.ArgumentRoundTrip` | os/src/mm/memory_set.rs:669-854 | what exec passes is what the program receives exactly when no argument contains a zero byte |
| `UserStack.ReadStack` | os/src/mm/memory_set.rs:674-684 | a reader that starts from the stack pointer alone and follows the layout gets argc, the arguments, the environment and the auxiliary vector |
| `UserStack.StackRoundTrip` | os/src/mm/memory_set.rs:669-854 | argc always comes back; arguments and environment exactly when no string has a zero byte; the auxiliary vector exactly when no header given is AT_NULL |
| `BlockCache.GetRefines` | os/src/block/block_cache.rs:96-127 | getting a block fails exactly when all sixteen entries are held; otherwise the logical disk is unchanged and the block is cached and held |
| `BlockCache.ModifyRefines` | os/src/block/block_cache.rs:43-58 | modify changes the logical disk at that block and range only |
| `BlockCache.SyncRefines` | os/src/block/block_cache.rs:141-146 | after syncing, the device equals the logical disk, which did not change |
| `BlockCache.EvictKeeps` | os/src/block/block_cache.rs:103-113 | eviction removes an unheld entry, writes it back, and keeps the logical disk |
| `BlockCache.GetPlaces` | os/src/block/block_cache.rs:96-127 | a hit leaves the queue and the device alone; a miss appends the block, and only if sixteen are there the first unheld one leaves, written back if modified |
| `BlockCache.RunRefines` | os/src/block/block_cache.rs:96-146 | over every run of get, modify, drop, eviction and sync the cache refines a plain disk with holders; ids stay unique, at most sixteen |
| `BlockCache.HeldIsCached` | os/src/block/block_cache.rs:96-127 | a held block is in the queue: it is never evicted |
| `BlockCache.BlockCacheManager.GetBlockCache` | os/src/block/block_cache.rs:96-127 | the imperative search, eviction and load compute that step |
| `BlockCache.BlockCacheManager.SyncAll` | os/src/block/block_cache.rs:141-146 | the sync loop computes that step |
| `Fat32.FatWritten` | os/src/fs/fat32/fat.rs:50-61 | a 32-bit store into the FAT region changes that entry of the table and no other |
| `Fat32.NextClusterId` | os/src/fs/fat32/fat.rs:64-79 | the next cluster, or the end for entries from 0x0FFFFFF8 on |
| `Fat32.ClusterChain` | os/src/fs/fat32/fs.rs:62-74 | the walk ends and returns exactly the chain that starts there |
| `Fat32.AllocNewCluster` | os/src/fs/fat32/fat.rs:22-48 | the first free cluster from 3 on gets the end mark 0x0FFFFFFF, or the table has no free entry; no data sector changes |
| `Fat32.IncreaseCluster` | os/src/fs/fat32/fat.rs:50-61 | with a free entry, exactly the chain of that tail grows, by one cluster that was in no chain |
| `Fat32.ChainsExtended` | os/src/fs/fat32/fat.rs:22-79 | the extension keeps all chains linked, end-marked, acyclic and pairwise disjoint |
| `Fat32.ClustersTile` | os/src/fs/fat32/fat.rs:102-108 | every sector of the data area belongs to exactly one cluster, 2 plus an eighth of its distance from the first |
| `Fat32.ReadCluster` | os/src/fs/fat32/fs.rs:77-91 | byte k of the buffer is byte k mod 512 of sector reserved + FATs + 8(c-2) + k/512 |
| `Fat32.WriteCluster` | os/src/fs/fat32/fs.rs:94-108 | those eight sectors hold the buffer, every other sector is unchanged |
| `Fat32.Fat32Inode.FileSize` | os/src/fs/fat32/dentry.rs:68-75 | the recorded size, the little-endian word at byte 28 of the directory entry, read through the cache |
| `Fat32.Fat32Inode.SetFileSize` | os/src/fs/fat32/dentry.rs:77-85 | the size cut to 32 bits goes into four bytes of the directory entry; no other byte of the disk changes |
| `Fat32.Fat32Inode.IncreaseSize` | os/src/fs/fat32/inode.rs:276-291 | it returns exactly if the size is below the recorded one or the chain covers it; otherwise its loop has taken every free cluster and still goes on |
| `Fat32.Fat32Inode.WriteAt` | os/src/fs/fat32/inode.rs:152-180 | it returns exactly under that condition; then the part of the buffer the chain has room for replaces that range of the concatenated clusters, the recorded size becomes the end of the range unless it was larger, cut to 32 bits, and no byte of the disk outside the chain and those four bytes changes |
| `Fat32.Fat32Inode.ReadAt` | os/src/fs/fat32/inode.rs:123-150 | all data comes from the one cluster that holds the offset; a panic otherwise |
| `Fat32.ReadRight` | os/src/fs/fat32/inode.rs:123-150 | a read returns what is wanted exactly when the wanted bytes stay inside one cluster (or nothing is wanted and the offset is not strictly inside the unused rest) |
| `Fat32.ReadAcrossClusters` | os/src/fs/fat32/inode.rs:139-142 | two bytes across a cluster boundary panic |
| `Fat32.Fat32Inode.ReadAll` | os/src/fs/fat32/inode.rs:215-228 | the 512-byte reads never meet a boundary: the first file_size bytes of the clusters come back |
| `Fat32.Fat32Inode.WriteThenReadAll` | os/src/fs/fat32/inode.rs:152-228 | a write followed by reading the file back gives the old bytes with the range replaced, cut to the size |
| `Scheduler.Kernel.SuspendCurrent` | os/src/task/mod.rs:55-75 | the running task becomes ready at the back of the queue, nothing runs |
| `Scheduler.Kernel.BlockCurrent` | os/src/task/mod.rs:78-90 | the running task becomes blocked, nothing runs |
| `Scheduler.Kernel.WakeupTask` | os/src/task/manager.rs:101-107 | the task becomes ready at the back of the queue |
| `Scheduler.Kernel.RunNext` | os/src/task/processor.rs:59-98 | the front task runs; with an empty queue the loop returns |
| `Scheduler.Semaphore.UpSem` | os/src/sync/semaphore.rs:36-45 | count and wait queue after up; the first waiter, if any is owed, is woken |
| `Scheduler.Semaphore.DownSem` | os/src/sync/semaphore.rs:48-56 | count and wait queue after down; the caller sleeps if the count went negative |
| `Scheduler.StepKeeps` | os/src/task/mod.rs:55-90 | every step keeps: ready tasks are those queued, once; blocked tasks are those waiting, once; wait queues are as long as counts are negative |
| `Scheduler.StatusAfter` | os/src/task/mod.rs:55-90 | what a step does to each task's record: it changes only for the task fetched, yielding, put to sleep or woken |
| `Scheduler.CurrentAfter` | os/src/task/mod.rs:55-202 | who runs after a step: the caller of an up, a spawn or a granted down goes on; nobody after a yield, an exit or a sleeping down; the front of the queue after a fetch |
| `Scheduler.EveryTaskSomewhere` | os/src/task/mod.rs:55-202 | in every run the tasks on record are init and the spawned ones, each current, ready, waiting or exited, exactly one of them |
| `Scheduler.Safety` | os/src/task/mod.rs:55-90 | in every run from boot: a ready task is queued exactly once, at most one task that has not exited runs, a blocked task waits in exactly one queue once, queue length is max(0, -count) |
| `Scheduler.RecordedRunning` | os/src/task/mod.rs:93-202 | the tasks recorded as running are exactly the current one and the exited ones |
| `Scheduler.ExitedStaysRunning` | os/src/task/mod.rs:93-202 | a run in which a task other than init exits, after which two tasks are recorded as running |
| `Scheduler.ReadyFifo` | os/src/task/manager.rs:35-57 | over any run the ready queue is first in, first out |
| `Scheduler.RunsInTurn` | os/src/task/manager.rs:43-57 | the task at ready position k is the one the (k+1)-th fetch makes current |
| `Scheduler.WakeFifo` | os/src/sync/semaphore.rs:36-57 | over any run waiters wake in the order they went to sleep |
| `Scheduler.Bounded` | os/src/sync/semaphore.rs:36-57 | over any run the downs granted are the downs asked for, up to the initial count plus the ups; so granted downs minus ups never exceed the initial count |
| `Scheduler.BoundedFromNew` | os/src/sync/semaphore.rs:24-57 | the same from the creation of a semaphore with n resources |
| `Recycle.AllocLive` | os/src/task/res.rs:40-47 | the id handed out was not live and is exactly the one that becomes live |
| `Recycle.DeallocLive` | os/src/task/res.rs:49-57 | giving back fires an assertion exactly when the id is not live |
| `Recycle.ReuseLast` | os/src/task/res.rs:40-57 | the id given back last is handed out next, which undoes the giving back |
| `Recycle.NewOnlyIfNone` | os/src/task/res.rs:40-47 | a new id is made exactly when every id made is live |
| `Recycle.RecycleAllocator.DeallocId` | os/src/task/res.rs:49-57 | the scan of the recycled ids computes that |
| `ProcessTree.Processes.ForkProcess` | os/src/task/task.rs:368-497 | the tree part of fork: a fresh pid, the child listed under its parent and in PID2PCB |
| `ProcessTree.ForkAt` | os/src/task/task.rs:368-497 | after a fork by p the child's recorded parent is p, p's list is the old one followed by it, its pid is fresh, every other record is unchanged |
| `ProcessTree.ForkThenWait` | os/src/syscall/process.rs:287-325 | the forker waiting for its child's pid finds it, not exited yet |
| `ProcessTree.Processes.ExitProcess` | os/src/task/mod.rs:93-197 | zombie with its code, children handed to init in order, own list cleared, pid removed |
| `ProcessTree.Processes.WaitTurn` | os/src/syscall/process.rs:282-336 | no matching child, or the first matching zombie removed with its code, or not yet |
| `ProcessTree.WaitAnswers` | os/src/syscall/process.rs:287-325 | ECHILD exactly without a child asked for, any child for -1 and the child of that pid otherwise; else the first exited child asked for, by its pid and with its code, and only that child leaves the list; else nothing changes |
| `ProcessTree.StepKeeps` | os/src/task/mod.rs:93-202 | every fork, exit, wait and free keeps the tree invariant |
| `ProcessTree.TreeShape` | os/src/task/mod.rs:149-159 | in every run a process that is not init and not collected is in exactly one children list, once; its owner is its recorded parent and is alive; parents lead to init |
| `ProcessTree.ParentIsForker` | os/src/task/mod.rs:149-159 | in every run a process not collected hangs under its forker until that one exits, and under init from then on |
| `ProcessTree.PidsExact` | os/src/task/res.rs:31-90 | in every run the pids in use are exactly those of the control blocks that exist, no two alike |
| `ProcessTree.NoPanic` | os/src/task/manager.rs:140-145 | in every run exit finds its pid in PID2PCB, a zombie has an exit code, and a collected block's pid can be recycled |
| `ProcessTree.ExitCodes` | os/src/syscall/process.rs:301-321 | in every run each process's exit is delivered at most once, with the code it exited with |
| `Pipes.PipeRingBuffer.WriteByte` | os/src/fs/pipe.rs:73-80 | the byte joins the end of the contents |
| `Pipes.PipeRingBuffer.ReadByte` | os/src/fs/pipe.rs:81-89 | the oldest byte leaves the contents |
| `Pipes.PipeRingBuffer.AvailableRead` | os/src/fs/pipe.rs:90-98 | the number of buffered bytes |
| `Pipes.PipeRingBuffer.AvailableWrite` | os/src/fs/pipe.rs:99-106 | together with available_read, 3200 |
| `Pipes.ReadLoop` | os/src/fs/pipe.rs:136-169 | one turn of read: the oldest bytes up to what is wanted; it returns when complete, or when the buffer is empty and the write end closed |
| `Pipes.WriteLoop` | os/src/fs/pipe.rs:183-211 | one turn of write: as much as fits; it returns when complete |
| `Pipes.NothingLost` | os/src/fs/pipe.rs:136-211 | under every interleaving accepted bytes are delivered bytes followed by buffered bytes, at most 3200 buffered |
| `Pipes.TurnEnds` | os/src/fs/pipe.rs:136-211 | a turn that does not end its call has emptied the buffer, for a read, or filled it, for a write; a read ends complete or at the end of a closed pipe |
| `Pipes.ReadIsItsDeliveries` | os/src/fs/pipe.rs:136-169 | what a read returns is the concatenation of the bytes delivered to it, over any interleaving |
| `Pipes.WriteIsItsData` | os/src/fs/pipe.rs:183-211 | the bytes taken from a write are a prefix of its data, and all of it when it returns |
| `Pipes.EndsCount` | os/src/fs/pipe.rs:107-109 | the write ends are the clones and the first one less the closes |
| `Pipes.ShortRead` | os/src/fs/pipe.rs:145-149 | in every run a read returns short only with the buffer empty and no write end then or ever after |
| `Pipes.NoMoreBytes` | os/src/fs/pipe.rs:107-109 | after a short read no byte is accepted in any later run if and only if every write turn of that run belongs to a write of no bytes; all those writes come through a read end |
| `Pipes.StrayWrite` | os/src/fs/pipe.rs:132-135 | a run from a new pipe in which the write end closes and a read end then accepts a byte |
| `Ext4Dir.EntryRec` | os/libs/ext4_rs/src/ext4_impl.rs:325-353 | an entry written into the block reads back with the same inode, length, kind and name |
| `Ext4Dir.FindInBlock` | os/libs/ext4_rs/src/ext4_impl.rs:432-466 | the first record with the name and the start of the record before it |
| `Ext4Dir.LookupIsMap` | os/libs/ext4_rs/src/ext4_impl.rs:432-466 | lookup in the block is lookup in the directory map |
| `Ext4Dir.TryInsertEntry` | os/libs/ext4_rs/src/ext4_impl.rs:261-322 | the first record with room is split; if none has room the scan hangs at the unused tail and nothing changes |
| `Ext4Dir.InsertTiles` | os/libs/ext4_rs/src/ext4_impl.rs:291-310 | insertion keeps the records tiling the block up to the tail |
| `Ext4Dir.SplitPoint` | os/libs/ext4_rs/src/ext4_impl.rs:281-297 | a record is split at the first multiple of 4 behind its name, the new record takes the rest, all others are unchanged |
| `Ext4Dir.RoomIs` | os/libs/ext4_rs/src/ext4_impl.rs:270-290 | a record has room exactly if its length covers its own name and an entry struct more than the new one, each rounded up to 4 |
| `Ext4Dir.RecordsAligned` | os/libs/ext4_rs/src/ext4_impl.rs:261-322 | over any run all records start at multiples of 4 |
| `Ext4Dir.ChecksumStored` | os/libs/ext4_rs/src/ext4_impl.rs:299-300 | every change leaves its checksum in the last four bytes |
| `Ext4Dir.DirInserted` | os/libs/ext4_rs/src/ext4_impl.rs:261-322 | insertion of an absent name adds exactly that binding |
| `Ext4Dir.NewBlock` | os/libs/ext4_rs/src/ext4_impl.rs:243-252 | a block started afresh holds one record up to the tail and a well-formed tail |
| `Ext4Dir.RemoveEntry` | os/libs/ext4_rs/src/ext4_impl.rs:588-637 | what removal makes of the block, or a panic, with the block unchanged, when the 264-byte slice does not fit or the tail is malformed; a well-formed tail stays so |
| `Ext4Dir.RemoveTiles` | os/libs/ext4_rs/src/ext4_impl.rs:621-634 | removal of a record other than the first joins it to the one before and keeps the tiling |
| `Ext4Dir.DirMerged` | os/libs/ext4_rs/src/ext4_impl.rs:621-634 | joining removes exactly that binding |
| `Ext4Dir.RemoveIff` | os/libs/ext4_rs/src/ext4_impl.rs:588-637 | removal keeps the tiling and loses exactly the name if and only if the tail is well formed and the name is there, not in the first record, and the record before it starts at most at 3832 |
| `Ext4Dir.OnlyNameStays` | os/libs/ext4_rs/src/ext4_impl.rs:588-637 | the only name of a fresh block cannot be removed |
| `Ext4Dir.DirectoryIsMap` | os/libs/ext4_rs/src/ext4_impl.rs:261-637 | over any run of insertions and removals from a block with a well-formed tail, reusing freed space, the records tile the block, the tail stays well formed and lookup equals the map built by the same operations |
| `Ext4Read.Device.ReadOffset` | os/src/drivers/block/virtio_blk.rs:81-90 | the bytes from the offset to the end of the eight sectors read; fails past the device |
| `Ext4Read.Device.WriteOffset` | os/src/drivers/block/virtio_blk.rs:91-112 | the sector-wise read-modify-write replaces exactly the range; fails exactly past the device |
| `Ext4Read.LoadFromHeader` | os/libs/ext4_rs/src/ext4_structs/extent.rs:397-426 | loading reads the extents out of the inode's words |
| `Ext4Read.ExtentLayout` | os/libs/ext4_rs/src/ext4_structs/extent.rs:397-426 | the fields read are those of the on-disk extent header and extents, byte by byte |
| `Ext4Read.RootRoundTrip` | os/libs/ext4_rs/src/ext4_structs/extent.rs:397-426 | words made of extents are a root node and load as those extents |
| `Ext4Read.GetBlock` | os/libs/ext4_rs/src/ext4_structs/extent.rs:450-472 | from the inode's words: the block computed in 32 bits from the first extent that passes the test, whose end wraps at 2^32; no extent is a panic |
| `Ext4Read.CoversIs` | os/libs/ext4_rs/src/ext4_structs/extent.rs:457-461 | an initialized extent passes the test for a block exactly if it holds the block and ends below 2^32 |
| `Ext4Read.LookupIff` | os/libs/ext4_rs/src/ext4_structs/inode.rs:975-1010 | for a block of an initialized extent, when no unwritten extent passes the test for it, the lookup is right exactly if the extent ends below 2^32 and the physical block is below 2^32 |
| `Ext4Read.UnwrittenLookup` | os/libs/ext4_rs/src/ext4_structs/extent.rs:457-461 | an unwritten extent is read as if it held data: the block found is its disk block, right only if that is block 0 |
| `Ext4Read.UnwrittenHides` | os/libs/ext4_rs/src/ext4_structs/extent.rs:457-461 | an unwritten extent hides the initialized one that holds the block |
| `Ext4Read.LongestExtent` | os/libs/ext4_rs/src/ext4_structs/extent.rs:173-184 | an extent of 32768 blocks is initialized, one of count 32769 is an unwritten one of a single block |
| `Ext4Read.LookupWraps` | os/libs/ext4_rs/src/ext4_structs/extent.rs:457-461 | an extent whose disk blocks cross 2^32 and one that ends at file block 2^32, both looked up wrongly |
| `Ext4Read.Ext4File.FileRead` | os/libs/ext4_rs/src/ext4_interface.rs:523-633 | the buffer gets the file's bytes from fpos on, fpos and the count advance by that number; it panics exactly when a touched block is missing or its sectors leave the device; EINVAL past the recorded size |
| `Ext4Read.SizeRightIff` | os/libs/ext4_rs/src/ext4_interface.rs:558-563 | the number of bytes read is right exactly when fpos is within the file or nothing is asked for |
| `Ext4Read.ReadAt` | os/src/fs/ext4/inode.rs:81-92 | for a well-formed file and an offset within it, the file's bytes from there on, as many as fit |
| `Ext4Read.ReadAll` | os/src/fs/inode.rs:34-48 | the loop ends with the whole file |
| `Ext4Read.LastBlockPanics` | os/src/drivers/block/virtio_blk.rs:81-90 | a read from the second sector on of the device's last block leaves the device |
| `KernelStacks.FreshUnmapped` | os/src/task/res.rs:101-117 | the pages of a fresh id are unmapped, so the map assertion cannot fire |
| `KernelStacks.DropFine` | os/src/task/res.rs:119-134 | on drop the pages are mapped and their frames distinct, handed out and not given back |
| `KernelStacks.Position` | os/src/task/res.rs:91-96 | a stack's pages are the 32 KiB at MEMORY_END plus its number times 36 KiB |
| `KernelStacks.AllocAt` | os/src/task/res.rs:101-117 | a new stack maps its eight pages to the new frames in order, and nothing else |
| `KernelStacks.DropAt` | os/src/mm/memory_set.rs:165-180 | a dropped stack gives back exactly the frames behind its pages and unmaps exactly them |
| `KernelStacks.KernelSpace.KstackAlloc` | os/src/task/res.rs:101-117 | allocation never fires the assertion; it fails exactly when the frames left are fewer than the stack pages and the tables they take |
| `KernelStacks.KernelSpace.Drop` | os/src/mm/memory_set.rs:165-180 | dropping a live stack never fires an assertion or panic |
| `KernelStacks.StepKeeps` | os/src/task/res.rs:31-134 | every allocation, drop and foreign frame use keeps the stack invariant |
| `KernelStacks.Stacks` | os/src/task/res.rs:91-134 | in every run the pages mapped above MEMORY_END are exactly those of live stacks, on different frames, with an unmapped page after each; ids stay small enough for the address space |
| `KernelStacks.Below` | os/src/task/res.rs:91-96 | the page below a live stack is unmapped, except below the first when the kernel mapped the page under MEMORY_END |
| `Crc32c.TabIsShifts` | os/libs/ext4_rs/src/utils.rs:18-51 | every table entry is eight steps of the reflected shift register |
| `Crc32c.TableStep` | os/libs/ext4_rs/src/utils.rs:64-68 | one table step is eight register steps, for every register value and byte |
| `Crc32c.Crc32` | os/libs/ext4_rs/src/utils.rs:58-75 | the table loop computes the bit-by-bit CRC of the buffer, for every initial value |
| `Crc32c.CrcIsRemainder` | os/libs/ext4_rs/src/utils.rs:1-75 | that CRC is the remainder of schoolbook polynomial division by x^32 + 0x1EDC6F41, section 12.1 of RFC 3720 |
| `Crc32c.Chaining` | os/libs/ext4_rs/src/utils.rs:73-75 | chained calls are one call on the concatenation |
| `Crc32c.GroupChecksum` | os/libs/ext4_rs/src/ext4_structs/block_group.rs:144-176 | the descriptor checksum is the CRC of uuid, group number and descriptor as one byte string, cut to 16 bits |
| `Crc32c.GroupParts` | os/libs/ext4_rs/src/ext4_structs/block_group.rs:144-176 | the group number goes in lowest byte first, the descriptor with bytes 30 and 31 zero, and the low 16 bits come out |
| `Bitmap.FindClr` | os/libs/ext4_rs/src/utils.rs:106-151 | the staged scan reports the least clear bit, or the start if that bit lies in the first partial byte, or nothing |
| `Bitmap.BitValue` | os/libs/ext4_rs/src/utils.rs:80-82 | bit i is set exactly if byte i/8 divided by 2^(i mod 8) is odd |
| `Bitmap.AlignedRight` | os/libs/ext4_rs/src/utils.rs:112-151 | from a byte-aligned start it is the least clear bit |
| `Bitmap.RightIff` | os/libs/ext4_rs/src/utils.rs:112-124 | from any start it is the least clear bit exactly if the start is clear or no bit before the byte boundary is; otherwise it is the start, which is taken |
| `Bitmap.UnalignedWrong` | os/libs/ext4_rs/src/utils.rs:117-120 | a map on which an unaligned search reports a taken bit |
| `Bitmap.BitSet` | os/libs/ext4_rs/src/utils.rs:94-96 | setting changes exactly that bit |
| `Bitmap.Allocate` | os/libs/ext4_rs/src/ext4_structs/inode.rs:624-626 | find and set as the callers do it |
| `Bitmap.EnoughClear` | os/libs/ext4_rs/src/ext4_structs/inode.rs:624-626 | searches go on succeeding while each start has more clear bits after it than allocations came before |
| `Bitmap.NeverTwice` | os/libs/ext4_rs/src/ext4_structs/inode.rs:624-626 | n allocations from the same byte-aligned start, without a free in between, name bits that were clear and no bit twice exactly if at least n bits of the range are clear |
| `Bitmap.FullNamesZero` | os/libs/ext4_rs/src/ext4_structs/inode.rs:624-626 | when nothing is free, bit 0 is handed out |

## Left out

- `recycle_data_pages`, `sys_brk`, and the address arithmetic, file contents and MAP_FIXED skipping of `mmap` and `munmap`, which are modelled page by page; fork takes the heap and mmap areas as given.
- ELF parsing and `from_elf`: the loader starts from areas and data.
- Isolation.ForkThenRun: does not cover accesses through the entry fork leaves in the parent's table for the child's trap context, a page that is not user-accessible; operations name other pages.
- The trap-context page that fork maps into both spaces after `from_existed_user`, and everything in fork that does not concern memory, the tree or the pid.
- FAT32 directory entries but for their size field: `to_end`, names, creation and removal; a file's entry is at a given place outside its own clusters.
- Fat32.AllocNewCluster: reports a full table, where the code's search goes on behind the table.
- FAT32 geometry is eight sectors of 512 bytes, and cluster contents assume one block device, since the cache is keyed by block number alone.
- Fat32.Fat32Inode.ReadAt: the buffer length and offset are below 2^63 and 2^64, as the types of the code have them.
- ext4 extent trees of depth one and more, extent insertion and removal, `ext4_file_write`, inode freeing and the group counters.
- Ext4Read.Ext4File.FileRead: block indexes are not cut to 32 bits, so positions from 2^44 on are not modelled as the code has them.
- Ext4Dir.TryInsertEntry: the checksum in the tail is an arbitrary four bytes, and the padding byte of an entry is arbitrary.
- The search for a directory block across the blocks of a directory: removal is modelled on the block where the search ends.
- Names are byte strings; a record whose name is not UTF-8 matches no name in the code, and the model does not treat it apart because the names searched for are always UTF-8.
- `block_queue` and `unblock_task`, timers, `TaskManager::remove`, threads (`clone2`, `clone_t`) and signals.
- Scheduler.Semaphore.constructor: counts are unbounded integers, so a resource count of 2^63 or more, which the code turns negative, is not modelled.
- Dropping a task control block: in the process tree a collected block may be freed at any later time or never; what else its drop does is not modelled.
- `Pipe::hang_up`, `fstat`, `read_all` and the polling calls.
- KernelStacks.KernelSpace.KstackAlloc: the kernel page table appears as its finite map; how many frames its tables take is a parameter.
- Context switches, traps, satp, TLB fences, SBI, devices below the sector interface, the heap allocator, logging and the user programs.
