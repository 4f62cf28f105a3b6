# xv6 and labs: verified models

This project models the parts of an xv6 teaching kernel, its user library and two lab programs
whose correctness is least visible from the code, and proves what they are for.

| file | models | main results |
|---|---|---|
| `LogDisk.dfy` | the redo log as a sequence of block writes | `CrashAtomicity` |
| `BufferCache.dfy` | the block cache and the commit and recovery that run on it | `Commit`, `Recover`, `BRead` |
| `LogProtocol.dfy` | operations that begin, log, end and commit in any interleaving | `NoPartialOperation` |
| `LogSpace.dfy` | how much of the log those operations can fill | `AtomicExactly`, `MkfsAtomic`, `NeverTooBigExactly` |
| `FileSystem.dfy` | block allocation, inodes, file contents, `filewrite` | `WriteI`, `ReadI`, `ITrunc`, `WriteChunk`, `FileWrite` |
| `VirtualMemory.dfy` | the page free list, page tables, address spaces | `AllocUvm`, `DeallocUvm`, `FreeVm`, `CopyUvm`, `NotShared` |
| `Process.dfy` | fork, exit, wait, sleep, wakeup, kill on the process table | `ExitWait` |
| `Pipe.dfy` | readers, writers and closers of a pipe | `BytesInOrder`, `ReadsAreContiguous`, `NoneLostExactly` |
| `SleepLock.dfy` | sleeping locks | `MutualExclusion` |
| `Heap.dfy` | the user-level allocator | `Malloc`, `Free`, `Canonical`, `MallocThenFree` |
| `Shell.dfy`, `ShellRoundTrip.dfy` | the shell parser and its in-place word cutting | `ParseCmd`, `RoundTrip`, `PrintedAgain` |
| `Regexp.dfy` | the regular expression matcher of grep | `Match` |
| `BoundedBuffer.dfy` | the producer and consumer of lab 5 | `EveryRunCompletes` |
| `PagingSimulator.dfy` | the paging simulator of lab 7 | `Simulate`, `RunBoth`, `LeastRecentExactly` |

Code that updates its data in place is modelled by classes and methods with loops. Interleaved
code is modelled as a state machine: a schedule says which process takes which step next, `Run`
gives the state it leads to, and the main lemmas speak about every schedule. Ghost state (who owns
a block, a page or a unit of the heap; what a file contains; what has been written) ties the
concrete data to its meaning, and the invariants called `Valid`, `Inv`, `Kin` or `Core` say how.

## What the code does not do

Six properties one might expect are false of the code. Each is stated with the exact condition
under which it holds.

- `log_write` panics with "too big a transaction" although every operation stays within
  `MAXOPBLOCKS` blocks, because its guard compares with `LOGSIZE` and with the size of the log minus
  one before absorption (xv6/log.c:218). Operations that log at most n blocks each, in any number of
  calls, never cause that if and only if 10 + 2n is less than both: `LogSpace.NeverTooBigExactly`. With
  n = 10 a run that panics exists for every size of the log (`LogSpace.AllowedOperationsPanic`); with
  the n = 7 of `filewrite` and the log of 30 blocks that mkfs makes (xv6/mkfs.c:25) none does
  (`LogSpace.ChunksNeverPanic`). Counting calls instead of blocks the bound is 10 + 2n - 1.
- `log_write` looks at the length of the log before it takes the lock (xv6/log.c:218-223), so two
  processes can both find room for the last block and log as many blocks as the log has, its header
  included. The blocks of operations that log at most n each always fit behind the header if and only
  if 10 + 2n is less than the size of the log or that size is one, when nothing is ever logged:
  `LogSpace.FitsExactly`. With the log that mkfs makes, operations that keep to `MAXOPBLOCKS` overflow it
  (`LogSpace.AllowedOperationsOverflow`). The commit of an overflow puts its last log block on the home
  block behind the log, and a crash at that point leaves part of the operations on disk, unless the
  30 buffers (xv6/param.h:12) all hold logged blocks, when its first `bread` panics instead. So every crash
  in every run leaves whole operations only, if and only if they always fit or the log has at least 30
  blocks: `LogSpace.AtomicExactly`. With the log of mkfs that is always so (`LogSpace.MkfsAtomic`), with
  any shorter one of two blocks or more it is not (`LogSpace.AllowedOperationsTear`). The panic for want
  of a buffer is out of reach, with the log of mkfs or a longer one, if and only if 10 + 2n is less than
  30: `LogSpace.NoBuffersExactly`.
- A killed writer returns from a full pipe without a wakeup (xv6/pipe.c:85-89), and a reader sleeps
  on: `Pipe.WakeupLost`. Readers miss no wakeup in a run if and only if no writer does that while a
  reader sleeps: `Pipe.NoneLostExactly`.
- `malloc` computes in 32 bits and passes the product as a signed number to `sbrk`, which takes
  nothing but a positive number as a demand for memory (xv6/proc.c:165-171). A request can be served from
  new memory if and only if it is for at most 2^31 - 16 bytes: `Heap.ServedExactly`. The largest one
  whose rounding does not wrap asks for 0 bytes: `Heap.LargestRequest`. `Heap.Allocator.Malloc` says
  what happens then.
- `filewrite` returns -1 although part of the data was written and the offset has moved
  (xv6/file.c:135-153), if and only if the file would get too large and there is room for a whole
  chunk: `FileSystem.PartlyWrittenExactly`, and `FileSystem.PartlyWritten` for an example.
- Option `-l` of the paging simulator is called LRU (lab-07/README.md:5), but a hit does not reorder
  anything, so both options evict in load order (`PagingSimulator.RunBoth`). That evicts the least
  recently used page on every reference string if and only if there is one frame:
  `PagingSimulator.LeastRecentExactly`, which carries the result. `PagingSimulator.VictimExactly` is about
  one point of a string, and its condition, that the pages loaded before the last hit on the oldest one
  have been referenced since, is close to the property itself.

Where the code and its description differ otherwise the model follows the code: the shell opens the
file of `>>` exactly as it opens that of `>` (xv6/sh.c:368-373).

## Model

| member | source | states |
|---|---|---|
| `LogDisk.CrashAtomicity` | xv6/log.c:177-202 | a commit that crashes after any number of block writes, then any number of crashed recoveries and a complete one, leaves all logged home blocks old if the header was not written and all new if it was, every other home block untouched, and an empty log |
| `LogDisk.RecoveryIsIdempotent` | xv6/log.c:115-122 | crashes during recovery, however many, never change the home blocks recovery will end with |
| `LogDisk.CrashInCommit` | xv6/log.c:192-202 | every disk state of a commit is bound to the old or the new home blocks, by whether the header is on disk |
| `LogDisk.CrashInRecovery` | xv6/log.c:115-122 | a recovery stopped after j writes still has the committed transaction in the log, and a complete one has installed it |
| `LogDisk.BeforeHeader` | xv6/log.c:177-190 | writing the log changes no home block and not the header |
| `LogDisk.AtHeader` | xv6/log.c:98-113 | the single header write turns an uncommitted transaction into a committed one |
| `LogDisk.InstallReaches` | xv6/log.c:68-82 | installing a committed transaction reaches the same home blocks whatever part of it was installed before |
| `LogDisk.InstallKeeps` | xv6/log.c:68-82 | a partial install leaves the transaction committed |
| `LogDisk.ReadsBack` | xv6/log.c:84-96 | what recovery reads from the log is the transaction that was committed |
| `LogDisk.CommitDone` | xv6/log.c:192-202 | after its last write a commit has installed the transaction and the log is empty |
| `LogDisk.NamesDistinct` | xv6/log.c:84-96 | the block numbers in a header that recovery can find are distinct |
| `LogDisk.RecoveryEnds` | xv6/log.c:115-122 | clearing the header after the installs ends in the home blocks the disk was bound to |
| `LogDisk.RecoveryBound` | xv6/log.c:115-122 | every disk state of a recovery is bound to the home blocks it will end with |
| `LogDisk.HeaderFor` | xv6/log.c:98-113 | the header lists the count and the first block numbers and keeps the rest of the block |
| `MruList.MovedToFront` | xv6/bio.c:130-138 | the six pointer assignments keep the list one circle in both directions, with the buffer moved to the front and the others in order |
| `CacheState.Replaced` | xv6/bio.c:78-91 | recycling or relocking a buffer that is not pinned keeps every block in at most one buffer, and the meaning of the cache |
| `CacheState.Updated` | xv6/log.c:213-233 | new contents in a buffer, with the block pinned or on disk, change the meaning of the cache at that block only |
| `CacheState.SomeUnpinned` | xv6/bio.c:78-91 | fewer logged blocks than buffers leave a buffer that can be recycled |
| `BufferCache.Cache.constructor` | xv6/bio.c:38-56 | the list holds every buffer once and nothing is cached |
| `BufferCache.Cache.BGet` | xv6/bio.c:61-93 | the buffer of the block if it is cached, or else the least recently used buffer that is neither referenced nor pinned; "no buffers" exactly if there is neither |
| `BufferCache.Cache.FindCached` | xv6/bio.c:68-76 | finds the buffer of a block if and only if there is one |
| `BufferCache.Cache.FindRecyclable` | xv6/bio.c:78-91 | the recyclable buffer nearest to the tail, or none exists |
| `BufferCache.Cache.BRead` | xv6/bio.c:95-106 | a locked buffer with the last logged contents of the block, or the disk contents if it was not logged; no pin is lost |
| `BufferCache.Cache.BWrite` | xv6/bio.c:108-116 | exactly one block of the disk changes and the buffer is no longer pinned |
| `BufferCache.Cache.BRelse` | xv6/bio.c:118-141 | a buffer nobody refers to becomes the most recently used one, the others keep their order, and no pin is lost |
| `BufferCache.Cache.Modify` | xv6/log.c:208-212 | contents changed under the lock are not yet part of what the cache means |
| `BufferCache.Cache.LogWrite` | xv6/log.c:213-233 | fails exactly when the log has LOGSIZE or size - 1 blocks, even for a block it would absorb; otherwise the block is pinned and logged once |
| `BufferCache.Cache.Copy` | xv6/log.c:182-189 | one block is copied and written, and buffers run out exactly if every one is pinned |
| `BufferCache.Cache.WriteLog` | xv6/log.c:176-190 | the trace of the disk is extended by the states of the log writes, in order and no others; fails exactly if every buffer is pinned |
| `BufferCache.Cache.WriteHead` | xv6/log.c:98-113 | one write replaces the header by one that lists the logged blocks |
| `BufferCache.Cache.InstallTrans` | xv6/log.c:68-82 | the trace of the disk is extended by the states of the install writes, in order and no others, and every logged buffer ends clean |
| `BufferCache.Cache.Commit` | xv6/log.c:192-202 | reaches "no buffers" exactly if the transaction has as many blocks as there are buffers; otherwise the trace of the disk is extended by the states `LogDisk` reasons about, in order and no others, and the cache ends clean and equal to the disk |
| `BufferCache.Cache.ReadHead` | xv6/log.c:84-96 | the in-memory header is the one on disk and nothing else changes |
| `BufferCache.Cache.Recover` | xv6/log.c:115-122 | ends with the home blocks the disk was bound to and an empty log; the trace of the disk is extended by the states of the recovery, in order, each bound to the same home blocks |
| `LogProtocol.NoPartialOperation` | xv6/log.c:125-202 | in every run in which the logged blocks fit the log or leave no buffer to write it with, what a crash would leave is the effect of a prefix of whole operations, namely of all up to the last commit whose header is on disk, and no block outside the disk is written; `LogSpace.AtomicExactly` says when that is every run |
| `LogProtocol.Reserved` | xv6/log.c:125-163 | in every run: the logged blocks and unused reservations fit LOGSIZE, no operation is open during a commit, and the panic in end_op is unreachable |
| `LogProtocol.NeverLost` | xv6/log.c:192-202 | what a crash would preserve is still preserved after any further step |
| `LogProtocol.BeginKeeps` | xv6/log.c:125-141 | the reservation test of begin_op keeps the logged blocks and the unused reservations of open operations within LOGSIZE |
| `LogProtocol.PutKeeps` | xv6/log.c:223-232 | logging a block, with absorption, keeps that bound whatever has happened since the tests of log_write, and makes the logical contents those of the history with one more write |
| `LogProtocol.PutLog` | xv6/log.c:223-229 | the list of logged blocks names home blocks, each once, and never outgrows its array, since the reservations bound it and not the tests |
| `LogProtocol.PutSpace` | xv6/log.c:223-230 | a block that makes the log longer is paid for by the reservation of its operation |
| `LogProtocol.EndKeeps` | xv6/log.c:145-163 | end_op starts a commit exactly when no operation is left open, so the history committed consists of whole operations |
| `LogProtocol.WriteKeepsDisk` | xv6/log.c:192-202 | a commit panics exactly if no buffer is left; while the logged blocks fit, each block write of a commit leaves a disk from which recovery yields the last committed history or the whole one |
| `LogProtocol.FinishKeepsDisk` | xv6/log.c:165-173 | after a commit of blocks that fit, the disk holds the whole history and the log is empty |
| `LogProtocol.StepKeepsDisk` | xv6/log.c:125-202 | every other step keeps that too |
| `LogProtocol.QuietWhole` | xv6/log.c:154-157 | when a commit is under way every operation in the history has ended |
| `LogSpace.BeginWithin` | xv6/log.c:131-137 | when operations are limited to n blocks each, the log and what they may still add never exceed 10 + 2n blocks |
| `LogSpace.GuardWithin` | xv6/log.c:218-221 | the tests of log_write meet a log of at most that length, also for a block that is logged already |
| `LogSpace.PutWithin` | xv6/log.c:223-230 | logging a block keeps that bound although other operations have logged theirs since the tests |
| `LogSpace.SpaceInvariant` | xv6/log.c:125-233 | the bound holds in every run of limited operations |
| `LogSpace.NeverPanics` | xv6/log.c:213-221 | no run of limited operations reaches the panics of log_write if the bound is below LOGSIZE and the size of the log minus one |
| `LogSpace.PanicRun` | xv6/log.c:218-219 | and otherwise two processes can reach "too big a transaction" |
| `LogSpace.NeverTooBigExactly` | xv6/log.c:218-219 | operations limited to n blocks, or to n calls, never reach it if and only if the bound is below LOGSIZE and the size of the log minus one |
| `LogSpace.AllowedOperationsPanic` | xv6/log.c:218-219 | operations that log as many blocks as MAXOPBLOCKS allows can reach it whatever the size of the log |
| `LogSpace.RaceRun` | xv6/log.c:218-229 | if the bound reaches the size of the log, two processes that test before either logs can log as many blocks as that |
| `LogSpace.FitsExactly` | xv6/log.c:218-229 | in every run of limited operations the logged blocks fit the log behind its header, if and only if 10 + 2n is less than its size or that is one |
| `LogSpace.AllowedOperationsOverflow` | xv6/mkfs.c:25 | with the log that mkfs makes, operations that keep to MAXOPBLOCKS can do that |
| `LogSpace.SpillIsPartial` | xv6/log.c:177-190 | a commit that has written one block behind the log leaves a disk that no whole operations explain |
| `LogSpace.PartialRun` | xv6/log.c:177-229 | such a run exists whenever the bound reaches the size of the log and there are more buffers than that |
| `LogSpace.AtomicExactly` | xv6/log.c:177-233 | a crash in any run of limited operations leaves the effect of whole operations only, if and only if 10 + 2n is less than the size of the log, or that is one, or at least the number of buffers |
| `LogSpace.AllowedOperationsTear` | xv6/log.c:218-229 | with a log of fewer blocks than there are buffers, operations that keep to MAXOPBLOCKS can leave part of themselves |
| `LogSpace.MkfsAtomic` | xv6/mkfs.c:25 | with the log that mkfs makes a crash in any run leaves the effect of whole operations only |
| `LogSpace.RunsOut` | xv6/bio.c:78-92 | a commit of as many blocks as there are buffers panics before it writes |
| `LogSpace.NoBuffersExactly` | xv6/param.h:10-12 | with a log of LOGSIZE blocks or more no run of limited operations reaches that panic, if and only if 10 + 2n is less than the number of buffers |
| `LogSpace.ChunksNeverPanic` | xv6/file.c:127-145 | with the log that mkfs makes the transactions of filewrite never reach a panic, always fit it and are never torn by a crash |
| `FsLayout.WordsAfterPut` | xv6/fs.c:389-394 | storing an address in an indirect block changes that address and no other |
| `FsLayout.BitSet` | xv6/fs.c:66-68 | the mask operation of balloc on a bitmap byte sets the bit of one block and no other |
| `FsLayout.BitCleared` | xv6/fs.c:89-92 | that of bfree clears it and no other |
| `BlockOwnership.DirectFilled` | xv6/fs.c:378-388 | giving an empty slot of an inode an unowned zeroed block keeps every block in at most one slot; a new indirect block brings no addresses, because it is zeroed |
| `BlockOwnership.EntryFilled` | xv6/fs.c:389-394 | giving an empty entry of an indirect block an unowned block keeps every block in at most one slot, and no other slot of any inode changes |
| `BlockOwnership.DirectReleased` | xv6/fs.c:414-419 | a direct block to be freed is owned by that slot only |
| `BlockOwnership.EntryReleased` | xv6/fs.c:424-427 | an entry of an indirect block to be freed is owned by that entry only, while earlier entries have been freed but not cleared |
| `BlockOwnership.IndirectReleased` | xv6/fs.c:428-430 | an indirect block whose entries have all been freed is owned by its inode only and can be freed too |
| `FileContents.PieceWritten` | xv6/fs.c:498-504 | bytes written into one block of a file are the same bytes of its contents |
| `FileContents.OthersKept` | xv6/fs.c:482-511 | a block that belongs to one inode can change without changing the contents of any other file |
| `FileContents.BlockGained` | xv6/fs.c:378-394 | a file that gets its next block has no hole and the same contents |
| `FileSystem.UsedBits` | xv6/mkfs.c:238-251 | exactly the bits of the blocks in front of the data blocks are set |
| `FileSystem.Fs.constructor` | xv6/mkfs.c:94-111 | a file system whose files are all empty: no data block is owned and every inode is settled |
| `FileSystem.Fs.BAlloc` | xv6/fs.c:55-78 | the first block with a clear bit, zeroed and owned by nobody; "out of blocks" exactly if every data block is owned |
| `FileSystem.Fs.BFree` | xv6/fs.c:80-95 | the bit of a block in use is cleared and no other |
| `FileSystem.Fs.BMapDirect` | xv6/fs.c:378-382 | the address of a direct block, allocated exactly if it is the next one; a panic exactly if the disk is full then |
| `FileSystem.Fs.Indirect` | xv6/fs.c:386-388 | the indirect block, allocated at its first use; no address of the file changes; a panic exactly if it is missing and no block is free |
| `FileSystem.Fs.Entry` | xv6/fs.c:389-396 | the address of a block in the indirect block, allocated exactly if it is the next one; a panic exactly if no block is free then |
| `FileSystem.Fs.BMap` | xv6/fs.c:370-400 | returns the address of an existing block without changing anything, or appends a block that no slot of any inode refers to; a panic exactly if fewer blocks are free than the block and the indirect block it needs |
| `FileSystem.Fs.WritePiece` | xv6/fs.c:498-504 | one round of the loop overwrites that part of the contents, takes the blocks it needs and logs at most the data block, a bitmap block and the indirect block; a panic exactly if it needs more blocks than are free |
| `FileSystem.PieceDemand` | xv6/fs.c:370-400 | one for the next block and one for the first indirect one: what the rounds take adds up to what the file grows by |
| `FileSystem.Fs.WriteLoop` | xv6/fs.c:498-504 | the loop overwrites the contents and takes exactly the blocks the file grows by; a panic exactly if they are more than were free at its start |
| `FileSystem.Fs.WriteI` | xv6/fs.c:479-511 | -1 exactly if the offset is behind the end or the file would exceed its largest size, also when the sum wraps; otherwise a panic exactly if the file grows by more blocks, its indirect block included, than are free; otherwise the contents are overwritten and extended as a flat byte array, other files are unchanged, exactly those blocks are taken, and the on-disk inode equals the in-memory one although it is written on growth only |
| `FileSystem.Fs.ReadI` | xv6/fs.c:450-476 | the bytes of the flat array that exist, and nothing is allocated or changed |
| `FileSystem.Fs.TruncDirect` | xv6/fs.c:414-419 | every direct block is freed and the ownership of all others is kept |
| `FileSystem.Fs.TruncIndirect` | xv6/fs.c:421-431 | every block the indirect block refers to is freed, and then that block; each has its bit set before, so "freeing free block" cannot happen |
| `FileSystem.Fs.ITrunc` | xv6/fs.c:402-435 | exactly the blocks of the file become free and it is empty, in memory and on disk |
| `FileSystem.Fs.WriteChunk` | xv6/file.c:140-145 | one transaction of filewrite writes the chunk or nothing and, when there is one bitmap block, logs at most 7 blocks; a panic exactly if the chunk fits the file and there are too few free blocks for it |
| `FileSystem.Fs.NextChunk` | xv6/file.c:135-151 | the next chunk goes in completely or not at all, and fails exactly at the end or the largest size; a panic exactly if too few blocks were free for it and the chunks before it |
| `FileSystem.Fs.FileWrite` | xv6/file.c:115-156 | the chunks that fit are written and the offset moves by them; the result is the length if that is all and -1 otherwise; a panic exactly if fewer blocks are free than those chunks need |
| `FileSystem.AcceptedPart` | xv6/file.c:133-153 | whole chunks go in until one would exceed the largest size |
| `FileSystem.PartlyWrittenExactly` | xv6/file.c:133-153 | filewrite has written something and reports an error if and only if the file would get too large and has room for a whole chunk |
| `FileSystem.PartlyWritten` | xv6/file.c:133-153 | one byte too many for an empty file: 46 chunks are written and an error is reported |
| `PageTables.NotShared` | xv6/vm.c:57-80 | no page is mapped at two places below KERNBASE, and none mapped there is a directory or a table |
| `PageTables.DirMade` | xv6/vm.c:124-126 | a zeroed page is an empty directory |
| `PageTables.JunkIsNoDir` | xv6/kalloc.c:66-74 | the junk kfree leaves has present bits, so no address space has such a page as its directory |
| `PageTables.TableMade` | xv6/vm.c:44-52 | a zeroed page linked into a directory maps nothing new and is owned by that entry |
| `PageTables.PteSet` | xv6/vm.c:73 | an entry below KERNBASE that becomes present takes over its page, and no other entry of any space changes |
| `PageTables.PteCleared` | xv6/vm.c:269-276 | an entry that is cleared gives up its page, and no other entry changes |
| `PageTables.Dismantle` | xv6/vm.c:290-297 | a directory without user pages can be freed with its tables |
| `VirtualMemory.Vm.constructor` | xv6/kalloc.c:31-37 | before the allocator starts no page is free |
| `VirtualMemory.Vm.FreeRange` | xv6/kalloc.c:46-53 | exactly the whole pages between the two addresses become free |
| `VirtualMemory.Vm.KFree` | xv6/kalloc.c:59-77 | the page is the head of the list that runs through the free pages, and is in use no longer |
| `VirtualMemory.Vm.KAlloc` | xv6/kalloc.c:79-95 | the head of the list, or 0 exactly if it is empty; every allocatable page stays free or in use and not both |
| `VirtualMemory.Vm.WalkPgdir` | xv6/vm.c:32-55 | the table of a virtual page; 0 exactly if it is absent and may not or cannot be allocated; no mapping of any space changes |
| `VirtualMemory.Vm.MapPages` | xv6/vm.c:57-80 | consecutive pages are mapped; it fails exactly if more tables are missing than pages are free, and then the pages mapped before stay mapped and the rest of the space is unchanged |
| `VirtualMemory.Vm.Unmap` | xv6/vm.c:269-276 | the page is freed and the entry cleared, and no other page changes its use |
| `VirtualMemory.NoTable` | xv6/vm.c:266-268 | a 4 MB stretch that is skipped holds no present page |
| `VirtualMemory.Vm.DeallocUvm` | xv6/vm.c:251-279 | exactly the mapped pages between the two sizes are freed and unmapped |
| `VirtualMemory.Conserved` | xv6/kalloc.c:59-95 | free pages and pages in use add up to the allocatable ones |
| `VirtualMemory.GrowthCounted` | xv6/vm.c:233-247 | a space that has grown uses one page for each new one and one for each table that was missing, and no others |
| `VirtualMemory.Vm.AllocUvm` | xv6/vm.c:219-249 | the space grows by zeroed pages with user and write flags; it fails exactly if it would reach KERNBASE or the new pages and missing tables are more than the free pages, and then it is as before and everything allocated for it is free again except tables that stay with it |
| `VirtualMemory.Vm.FreeVm` | xv6/vm.c:281-298 | exactly the directory, tables and pages of the space become free |
| `VirtualMemory.Vm.SetupKvm` | xv6/vm.c:117-136 | a space with the kernel mappings only, which takes 65 pages wherever the data segment starts; it fails exactly if fewer are free, and then every page is in use as before |
| `VirtualMemory.DirectMap` | xv6/vm.c:103-115 | every physical page below PHYSTOP is mapped at its address in the kernel |
| `VirtualMemory.Vm.CopyUvm` | xv6/vm.c:313-345 | a space with pages of its own that have the same contents and flags, the old one being unchanged; it fails exactly if 65 pages, the copies and a table for every 1024 of them are more than the free pages, and then every page is in use as before |
| `Process.ExitWait` | xv6/proc.c:224-312 | in every run: zombies have no children; every process that fork has finished, but init, has a parent that can wait; the parent of a zombie is not asleep in wait; who sleeps in wait has a child that has not exited; and each exited process is a zombie or was reaped exactly once |
| `Process.SlotTaken` | xv6/proc.c:79-92 | taking an unused slot keeps the family relations: nobody has it as a parent or forks into it |
| `Process.ForkFailKeeps` | xv6/proc.c:192-198 | giving the slot of a failed fork back without the lock keeps the family relations |
| `Process.ForkParentKeeps` | xv6/proc.c:199-200 | setting the parent of a new process without the lock keeps the family relations |
| `Process.ForkEndKeeps` | xv6/proc.c:215-219 | the child that becomes runnable has a parent that is alive |
| `Process.WokenKeeps` | xv6/proc.c:456-464 | a wakeup on any channel keeps the family relations |
| `Process.ExitStartKeeps` | xv6/proc.c:250-253 | the parent of an exiting process is awake from then on |
| `Process.ChildPassed` | xv6/proc.c:255-260 | a child passed to init has a parent that is alive, and that is awake if the child has exited |
| `Process.BecomesZombie` | xv6/proc.c:264-266 | a process that becomes a zombie has no child left |
| `Process.Reaps` | xv6/proc.c:287-299 | clearing the slot of a zombie breaks no parent link |
| `Process.WaitSleeps` | xv6/proc.c:303-310 | who falls asleep in wait has children, none of them a zombie |
| `Process.WaitGivesUp` | xv6/proc.c:303-310 | behind the last slot wait returns -1 exactly if the process has no child or was killed, and sleeps otherwise |
| `Process.KillKeeps` | xv6/proc.c:476-497 | waking the first process with that pid keeps the family relations |
| `Process.KillLives` | xv6/proc.c:476-497 | and neither a slot nor a zombie appears or disappears |
| `Process.Exits` | xv6/proc.c:264-266 | a process exits once |
| `Process.Reaped` | xv6/proc.c:287-299 | a zombie is reaped once |
| `Process.Born` | xv6/proc.c:88-92 | a new pid belongs to no process that exists or has existed |
| `Pipe.BytesInOrder` | xv6/pipe.c:78-121 | in every run with any number of readers and writers the bytes read are a prefix of the bytes written, at most PIPESIZE behind |
| `Pipe.ReadsAreContiguous` | xv6/pipe.c:100-121 | in every run what a call has read is a contiguous part of the stream, no longer than asked for |
| `Pipe.CountersDecide` | xv6/pipe.c:84-93 | full, empty and the ring slots are decided correctly by counters that wrap at 2^32 |
| `Pipe.ByteStored` | xv6/pipe.c:93 | storing a byte in a ring that is not full overwrites no byte still to be read |
| `Pipe.ByteRemoved` | xv6/pipe.c:113-117 | the byte taken is the next one written |
| `Pipe.NoneLostExactly` | xv6/pipe.c:84-92 | in a run readers asleep on nread always find the pipe empty with the write end open when the lock is free, if and only if no killed writer returns from a full pipe while a reader sleeps |
| `Pipe.WritersNeverLost` | xv6/pipe.c:100-121 | writers asleep on nwrite always find the pipe full with the read end open, in every run; so readers and writers are not asleep together unless a wakeup was lost |
| `Pipe.WakeupLost` | xv6/pipe.c:85-89 | a run of two processes in which a reader sleeps on at a full pipe |
| `Pipe.FallAsleepKeeps` | xv6/proc.c:415-452 | no wakeup slips between giving up the lock and falling asleep |
| `Pipe.SignalKeeps` | xv6/pipe.c:89-95 | a wakeup on nread leaves no reader asleep |
| `Pipe.CloseKeeps` | xv6/pipe.c:59-75 | an end is closed while no call is in progress on it |
| `SleepLock.MutualExclusion` | xv6/sleeplock.c:22-42 | in every run at most one process owns the lock, it is marked locked exactly then, and while the spinlock is free nobody sleeps for a lock that no process owns |
| `SleepLock.SleepKeeps` | xv6/proc.c:415-452 | falling asleep keeps every sleeper on an owned lock, whatever happens between release and sleep |
| `SleepLock.ReleaseKeeps` | xv6/sleeplock.c:34-42 | releasing wakes all sleepers before the spinlock is free again |
| `FreeList.ReleasedOrdered` | xv6/umalloc.c:33-42 | the list with a block put back is in address order with gaps between all blocks: fully coalesced |
| `FreeList.ReleasedCovers` | xv6/umalloc.c:33-42 | the list with a block put back covers the units it covered before and those of the block, and no others |
| `FreeList.Canonical` | xv6/umalloc.c:24-44 | a free list is determined by the units it covers |
| `Heap.RoomExactlyWithoutWrap` | xv6/umalloc.c:69 | a block has room for the request if and only if the rounding does not wrap |
| `Heap.RequestExact` | xv6/umalloc.c:52-54 | the number passed to sbrk is the size of the block in bytes, or it is not positive; which of the two depends on whether that size is below 2^31 |
| `Heap.ServedExactly` | xv6/umalloc.c:54 | sbrk is asked for the bytes of the block and the block has room for the request, if and only if the request is for at most 2^31 - 16 bytes |
| `Heap.LargestRequest` | xv6/umalloc.c:54 | a request for 0xFFFFFFF8 bytes asks sbrk for 0 bytes |
| `Heap.HeadersReleased` | xv6/umalloc.c:33-42 | the header assignments of free, in all four cases of joining, link exactly the coalesced list |
| `Heap.HeadersUnlinked` | xv6/umalloc.c:76-77 | taking a whole block off the list leaves the others linked in a circle |
| `Heap.HeadersSplit` | xv6/umalloc.c:78-82 | taking the tail of a block leaves the list linked with the smaller block in its place |
| `Heap.CarvedOrdered` | xv6/umalloc.c:75-82 | the list after an allocation is ordered and coalesced |
| `Heap.Allocator.constructor` | xv6/umalloc.c:21-22 | nothing is free or in use |
| `Heap.Allocator.FindSlot` | xv6/umalloc.c:30-32 | the search ends at the last free block below the given one, wherever it starts |
| `Heap.Allocator.Free` | xv6/umalloc.c:24-44 | exactly the units of the block become free, together in one free block |
| `Heap.Allocator.MoreCore` | xv6/umalloc.c:46-61 | at least 4096 units are added to the free list in one block, or nothing changes; the header is written outside the memory of the process exactly if the system was not asked for more and did not refuse |
| `Heap.Allocator.Search` | xv6/umalloc.c:74-86 | one pass finds the first block from freep that is large enough if and only if there is one |
| `Heap.Allocator.Take` | xv6/umalloc.c:75-84 | the units handed out were free and only they change hands |
| `Heap.Allocator.Malloc` | xv6/umalloc.c:63-90 | writes outside the memory of the process exactly if nothing fits, the block has 2^28 units or more and the system does not refuse; 0 exactly then, which is a convention of the model since the source goes on with that header, or if nothing fits and the system refuses; otherwise a block of units that were free or just granted, no live block overlaps it, and one further pass suffices after a grant |
| `Heap.Allocator.Conservation` | xv6/umalloc.c:24-90 | free and allocated units together are the units obtained |
| `Heap.Allocator.MallocThenFree` | xv6/umalloc.c:24-90 | freeing a block just obtained restores the free list block by block |
| `Shell.GetToken` | xv6/sh.c:245-288 | the kind and ends of the next token, and white space skipped on both sides |
| `Shell.ParseRedirs` | xv6/sh.c:354-377 | redirections, the last one outermost, as the grammar function says; a missing file name is an error |
| `Shell.ParseExec` | xv6/sh.c:395-426 | a command, with its words and redirections, as the grammar function says; it fails at the tenth word |
| `Shell.ParseLine` | xv6/sh.c:324-339 | a line, its background marks inside and its list nested to the right, as the grammar function says |
| `ShellGrammar.LineOk` | xv6/sh.c:324-339 | for every text, each word found is a longest stretch of plain characters |
| `ShellGrammar.ArgsOk` | xv6/sh.c:409-424 | no command has more words than its array has room for with the final null pointer |
| `ShellGrammar.WordsAreCut` | xv6/sh.c:428-473 | no NUL lands inside a word, so every word is a C string |
| `Shell.NulTerminate` | xv6/sh.c:428-473 | exactly the characters behind the words become NUL |
| `Shell.ParseCmd` | xv6/sh.c:307-322 | after parsing every argument and file string in the buffer equals its word of the text, and a failed parse leaves the buffer alone |
| `ShellRoundTrip.RoundTrip` | xv6/sh.c:307-426 | the fully parenthesised text of any command with plain words is read back as that command if and only if no part of it has ten words or more; otherwise it fails with "too many args" |
| `ShellRoundTrip.ArgsFit` | xv6/sh.c:411-422 | up to nine plain words separated by blanks are read back as those words |
| `ShellRoundTrip.ArgsDoNotFit` | xv6/sh.c:416-420 | ten plain words or more fail with "too many args" |
| `ShellRoundTrip.BlockParses` | xv6/sh.c:379-393 | a printed block is read back up to the redirections behind it |
| `ShellRoundTrip.LineParses` | xv6/sh.c:324-339 | a printed line is read back up to the end or the parenthesis that closes it |
| `ShellRoundTrip.PipeParses` | xv6/sh.c:341-352 | a printed pipeline is read back as its two sides |
| `ShellRoundTrip.ParsedIsPrintable` | xv6/sh.c:307-426 | a command whose words are those of a text (`ShellGrammar.LineOk` says that every parsed one is such) has plain words, redirections that can be written and fewer than ten words in every part |
| `ShellRoundTrip.PrintedAgain` | xv6/sh.c:307-426 | every text that parses gives the same command as its fully parenthesised text |
| `Regexp.Match` | xv6/grep.c:72-82 | true exactly if some substring, from the start after a leading ^ and up to the end before a trailing $, is in the language of literals, dots and stars |
| `Regexp.MatchHere` | xv6/grep.c:84-96 | true exactly if a prefix of the text is in the language of the pattern |
| `Regexp.MatchStar` | xv6/grep.c:98-106 | true exactly if some number of characters that match c is followed by a match of the rest |
| `Regexp.PrefixOfStar` | xv6/grep.c:98-106 | trying each number of repetitions decides the star of the language |
| `Regexp.PrefixOfOne` | xv6/grep.c:93-94 | a literal or dot takes one character |
| `Regexp.MatchAtSuffix` | xv6/grep.c:77-80 | trying each suffix finds a match at any position |
| `BoundedBuffer.StepKeepsInv` | lab-05/buf.c:38-67 | each action of either thread keeps the slots conserved, the items in order and the mutex exclusive |
| `BoundedBuffer.Safety` | lab-05/buf.c:32-67 | in every run empty, full and in-flight slots add up to the size, the i-th value read is i, and the threads are not in the buffer together |
| `BoundedBuffer.NoDeadlock` | lab-05/buf.c:38-67 | some thread can move in every reachable state short of completion |
| `BoundedBuffer.EachActionCounts` | lab-05/buf.c:38-67 | every action reduces the remaining work by one |
| `BoundedBuffer.EveryRunCompletes` | lab-05/buf.c:32-116 | every run of any size and item count ends after ten actions per item, with the consumer holding 0, 1, 2 and so on |
| `PagingSimulator.Simulator.constructor` | lab-07/sim.c:40-60 | the empty tables agree |
| `PagingSimulator.Simulator.FindFreeFrame` | lab-07/sim.c:62-68 | the first free frame, or -1 exactly if there is none |
| `PagingSimulator.Simulator.FindFreeStorage` | lab-07/sim.c:70-76 | the first free slot, or -1 exactly if there is none |
| `PagingSimulator.Simulator.FifoReplace` | lab-07/sim.c:78-107 | the page loaded longest ago is evicted and all tables are those of one more fault; fails exactly if storage is full |
| `PagingSimulator.Simulator.PopLru` | lab-07/sim.c:110-115 | the bottom of the array, with the others moved down |
| `PagingSimulator.Simulator.LruReplace` | lab-07/sim.c:109-141 | the page loaded longest ago is evicted and all tables are those of one more fault, with the shifted array in load order; fails exactly if storage is full |
| `PagingSimulator.Simulator.Load` | lab-07/sim.c:146-159 | a page goes to the next free frame, which is queued last |
| `PagingSimulator.Simulator.AllocatePage` | lab-07/sim.c:143-167 | a resident page changes nothing; another one is a fault, and the simulator exits exactly if storage is full |
| `PagingSimulator.Simulator.Simulate` | lab-07/sim.c:216-219 | over any reference string all tables are determined by the faults, up to the first fault that storage has no slot for |
| `PagingSimulator.Simulator.TablesAgree` | lab-07/sim.c:143-167 | frames and resident page table entries agree one to one, and a storage index names a slot that holds the page |
| `PagingSimulator.SameVictims` | lab-07/sim.c:78-141 | a ring and a shifting array that have seen the same faults name the same victim, the frame loaded longest ago, and agree on every table |
| `PagingSimulator.SameStop` | lab-07/sim.c:216-219 | where a run stops depends on the references, the frames and the slots only |
| `PagingSimulator.RunBoth` | lab-07/sim.c:206-219 | runs of both options on the same references stop at the same one, and agree on every table and on the next victim |
| `PagingSimulator.OldestFrame` | lab-07/sim.c:78-80 | the frame to be reused holds the oldest fault |
| `PagingSimulator.ReplaceTables` | lab-07/sim.c:88-103 | the assignments of a replacement turn the tables of the faults so far into those of one more fault |
| `PagingSimulator.LoadTables` | lab-07/sim.c:147-152 | the assignments of a load turn the tables of the faults so far into those of one more fault |
| `PagingSimulator.FreeFrame` | lab-07/sim.c:146 | frames are handed out in order and never given back |
| `PagingSimulator.NotLeastRecentlyUsed` | lab-07/sim.c:143-144 | a page that was just referenced again is evicted before one that was not |
| `PagingSimulator.LeastRecentExactly` | lab-07/sim.c:109-141 | the page evicted is the least recently used one on every reference string if and only if there is one frame |
| `PagingSimulator.VictimExactly` | lab-07/sim.c:109-141 | at any point of any reference string it is if and only if every page loaded before the last reference to the oldest one has been referenced since |
| `PagingSimulator.UnusedVictim` | lab-07/sim.c:109-141 | so it is while the page loaded longest ago has not been referenced since its load |

## Left out

- FileSystem.Fs.BMap: only for existing blocks and the next one, which is all readi and writei ask for; a file with a hole is not modelled.
- FileSystem.Fs.WriteI: device inodes are not modelled, and running out of blocks, which is a panic, is reported without the state it leaves.
- VirtualMemory.Vm.DeallocUvm: only sizes up to KERNBASE, which is what its callers pass; beyond that it would free kernel pages.
- VirtualMemory.Vm.MapPages: a range that wraps around the address space, or is mapped already, is excluded; the source panics or never ends there.
- BufferCache.Cache.BRead: models the moment the lock of the buffer is free; waiting for it is the subject of `SleepLock`.
- Heap.Allocator.MoreCore: the answer of sbrk is a parameter, -1 or an address above all earlier ones; that a negative number makes the process smaller, and what a process does after it has written outside its memory, are not modelled.
- Process.ExitWait: pids are unbounded integers; the counter of the source overflows after 2^31 forks.
- BufferCache.Cache.LogWrite: one caller at a time; that the tests are made without the lock is the subject of `LogProtocol` and `LogSpace`.
- LogSpace.AllowedOperationsTear: a write behind the log also replaces the cached copy of the block it hits, which the model does not; in this run every block is logged with the same contents, so it makes no difference.
- Pipe.BytesInOrder: what is done under a spinlock is one step; memory ordering and xchg are not modelled, here and in the other protocols.
- Inodes are records; their byte layout on disk, link counts and types are not modelled, nor are directories, path names and the inode cache.
- The locks of the page allocator, inituvm, loaduvm, clearpteu, uva2ka and copyout.
- exec, the scheduler loop and context switches: in the process model a runnable process may be dispatched whenever the table lock is free.
- The rest of sleep and wakeup users: the log, the inode locks and the console.
- runcmd, the reading loop of the shell, and the line buffering of grep, which does not hand whole lines to match when a read holds no newline.
- Devices, boot code, interrupts and the system call layer; the disk is the one in memory (xv6/memide.c:38-60).
- The remaining labs and user programs, which wrap system calls, print or test.
