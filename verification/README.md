# xv6 rev9 with vi: a verified model

This project models the hard parts of the xv6 rev9 kernel and of the `vi` editor and `grep` that run on it
(the tree `vi_xv6_rev9/`), and proves what they promise. `dafny verify dfyconfig.toml` checks the whole project.

| files | what they model |
|---|---|
| `Disk`, `LogCrash`, `LogRuns`, `LogHistory`, `LogReservation`, `LogBuffers`, `Log` | the redo log: its block writes, crashes and recovery at every point, whole runs of concurrent operations, the space reservation, and `log.c` itself running over the buffer cache, with other processes using buffers meanwhile |
| `BufferCache`, `IdeQueue` | the buffer cache with its prev/next ring, and the disk request queue under it |
| `Blocks`, `FsState`, `FileContents`, `FileSystem` | the bitmap allocator, block maps, truncation, `readi` and `writei` |
| `FsDisk`, `FsRuns`, `FsCount` | the file system as blocks of a disk, what each call logs, crash consistency of whole runs, and how many blocks a write takes from the log |
| `Directory`, `Path`, `Namex` | directories as files, path names, the inode cache and `namex` |
| `ProcState`, `Sched`, `SchedLaws`, `ProcTree`, `Pipe`, `PipeCalls` | N CPUs with scheduler, sleep and wakeup; the process table; pipes |
| `HeapModel`, `Heap` | the K&R allocator of section 8.7 of "The C Programming Language", 2nd edition |
| `PageMap`, `PageTable` | two-level page tables (section 4.3 of the Intel SDM, Volume 3A) and the page pool |
| `Console`, `ViText`, `Grep` | vi's cursor count against the console driver, vi's text buffer, and the matcher of chapter 9 of "The Practice of Programming" |

Code that changes state is a class whose methods store in place, with the source's loops; each method's
contract ties the new state to a specification on values, and lemmas are about that specification. Where
the source is a protocol between CPUs or processes, the model is a state machine over its steps and the
theorems are about every run. A `panic` of the kernel is a result of the method, and contracts say when it
happens; a panic that only checks the caller (brelse of a buffer that is not busy, end_op during a commit) is
a precondition.

What the code turned out not to do, each with its exact condition:

- `log_write` can panic although every operation keeps to MAXOPBLOCKS: its test, which comes before absorption, is
  against the smaller of LOGSIZE and the log's size less one (`Room`). With operations that keep to a limit, no
  `log_write`, of a listed block or a new one, panics in any run if and only if the limit is 0 or
  MAXOPBLOCKS + 2 * limit < Room (`LogReservation.WriteSafeExactly`); of the appends alone
  `LogReservation.AppendSafeExactly` says it. `mkfs` makes the log LOGSIZE blocks (vi_xv6_rev9/mkfs.c:25): there
  operations must keep to 9 blocks (`LogReservation.OnMkfsDisk`).
- `filewrite` does not keep its operations to MAXOPBLOCKS: a full chunk of (LOGSIZE-1-1-2)/2 blocks always logs more
  (`FsCount.FilewriteExceeds`). A chunk of n bytes, 2 <= n <= MAXBYTES - 6656, keeps a write to `limit` blocks at
  every offset of every file if and only if n <= 512 * (limit - 4) + 1 (`FsCount.ChunkExactly`).
- `commit` panics for want of a buffer if and only if the transaction is not empty and its blocks, with the buffers
  that other processes use at that time, fill the cache; `fileread` uses buffers outside of any operation
  (`Log.FsLog.Commit`, `LogBuffers.RoomExactly`).
- A killed pipe writer strands a sleeping reader beside a full pipe; every other step keeps the sleep invariant
  (`Pipe.StepExactly`).
- `malloc` returns a block too small for the request if and only if the request is larger than 2^32 - 8 bytes,
  and asks `sbrk` for something other than what it records if and only if it lies between 2^31 - 15 and
  2^32 - 8 (`Heap.RoomExactly`, `Heap.SbrkExactly`).
- `kill` compares pids only, so it can mark a free slot, and the process born there is killed from the start. In
  every run it leaves all free slots unmarked if and only if the pid is that of a process or of no slot; if every
  kill of a run is given the pid of a process, no process is born killed. `kill(0)` is not of that kind
  (`ProcTree.KillMarksExactly`, `ProcTree.BornAlive`, `ProcTree.MarkedIsBornKilled`, `ProcTree.KillZero`).
- `deallocuvm` skips 4 MB from wherever it meets a missing page table. On every page table it frees the pages of
  its range that `PageMap.Skipped` does not name, and no others; a prefix of user pages, or a walk from page 0,
  has none of those (`PageTable.Vm.Deallocuvm`, `PageMap.PrefixIsReached`).
- A tab that starts in the last four cells of the screen makes the console scroll or panic; otherwise vi's count
  and the console agree (`Console.Screen.CopyText`).

## Model

| member | source | states |
|---|---|---|
| `Disk.Replay` | vi_xv6_rev9/log.c:68-81 | writing a list of blocks again over any part of itself gives what one full pass gives, which is why replaying the log is harmless |
| `LogCrash.HeadRoundTrip` | vi_xv6_rev9/log.c:84-112 | what write_head stores, read_head reads back, whatever the header block held before |
| `LogCrash.RecoverCrash` | vi_xv6_rev9/log.c:114-121 | recovery cut off after any number of block writes and started again ends where an uninterrupted one ends |
| `LogCrash.RecoveredHead` | vi_xv6_rev9/log.c:114-121 | a finished recovery leaves an empty header |
| `LogCrash.CutBeforeHead` | vi_xv6_rev9/log.c:174-199 | until the first write_head of commit, home blocks are untouched and nothing counts as committed |
| `LogCrash.CutAfterHead` | vi_xv6_rev9/log.c:189-199 | from then on recovery installs the whole transaction |
| `LogCrash.CommitDone` | vi_xv6_rev9/log.c:189-199 | a finished commit leaves every home block new and the header empty |
| `LogCrash.CommitCrash` | vi_xv6_rev9/log.c:174-199 | crash atomicity: for every transaction and every number of block writes that reach the disk, recovery leaves the home blocks all old or all new, all new exactly when the header write was among them |
| `LogRuns.StepKeeps` | vi_xv6_rev9/log.c:114-230 | every step of begin_op, log_write, end_op, each block write of commit or recovery, and a crash, keeps the run invariant |
| `LogRuns.CrashSafety` | vi_xv6_rev9/log.c:114-171 | in every run with any operations and any crashes, also inside recovery, the recovered disk is the initial one with the committed groups applied in order, and no operation is split |
| `LogRuns.Durability` | vi_xv6_rev9/log.c:145-171 | when no operation is outstanding, what is read through the cache is what a crash now would recover |
| `LogRuns.GroupsGrow` | vi_xv6_rev9/log.c:189-199 | committed groups are never lost or reordered, also over crashes |
| `LogRuns.CommitRun` | vi_xv6_rev9/log.c:189-199 | the steps of a whole commit take a run to the state with all home blocks written and an empty list |
| `LogRuns.RecoverRun` | vi_xv6_rev9/log.c:114-121 | so do those of a whole recovery |
| `LogHistory.HistoryIsCalls` | vi_xv6_rev9/log.c:125-230 | in every run the history that the other theorems speak of is what the calls were: operations numbered as they begin, each entry one log_write with its block, contents and operation |
| `LogHistory.ViewIsCalls` | vi_xv6_rev9/log.c:211-230 | while nothing crashes every block in the cache holds what was last logged for it, or what mkfs left |
| `LogReservation.ReservationHolds` | vi_xv6_rev9/log.c:124-140 | while operations append at most MAXOPBLOCKS new blocks each, logged blocks plus unused reservations stay within LOGSIZE and logged block numbers stay distinct, in every run |
| `LogReservation.GetsFull` | vi_xv6_rev9/log.c:124-140 | for every limit and every log that is not big enough for it, a run of operations that keep to the limit fills the log while operations are outstanding, one of them still below its limit unless the log is just full by then |
| `LogReservation.WriteSafeExactly` | vi_xv6_rev9/log.c:210-230 | for every limit and log: no log_write of any kind by an operation that keeps to the limit panics, in any reachable state, if and only if the limit is 0 or MAXOPBLOCKS + 2 * limit is below the smaller of LOGSIZE and the log's size less one |
| `LogReservation.AppendSafeExactly` | vi_xv6_rev9/log.c:210-230 | the same for log_writes of blocks not yet listed: the limit is 0, or at most MAXOPBLOCKS with MAXOPBLOCKS + 2 * limit at most the log's size less one |
| `LogReservation.OnMkfsDisk` | vi_xv6_rev9/log.c:215-216 | on a log of LOGSIZE blocks both hold exactly for limits below MAXOPBLOCKS |
| `BufferCache.RecycleKeeps` | vi_xv6_rev9/bio.c:83-95 | recycling a buffer that is neither busy nor dirty keeps the cache coherent: no uncommitted data is dropped and no block gets two buffers |
| `BufferCache.StoreKeeps` | vi_xv6_rev9/bio.c:98-109 | a store into a busy buffer changes that block's contents and no other's |
| `BufferCache.FlushKeeps` | vi_xv6_rev9/bio.c:111-119 | writing a buffer to disk keeps the cache coherent |
| `BufferCache.UnlinkKeeps` | vi_xv6_rev9/bio.c:131-132 | the two stores that unlink a buffer leave a ring of the others in the same order |
| `BufferCache.PushKeeps` | vi_xv6_rev9/bio.c:133-136 | the four stores behind the head leave a ring with the buffer first |
| `BufferCache.MoveToFrontPermutes` | vi_xv6_rev9/bio.c:131-136 | moving a buffer to the front keeps the ring a permutation of all buffers |
| `BufferCache.Cache.constructor` | vi_xv6_rev9/bio.c:40-57 | binit: a coherent empty cache over the disk, all buffers in the ring |
| `BufferCache.Cache.FindCached` | vi_xv6_rev9/bio.c:71-81 | the forward scan finds the buffer of the block if there is one |
| `BufferCache.Cache.FindClean` | vi_xv6_rev9/bio.c:86-94 | the backward scan finds the least recently released buffer that is neither busy nor dirty |
| `BufferCache.Cache.Bget` | vi_xv6_rev9/bio.c:63-96 | the cached buffer made busy, or the least recently released clean one taken over, or sleep, or the panic, each exactly when the code says |
| `BufferCache.Cache.Bread` | vi_xv6_rev9/bio.c:100-109 | the buffer returned holds what was last stored in the block through the cache |
| `BufferCache.Cache.Bwrite` | vi_xv6_rev9/bio.c:112-119 | exactly one block write, of this buffer, reaches the disk |
| `BufferCache.Cache.Brelse` | vi_xv6_rev9/bio.c:124-142 | the buffer is free and first in release order, the rest in their order, and the cache coherent |
| `BufferCache.Cache.Iderw` | vi_xv6_rev9/ide.c:138-167 | a dirty buffer is written, one that is not valid is filled with the block's contents |
| `IdeQueue.RequestKeeps` | vi_xv6_rev9/ide.c:149-159 | a request appended to the queue has the effect of one indivisible transfer made now |
| `IdeQueue.InterruptKeeps` | vi_xv6_rev9/ide.c:104-131 | the interrupt writes a dirty buffer to its block or fills the buffer from it, which is what an indivisible transfer at the time of the request would have done, and disturbs no other buffer and no other request |
| `IdeQueue.QueueRefinesAtomic` | vi_xv6_rev9/ide.c:104-167 | in every interleaving of requests and interrupts the disk, once the queue is empty, is what indivisible requests in the order made would have left |
| `IdeQueue.Queue.Append` | vi_xv6_rev9/ide.c:151-159 | the pointer walk appends at the end of the linked queue, and the disk is started exactly if it was idle |
| `IdeQueue.Queue.TakeFirst` | vi_xv6_rev9/ide.c:110-115 | requests leave the queue in the order they came |
| `LogBuffers.RoomExactly` | vi_xv6_rev9/log.c:228 | with the logged blocks pinned and other blocks in use, a clean buffer is left exactly when logged blocks and buffers in use are together fewer than the buffers |
| `LogBuffers.InstallUnpins` | vi_xv6_rev9/log.c:69-81 | writing a logged block to its home makes its buffer clean and leaves exactly the other logged blocks pinned |
| `Log.FsLog.BeginOp` | vi_xv6_rev9/log.c:125-140 | lets an operation in exactly if the run of the crash theorems can take that step, takes it, and keeps the invariant that ties list, pinned buffers and disk to that run |
| `Log.FsLog.EndOp` | vi_xv6_rev9/log.c:145-171 | keeps the invariant; the last operation out commits, and the run has then gone through every block write of the commit; the panic exactly if that commit runs out of buffers |
| `Log.FsLog.LogWrite` | vi_xv6_rev9/log.c:211-230 | the run takes the step: the block is listed once, its buffer pinned and its contents part of the operation; the panics exactly where the code tests for them, and then nothing changed |
| `Log.FsLog.Read` | vi_xv6_rev9/bio.c:100-109 | bread by anyone at any time keeps the invariant and returns the block's current contents |
| `Log.FsLog.Modify` | vi_xv6_rev9/bio.c:100-109 | a store into a buffer in use keeps the invariant and changes nothing else |
| `Log.FsLog.Release` | vi_xv6_rev9/bio.c:124-142 | brelse of a buffer whose changes are logged keeps the invariant |
| `Log.FsLog.WriteLog` | vi_xv6_rev9/log.c:175-187 | the loop copies each logged block from the cache to its log block, in order, and writes nothing else, whatever buffers others use; it runs out of buffers exactly if logged blocks and buffers in use fill the cache |
| `Log.FsLog.InstallTrans` | vi_xv6_rev9/log.c:69-81 | the loop writes each log block to its home block, in order, and unpins it, whatever buffers others use |
| `Log.FsLog.WriteHead` | vi_xv6_rev9/log.c:101-112 | one block write, of the header that lists the transaction |
| `Log.FsLog.LoadHead` | vi_xv6_rev9/log.c:85-95 | the list in memory is the list of the header on disk |
| `Log.FsLog.Commit` | vi_xv6_rev9/log.c:189-199 | the block writes made are exactly those of the crash theorem, in that order, the list is empty and nothing is pinned afterwards, and buffers others use are still theirs; the panic for want of a buffer happens, before any write, exactly when the list is not empty and its blocks and the buffers in use fill the cache |
| `Log.FsLog.Recover` | vi_xv6_rev9/log.c:115-121 | the block writes made are exactly those of the recovery theorem |
| `Log.FsLog.Initlog` | vi_xv6_rev9/log.c:51-65 | on the disk that any earlier run left at a crash, the run has gone through the crash and the whole recovery, and the invariant holds |
| `Log.FsLog.CrashNow` | vi_xv6_rev9/log.c:114-171 | whatever calls were made, a crash now recovers the committed groups in order and splits no operation |
| `Blocks.PutThenGet` | vi_xv6_rev9/fs.c:378-382 | a store to entry j of an indirect block reads back at j and changes no other entry |
| `Blocks.WordBytes` | vi_xv6_rev9/fs.c:378-382 | an entry is stored least significant byte first |
| `Blocks.OneBitSet` | vi_xv6_rev9/fs.c:65-67 | marking a block in use sets its bit in the bitmap bytes and changes no other |
| `Blocks.OneBitCleared` | vi_xv6_rev9/fs.c:88-92 | marking it free clears its bit and changes no other |
| `FsState.ExactlyOneSlot` | vi_xv6_rev9/fs.c:350-423 | a data block is in use exactly if some direct slot, indirect pointer or indirect entry holds it, and then it is one slot of one inode |
| `FsState.AssignSlots` | vi_xv6_rev9/fs.c:366-385 | storing a newly allocated block in a slot changes that slot alone; a new indirect block has no entries because balloc zeroes it |
| `FsState.AssignKeeps` | vi_xv6_rev9/fs.c:55-77 | allocation into an empty slot keeps exact ownership |
| `FileContents.OtherFile` | vi_xv6_rev9/fs.c:467-496 | a file whose blocks were left alone keeps its block map and every byte |
| `FileContents.MappedOnce` | vi_xv6_rev9/fs.c:366-370 | bmap of a missing block maps it and nothing else |
| `FileContents.MappedLater` | vi_xv6_rev9/fs.c:373-385 | the same when the indirect block has to be allocated first |
| `FileContents.StoreKeeps` | vi_xv6_rev9/fs.c:486-487 | a store into a data block cannot change any block map |
| `FileContents.WriteStep` | vi_xv6_rev9/fs.c:483-489 | a pass of the loop of writei puts its chunk in place, leaves no hole, and touches no other file |
| `FileContents.SameMap` | vi_xv6_rev9/fs.c:491-494 | a file that did not grow kept its block map, so the inode on disk is right although iupdate is not called |
| `FileContents.WriteEnd` | vi_xv6_rev9/fs.c:491-494 | after writei, ownership is exact, no block below the size is missing, and inodes on disk equal those in memory |
| `FileContents.WroteIsSplice` | vi_xv6_rev9/fs.c:467-496 | byte by byte, writei is a splice into the flat file and the identity on every other file |
| `FileContents.SpliceIsConcat` | vi_xv6_rev9/fs.c:483-489 | that splice is prefix, new bytes, rest; and the new bytes read back |
| `FileContents.FreeOne` | vi_xv6_rev9/fs.c:402-415 | the next block itrunc frees is in use and not yet freed, so bfree does not panic |
| `FileContents.TruncKeeps` | vi_xv6_rev9/fs.c:396-423 | truncation keeps exact ownership and the other invariants |
| `FileContents.TruncFrames` | vi_xv6_rev9/fs.c:396-423 | truncation leaves every other file as it was |
| `FileContents.ReadChunk` | vi_xv6_rev9/fs.c:455-460 | the bytes a pass of readi takes from the block are those of the flat file |
| `FileContents.NeedStep` | vi_xv6_rev9/fs.c:361-388 | the blocks bmap allocates for a chunk are exactly the growth of the number of blocks that a file of that size has, the indirect block with them |
| `FileSystem.Fs.Balloc` | vi_xv6_rev9/fs.c:55-77 | the first free block, zeroed and marked, both changes logged; the panic exactly if none is free |
| `FileSystem.Fs.Bfree` | vi_xv6_rev9/fs.c:81-95 | the block is free; the panic exactly if it was free before |
| `FileSystem.Fs.Bmap` | vi_xv6_rev9/fs.c:361-388 | the block returned is mapped at bn, everything else is mapped as before, nothing changes if it was mapped already, and exactly the blocks allocated, their bitmap blocks and the indirect block that got an entry are logged; the panic exactly past MAXFILE or with fewer blocks free than it needs |
| `FileSystem.Fs.Itrunc` | vi_xv6_rev9/fs.c:396-423 | never panics; exactly the blocks of the inode become free, the inode is empty in memory and on disk; nothing but bitmap blocks and the inode's block is logged |
| `FileSystem.Fs.Readi` | vi_xv6_rev9/fs.c:439-462 | for a file that is no device: with off not past the end and no 32-bit wrap it returns n, or as many bytes as there are up to the end if that is less, and the bytes are the slice of the flat file; else -1; for a device its driver is reached exactly if there is one; nothing is allocated or changed |
| `FileSystem.Fs.Writei` | vi_xv6_rev9/fs.c:467-496 | for a file that is no device, with off not past the end and at most 140 blocks: the splice of the bytes into the flat file across the direct/indirect boundary, other files unchanged, no holes, disk inodes equal to memory inodes, every changed block logged, LogCount of them on a disk with one bitmap block; or the panic, exactly if fewer blocks are free than the growth takes; else -1 and nothing changed; for a device its driver is reached exactly if there is one |
| `FileSystem.Fs.IsConsistent` | vi_xv6_rev9/fs.c:55-496 | at the end of a call the log_write()s of the call, applied to the disk it began on, give the blocks of the file system in memory, which is consistent: no change went unlogged |
| `FsDisk.BitmapChange` | vi_xv6_rev9/fs.h:48 | a bit of the bitmap is in its BBLOCK and no other block |
| `FsDisk.InodeChange` | vi_xv6_rev9/fs.h:39-42 | an inode is in its IBLOCK and no other block |
| `FsDisk.InodeLayout` | vi_xv6_rev9/fs.h:29-36 | where the fields of an inode stand in its block |
| `FsDisk.EncodesOne` | vi_xv6_rev9/fs.h:14-48 | the blocks of a disk determine the bitmap, the inodes and the contents of the data blocks |
| `FsDisk.HoldsOne` | vi_xv6_rev9/fs.h:14-48 | two disks with equal blocks past the log hold the same inodes, free blocks and files, byte by byte |
| `FsRuns.FsCallKeeps` | vi_xv6_rev9/fs.c:55-496 | a call of fs.c that began on what the cache holds leaves a consistent file system there |
| `FsRuns.FsCrashSafety` | vi_xv6_rev9/log.c:114-230 | crash consistency: after any run of operations making calls, with crashes anywhere, also inside a call, a commit or a recovery, a crash now recovers to a consistent file system, and to exactly the one in the cache at an earlier moment with no operation open, not before the last moment of rest |
| `FsRuns.CallTakes` | vi_xv6_rev9/log.c:211-230 | a call takes exactly as many blocks of its operation's share of the log as it logs blocks that were not listed |
| `FsCount.WriteCount` | vi_xv6_rev9/fs.c:467-496 | on a disk with one bitmap block writei logs exactly the blocks it fills, one bitmap block if the last of them is new, the indirect block if that lies past the direct ones, and the inode's block if the file grows |
| `FsCount.TruncCount` | vi_xv6_rev9/fs.c:396-423 | itrunc logs at most two blocks there |
| `FsCount.ChunkExactly` | vi_xv6_rev9/file.c:126-147 | a chunk of n bytes keeps writei to so many blocks, at every offset of every file, exactly if n is at most 512 * (limit - 4) + 1 |
| `FsCount.FilewriteExceeds` | vi_xv6_rev9/file.c:132 | a full chunk of filewrite logs more than MAXOPBLOCKS blocks wherever it goes |
| `Path.SkipSlashes` | vi_xv6_rev9/fs.c:586-587 | skipping slashes changes no component |
| `Path.Skipelem` | vi_xv6_rev9/fs.c:580-603 | the next component cut to DIRSIZ and the rest of the path, none exactly if only slashes are left, and the rest is empty exactly if that was the last |
| `Path.ComponentsOfLaid` | vi_xv6_rev9/fs.c:566-603 | names without slashes, with any runs of slashes before, between and behind them, are the components of that path, cut to DIRSIZ |
| `Path.LookupExactly` | vi_xv6_rev9/fs.c:510-533 | a lookup gives the first entry in use whose name agrees in DIRSIZ characters, and nothing exactly if there is none |
| `Directory.EntryRoundTrip` | vi_xv6_rev9/fs.c:558-560 | the record that dirlink writes reads back as that name, cut to DIRSIZ, and that inode number, cut to 16 bits |
| `Directory.EntriesAfterPut` | vi_xv6_rev9/fs.c:549-560 | a record spliced into the file at a record's place changes that entry alone, or adds one at the end |
| `Directory.Dirlookup` | vi_xv6_rev9/fs.c:510-533 | read record by record through readi, the first entry in use whose name agrees in DIRSIZ characters, with its offset; the panic exactly for what is no directory, and for a torn last record that the search comes to |
| `Path.LookupAfterPut` | vi_xv6_rev9/fs.c:549-560 | filling a free entry, or appending one, adds that name and changes no other |
| `Directory.PutAddsName` | vi_xv6_rev9/fs.c:537-563 | with the new entry that name leads to the inode, and every other name where it did |
| `Directory.Dirlink` | vi_xv6_rev9/fs.c:537-563 | refused exactly if the name is there; else the first free record of the directory file is written, or one added, and no other file changes; the panic exactly for what is no directory, a torn last record, or a record that the file or the disk has no room for |
| `Namex.WalkConcat` | vi_xv6_rev9/fs.c:621-636 | resolving a path in two stages, wherever it is cut, is resolving it at once |
| `Namex.WalkOne` | vi_xv6_rev9/fs.c:621-636 | no component leads nowhere else; one leads where the directory's first entry with that name says, and fails without such an entry or without a directory |
| `Namex.ParentIsAllButLast` | vi_xv6_rev9/fs.c:625-641 | nameiparent resolves all components but the last, to a directory, and fails if there is no component |
| `Namex.ICache.Iget` | vi_xv6_rev9/fs.c:225-255 | one reference more to that inode, in its one slot; the panic exactly if every slot is taken by another inode |
| `Namex.ICache.Idup` | vi_xv6_rev9/fs.c:260-266 | one reference more |
| `Namex.ICache.Iput` | vi_xv6_rev9/fs.c:322-340 | one reference less |
| `Namex.ICache.Descend` | vi_xv6_rev9/fs.c:630-635 | a step down moves the one reference from the directory to the entry found, also for an entry that leads back to the same inode |
| `Namex.ICache.Round` | vi_xv6_rev9/fs.c:621-636 | a round of the loop either has the answer, the references as they should be, or goes on with one reference to an inode from which the rest of the path leads to the same place |
| `Namex.ICache.Namex` | vi_xv6_rev9/fs.c:610-642 | a path that begins with a slash is resolved from inode 1 whatever cwd is, any other from cwd, component by component (all but the last for the parent, whose last component is returned); exactly one reference more to the inode returned, and none more or less on failure |
| `Sched.NotElsewhere` | vi_xv6_rev9/proc.c:281-298 | with ptable.lock held, a process that is not RUNNING is on no other CPU |
| `Sched.StepKeeps` | vi_xv6_rev9/proc.c:271-417 | every step of every CPU, in scheduler, yield, sleep, wakeup, forkret, fork, exit, wait, kill, an interrupt handler or elsewhere, keeps the invariant |
| `Sched.OneCpuEach` | vi_xv6_rev9/proc.c:271-358 | in every reachable state a process's kernel thread runs on one CPU at most, although its state is given up before its context is saved |
| `Sched.NeverPanics` | vi_xv6_rev9/proc.c:311-327 | the checks of sched never fire: ptable.lock, and no other lock, is held on that CPU and the state is not RUNNING; nor do those of acquire and release, whoever acquired the lock |
| `Sched.ReapedIsNowhere` | vi_xv6_rev9/proc.c:236-246 | when wait frees a zombie's stack, no CPU runs on it |
| `Sched.NoLostWakeup` | vi_xv6_rev9/proc.c:362-417 | a wakeup(chan) that comes after the call of sleep(chan, lk), by a process or an interrupt handler that took lk since, finds the sleeper SLEEPING on chan; for lk == &ptable.lock any wakeup does, however its caller came by the lock |
| `Sched.WakeupEndsThem` | vi_xv6_rev9/proc.c:401-408 | when its scan is over no such sleep is pending |
| `SchedLaws.Fates` | vi_xv6_rev9/proc.c:271-440 | all that a step can do to a process, with who may do it: RUNNABLE to RUNNING by a scheduler, RUNNING to RUNNABLE, SLEEPING or ZOMBIE by the process itself, SLEEPING to RUNNABLE by a wakeup of its channel or a kill, UNUSED to RUNNABLE, ZOMBIE to UNUSED; and what of it stays unchanged |
| `SchedLaws.SchedulerTakes` | vi_xv6_rev9/proc.c:278-293 | a RUNNABLE process that a scheduler comes to runs next, from where it gave up the CPU |
| `SchedLaws.SchedulerPasses` | vi_xv6_rev9/proc.c:278-303 | any other process it passes over, and at the end of the table it releases ptable.lock |
| `SchedLaws.ScanWakesExactly` | vi_xv6_rev9/proc.c:401-408 | whatever other CPUs do meanwhile, a scan makes each sleeper on its channel that it passes RUNNABLE, context and all else unchanged, and changes no other process |
| `SchedLaws.WakeupWakes` | vi_xv6_rev9/proc.c:362-417 | a wakeup that comes after sleep(chan, lk) makes the sleeper RUNNABLE, to go on inside sleep |
| `SchedLaws.WakeupLeavesNone` | vi_xv6_rev9/proc.c:411-417 | from the call of wakeup(chan) on, in every run, when ptable.lock is about to be released nobody sleeps on chan |
| `SchedLaws.SleepReturns` | vi_xv6_rev9/proc.c:362-397 | in every run the caller of sleep(chan, lk) comes back only after a wakeup of chan, or a kill, found it asleep on chan, and then it holds lk |
| `ProcTree.ForkKeeps` | vi_xv6_rev9/proc.c:131-173 | a fork keeps the tree: live parents, distinct pids, no waiter beside a zombie child |
| `ProcTree.ForkFailedKeeps` | vi_xv6_rev9/proc.c:145-151 | so does a fork that runs out of memory, which leaves its pid in the free slot |
| `ProcTree.ExitKeeps` | vi_xv6_rev9/proc.c:179-218 | so does exit, because parent and init are woken before anything becomes their zombie |
| `ProcTree.ExitedEach` | vi_xv6_rev9/proc.c:194-214 | what exit does to each process: the caller is a zombie, its children are init's, the parent and, if it gets a zombie, init wake from wait, and nothing else changes |
| `ProcTree.ReapKeeps` | vi_xv6_rev9/proc.c:236-248 | so does reaping |
| `ProcTree.WaitSleepKeeps` | vi_xv6_rev9/proc.c:252-259 | so does going to sleep in wait after a scan that found no zombie |
| `ProcTree.WaiterHasNoZombie` | vi_xv6_rev9/proc.c:223-261 | a process asleep in wait has no zombie child |
| `ProcTree.TreeFromBoot` | vi_xv6_rev9/proc.c:130-261 | in every run from boot, whenever ptable.lock is free: every process but init has a parent that is neither UNUSED nor ZOMBIE, pids differ, and nobody sleeps in wait beside a zombie child |
| `ProcTree.KillMarksExactly` | vi_xv6_rev9/proc.c:423-440 | between critical sections kill leaves every free slot unmarked if and only if the pid is a process's or in no slot, because pids of processes are positive and in no free slot |
| `ProcTree.BornAlive` | vi_xv6_rev9/proc.c:131-173 | in every run from boot in which each kill is given the pid of a process, no process is born killed |
| `ProcTree.BootedTree` | vi_xv6_rev9/proc.c:78-105 | the table at boot has all that the runs need |
| `ProcTree.MarkedIsBornKilled` | vi_xv6_rev9/proc.c:423-440 | kill of a pid that only a free slot holds ends, when fork takes the slot, in a process born killed |
| `ProcTree.KillZero` | vi_xv6_rev9/proc.c:428-431 | kill(0) marks a slot that was never used, and the next fork gets it |
| `ProcTree.ProcessTable.Wakeup1` | vi_xv6_rev9/proc.c:401-408 | exactly the sleepers on chan become RUNNABLE |
| `ProcTree.ProcessTable.Allocproc` | vi_xv6_rev9/proc.c:36-72 | the first free slot, with the next pid; on failure the slot is free but keeps the pid |
| `ProcTree.ProcessTable.Fork` | vi_xv6_rev9/proc.c:131-173 | succeeds exactly if there is a slot and memory; the whole table afterwards |
| `ProcTree.ProcessTable.Exit` | vi_xv6_rev9/proc.c:179-216 | refused exactly for init; the whole table afterwards, by the loop that wakes and hands over in passing |
| `ProcTree.ProcessTable.Wait` | vi_xv6_rev9/proc.c:223-261 | reaps the first zombie child exactly if there is one; else -1 exactly if childless or killed, or sleep, with the whole table afterwards |
| `ProcTree.ProcessTable.Kill` | vi_xv6_rev9/proc.c:423-440 | fails exactly if no slot has the pid, and then changes nothing; else the first with it is marked, RUNNABLE if it was SLEEPING, and no other entry changes |
| `Pipe.CountersMean` | vi_xv6_rev9/pipe.c:84-115 | the full and empty tests and the index mean what they say across counter wraparound |
| `Pipe.Buffer.PutByte` | vi_xv6_rev9/pipe.c:92 | the byte is appended to those written, overwriting none that is unread |
| `Pipe.Buffer.TakeByte` | vi_xv6_rev9/pipe.c:115 | the oldest unread byte |
| `Pipe.Buffer.WriteFrom` | vi_xv6_rev9/pipe.c:83-93 | writes until all is written or the pipe is full |
| `Pipe.Buffer.ReadUpTo` | vi_xv6_rev9/pipe.c:112-116 | the next unread bytes, at most n |
| `Pipe.StepExactly` | vi_xv6_rev9/pipe.c:58-120 | every step keeps order and the sleep invariant, unless and only unless it is a killed writer returning from a full pipe beside a sleeping reader |
| `Pipe.RunsAreSafe` | vi_xv6_rev9/pipe.c:77-120 | in every run without kill, bytes read are a prefix of bytes written, at most PIPESIZE are in flight, a sleeping reader means empty and a sleeping writer means full |
| `Pipe.FifoAlways` | vi_xv6_rev9/pipe.c:77-120 | order holds in every run, with kill too |
| `Pipe.NeverBothAsleep` | vi_xv6_rev9/pipe.c:84-111 | a reader and a writer are never both asleep |
| `Pipe.KilledWriterStrandsReader` | vi_xv6_rev9/pipe.c:85-88 | a run in which a killed writer leaves a reader asleep beside a full pipe |
| `PipeCalls.WritesEnterOnce` | vi_xv6_rev9/pipe.c:77-97 | in every run the bytes of each write enter the stream in order and once, also when it slept in between and others wrote; a writer inside the call has put exactly the part it is past; one that is back has put all, unless the read end is closed or it was killed; and the stream holds nothing else |
| `PipeCalls.OneWriterStream` | vi_xv6_rev9/pipe.c:77-97 | with one writer, not killed, and the read end open, the stream is the concatenation of what it passed, less what it has yet to put |
| `PipeCalls.ReadsDeliver` | vi_xv6_rev9/pipe.c:100-120 | in every run a read delivers the next bytes, as many as were asked for or as there are, and leaves no writer asleep; on an empty pipe that can still be written it sleeps, and still wants as many when woken |
| `HeapModel.InsertIsFreeList` | vi_xv6_rev9/umalloc.c:33-42 | freeing and coalescing keeps the free blocks in address order with no two touching |
| `HeapModel.InsertUnits` | vi_xv6_rev9/umalloc.c:33-42 | coalescing gains exactly the units of the freed block |
| `HeapModel.TakenIsNew` | vi_xv6_rev9/umalloc.c:75-85 | the block malloc returns overlaps no live block |
| `HeapModel.FreeKeeps` | vi_xv6_rev9/umalloc.c:25-44 | free keeps the heap invariant: order, disjointness, and free plus live units equal to those obtained from sbrk |
| `HeapModel.TakeKeeps` | vi_xv6_rev9/umalloc.c:75-85 | so does taking a block |
| `HeapModel.GrowKeeps` | vi_xv6_rev9/umalloc.c:54-59 | so does new core |
| `HeapModel.StaysContiguous` | vi_xv6_rev9/umalloc.c:54-59 | core that continues the last keeps the heap one stretch |
| `HeapModel.AllFreedIsOneBlock` | vi_xv6_rev9/umalloc.c:25-44 | with contiguous core, freeing everything leaves one free block, the whole heap |
| `HeapModel.FreeListUnique` | vi_xv6_rev9/umalloc.c:25-90 | the free list depends only on which units are free, not on the order of calls |
| `HeapModel.FreeUndoesTake` | vi_xv6_rev9/umalloc.c:25-90 | free of a block just allocated without new core restores the heap exactly |
| `Heap.StopsExactly` | vi_xv6_rev9/umalloc.c:30-32 | the two tests of the walk hold exactly at the free block below the freed one, also at the wrap |
| `Heap.FreeLinked` | vi_xv6_rev9/umalloc.c:33-42 | the stores into two headers leave one circle in address order, wrapping once |
| `Heap.TakeLinked` | vi_xv6_rev9/umalloc.c:75-82 | so do those of malloc |
| `Heap.RoomExactly` | vi_xv6_rev9/umalloc.c:69 | the block holds the request, with less than a unit to spare, exactly if the 32-bit sum does not wrap |
| `Heap.SbrkExactly` | vi_xv6_rev9/umalloc.c:54 | sbrk is asked for what is recorded exactly for these request sizes |
| `Heap.Allocator.FindPlace` | vi_xv6_rev9/umalloc.c:30-32 | the walk terminates at the free block below |
| `Heap.Allocator.Free` | vi_xv6_rev9/umalloc.c:25-44 | the heap without that live block, invariant and circle kept |
| `Heap.Allocator.Morecore` | vi_xv6_rev9/umalloc.c:47-61 | the new units are owned and free and some block is now large enough; nothing changes if sbrk fails |
| `Heap.Allocator.Search` | vi_xv6_rev9/umalloc.c:74-89 | the loop terminates and calls sbrk at most once, exactly if no free block is large enough, even if the new core merges into freep |
| `Heap.Allocator.Malloc` | vi_xv6_rev9/umalloc.c:64-90 | a new live block of the size asked for and no other change to the live blocks; 0 exactly if no block was large enough and sbrk failed, and then nothing changed |
| `PageMap.AddTableKeeps` | vi_xv6_rev9/vm.c:54-62 | a new, zeroed page table keeps exact page ownership |
| `PageMap.AddDataKeeps` | vi_xv6_rev9/vm.c:80-82 | so does mapping a page |
| `PageMap.DropDataKeeps` | vi_xv6_rev9/vm.c:270-277 | so does unmapping one |
| `PageMap.VisitsExactly` | vi_xv6_rev9/vm.c:265-278 | on any page table, the walk that skips 4 MB at a missing table reaches a page of its range exactly if the skip does not jump over it |
| `PageTable.WalkIsExact` | vi_xv6_rev9/vm.c:265-278 | the pages that the loop of deallocuvm has freed when it ends are exactly the present ones that walk reaches |
| `PageMap.PrefixIsReached` | vi_xv6_rev9/vm.c:265-278 | while present pages form a prefix it jumps over none of them |
| `PageMap.SkipCanMiss` | vi_xv6_rev9/vm.c:268-269 | without that it can miss one |
| `PageTable.Vm.Freerange` | vi_xv6_rev9/kalloc.c:46-52 | exactly the pages of the range enter the pool, once each |
| `PageTable.Vm.Kalloc` | vi_xv6_rev9/kalloc.c:83-95 | the head of the linked free list, 0 exactly if it is empty |
| `PageTable.Vm.Kfree` | vi_xv6_rev9/kalloc.c:60-77 | the page, filled with junk, is at the head; the panic exactly outside the range |
| `PageTable.Vm.Walk` | vi_xv6_rev9/vm.c:45-64 | the page table of the address, made if missing, its directory entry with PTE_P, PTE_W and PTE_U; user map and contents unchanged; fails exactly with the pool empty and the table missing, changing nothing |
| `PageTable.Vm.MapPage` | vi_xv6_rev9/vm.c:70-89 | that one page is mapped, its entry with PTE_P, PTE_W and PTE_U, and no other entry changed, flags included; on failure the user map is unchanged |
| `PageTable.Vm.Deallocuvm` | vi_xv6_rev9/vm.c:257-280 | on any page table, exactly the pages between the sizes that the skip does not jump over are unmapped and back in the pool, the rest with contents untouched |
| `PageTable.RolledBack` | vi_xv6_rev9/vm.c:236-246 | growing and then freeing what was added gives back the user map and the set of data pages |
| `PageTable.Vm.Rollback` | vi_xv6_rev9/vm.c:236-246 | the failure path returns every data page, also the one in hand |
| `PageTable.Vm.Allocuvm` | vi_xv6_rev9/vm.c:223-250 | either the pages up to newsz are mapped, fresh and zeroed, with PTE_P, PTE_W and PTE_U in their entries and in new directory entries, the old ones untouched, entries included; or, on any failure, user map and data pages are as before; it fails exactly if newsz is out of bounds or fewer pages are free than the new pages and missing tables take; no page is lost |
| `PageTable.TablesStayOpen` | vi_xv6_rev9/vm.c:54-62 | where all page tables of a space are open to the user, those made later are too |
| `PageTable.Vm.Freevm` | vi_xv6_rev9/vm.c:285-299 | on any page table, every page of the address space is back in the pool exactly once |
| `Console.ViNewline` | vi_xv6_rev9/vi.c:392-396 | vi's rounding after a newline is the console's |
| `Console.CountToDot` | vi_xv6_rev9/vi.c:375-403 | the count is the cell the console reaches before drawing the character at dot |
| `Console.DotIsDrawn` | vi_xv6_rev9/console.c:387-397 | a dot within vi's 24 lines is drawn before the copy stops |
| `Console.Kept` | vi_xv6_rev9/console.c:151-193 | drawing a character disturbs none drawn before |
| `Console.Screen.Clear` | vi_xv6_rev9/console.c:355-364 | every cell but the cursor's is blank |
| `Console.Screen.Put` | vi_xv6_rev9/console.c:151-193 | where the character and the cursor go, the four blanks of a tab, and that no other cell changes; scrolls by a line or panics exactly at and past the last cell |
| `Console.Cell` | vi_xv6_rev9/console.c:172 | the cell of a printable character has its code in the low byte and the attribute in the high byte |
| `Console.Screen.CopyText` | vi_xv6_rev9/console.c:387-397 | every printable character drawn stands in the cell vi counts for it, exactly if no tab drawn starts in the last four cells |
| `Console.Screen.SetCursor` | vi_xv6_rev9/console.c:366-378 | cursor and attribute of that cell; the panic exactly off the screen |
| `Console.Screen.ShowDot` | vi_xv6_rev9/vi.c:406-416 | after redraw and synchronize the hardware cursor is on the cell that shows the character at dot |
| `ViText.CloseUndoesOpen` | vi_xv6_rev9/vi.c:774-813 | deleting a hole just added restores the text |
| `ViText.OpenUndoesClose` | vi_xv6_rev9/vi.c:774-813 | adding a hole where text was deleted and refilling it restores the text |
| `ViText.MoveUp` | vi_xv6_rev9/vi.c:818-826 | the backward copy is right although the ranges overlap |
| `ViText.Buffer.MakeHoleAdd` | vi_xv6_rev9/vi.c:800-810 | spaces in front of p and the rest moved up, still terminated; refused exactly past textend |
| `ViText.Buffer.MakeHoleDelete` | vi_xv6_rev9/vi.c:774-792 | the text without that range, for either order of the arguments |
| `ViText.Buffer.BeginLine` | vi_xv6_rev9/vi.c:598-602 | the start of the line |
| `ViText.Buffer.EndLine` | vi_xv6_rev9/vi.c:605-609 | the newline that ends the line, or the last character |
| `ViText.Buffer.NextLine` | vi_xv6_rev9/vi.c:619-624 | the start of the next line if there is one, else the last character |
| `Grep.HereStar` | vi_xv6_rev9/grep.c:99-106 | a starred character followed by a pattern matches here exactly if some run of it is followed by a match of the rest |
| `Grep.StarIsAny` | vi_xv6_rev9/grep.c:99-106 | c* is any number of c, none too, '.' any characters, whatever pattern follows |
| `Grep.LiteralMatch` | vi_xv6_rev9/grep.c:73-96 | a pattern without special characters is found exactly where it occurs |
| `Grep.LiteralAnchored` | vi_xv6_rev9/grep.c:76-92 | '^' ties it to the start and '$' to the end |
| `Grep.PrintParse` | vi_xv6_rev9/grep.c:85-96 | printing what a pattern reads as gives the pattern back |
| `Grep.ParsePrint` | vi_xv6_rev9/grep.c:85-96 | every list of atoms that can be written reads back as itself |
| `Grep.MatchHere` | vi_xv6_rev9/grep.c:85-96 | true exactly if a prefix of the text is in the language of the pattern, all of it after `$` |
| `Grep.MatchStar` | vi_xv6_rev9/grep.c:99-106 | the same for c* followed by the pattern; the mutual recursion terminates |
| `Grep.Match` | vi_xv6_rev9/grep.c:73-82 | true exactly if a substring of the text is in the language of the pattern, anchored by a leading `^` and a final `$` only |

## Left out

- The copies of these files in other directories of the repository, boot code, interrupt controllers, timers, UART, keyboard, assembly: duplicates or hardware.
- Disk errors and port I/O of ide.c: a transfer of a block is one step and succeeds.
- Memory ordering: sequential consistency is taken for granted; xchg and swtch are single steps.
- The counter of pushcli and popcli: in `Sched` a CPU's locks stand for ncli; a handler that interrupts a process is part of that process's thread.
- Log.FsLog.Commit: does not model stores by others into buffers they use while a commit runs, nor a commit that sleeps on a logged block because a reader holds its buffer just then: it comes back to it.
- setupkvm and copyuvm: their failure paths do not release everything, so page conservation is not claimed there; mappages is modelled for one page, as allocuvm uses it.
- Namex.ICache.Iput: does not model the truncation of an inode that loses its last link and last reference; the tree is fixed while a path is resolved, and inode locks are left out.
- Heap.Allocator.Malloc: leaves out requests for which the int passed to sbrk is not what morecore records; `Heap.SbrkExactly` says which those are. The static header lies below all core.
- FileSystem.Fs.Writei: a write that panics on a full disk promises ownership and nothing about contents; the log discards such a transaction. Each store stands for bread, log_write and brelse; the bitmap and the data blocks are fields of their own, tied to the blocks of the disk by `FsDisk.Encodes`.
- FsRuns: a call made while no other is under way is one event; for calls that run interleaved, that the last of them leaves a consistent file system is a hypothesis of the theorem, which inode and buffer locks are there to meet. In between their steps, crashes are covered.
- Namex.ICache.Namex: the tree of directories is a map from inode numbers to entries; `Directory` shows how entries come from files.
- ProcTree: pids do not wrap around after 2^31 forks; copying of memory and files in fork is a parameter that succeeds or not.
- ialloc, ilock and its sleep, stati, device drivers behind readi and writei: easy members, or drivers.
- begin_op's sleep loop: `Log.FsLog.BeginOp` says where it sleeps and its caller comes again.
- vi's status line, command dispatch, word motions, searching, file I/O, and the loops of dot_textEnd and modifyScreenBegin; grep's read loop; exec, system call wrappers, mkfs and the small user programs; the shell.
