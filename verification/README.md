# xv6 with an MLFQ scheduler, threads and triple indirection: models and proofs

The repository holds three xv6 kernels. This project models their state machines and data
structures in Dafny and proves what they are for. Identical files are modelled once.

`dafny verify dfyconfig.toml` checks everything.

| file | what it models |
|---|---|
| `LogMachine.dfy`, `LogSafety.dfy` | the write-ahead log (Project01 `log.c`) as a state machine in which `log_write`'s unlocked test, its append and every disk write are steps of their own and a crash may come between any two, with its safety over whole runs |
| `LogLimits.dfy` | how full the log can get, and exactly which log areas are safe |
| `LogRecovery.dfy` | what the operations keep survives crashes |
| `Log.dfy` | the functions of `log.c` in place; every disk write they make is a step of that machine, so a crash inside a method is a crash of the machine |
| `LogBudget.dfy`, `LogBound.dfy`, `LogOps.dfy`, `LogCalls.dfy`, `FileWrite.dfy` | how many blocks an operation logs: the log's view, the bounds for one chunk of `filewrite`, for `create`, `link` and `unlink`, both put together, and `balloc`, `bmap`, `writei`, `filewrite`, `itrunc` in place (Project01 `fs.c`, `file.c`, `sysfile.c`) |
| `BlockTree.dfy`, `FileSystem.dfy` | the block tree with triple indirection (Project03 `fs.c`) as a value, and `balloc`, `bfree`, `bmap`, `itrunc`, `readi`, `writei` in place |
| `FreeList.dfy`, `Umalloc.dfy` | the K&R allocator (`umalloc.c`): its free list as a value, and the circular list in memory |
| `Mlfq.dfy`, `MlfqProgram.dfy` | the scheduler (Project01 `proc.c`) as a state machine on one CPU, and its ring queues in place |
| `BufferCache.dfy` | the LRU buffer cache (`bio.c`, `memide.c`) |
| `PageTables.dfy`, `Vm.dfy`, `Processes.dfy` | two-level page tables and the frame allocator (`vm.c`, `kalloc.c`), and all address spaces together (`growproc`, `fork`, `exec`, `wait`) |
| `ThreadStacks.dfy` | thread stack slots and their ring (Project02 `proc.c`) |
| `LinkCounts.dfy`, `LinkProgram.dfy` | link counts (`sysfile.c`, Project01 `fs.c`) |
| `Pipe.dfy` | the pipe with wrapping counters (`pipe.c`) and its files' reference counts (`file.c`) |
| `Regex.dfy` | the recursive matcher of `grep.c` |
| `Arith.dfy`, `Sets.dfy`, `Paging.dfy`, `Params.dfy` | numbers, finite sets, the page size, and the constants of `param.h` |

How the models are built:

- Code that changes things in place is a class whose methods follow the code's branches. Each
  method's contract ties the new state to a step or a function of the old one, and the theorems are
  lemmas about those steps.
- Panics are outcomes. Where a panic cannot happen, the contract says so or the branch is absent;
  where it can, its exact condition is stated.
- The disk is the synchronous `iderw` of `memide.c`, with atomic block writes. sbrk, kalloc's
  success inside Project02, the buffers that other threads hold while a commit runs (none of them of the log area, which only the log reads), what a read
  through a null pointer finds, the free blocks that
  `dirlink` finds and the choice of which thread runs are parameters or steps.
- Integers are unbounded, and 32-bit wrap-around is written out where the code meets it (`malloc`,
  `writei`, `readi`, `growproc`, pipe counters). Locks are taken to be mutual exclusion: what runs under
  one lock is one step.
- A disk block of Project03's file system is its bytes; index blocks are read as little-endian words of
  them, so a data write could change an address if the proofs did not exclude it. The bitmap is one flag
  for each bit. Project01 frames are only ever read as what they were last
  written as, so a dangling page table would be an error of the model.

What the code does otherwise than one would expect, each stated by a lemma or a contract:

- `log_write` tests the size of the log before it takes the lock, so two operations that keep to their
  budgets can both pass the test for the last block (`LogLimits.TwoPass`). With a log area of 2 to LOGSIZE - 1
  blocks the commit then overwrites the block behind the area (`LogLimits.SmallLogFails`). With LOGSIZE blocks,
  as `mkfs` makes, it is only NBUF being LOGSIZE that prevents this: the transaction pins every
  buffer and the commit panics in `bget` (`LogSafety.LargeLogIsTame`, `LogProgram.FullCommitPanics`).
- `log_write` panics on `lh.n >= LOGSIZE` before it looks whether the block is in the log already, so a write
  that would be absorbed can panic (`LogLimits.AbsorbingWritePanics`), and with the log of LOGSIZE
  blocks that `mkfs` makes the reservation of `begin_op` is one block too generous
  (`LogLimits.SmallLogPanics`).
- The last `unlink` of a file whose blocks lie under nine bitmap blocks logs more than MAXOPBLOCKS
  blocks, which the disk of `mkfs` is too small for (`LogOps.LargeDiskExceeds`, `LogOps.SmallDiskFits`).
- `schedulerUnlock`'s valid branch puts a running process into a queue, and the scheduler puts it there
  again when it gives up the CPU, however late that is (`Mlfq.UnlockDuplicates`).
- A dictator is run whatever its state is, sleeping included (`Mlfq.PickNext`).
- `setPriority` prints that priorities go from 0 to 3 but accepts 4, and turns the queues even for a
  priority it then refuses.
- `growproc(-sz)` frees every page and then reports failure with `p->sz` as it was, because
  `deallocuvm`'s 0 is read as an error (`Processes.Machine.GrowProc`).
- `setmemorylimit` documents 0 as "no limit", but refuses it for any process that has memory
  (`ThreadStacks.Process.SetMemoryLimit`).
- `create` and `link` in a directory that has no links itself, which a run can reach
  (`LinkCounts.DeadDirectoryReached`), make some link count wrong (`LinkCounts.LinkKeeps`,
  `LinkCounts.CreateKeeps`).
- `malloc` of a size within 7 of 2^32 can return a block without room for it (`Umalloc.PayloadFits`), and of
  one above 2^31 - 16 asks `sbrk` for nothing or to give memory back (`Umalloc.SbrkExactly`).
- A failed `thread_create` leaves its pid and id in an unused entry, and `thread_join` of that id can then
  sleep instead of failing (`ThreadStacks.Process.ThreadCreate`, `ThreadStacks.Process.ThreadJoin`).

## Model

| member | source | states |
|---|---|---|
| LogSafety.CrashSafety | Project01-MLFQ/log.c:68-233 | After any run of operations, commits, crashes, panics and recoveries, with log_write's unlocked test and its append as separate steps and a crash between any two disk writes: the disk stands for exactly the transactions whose header was written, in order; whenever recovery has finished the home blocks themselves hold that, and bread adds only the writes of the current transaction. The condition on each step: a new block is appended only if the log area has room for it, or the transaction then pins all NBUF buffers, so that its commit finds none |
| LogSafety.LargeLogIsTame | Project01-MLFQ/param.h:12-14 | With a log area of LOGSIZE blocks or more, such as mkfs makes, every run meets that condition, whatever the operations write, because NBUF is LOGSIZE |
| LogLimits.SafeLayouts | Project01-MLFQ/log.c:213-233 | On a device with a block behind the log area and more blocks outside it than in it: crash safety holds of every run if and only if the log area has fewer than 2 blocks or at least LOGSIZE; and so it does of the runs within budget |
| LogLimits.SmallLogFails | Project01-MLFQ/log.c:176-233 | The run that fails, from any disk with an empty header: two operations pass the size test for the last block of the log area, both append, and write_log overwrites the block behind the area before the commit point |
| LogLimits.TwoPass | Project01-MLFQ/log.c:213-233 | For an area of 2 to LOGSIZE blocks, a run within budget and without a panic after which the log has as many blocks as the area, one more than it has room for |
| LogSafety.SteadyStep | Project01-MLFQ/log.c:68-233 | Every step of every run, whatever the layout and the operations, keeps lh within LOGSIZE, its blocks distinct and, while operations run, pinned, at most NBUF buffers pinned, a readable header, and no operation outstanding while a commit runs |
| LogSafety.StepRefines | Project01-MLFQ/log.c:68-233 | Every step that meets the condition (begin, log_write's test, its append, end, each single disk write of commit and of recovery, crash, panic, boot) keeps the invariant and does to the pair (durable, volatile) contents what an atomic transactional disk would do: only the header write makes anything durable |
| LogSafety.OperationsAreAtomic | Project01-MLFQ/log.c:125-174 | In every run, a committed transaction that has one write of an operation has every write that the operation made in the run, and no write that was not made; no two transactions share an operation, nor does the current one or an outstanding operation share one with them |
| LogSafety.ReservationSafety | Project01-MLFQ/log.c:125-174 | In every state that a run within budget (no operation adds more than MAXOPBLOCKS blocks) reaches: lh.n plus what begin_op still owes the outstanding operations is at most LOGSIZE, and no operation has added more than MAXOPBLOCKS |
| LogSafety.CommitsAlone | Project01-MLFQ/log.c:144-233 | In every reachable state, whatever the operations log: committing implies no outstanding operation, so end_op's panic cannot fire; logged block numbers are distinct; and lh.block is never overrun, although others may append between the test and the append |
| LogSafety.WritePanicExactly | Project01-MLFQ/log.c:218-219 | In every reachable state log_write's unlocked test panics exactly when lh.n has reached the smaller of LOGSIZE and log.size - 1 at that moment, and no other step of an operation panics |
| LogSafety.NewBlockFits | Project01-MLFQ/log.c:124-141 | Within budget and with a log area larger than LOGSIZE, an operation that has not used up its budget finds room for a new block, at the test and at the append |
| LogLimits.SmallLogPanics | Project01-MLFQ/log.c:218-219 | A run within budget whose next test panics in an operation that has not used up its budget, for a log area of at most LOGSIZE blocks, which is what mkfs makes (mkfs.c:25, nlog = LOGSIZE) |
| LogLimits.AbsorbingWritePanics | Project01-MLFQ/log.c:213-233 | A run within budget whose next test panics, for a larger log area, although the block may be one that log absorption would find: the size test comes before the search |
| LogSafety.CopyToLog | Project01-MLFQ/log.c:176-190 | Copying a block into the log while the header on disk is empty changes nothing the disk stands for |
| LogSafety.WriteHeader | Project01-MLFQ/log.c:98-113 | Writing the header puts exactly the logged blocks on top of the home blocks |
| LogSafety.InstallBlock | Project01-MLFQ/log.c:68-82 | Installing a block the header names does not change what the disk stands for, however often it is repeated |
| LogSafety.ClearHeader | Project01-MLFQ/log.c:193-202 | Clearing the header changes nothing once every home block is installed |
| LogSafety.RunKeepsHistory | Project01-MLFQ/log.c:68-233 | Along any run that meets the condition the disk means the replay of the committed transactions, and the caches add the current one |
| LogRecovery.SerialIs | Project01-MLFQ/log.c:9-21 | A transaction does to the disk what its operations do one after the other, in any order that agrees with the order of the writes to each block, however their writes were interleaved |
| LogRecovery.SurvivesCrashes | Project01-MLFQ/log.c:9-21 | Any property of the file system that the first disk meets and every operation of every committed transaction keeps in its turn holds of what the disk stands for after any run, and of the home blocks whenever recovery has finished |
| LogRecovery.OwnedAfterCrashes | Project01-MLFQ/log.c:9-21 | So it is with the invariant of the block tree (every block of a file is marked, and no two addresses name one block), for every run on a log area of LOGSIZE blocks or more and whatever way the inodes and the bitmap are laid out on the disk |
| LogMachine.HeaderRoundTrip | Project01-MLFQ/log.c:86-113 | What write_head stores read_head reads back, for every list of at most LOGSIZE entries |
| LogProgram.Log.WriteLog | Project01-MLFQ/log.c:176-190 | One single disk write of the machine for each block, without any change of the durable or volatile contents, or bget's panic at the first block for which there is no buffer; then nothing of the transaction survives |
| LogProgram.Log.WriteHead | Project01-MLFQ/log.c:98-113 | One disk write, or bget's panic before it; it is the commit point if the header is not empty, and ends the transaction or the recovery if it is |
| LogProgram.Log.InstallTrans | Project01-MLFQ/log.c:68-82 | One disk write for each block, in commit and in recovery, without any change of meaning; in a commit bget can panic, and then all of the transaction survives; in recovery it cannot |
| LogProgram.Log.Commit | Project01-MLFQ/log.c:193-202 | If all 2 lh.n + 2 reads of the log area find a buffer, 2 lh.n + 2 disk writes (none if lh.n is 0), after which the durable contents are the volatile ones and the log is empty; otherwise exactly the writes before the first read that does not, and a panic that leaves none of the transaction up to the header's read and all of it later |
| LogProgram.RoomExactly | Project01-MLFQ/bio.c:72-92 | A read of the log area in a commit finds a buffer exactly when the homes still pinned and the blocks other threads hold are fewer than NBUF |
| LogProgram.ReadsExactly | Project01-MLFQ/log.c:176-202 | The count of reads that the contracts of commit speak of is the index of the first read that panics |
| LogProgram.SmallCommitFits | Project01-MLFQ/log.c:193-202 | A commit goes through if its blocks and those that others hold at any time are fewer than NBUF |
| LogProgram.FullCommitPanics | Project01-MLFQ/param.h:12-14 | For every log area of LOGSIZE blocks or more, mkfs's among them, a run within budget that pins all NBUF buffers, so that its commit panics in its first read even if no other thread holds a buffer |
| LogProgram.Log.ReadHead | Project01-MLFQ/log.c:85-96 | lh is what the header block on disk says |
| LogProgram.Log.RecoverFromLog | Project01-MLFQ/log.c:115-122 | After recovery the home blocks hold what the disk stood for before it, the header is empty, and no transaction has been added |
| LogProgram.Log.BeginOp | Project01-MLFQ/log.c:124-141 | An operation starts exactly when no commit is running and its reservation fits; otherwise nothing changes |
| LogProgram.Log.EndOp | Project01-MLFQ/log.c:143-174 | The last operation commits, with the outcomes of commit; the panic on `committing` is never reached |
| LogProgram.Log.LogTest | Project01-MLFQ/log.c:214-221 | log_write before it takes the lock: the panic is exactly the size test, and nothing changes without it |
| LogProgram.Log.LogAppend | Project01-MLFQ/log.c:223-233 | log_write under the lock: the block is recorded once (absorption), within lh.block, and pinned; the object is a state of a contained run afterwards exactly if the step meets the condition, which it always does with a log area of LOGSIZE blocks or more |
| LogBudget.BudgetSuffices | Project01-MLFQ/log.c:124-141 | If each operation writes blocks of a set of its own of at most MAXOPBLOCKS blocks, then any run is within budget, whatever the interleaving, the commits and the crashes |
| LogBudget.SpentStep | Project01-MLFQ/log.c:213-233 | No step lets an operation add more blocks than its set has in the log |
| LogBudget.BudgetsReserve | Project01-MLFQ/log.c:124-141 | So every state it reaches has the reservations |
| LogCalls.CallFits | Project01-MLFQ/sysfile.c:118-283 | A chunk of filewrite, create, mkdir, mknod, link, unlink and a last close each log at most MAXOPBLOCKS blocks, as long as the blocks of an inode that is freed lie under at most seven bitmap blocks |
| LogCalls.SmallDiskIsNarrow | Project01-MLFQ/mkfs.c:22-31 | which they do on a disk with at most seven bitmap blocks, as mkfs makes |
| LogCalls.CallsKeepReservations | Project01-MLFQ/log.c:124-141 | Any interleaving of such calls in which each writes the blocks it logs, with commits and crashes at any point, is a run within budget, so the log and what begin_op still owes fit in LOGSIZE |
| LogBound.ChunkFitsReservation | Project01-MLFQ/file.c:127-152 | For a file without holes, writing one chunk (at most 1536 bytes) at any offset logs at most MAXOPBLOCKS distinct blocks, for any bitmap |
| LogBound.BoundIsReached | Project01-MLFQ/file.c:127-152 | The bound is tight: appending a chunk to a file of eleven blocks and one byte, with free blocks spread over four bitmap blocks, logs exactly MAXOPBLOCKS blocks |
| LogBound.WriteKeepsNoHoles | Project01-MLFQ/fs.c:482-511 | writei never makes a hole, sets the size to the maximum of the old size and off + n, and logs the inode whenever it has mapped a block |
| LogBound.WriteBlocksCost | Project01-MLFQ/fs.c:57-78 | A run of k blocks adds at most 2k log entries plus two for the indirect block, one less if the first block was mapped; mapped blocks stay mapped |
| LogOps.CreateFits | Project01-MLFQ/sysfile.c:241-283 | create, mkdir, mknod and link log at most MAXOPBLOCKS blocks, for any bitmap and any size of the parent |
| LogOps.UnlinkLogs | Project01-MLFQ/sysfile.c:217-231 | The steps of unlink (writei of the cleared entry, the iupdates, iput with itrunc) log the block of the entry, one or two inodes and, if the inode is freed, the bitmap block of each of its blocks; they go through exactly if those blocks are marked and named once |
| LogOps.UnlinkFitsExactly | Project01-MLFQ/sysfile.c:184-239 | So unlink stays within MAXOPBLOCKS while links or references are left; with the last of both exactly if the file's blocks lie under at most MAXOPBLOCKS bitmap blocks less the two or three others |
| LogOps.SmallDiskFits | Project01-MLFQ/mkfs.c:22-31 | so always with at most seven bitmap blocks, as on the disk of mkfs |
| LogOps.LargeDiskExceeds | Project01-MLFQ/fs.c:408-435 | and not always with nine: a file of nine data blocks, each behind the bitmap and under another bitmap block, whose last unlink logs eleven blocks |
| LogOps.FreeAllExactly | Project01-MLFQ/fs.c:81-95 | bfree's panic in itrunc comes exactly when a cell's block is not marked or is named twice; otherwise just those marks go |
| FileWriteProgram.OpenFile.Balloc | Project01-MLFQ/fs.c:57-78 | The nested loops find the lowest free block, and log its bitmap block and itself; the panic is exactly a full bitmap |
| FileWriteProgram.OpenFile.Bmap | Project01-MLFQ/fs.c:373-400 | The address of the file block, allocating it and the indirect block exactly as the specification function says |
| FileWriteProgram.OpenFile.Itrunc | Project01-MLFQ/fs.c:407-435 | itrunc's loops free the cells as the specification function does, or panic exactly as it does, and log each block's bitmap block and the inode |
| FileWriteProgram.OpenFile.constructor | Project01-MLFQ/fs.c:194-214 | A new file has no holes and no blocks |
| FileWriteProgram.OpenFile.Writei | Project01-MLFQ/fs.c:482-511 | -1 with nothing changed, a panic with the bitmap full, or n with the state of the specification function |
| FileWriteProgram.OpenFile.WriteChunk | Project01-MLFQ/file.c:134-142 | One operation writes its chunk whole or not at all and stays within its reservation |
| FileWriteProgram.OpenFile.FileWrite | Project01-MLFQ/file.c:118-156 | Every operation of the loop stays within MAXOPBLOCKS; the result is n with the offset advanced by n, or -1 at the first chunk writei rejects; the "short filewrite" panic is never reached |
| FileSystem.Device.Balloc | Project03-FileSystem/fs.c:62-84 | The lowest free block, marked and zeroed, or the panic exactly when the bitmap is full |
| FileSystem.Device.Bfree | Project03-FileSystem/fs.c:87-101 | Clears one mark; the panic is exactly a block that is free already |
| FileSystem.Device.constructor | Project03-FileSystem/mkfs.c:94-115 | The device as mkfs has formatted it, before it adds the root directory, satisfies the invariant: the blocks before the first data block are marked, and no inode has a block |
| FileSystem.Device.Bmap | Project03-FileSystem/fs.c:379-472 | The address at the path of the file block in the 0-, 1-, 2- or 3-level tree, allocating only cells on that path; every other block's mapping and every file's contents stay, a mapped block is returned with no change at all, and ownership is kept |
| FileSystem.Device.BmapTriple | Project03-FileSystem/fs.c:436-470 | The triple indirect branch, for any digits of the block number |
| FileSystem.Device.Itrunc | Project03-FileSystem/fs.c:479-558 | Exactly the blocks reachable from the inode lose their mark, each once, so bfree's panic never fires; every other inode's addresses and contents stay |
| FileSystem.Device.FreeTriple | Project03-FileSystem/fs.c:529-554 | The nested loops clear exactly the marks of what is under one triple indirect address |
| FileSystem.Device.Readi | Project03-FileSystem/fs.c:575-640 | The slice [off, off + n) of the file cut off at its size, or -1 beyond it; no file's contents change |
| FileSystem.Device.Writei | Project03-FileSystem/fs.c:645-717 | -1 exactly if off is beyond the size or the end beyond MAXFILE blocks; otherwise this file becomes its old bytes with [off, off + n) replaced, growing if need be, no other file changes, and no cell of any inode's block tree loses or changes its address, though the bytes written may be read as addresses |
| FileSystem.Device.StoreData | Project03-FileSystem/fs.c:687-704 | Overwriting a data block changes its bytes and its words, and no cell of any tree |
| FileSystem.Device.StoreEntry | Project03-FileSystem/fs.c:395-472 | Storing an address in an index block changes its words and its bytes, and no byte of any file |
| BlockTree.BlockRoundTrip | Project03-FileSystem/fs.c:379-472 | bmap's division and remainder give each file block a data cell of its own, and the cell gives back the block number |
| BlockTree.PathRoundTrip | Project03-FileSystem/fs.c:379-472 | Every data cell belongs to exactly one file block |
| BlockTree.DataLookup | Project03-FileSystem/fs.c:687-704 | Whatever words a data block is made to hold, no cell of any inode changes: a data block is never an index block |
| BlockTree.IndexBytes | Project03-FileSystem/fs.c:395-472 | Whatever bytes an index block is made to hold, no file changes |
| BlockTree.PutWordWords | Project03-FileSystem/fs.c:395-472 | Storing a word in the bytes of a block changes that word of it alone |
| BlockTree.FileBlocksAreDistinct | Project03-FileSystem/fs.c:379-472 | No two (inode, block number) pairs share a disk block |
| BlockTree.AttachLookup | Project03-FileSystem/fs.c:379-472 | Storing an address in an empty cell changes no other cell of any inode |
| BlockTree.AttachOwned | Project03-FileSystem/fs.c:379-472 | It keeps every reachable block marked and reachable once only |
| BlockTree.AttachBytes | Project03-FileSystem/fs.c:62-84 | A zeroed new block changes no byte of any file |
| BlockTree.WriteBytes | Project03-FileSystem/fs.c:687-704 | Writing within one block of one file changes those bytes of that file and no byte of another |
| BlockTree.ReadBytes | Project03-FileSystem/fs.c:617-628 | What lies within one block of a file can be read from that block |
| BlockTree.SiblingsDisjoint | Project03-FileSystem/fs.c:479-558 | Different entries of an index block have no block in common below them |
| BlockTree.NextMarked | Project03-FileSystem/fs.c:479-558 | What itrunc has still to free keeps its mark while it frees the rest |
| BlockTree.RemovedAll | Project03-FileSystem/fs.c:479-558 | Freeing below each address of an inode frees everything the inode owns |
| BlockTree.ClearedOwned | Project03-FileSystem/fs.c:479-558 | Once its addresses are 0 the remaining inodes still own marked, distinct blocks |
| Umalloc.Allocator.Malloc | Project01-MLFQ/umalloc.c:63-90 | NULL exactly if nothing fits and sbrk refuses; otherwise a new allocation of the computed number of units, apart from all live ones; sbrk is asked at most once, and only if no free block is large enough; the words inside the other allocations are left as they were |
| Umalloc.Allocator.Scan | Project01-MLFQ/umalloc.c:74-89 | The walk round the circle ends at the first block that fits after freep, or back at freep when none fits |
| Umalloc.Allocator.Search | Project01-MLFQ/umalloc.c:74-89 | After morecore has added a region the walk is sure to find a block, so there is no second call |
| Umalloc.Allocator.TakeBlock | Project01-MLFQ/umalloc.c:75-84 | An exact block is unlinked and a larger one gives its tail; the list is otherwise the same |
| Umalloc.Allocator.MoreCore | Project01-MLFQ/umalloc.c:46-61 | At least nu units from sbrk join the list, merged with a neighbour they touch; or nothing changes |
| Umalloc.Allocator.Free | Project01-MLFQ/umalloc.c:24-44 | The allocation's units join the list in address order, merged with the blocks they touch; no other allocation changes, nor any word inside one |
| Umalloc.Allocator.FindPlace | Project01-MLFQ/umalloc.c:31-33 | The for loop ends, at the block after which the freed one belongs |
| Umalloc.FreeLinked | Project01-MLFQ/umalloc.c:34-43 | free's pointer and size assignments turn one circular list into the other |
| Umalloc.FreeKeeps | Project01-MLFQ/umalloc.c:24-44 | Freeing keeps the heap's invariant: circular, ordered, coalesced, apart from all allocations |
| Umalloc.FreeAccounts | Project01-MLFQ/umalloc.c:24-44 | and every unit from sbrk stays in a free block or an allocation |
| Umalloc.TakeKeeps | Project01-MLFQ/umalloc.c:75-84 | Allocating keeps the invariant, and the new allocation is disjoint from all live ones |
| Umalloc.TakeAccounts | Project01-MLFQ/umalloc.c:75-84 | and every unit stays accounted for |
| Umalloc.GrowKeeps | Project01-MLFQ/umalloc.c:46-61 | A fresh region above the break keeps the invariant |
| Umalloc.UserWriteKeeps | Project01-MLFQ/umalloc.c:24-90 | Whatever a program writes into its own allocation behind the header, the heap stays as it is |
| Umalloc.PayloadFits | Project01-MLFQ/umalloc.c:69-69 | The computed units hold nbytes if and only if nbytes + 7 does not wrap around in 32 bits |
| Umalloc.SbrkExactly | Project01-MLFQ/umalloc.c:52-54 | morecore asks sbrk, whose argument is an int, for the memory it then uses if nbytes is at most 2^31 - 16 or within 7 of 2^32; for all other requests it asks for 0 or for a negative number of bytes |
| FreeList.InsertOrdered | Project01-MLFQ/umalloc.c:24-44 | Inserting and merging keeps the list address-ordered with no two blocks touching |
| FreeList.InsertCovers | Project01-MLFQ/umalloc.c:24-44 | It covers exactly the old units and the freed ones |
| FreeList.TakeCovers | Project01-MLFQ/umalloc.c:75-84 | Taking units loses exactly the units of the new allocation |
| FreeList.GapIsUnique | Project01-MLFQ/umalloc.c:31-33 | There is one place only where a block belongs |
| Mlfq.StepKeeps | Project01-MLFQ/proc.c:217-595 | After every step each live process that is not running and not the dictator is in exactly one queue, once; the running process, the dictator and UNUSED, EMBRYO and ZOMBIE processes are in none |
| Mlfq.QueuesAlwaysExact | Project01-MLFQ/proc.c:371-454 | So it is in every state of every run from userinit, the queues together hold at most NPROC entries, and every priority is between 0 and 4, so never USELESS |
| Mlfq.RoomForOneMore | Project01-MLFQ/proc.c:833-839 | A ring is never full when a process joins it, though enQ does not check |
| Mlfq.StepKeepsPriorities | Project01-MLFQ/proc.c:647-681 | Every step keeps priorities between 0 and 4 |
| Mlfq.PickIsUnique | Project01-MLFQ/proc.c:881-923 | The entry pickProc must take is unique: the first RUNNABLE one, at level 2 the first of least priority value |
| Mlfq.BoundedWait | Project01-MLFQ/proc.c:371-454 | A process that stays RUNNABLE at position k of level 0 is run within k + 1 picks, whatever forks, wakeups, demotions, exits and boosts happen meanwhile |
| Mlfq.RunsAfterBoost | Project01-MLFQ/proc.c:807-829 | After a boost everybody who stays RUNNABLE runs within NPROC picks |
| Mlfq.PickAdvances | Project01-MLFQ/proc.c:881-923 | A pick that takes somebody else moves a waiting process strictly forward |
| Mlfq.OtherStepsKeepPlace | Project01-MLFQ/proc.c:371-454 | No other step without locking or setPriority moves it |
| Mlfq.UnlockExactly | Project01-MLFQ/proc.c:778-795 | schedulerUnlock with the right password keeps the queues right exactly when it takes the "do nothing" branch |
| Mlfq.UnlockDuplicates | Project01-MLFQ/proc.c:778-795 | After the valid branch, whatever forks, wakeups, kills, setPriority calls, locks and ticks come before the process gives up the CPU, and with or without a boost then: it is in the queues twice if it belongs in one and once if it does not, so the queues are wrong at the next pick |
| Mlfq.SurplusStep | Project01-MLFQ/proc.c:371-454 | Every step of the running process but giving up the CPU leaves it in a queue once |
| Mlfq.RunningDictatorReached | Project01-MLFQ/proc.c:704-760 | A run that reaches the state in which that branch is taken |
| MlfqProgram.Kernel.constructor | Project01-MLFQ/proc.c:146-187 | After userinit the queues are the machine's initial state |
| MlfqProgram.Kernel.EnQ | Project01-MLFQ/proc.c:833-839 | The ring arithmetic appends to the sequence |
| MlfqProgram.Kernel.DeQ | Project01-MLFQ/proc.c:844-852 | It takes the first entry, or -1 if there is none |
| MlfqProgram.Kernel.PickProc | Project01-MLFQ/proc.c:881-923 | The pick at position k turns q into q[k+1..] + q[..k]; -1 leaves q as it was |
| MlfqProgram.Kernel.FindBest | Project01-MLFQ/proc.c:886-903 | One round of the queue finds the first RUNNABLE entry of least priority value and leaves the queue as it was |
| MlfqProgram.Kernel.PriorityBoost | Project01-MLFQ/proc.c:807-829 | Level 0 becomes the dictator (if any), level 0, level 1, level 2, with level, priority and quantum reset for all |
| MlfqProgram.Kernel.ScheduleNext | Project01-MLFQ/proc.c:371-418 | The dictator, else the pick of the first level that has one, else nobody |
| MlfqProgram.Kernel.AfterSwitch | Project01-MLFQ/proc.c:420-452 | Quantum, demotion, requeueing and the boost are the machine's feedback step |
| MlfqProgram.Kernel.SetPriority | Project01-MLFQ/proc.c:647-681 | The queues are turned up to the process; the priority changes only if it is in range |
| MlfqProgram.Kernel.SchedulerUnlock | Project01-MLFQ/proc.c:762-796 | The valid branch puts the caller in front of level 0 |
| MlfqProgram.Kernel.Wakeup1 | Project01-MLFQ/proc.c:556-563 | Exactly the sleepers on the channel become RUNNABLE |
| MlfqProgram.Kernel.Kill | Project01-MLFQ/proc.c:578-595 | The first process with the pid is marked as killed and woken if it sleeps; -1 if there is none |
| BufferCache.BCache.constructor | Project01-MLFQ/bio.c:38-56 | binit makes a circular list of all buffers, none of them naming a block |
| BufferCache.BCache.BGet | Project01-MLFQ/bio.c:59-93 | No block's contents change; the buffer that has the block gains a user, else of the buffers that are neither in use nor dirty the one whose last user gave it back the longest ago is taken; the panic is exactly that there is neither |
| BufferCache.BCache.Victim | Project01-MLFQ/bio.c:80-91 | The eligible buffer nearest the end of the list, which no eligible one was released before |
| BufferCache.BCache.BRead | Project01-MLFQ/bio.c:95-106 | A buffer that is in use and holds the block's current contents, logged changes included |
| BufferCache.BCache.BWrite | Project01-MLFQ/bio.c:108-116 | The buffer's data is on disk and the buffer clean; no block's contents change |
| BufferCache.BCache.Iderw | Project01-MLFQ/memide.c:38-60 | Reads or writes the one block as its flags ask; its panics are exactly the calls that ask for nothing or name no block |
| BufferCache.BCache.ModifyAndPin | Project01-MLFQ/log.c:213-233 | Changing a buffer in use and marking it dirty changes the contents of its block and of no other |
| BufferCache.BCache.BRelse | Project01-MLFQ/bio.c:119-141 | The last release moves the buffer to the front of the list and is its latest; no contents change; the cache stays sound exactly if its user has not changed it without logging or writing it |
| BufferCache.RoomExactly | Project01-MLFQ/bio.c:59-93 | bget finds a buffer exactly if the block is one of those in use or dirty, or those are fewer than NBUF |
| BufferCache.RecycleKeeps | Project01-MLFQ/bio.c:80-91 | Recycling an eligible buffer changes no block's contents, since it was a copy of the disk |
| BufferCache.UnlinkRing | Project01-MLFQ/bio.c:128-134 | Two pointer assignments take a buffer out of the circular list |
| BufferCache.PushRing | Project01-MLFQ/bio.c:128-138 | Four put it in front |
| Pipe.FifoInEveryRun | Project01-MLFQ/pipe.c:78-121 | For any interleaving of writers and readers, and however often the 32-bit counters wrap, the bytes delivered are a prefix of the bytes accepted, the ring holds the rest, and the counters are at most 512 apart |
| Pipe.FreedOnce | Project01-MLFQ/file.c:43-81 | In every run from pipealloc in which processes duplicate, use and close only descriptors they have: no reference count panics, an end is closed by the close of its last descriptor, the pipe is freed once, when both are, and nobody touches it after that |
| Pipe.SlotsDiffer | Project01-MLFQ/pipe.c:13-20 | Different unread bytes are in different slots, because 512 divides 2^32 |
| Pipe.FullTest | Project01-MLFQ/pipe.c:78-121 | The full test nwrite == nread + 512 and the empty test are exact on wrapped counters |
| Pipe.PipeBuffer.WriteSection | Project01-MLFQ/pipe.c:78-97 | Up to the point where it sleeps, fails or is done, pipewrite is a run of the machine that stores a run of its bytes; it stops early only on a full ring |
| Pipe.PipeBuffer.ReadSection | Project01-MLFQ/pipe.c:100-121 | piperead is a run that delivers the oldest unread bytes, as many as asked for or as there are; it waits exactly on an empty ring with an open writer |
| Pipe.PipeBuffer.constructor | Project01-MLFQ/pipe.c:22-46 | pipealloc makes an empty pipe, both ends open, with one reference to each file |
| Pipe.PipeBuffer.FileDup | Project01-MLFQ/file.c:43-53 | filedup is the machine's step, and its panic is never reached |
| Pipe.PipeBuffer.FileClose | Project01-MLFQ/file.c:55-73 | fileclose up to its release of ftable.lock is the machine's step, its panic is never reached, and pipeclose follows exactly when the reference was the last |
| Pipe.PipeBuffer.PipeClose | Project01-MLFQ/pipe.c:59-75 | pipeclose frees the pipe exactly when no descriptor and no reference of either end is left |
| VmProgram.Kernel.constructor | Project01-MLFQ/kalloc.c:46-53 | freerange puts every frame of the range on the free list |
| VmProgram.Kernel.Kalloc | Project01-MLFQ/kalloc.c:82-95 | A frame leaves the free list, or 0 exactly when the list is empty |
| VmProgram.Kernel.Kfree | Project01-MLFQ/kalloc.c:60-77 | A frame joins the free list, which it was not on |
| VmProgram.Kernel.Walkpgdir | Project01-MLFQ/vm.c:35-55 | The page table for the address; a new one changes no translation, and comes out of the free frames |
| VmProgram.Kernel.Mappages | Project01-MLFQ/vm.c:60-80 | The pages are mapped to consecutive frames and nothing else changes; failure happens only with no frame free, the "remap" panic only if one of the pages is mapped already, and never otherwise |
| VmProgram.Kernel.Setupkvm | Project01-MLFQ/vm.c:118-136 | A directory with exactly the kernel's mappings, or 0 with the free set as it was |
| VmProgram.Kernel.Allocuvm | Project01-MLFQ/vm.c:222-249 | The new pages are zeroed, writable, and on frames of their own; on failure every translation is as before; free plus owned frames stay the same either way, and no old page's contents change |
| VmProgram.Kernel.Deallocuvm | Project01-MLFQ/vm.c:256-279 | Exactly the present pages between the sizes are unmapped and freed, page tables that are missing being skipped |
| VmProgram.Kernel.Freevm | Project01-MLFQ/vm.c:284-298 | The free set gains exactly the frames the directory owned (user frames, page tables and itself), each once |
| VmProgram.Kernel.Copyuvm | Project01-MLFQ/vm.c:315-345 | The copy has equal contents and flags on other frames and the kernel's mappings; on failure the free set is exactly as before; the source never changes; a panic means a page below sz is missing |
| PageTables.SpaceFrame | Project01-MLFQ/vm.c:35-80 | An address space depends on the frames it owns and on no others |
| PageTables.UnmapUser | Project01-MLFQ/vm.c:256-279 | Freeing one user page takes exactly its frame out of what the space owns |
| Processes.FramesConserved | Project01-MLFQ/vm.c:118-345 | An operation on one address space conserves the free frames and the frames of all spaces together |
| Processes.OthersKept | Project01-MLFQ/vm.c:118-345 | and leaves every other space's translations and contents as they were |
| Processes.Machine.GrowProc | Project01-MLFQ/proc.c:193-211 | Frames are conserved in every case; pages are present exactly below p->sz afterwards if and only if the call did not give back the whole image exactly (n == -sz); then every page is gone but the result is -1 and p->sz as before |
| Processes.Machine.Fork | Project01-MLFQ/proc.c:217-232 | The child has equal pages of its own; copyuvm's panics cannot happen; failure gives every frame back |
| Processes.Machine.Exec | Project01-MLFQ/exec.c:38-108 | The old image is freed once the new one is complete, which takes well-formed program headers and ends at the segments' end, rounded up, plus two pages; failure keeps the old one and gives every frame back |
| Processes.Machine.Reap | Project01-MLFQ/proc.c:330-345 | The free set gains exactly what the child's space owned |
| ThreadStacks.StacksAreSafe | Project02-Thread/proc.c:906-1116 | In every run of thread_create, thread_exit, thread_join and sbrk with n >= 0: live stacks, freed slots and the heap are pairwise disjoint, and exactly the heap and the live stacks are mapped |
| ThreadStacks.NextSlotIsUnmapped | Project02-Thread/proc.c:915-931 | The slot the next thread gets, freed or new, is not mapped |
| ThreadStacks.RingNeverOverflows | Project02-Thread/proc.c:1096-1099 | Live plus freed slots are as many as there have ever been live threads at once, which is less than NTHRD |
| ThreadStacks.CreateKeeps | Project02-Thread/proc.c:906-966 | A new thread's slot is no live thread's, and a slot is carved only when there are more live threads than ever before |
| ThreadStacks.JoinKeeps | Project02-Thread/proc.c:1096-1101 | A joined thread's slot, and no other, becomes free and unmapped |
| ThreadStacks.GrowKeeps | Project02-Thread/proc.c:264-294 | sbrk takes only pages that no stack has or had |
| ThreadStacks.PopRing | Project02-Thread/proc.c:944-951 | The ring gives the slot that was freed first |
| ThreadStacks.PushRing | Project02-Thread/proc.c:1096-1099 | and takes one at its end |
| ThreadStacks.LiveCount | Project02-Thread/proc.c:81-89 | The live threads of a process, whose main thread has an entry too, are fewer than the entries of the thread table |
| ThreadStacks.Process.ThreadCreate | Project02-Thread/proc.c:974-1013 | 0 exactly if the table has an unused entry, kalloc finds a kernel stack, the memory limit allows the slot and allocuvm finds memory; a failure after allocthread leaves the process's pid and the new id in the unused entry, and changes nothing else |
| ThreadStacks.Process.ThreadJoin | Project02-Thread/proc.c:1058-1116 | Joins the first zombie with the id whose creator's entry has the caller's id now; else fails, or sleeps exactly if something matches and the caller is not killed; what a failed thread_create has left in an unused entry matches too |
| ThreadStacks.Process.ReuseIsWithinLimit | Project02-Thread/proc.c:923-927 | Taking a freed slot again never fails on the memory limit |
| ThreadStacks.Process.GrowProc | Project02-Thread/proc.c:264-294 | The old size, or -1 exactly on the limit or without memory |
| ThreadStacks.Process.SetMemoryLimit | Project02-Thread/proc.c:768-792 | The limit is accepted exactly if it is at least the current size; so 0 is accepted only by a process without memory |
| LinkCounts.CountsAlwaysRight | Project01-MLFQ/sysfile.c:118-283 | In every run of link, create, unlink and freeing from any image that meets the invariant, each inode's nlink is the number of entries other than "." naming it in directories that still have a link |
| LinkCounts.MkfsImageOk | Project01-MLFQ/mkfs.c:117-163 | The image that mkfs makes, a root directory with any number of files of different names, padded with empty entries, meets it |
| LinkCounts.MkfsCountsRight | Project01-MLFQ/mkfs.c:117-163 | so the counts are right in every run from that image |
| LinkCounts.LinkKeeps | Project01-MLFQ/sysfile.c:118-165 | After a successful link all counts are right if and only if the directory it adds to still has a link itself |
| LinkCounts.CreateKeeps | Project01-MLFQ/sysfile.c:241-283 | So too after create, of a file, a device or a directory |
| LinkCounts.CreateDirBreaks | Project01-MLFQ/sysfile.c:266-272 | mkdir in a directory without links makes that directory count again, and its parent's count wrong |
| LinkCounts.DeadDirectoryReached | Project01-MLFQ/sysfile.c:118-283 | A run that reaches a directory without links, and a link into it that makes the file's count wrong: mkdir d, create f, unlink d, link f |
| LinkCounts.UnlinkKeeps | Project01-MLFQ/sysfile.c:184-239 | unlink keeps the counts right, and the count it decrements was at least 1 |
| LinkCounts.OnlyLink | Project01-MLFQ/sysfile.c:168-181 | A directory that isdirempty accepts has exactly one link |
| LinkCounts.ParentLinks | Project01-MLFQ/sysfile.c:221-224 | and its parent has at least two, one of them its ".." |
| LinkCounts.FreeKeeps | Project01-MLFQ/fs.c:332-352 | An inode without links can be freed: nothing that counts names it |
| LinkCounts.RootOnlyOk | Project01-MLFQ/mkfs.c:117-128 | The image with only a root directory, before the first file, is right to begin with |
| LinkProgram.FileTree.constructor | Project01-MLFQ/mkfs.c:117-163 | The tree starts as mkfs's image, for any files |
| LinkProgram.FileTree.Dirlookup | Project01-MLFQ/fs.c:525-548 | The first entry with the name, or none |
| LinkProgram.FileTree.Dirlink | Project01-MLFQ/fs.c:552-578 | The entry is put in the first empty place, unless the name exists; the panic is exactly a directory of the greatest size, or one that needs more new blocks than are free |
| LinkProgram.FileTree.Link | Project01-MLFQ/sysfile.c:118-165 | -1 exactly on a missing path, a directory or an existing name, with the count put back; else one entry and one link more, or dirlink's panic |
| LinkProgram.FileTree.Unlink | Project01-MLFQ/sysfile.c:184-239 | -1 exactly if the name is "." or "..", missing, or of a directory with entries, with nothing changed; else the entry goes, and for a directory also the parent's link; the panic on nlink < 1 is never reached |
| LinkProgram.FileTree.Create | Project01-MLFQ/sysfile.c:241-283 | 0 exactly without a parent or if the name exists and is not a file wanted as a file; a panic only without a free inode or without blocks for the new entries; else the new inode with its entries, in the first free inode |
| LinkProgram.FileTree.Iput | Project01-MLFQ/fs.c:332-352 | The last reference frees the inode exactly if it has no links |
| Regex.Match | Project01-MLFQ/grep.c:72-82 | 1 exactly if the text has a substring in the language of the pattern (literals, '.', c*, a leading '^', a final '$') |
| Regex.MatchHere | Project01-MLFQ/grep.c:84-96 | 1 exactly if the language has a prefix of the text |
| Regex.MatchStar | Project01-MLFQ/grep.c:98-106 | 1 exactly if some number of fitting characters is followed by a match of the rest; it terminates with matchhere on (pattern, text) |

## Left out

- Mlfq.StepKeeps: covers every step but the valid branch of schedulerUnlock, which breaks the invariant; Mlfq.UnlockExactly says when.
- Mlfq.BoundedWait: assumes that nobody locks the scheduler or calls setPriority meanwhile; both can delay a process without bound.
- MlfqProgram.Kernel.SetPriority: states the machine's step; that the queue stays turned when the process is found or refused is part of that step.
- LogProgram.Log.EndOp: operations read their own blocks before they log them; that bget may panic there too is the machine's step for a panic elsewhere.
- LogSafety.CrashSafety: log.lh.n is read in one piece by log_write's test; log.outstanding < 1 is never met, since an operation that is not outstanding takes no step.
- LogRecovery.SurvivesCrashes: that each operation keeps the property in its turn is a premise; which property an operation keeps is a matter of its own contract, as FileSystem.Device.Writei and FileSystem.Device.Itrunc state for theirs.
- LogCalls.CallsKeepReservations: the blocks that a call has logged when it panics are left out, as are open and close without the last reference, which log nothing.
- LogOps.UnlinkFitsExactly: the parent directory is not freed in the same operation.
- LogProgram.Log.BeginOp: one turn of the loop; sleeping and being woken are not modelled.
- LogBound.ChunkFitsReservation: for regular files; devices write no blocks.
- FileWriteProgram.OpenFile.Writei: says which blocks are mapped and logged, not the bytes; FileSystem.Device.Writei says the bytes for Project03's version.
- FileSystem.Device.constructor: the root directory and the files that mkfs adds are left out here; LinkCounts.MkfsImageOk has them.
- FileSystem.Device.Bmap: the log_write calls are not part of this model, nor is Project03's log, whose flush commits while operations are outstanding.
- FileSystem.Device.Readi: regular files and directories only; devices, and symbolic links, whose path is kept in addrs, are left out.
- FileSystem.Device.Itrunc: iupdate is not modelled; the in-memory inode is the inode.
- Umalloc.Allocator.Malloc: sbrk is a parameter, -1 or an address at or above the break, in units of a header, which is what requests in the range of Umalloc.SbrkExactly get; the others are left out.
- Umalloc.Allocator.MoreCore: likewise.
- VmProgram.Kernel.Mappages: whole pages, and for user addresses one page at a time, as all its callers ask for.
- VmProgram.Kernel.Kfree: kfree's range check is met by every frame of the model; filling a frame with junk is the loss of its contents.
- VmProgram.Kernel.Allocuvm: page tables that a failed call has added stay with the directory until freevm, as in the code.
- Processes.Machine.Exec: what the segments and the stack contain, the guard page's flag, and reading the file are left out; whether a header, a segment or the arguments can be had is a parameter.
- Processes.Machine.Fork: the kernel stack and everything but the address space are left out.
- ThreadStacks.Process.ThreadCreate: registers and the contents of stacks are left out, and so is the kernel stack that a failure keeps; allocuvm's and kalloc's success are parameters.
- ThreadStacks.Process.ThreadJoin: fork, which copies the ring and the thread table's entries, is left out.
- ThreadStacks.Process.SetMemoryLimit: for the process that the pid names; the search for it is left out.
- ThreadStacks.Process.GrowProc: n >= 0 only; a negative n can cut below freed slots.
- LinkProgram.FileTree.Link: paths are resolved already, each call is one step, and nlink does not overflow.
- Pipe.FreedOnce: processes of one thread; a thread of Project02 can close a descriptor that another one is asleep on.
- Pipe.PipeBuffer.constructor: pipealloc when there are two files and a page.
- Pipe.PipeBuffer.WriteSection: the loop up to the point where it sleeps; wakeups are not modelled.
- Hardware, boot, interrupts, the console, traps, system call arguments, the shell, the other user programs and printing are left out.
- Multi-CPU scheduling, spinlocks and sleeplocks themselves are left out.
- Project02's scheduler, exit and exec of threads are left out, apart from their effect on stack slots.
