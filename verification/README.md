# xv6-riscv in Dafny

A model of the parts of xv6-riscv (the teaching kernel for RISC-V, here with three selectable schedulers) whose
correctness is hard to see from any one function, with proofs of what they keep, restore or refine.

`dafny verify dfyconfig.toml` checks everything.

| modules | what they model |
|---|---|
| `Disk`, `Recovery`, `LogRuns`, `Log` | the write-ahead log: commit and recovery write by write, whole runs with crashes, and `kernel/log.c` as it runs |
| `Bytes`, `Dirs`, `FsImage`, `FsSteps`, `FileBytes`, `Fs`, `Mkfs`, `Boot` | block allocation, block maps, inodes on disk, truncation, reading and writing files, directory entries, building the first image, and the kernel on that image |
| `PageTable`, `PageTree`, `Vm`, `UserCopy`, `Sv39` | Sv39 page tables and what the hardware makes of them, the page allocator, growing, copying and freeing address spaces, and copying between them and the kernel |
| `BufferRing`, `Bio` | the buffer cache |
| `FreeRing`, `Umalloc` | the user-level allocator of Kernighan and Ritchie |
| `Pipe`, `SleepWakeup`, `PipeSleep` | pipes, the sleep/wakeup protocol, and pipes as its clients |
| `VirtioRing`, `Virtio` | the disk driver's request protocol, and what a device that follows it does to memory and to the medium |
| `ProcTree`, `Sched`, `Dispatch` | fork, exit and wait; the schedulers' counters and choices; which CPU runs what |
| `ShellLex`, `Shell`, `ShellGrammar`, `ShellText`, `ShellBlanks` | the shell's parser, its grammar, the text of a command, and blanks |
| `Regex`, `Grep` | the regular expression matcher and grep's line buffer |
| `Params`, `Procs`, `Common` | constants, process states and small facts that several modules share |

Code that changes things in place is a class or a method with loops, proved against functions of the values before.
Concurrency appears as steps: a method is what happens while one lock is held, so that every interleaving is a
sequence of calls (a loop that takes one lock per turn has a method for the turn, and one for the undisturbed loop), or a
module has an explicit step relation and its main lemma is about every state of every run.
What an operation may rely on of its callers is its precondition; a kernel panic is either a precondition that the
callers in the model discharge, or an explicit outcome.

Results that differ from a first reading of the code:

- `kernel/log.c:220` compares with the log size read from the superblock, so with mkfs's 30-block log an operation that uses all of its MAXOPBLOCKS reservation can panic; one block less is safe (`LogRuns.NoPanic`, `LogRuns.PanicReachable`).
- `kernel/fs.c:522-525` leaves bytes of a failed user copy in the buffer without logging it; `Fs.Fs.Writei` says exactly which bytes, and `Boot.FailedCopy` is such a write.
- `mkfs/mkfs.c:164-168` can leave the root directory with a hole, exactly when its size was a multiple of the block size (`Mkfs.Mkfs.FixRoot`, `Mkfs.Build`); 62 files do it (`Mkfs.RootHole`). `readi` then gives the hole a block outside any transaction (`Fs.Fs.Readi`), and a lookup that gets there on a full disk panics (`Fs.Fs.Dirlookup`).
- `kernel/virtio_disk.c:218` multiplies in 32 bits, so from block 2^31 on it names another block's sectors (`Virtio.SectorOf`).
- Untouched buffers all claim device 0, block 0 (`kernel/bio.c:46`), so identities are unique only beside it; contents are coherent for every block all the same (`Bio.SharedIdentity`, `Bio.CurrentContents`).
- `user/umalloc.c:54` passes a size that truncates from 2^27 units on (`Umalloc.SbrkArgument`).
- A writer killed in the middle of a call does not wake readers (`kernel/pipe.c:84-87`), and a failed copyout loses a byte (`kernel/pipe.c:123-125`): `Pipe.Pipe.Write` has the exact condition on the call's inputs, `Pipe.KilledWriter` a run; `Pipe.Pipe.Read`.
- `kernel/proc.c:775` hands out INT_MAX as an accumulator (`Sched.WokenAtMax`). Accumulators stay at most 19 unless a sleeper is woken before the first policy 1 scan that finds a process: `Sched.Sched.WakeOne` has the exact condition for each process that wakeup visits, `Sched.Sched.Pass1` and the other methods that nothing else breaks the bound.
- `kill(0)` finds an unused slot (`kernel/proc.c:786-807`) and `allocproc` leaves its mark in place, so a later process can start out killed (`ProcTree.BornKilled`).
- The buffer cache stays coherent exactly as long as its clients write or pin what they change before they let go of it (`Bio.Cache.ReleaseSleep`, `Bio.Cache.Bunpin`).
- `kernel/proc.c:626` divides by zero for a slot without ticks. The C standard leaves this undefined; the model takes the RISC-V result, -1, and `Sched.FairestWaited` says exactly when policy 2 picks a process that has waited; `Sched.PassedOver` is a run in which it does not.
- grep stops reading at a line that fills its buffer, at a place that does not depend on how the input was split (`Grep.Grep`, `Grep.ReadsAll`, `Grep.LongLineLost`).

## Model

| member | source | states |
|---|---|---|
| `Disk.ApplyUntouched` | kernel/log.c:178-191 | a block that none of a list of writes names keeps its contents |
| `Disk.ApplyAfterPrefix` | kernel/log.c:68-83 | redoing a list of writes after any prefix of it has reached the disk gives the same disk as doing it once |
| `Recovery.RecoveryRestarts` | kernel/log.c:68-123 | a recovery stopped after any number of its writes leaves a disk from which recovery reaches the very same disk |
| `Recovery.RecoveryIdempotent` | kernel/log.c:68-123 | however many recoveries crash, and wherever, the one that completes leaves the same disk |
| `Recovery.RecoveredHomes` | kernel/log.c:68-123 | recovery clears the header, copies every logged block to its home and touches no other home block |
| `Recovery.BeforeCommitPoint` | kernel/log.c:178-203 | before the header write the log is clear on disk and no home block has changed |
| `Recovery.AfterCommitPoint` | kernel/log.c:178-203 | from the header write until the header is erased the disk's log holds the whole transaction |
| `Recovery.CommitDone` | kernel/log.c:193-203 | after the last write the transaction is home, nothing else changed, and the log is clear |
| `Recovery.RecoverClear` | kernel/log.c:116-123 | recovering a disk whose log is clear changes nothing |
| `Recovery.CrashAtomicity` | kernel/log.c:68-203 | crash after any of commit's writes, then in any number of recoveries: the completed recovery leaves all home blocks old or all new, no other home block touched, the header clear; new exactly from the header write on |
| `LogRuns.InvDiskOk` | kernel/log.c:116-203 | at every step of every run a crash leaves a disk that recovery can start from |
| `LogRuns.StepRefines` | kernel/log.c:126-235 | every step (begin, write, end, each disk write of commit and recovery, crash, boot) keeps the invariant and changes the abstract store as specified: only the header write makes anything durable, and then everything pending |
| `LogRuns.RunInv` | kernel/log.c:126-235 | the invariant holds in every state of every run: while operations run the log on disk is clear and the header names exactly the pinned blocks; with none outstanding nothing is pinned; a commit is between two such states |
| `LogRuns.RunDurable` | kernel/log.c:126-235 | in every run what is durable is exactly what was pending at the last commit point, whatever crashes and recoveries came between |
| `LogRuns.SpaceStep` | kernel/log.c:126-175 | a step keeps lh.n plus every outstanding operation's unspent share of MAXOPBLOCKS within LOGSIZE |
| `LogRuns.RunSpace` | kernel/log.c:126-175 | the log is never overcommitted in any state of any run |
| `LogRuns.NoPanic` | kernel/log.c:214-225 | with the 30-block log that mkfs makes, operations that add at most MAXOPBLOCKS-1 blocks never reach "too big a transaction", in any run |
| `LogRuns.PanicReachable` | kernel/log.c:214-225 | the bound is exact: operations allowed MAXOPBLOCKS blocks each have a run of that log that panics |
| `LogRuns.CommitPath` | kernel/log.c:193-203 | from any of commit's writes on, the writes left lead to a log that lets operations in again |
| `LogRuns.RecoverPath` | kernel/log.c:116-123 | from any of recovery's writes on, the writes left do the same |
| `LogRuns.RunOn` | kernel/log.c:126-235 | what a call of class Log leads to, put after a run, is a run: the theorems about runs are about calls |
| `Log.Log.WriteLog` | kernel/log.c:178-191 | the loop issues exactly the log-block writes of the commit, in order |
| `Log.Log.WriteHead` | kernel/log.c:102-114 | writes the header block that names the transaction |
| `Log.Log.InstallTrans` | kernel/log.c:68-83 | the loop copies each log block home, in order, and unpins it when not recovering |
| `Log.Log.ReadHead` | kernel/log.c:86-97 | loads lh.n and lh.block from the header block on disk |
| `Log.Log.RecoverFromLog` | kernel/log.c:116-123 | issues exactly the writes that the crash analysis of recovery is about, leaves the recovered disk, and is that many recovery steps of the run machine |
| `Log.Log.Commit` | kernel/log.c:193-203 | issues exactly the writes that CrashAtomicity is about; afterwards the transaction is home, the log clear, nothing pinned |
| `Log.Log.LogWrite` | kernel/log.c:214-235 | records the block once (absorption), pins it when new, panics when the log looks full; the header keeps naming exactly the pinned blocks; it is the update step of the run machine, panic included |
| `Log.Log.BeginOp` | kernel/log.c:126-142 | one look: admits an operation exactly when no commit runs and its reservation fits, which is the begin step of the run machine; otherwise it sleeps; nobody sleeps who would be admitted |
| `Log.Log.EndOp` | kernel/log.c:146-175 | the last operation out commits the group, the others only leave; it is the end step of the run machine, followed by the commit's writes; everyone asleep in begin_op is woken |
| `Log.EndPath` | kernel/log.c:146-203 | the last operation's end and the writes of its commit are steps of the run machine |
| `Bytes.SetBitBits` | kernel/fs.c:76-80 | setting a bit of a bitmap block sets that bit and no other |
| `Bytes.ClearBitBits` | kernel/fs.c:99-103 | clearing a bit of a bitmap block clears that bit and no other |
| `Bytes.PutWordWords` | kernel/fs.c:404-416 | storing a word of an indirect block changes that word and no other |
| `FsImage.MarkUsedEffect` | kernel/fs.c:65-88 | marking one block used keeps "bitmap = metadata + owned blocks" with that block added |
| `FsImage.MarkFreeEffect` | kernel/fs.c:91-105 | marking one block free keeps the law with that block taken away |
| `FsImage.PutData` | kernel/fs.c:506-528 | writing one mapped block of a file changes that block of that file and nothing else readable |
| `FsImage.AssignDirect` | kernel/fs.c:388-403 | a fresh block put in an empty addrs entry becomes owned by that entry; every other owner and content is kept |
| `FsImage.AssignVia` | kernel/fs.c:404-418 | the same for an empty word of the indirect block |
| `FsImage.DropEntry` | kernel/fs.c:431-448 | emptying an addrs entry takes exactly its block out of the ownership |
| `FsImage.ExtendsContent` | kernel/fs.c:382-421 | allocating blocks changes no file's contents |
| `FsSteps.GrowthMaps` | kernel/fs.c:382-421 | what an allocating bmap returns is mapped, zero if fresh, and everything mapped before stays |
| `FsSteps.AllDisowned` | kernel/fs.c:426-453 | after truncation the blocks disowned are exactly the ones the inode owned |
| `Fs.Fs.Balloc` | kernel/fs.c:65-88 | returns the lowest free block, zeroed and marked, or 0 exactly when the bitmap is full; nothing else changes, and both blocks that do are logged |
| `Fs.Fs.Bfree` | kernel/fs.c:91-105 | frees that block; the "freeing free block" panic is a precondition every caller discharges |
| `Fs.Fs.BmapDirect` | kernel/fs.c:388-396 | direct half of bmap: lookup or allocation, keeping the conservation law |
| `Fs.Fs.BmapIndirect` | kernel/fs.c:397-418 | indirect half of bmap, allocating the indirect block and the data block as needed |
| `Fs.Fs.Bmap` | kernel/fs.c:382-421 | block bn of the file is mapped to the result, 0 only when the disk is full; the bitmap law and all contents are kept; every block that changes is logged, and which ones is reported |
| `Fs.Fs.Iupdate` | kernel/fs.c:226-241 | the bytes of the inode in its inode block become the in-memory inode; every other inode reads from the blocks as before, no file and no free block changes, and the one block that does is logged |
| `FsImage.InodePlaced` | kernel/fs.c:228-238 | writing an inode to its slot of a block and reading it back gives the inode, and the block's other fifteen inodes read as before |
| `FsImage.InodeStored` | kernel/fs.h:41-45 | the block and slot of an inode are its own: on the whole disk only that inode reads differently |
| `FsImage.DinodeBytes` | kernel/fs.h:31-45 | in literal bytes: inode i is the 64 bytes at 1024 * inodestart + 64 * i, its size the uint at 8, its addrs the 13 uints from 12 on |
| `FsImage.SuperRead` | mkfs/mkfs.c:94-115 | the superblock bytes that mkfs writes read back as the superblock |
| `Fs.Fs.constructor` | kernel/fs.c:30-47 | mounting: superblock and inodes are what the blocks say |
| `Fs.Fs.Itrunc` | kernel/fs.c:426-453 | exactly the inode's own blocks become free, once each; no other file changes; the file is empty, on disk too; every block that changes, and the inode's, is logged, and all logged are inode, bitmap or data blocks |
| `Fs.Fs.Readi` | kernel/fs.c:472-496 | returns the bytes a reader sees from off, 0 in holes, as far as the destination can be written; stops short only if a hole needs a block and the disk is full; changes no file, and nothing at all if there are no holes |
| `FsSteps.ShownContent` | kernel/fs.c:472-496 | what a reader sees of a file without holes is its contents |
| `FsSteps.ZeroGrowthMore` | kernel/fs.c:472-496 | the blocks that reading gives to holes are zero, so what a reader sees stays the same |
| `Fs.Fs.WritePiece` | kernel/fs.c:516-528 | one turn of writei's loop, including the copy that fails and is not logged |
| `Fs.Fs.Writei` | kernel/fs.c:506-539 | for any file, holes included: what a reader sees becomes the old with the copied bytes spliced in at off (size grown as reported), other files unchanged, bitmap law kept, no new holes; bytes that could be read are missing only if the disk is full and their block was not mapped; the inode on disk is the one in memory and no other changed; every block that changes, every block of a reported byte and the inode's block are logged, but for the block in which a copy failed; how many, counted for every offset |
| `Fs.Fs.WriteChunk` | kernel/file.c:156-175 | one chunk of filewrite in a transaction of its own, which holds what it changed and stays within its bound |
| `Fs.Fs.Filewrite` | kernel/file.c:149-175 | a filewrite that returns n has the effect of one unchunked write, and its transactions, one for every 3 blocks' worth, hold every block that changed, every block of the bytes and the inode's block; none has more than 10 blocks (11 if a chunk starts inside a hole), or 7 with one bitmap block, and all are inode, bitmap or data blocks; if it fails, which bytes a reader sees, where the file offset is left, and that only the block of the failed copy is in no transaction |
| `Fs.Fs.FileTurn` | kernel/file.c:156-175 | one turn of filewrite's loop: a chunk more of the one big write, or the state in which the write gives up |
| `FileBytes.WriteStopped` | kernel/file.c:162-172 | a write that gives up after some chunks leaves the offset past the bytes reported: all that were copied if the disk is full, otherwise up to the block in which the copy failed, but not before the failing chunk |
| `FileBytes.WrittenPiece` | kernel/fs.c:516-528 | storing the next piece lengthens the written part by that piece and disturbs no other byte |
| `FileBytes.WrittenSize` | kernel/fs.c:530-535 | setting the size makes the bytes written so far what a reader sees, and makes no hole in a file that had none |
| `FileBytes.SpliceTwice` | kernel/file.c:156-175 | two writes, the second starting where the first ended, are one write |
| `FileBytes.NextChunk` | kernel/file.c:156-175 | one more chunk of a chunked write keeps it equal to a single write |
| `FileBytes.AccountTotal` | kernel/file.c:149-175 | the blocks logged by one chunk: data blocks, bitmap blocks, indirect block, inode block, counted for every offset and bitmap placement |
| `FileBytes.ChunkFits` | kernel/file.c:149-175 | a chunk of at most 3*BSIZE bytes touches few enough blocks that the total is at most MAXOPBLOCKS unless it starts in a hole, and at most 7 with a single bitmap block |
| `FileBytes.RecordedTurn` | kernel/fs.c:516-528 | one turn of writei keeps: what changed is logged or the block of a failed copy, and the blocks of the bytes so far are logged |
| `FileBytes.RecordedTwice` | kernel/file.c:156-175 | what two writes in a row record is the union of what they record |
| `FsSteps.GrowthShown` | kernel/fs.c:382-421 | a block that bmap gives to a hole shows what the hole showed |
| `FsSteps.VisibleContent` | kernel/fs.c:472-496 | a reader sees the contents of a file without holes |
| `FileBytes.ReportedAt` | kernel/fs.c:516-539 | what writei reports when only some bytes can be read: those below the block in which the copy failed |
| `Boot.WriteFits` | kernel/file.c:149-175 | on an image with mkfs's layout: filewrite's effect, the transactions that hold every block it changed, none of more than 7 blocks, each block below the disk's size and outside the log, and that operations which log no more than any of them never meet "too big a transaction" in any run on mkfs's log |
| `Boot.HomesLoggable` | kernel/log.c:207-235 | on every layout the kernel accepts, what writei, itrunc, dirlink and filewrite give to log_write is on the disk and outside the log |
| `Boot.DataLoggable` | kernel/log.c:207-235 | the same for what bmap, readi and dirlookup give it |
| `Boot.FindFile` | kernel/fs.c:552-575 | the image of any list of files, mounted: looking a file up in the root finds the inode mkfs gave it and its bytes, unless an earlier entry has the same first 14 bytes |
| `Boot.FailedCopy` | kernel/fs.c:521-525 | a write that reports 0 bytes, has changed the file, and leaves the changed block out of the log |
| `Dirs.Strncmp` | kernel/string.c:60-68 | 0 exactly of arrays that hold the same string, cut at the NUL or at n |
| `Dirs.DirentRead` | kernel/fs.h:53-59 | an entry as mkfs and dirlink write it is read as its number, low byte first, and its name cut to 14 bytes |
| `Fs.Fs.Dirlookup` | kernel/fs.c:552-575 | the first entry in use with that name and its number; none exactly when there is none; the panic only where an entry is cut off or lies in a hole of a full disk |
| `Fs.Fs.Dirlink` | kernel/fs.c:580-606 | the entry goes to the first free place or the end, if no entry has the name; otherwise the directory reads as before, and why |
| `Dirs.LinkFound` | kernel/fs.c:580-606 | after the entry is in place it is the first with its name, and every other name is where it was |
| `FsSteps.LinkedLookup` | kernel/fs.c:552-606 | dirlink, then dirlookup: the name is found where it was put, with its number |
| `FsSteps.OtherLookup` | kernel/fs.c:552-606 | and a lookup of any other name answers as before |
| `Mkfs.LayoutOk` | mkfs/mkfs.c:23-115 | main's layout in numbers: boot block, superblock, 30 log blocks from 2, inodes from 32, the bitmap at 45, data from 46; it satisfies what the kernel's accesses rely on, has a single bitmap block, and is what the kernel reads from the superblock's bytes |
| `Mkfs.Mkfs.constructor` | mkfs/mkfs.c:108-115 | the image starts with the superblock in sector 1, every other sector zero and so every inode empty on disk, no block handed out |
| `Mkfs.Mkfs.Winode` | mkfs/mkfs.c:184-195 | the inode's bytes in its block say what it is; no file changes, and no other inode |
| `Mkfs.Mkfs.MapBlock` | mkfs/mkfs.c:265-283 | finds or takes the sector for a file block, keeping "blocks handed out = blocks owned"; exactly the missing blocks are taken |
| `Mkfs.Mkfs.Iappend` | mkfs/mkfs.c:253-294 | the bytes go to the end of the file, followed by zeros; other files and the blocks they map stay; exactly the blocks the longer file needs are handed out; every inode on disk stays what it is in memory |
| `Mkfs.BlocksTurn` | mkfs/mkfs.c:265-291 | the blocks of a file grow by one at each block boundary, and by one more at the first indirect block |
| `Mkfs.Mkfs.Ialloc` | mkfs/mkfs.c:221-232 | the next inode in order, empty |
| `Mkfs.Mkfs.AppendFile` | mkfs/mkfs.c:157-158 | a file read a buffer at a time ends up with exactly its bytes, in exactly the blocks they need |
| `Mkfs.Mkfs.AddFile` | mkfs/mkfs.c:150-160 | one more file: its entry in the root directory, its bytes, and the earlier files as they were |
| `Mkfs.OtherTight` | mkfs/mkfs.c:253-294 | while one file grows another shows the same bytes, and maps no block it does not need |
| `Mkfs.Build` | mkfs/mkfs.c:69-173 | main, for every list of files that fits: the blocks mount as exactly this image, the bitmap agrees with the inodes, every file holds its bytes, the root directory lists them in order with zeros after its last entry, and has a hole exactly when its entries fill their blocks |
| `Mkfs.RootEntry` | mkfs/mkfs.c:117-155 | entry k of the root as a lookup reads it: itself twice, then file j with number j + 2 and its name cut to 14 bytes |
| `Mkfs.RootHole` | mkfs/mkfs.c:164-168 | with 62 files the root directory is left with a hole |
| `Mkfs.Mkfs.FixRoot` | mkfs/mkfs.c:164-168 | rounding up the root directory's size leaves it hole-free exactly when its size was not a multiple of the block size |
| `Mkfs.Mkfs.Balloc` | mkfs/mkfs.c:235-248 | after the bitmap is written the image obeys the kernel's conservation law |
| `PageTable.PteRoundTrip` | kernel/riscv.h:341-352 | PTE2PA undoes PA2PTE, PTE_FLAGS gives the flags back, and the validity and leaf tests see only the flags |
| `PageTable.IndicesInjective` | kernel/riscv.h:354-363 | the three 9-bit indices of a page below MAXVA determine it |
| `PageTable.EntryPath` | kernel/vm.c:85-103 | the tables on the way to an entry, and the entry that a walk reaches |
| `PageTable.HangTable` | kernel/vm.c:93-99 | hanging a zeroed table from an empty directory entry translates no address differently |
| `PageTable.WriteEntry` | kernel/vm.c:143-165 | writing one lowest-level entry changes the translation of exactly that page of that table |
| `PageTable.WritePage` | kernel/vm.c:85-103 | writing a page that is not a table changes no translation |
| `Vm.Vm.constructor` | kernel/kalloc.c:26-31 | memory before kinit: nothing free, nothing in use |
| `Vm.Vm.Freerange` | kernel/kalloc.c:33-40 | exactly the whole pages of the range become free |
| `Vm.Vm.Kfree` | kernel/kalloc.c:46-63 | the page heads the free list, which still lists every free page once; no translation changes |
| `Vm.Vm.Kalloc` | kernel/kalloc.c:68-82 | takes the head of the free list, or fails exactly when it is empty |
| `Vm.Vm.Walk` | kernel/vm.c:86-103 | finds the table page of an entry, making tables if asked; changes no translation in any page table, and only fresh tables of this root are used up |
| `Vm.Vm.Mappages` | kernel/vm.c:143-165 | changes the translation of exactly the pages of the range, to consecutive physical pages with the flags; on failure a prefix is mapped and no page is free |
| `Vm.Vm.Uvmunmap` | kernel/vm.c:171-192 | clears exactly the pages of the range and, if asked, frees each page they owned once |
| `Vm.Vm.Uvmcreate` | kernel/vm.c:197-205 | a fresh root that translates nothing |
| `Vm.Vm.AddPage` | kernel/vm.c:226-249 | one page's worth of uvmalloc and uvmcopy: a fresh page owned at that address, or at most fresh tables |
| `Vm.Vm.Uvmalloc` | kernel/vm.c:226-249 | on success fresh zeroed owned pages with the right flags; on failure every translation is as before and only tables of the root are used up |
| `Vm.Vm.Uvmdealloc` | kernel/vm.c:256-267 | unmaps and frees exactly the whole pages above the new size |
| `Vm.Vm.Uvmcopy` | kernel/vm.c:306-333 | on success the child has its own copy of each page with the same flags; on failure the child translates as before and only its tables are used up |
| `Vm.RolledBack` | kernel/vm.c:225-267 | growing and then unmapping what was grown restores every translation |
| `PageTree.TableTree` | kernel/vm.c:272-287 | the tables of a root that translates nothing form a tree of disjoint subtrees, and are exactly its pages |
| `Vm.Vm.Freewalk` | kernel/vm.c:272-287 | frees exactly the pages of a leafless tree, each once; the leaf panic is unreachable; other page tables translate as before |
| `Vm.Vm.Uvmfree` | kernel/vm.c:292-297 | frees every page of the page table, translated pages and tables alike, once each, and nothing else |
| `UserCopy.WalkAddr` | kernel/vm.c:108-126 | the page of a user address, 0 exactly when it is above MAXVA, unmapped or not the user's |
| `UserCopy.BytesPut` | kernel/vm.c:364 | memmove into a page changes those bytes and no others |
| `UserCopy.Copyout` | kernel/vm.c:351-371 | copies across page boundaries up to the first page that is refused, and fails exactly if there is one; no other byte of the address space, no other page and no translation changes |
| `UserCopy.Copyin` | kernel/vm.c:376-396 | gets the user's bytes up to the first page that is refused, and fails exactly if there is one |
| `UserCopy.Copyinstr` | kernel/vm.c:402-439 | gets the user's bytes up to a NUL, the limit or a refused page, and succeeds exactly if a NUL comes first |
| `UserCopy.LaidBytes` | kernel/vm.c:351-396 | after copyout the range reads as what was copied, and every other range as before |
| `UserCopy.OtherSpace` | kernel/vm.c:351-371 | other address spaces see nothing of a copyout |
| `UserCopy.RoundTrip` | kernel/vm.c:351-396 | copyin gets back what copyout put there, for every range that can be reached |
| `Sv39.Translation` | kernel/riscv.h:338-357 | the hardware's walk, given in numbers, finds the entry that the kernel keeps for the page and goes to its page if the entry allows the access |
| `Sv39.EntryBits` | kernel/riscv.h:341-352 | the kernel's tests for valid, leaf and user entries, and the page an entry names, are the hardware's |
| `Sv39.AddedMemory` | kernel/vm.c:226-256 | memory that uvmalloc added: user code can load every byte, and store and fetch as the permissions say |
| `UserCopy.GrownUser` | kernel/vm.c:226-249 | what uvmalloc and uvmcopy add is the user's own, so the copies stay within their address space |
| `UserCopy.GrownZero` | kernel/vm.c:226-249 | memory that uvmalloc added can be copied to and from, and reads as zero |
| `UserCopy.ForkedByte` | kernel/vm.c:306-333 | after uvmcopy the child reads at every address what the parent read, and may use the same addresses |
| `BufferRing.PushRing` | kernel/bio.c:45-52 | linking a buffer in after the head keeps the list a circular one with that buffer first |
| `BufferRing.UnlinkRing` | kernel/bio.c:128-129 | unlinking a buffer keeps the list a circular one without it |
| `Bio.Cache.constructor` | kernel/bio.c:37-53 | binit links all buffers into a ring; all are blank |
| `Bio.Cache.Find` | kernel/bio.c:65-74 | the first buffer in list order for the block, or none |
| `Bio.Cache.FindUnused` | kernel/bio.c:78-87 | the unused buffer whose last release is longest ago, or none |
| `Bio.Cache.Bget` | kernel/bio.c:59-89 | a cached block keeps its buffer; otherwise the least recently released unused buffer is taken over; fails exactly when all are in use; the contents seen by clients do not change |
| `Bio.Cache.Acquire` | kernel/bio.c:70-71 | one look at the sleep-lock of a buffer its ticket still identifies: taken if free, otherwise nothing changes |
| `Bio.Cache.Load` | kernel/bio.c:93-103 | bread's caller has the block's current contents |
| `Bio.Cache.Modify` | kernel/bio.c:91-103 | the one step that changes what clients see, and only in its block |
| `Bio.Cache.Bwrite` | kernel/bio.c:107-112 | brings the disk up to date with the buffer; clients see no change |
| `Bio.Cache.ReleaseSleep` | kernel/bio.c:117-122 | first half of brelse; the cache stays coherent exactly when the client has written or pinned its change |
| `Bio.Cache.Put` | kernel/bio.c:124-136 | second half of brelse: the count drops, and a buffer nobody uses becomes the most recently used |
| `Bio.Cache.Bpin` | kernel/bio.c:140-144 | one more reference, held by the log |
| `Bio.Cache.Bunpin` | kernel/bio.c:147-151 | one reference fewer; the cache stays coherent exactly when the block is written, still held, or pinned once more |
| `Bio.SharedIdentity` | kernel/bio.c:37-89 | in every state buffers that share an identity are for device 0, block 0, and all but one have never been used |
| `Bio.CurrentContents` | kernel/bio.c:59-137 | in every state whoever has a block from bread has its current contents, alone; a claimed buffer keeps its identity; an unused buffer agrees with the disk |
| `Umalloc.SbrkArgument` | user/umalloc.c:46-54 | the sbrk argument is the size meant exactly for fewer than 2^27 units; the largest request asks for 16 bytes |
| `Umalloc.UnitsHold` | user/umalloc.c:69 | the units of a request are the fewest that hold it and a header |
| `FreeRing.Apart` | user/umalloc.c:24-90 | distinct blocks, free or live, do not overlap |
| `FreeRing.Stops` | user/umalloc.c:30-32 | free's search stops exactly at the place where the block belongs |
| `FreeRing.Merge` | user/umalloc.c:33-40 | two free blocks that touch become one, and the partition of the heap is kept |
| `Umalloc.Heap.Search` | user/umalloc.c:29-32 | the search terminates at the block's predecessor in address order |
| `Umalloc.Heap.JoinNext` | user/umalloc.c:33-37 | the block is merged with its successor if they touch |
| `Umalloc.Heap.JoinPrev` | user/umalloc.c:38-42 | the block is merged with its predecessor if they touch; the list is fully coalesced again; sizes do not wrap |
| `Umalloc.Heap.Free` | user/umalloc.c:25-44 | the block is live no more, its bytes stay in the heap, the list stays circular, address-ordered and fully coalesced |
| `Umalloc.Heap.Morecore` | user/umalloc.c:46-61 | the new memory joins the free list; afterwards a block is large enough |
| `Umalloc.Heap.Scan` | user/umalloc.c:74-88 | one turn around the list finds the first large enough block after freep, if there is one |
| `Umalloc.Heap.Take` | user/umalloc.c:75-84 | a whole block or the tail of one becomes live, and freep its predecessor; the partition is kept |
| `Umalloc.Heap.Malloc` | user/umalloc.c:64-90 | a fresh block of the right size, or failure exactly when nothing fits and sbrk fails; sbrk is called at most once, only if nothing fits |
| `Pipe.Compare` | kernel/pipe.c:88 | the full and empty tests on 32-bit counters say what the true counts would |
| `Pipe.Put` | kernel/pipe.c:95 | a byte stored extends what is in the ring at its end |
| `Pipe.Get` | kernel/pipe.c:123 | the byte taken is the oldest unread one |
| `Pipe.DeliveredPrefix` | kernel/pipe.c:120-126 | the bytes delivered are a prefix of those accepted while all copies succeed, and fewer than were consumed once one fails |
| `Pipe.Pipe.constructor` | kernel/pipe.c:33-36 | a new pipe is empty with both ends open |
| `Pipe.Pipe.Write` | kernel/pipe.c:77-103 | bytes enter in order up to the first that cannot be copied, none if the read end is closed; sleeping only when full and open; sleepers keep their reason to sleep except exactly when readers sleep on an open pipe and kill comes after at least one byte and before the writer is done, stuck or full |
| `Pipe.Pipe.CopyOut` | kernel/pipe.c:120-126 | hands over the oldest unread bytes in order; a failed copy uses up one more |
| `Pipe.Pipe.Read` | kernel/pipe.c:106-130 | sleeps only when empty and open; what it returns extends the delivered stream; who sleeps has reason to |
| `Pipe.Pipe.Close` | kernel/pipe.c:59-74 | closes an end and wakes the other; the pipe goes exactly when both are closed, with nobody asleep on it |
| `Pipe.Pipe.Kill` | kernel/pipe.c:84-87 | waking a killed sleeper keeps everybody else's reason to sleep |
| `Pipe.KilledWriter` | kernel/pipe.c:84-87 | a run that leaves a reader asleep beside an unread byte |
| `SleepWakeup.StepInv` | kernel/proc.c:711-781 | each lock operation of sleep and wakeup keeps: a sleeper without reason is still owed a wakeup that has not passed it |
| `SleepWakeup.NoLostWakeup` | kernel/proc.c:711-781 | in every run, whenever the condition lock is free, whoever sleeps or is past the point of no return has reason to |
| `SleepWakeup.CallPath` | kernel/proc.c:711-781 | a whole call that changes the reasons to sleep, wakes one channel and returns or sleeps is a path of lock operations, if no reason lapses on another channel and it sleeps only with reason |
| `SleepWakeup.WakePath` | kernel/proc.c:763-781 | wakeup, one process at a time, wakes exactly those asleep on the channel |
| `PipeSleep.RestfulInv` | kernel/pipe.c:77-130 | a pipe on which everyone asleep has reason to be is exactly one that meets the invariant of sleep and wakeup |
| `PipeSleep.Read` | kernel/pipe.c:106-130 | piperead is a path of lock operations of sleep and wakeup |
| `PipeSleep.Write` | kernel/pipe.c:77-103 | so is pipewrite, exactly when it is not killed after adding bytes beside sleeping readers |
| `PipeSleep.Close` | kernel/pipe.c:59-74 | so is pipeclose |
| `PipeSleep.KillSleeper` | kernel/proc.c:786-807 | and kill of a process asleep on the pipe |
| `VirtioRing.TwoInFlight` | kernel/virtio_disk.c:199-213 | at most two requests are in flight |
| `VirtioRing.ThreeChains` | kernel/virtio_disk.c:199-213 | three chains of disjoint descriptors do not fit |
| `VirtioRing.EnoughFree` | kernel/virtio_disk.c:155-166 | with at most one request in flight at least five descriptors are free |
| `VirtioRing.RingPush` | kernel/virtio_disk.c:271-277 | adding a ring entry overwrites no entry still unread, across 16-bit wraparound |
| `VirtioRing.RingPop` | kernel/virtio_disk.c:312-323 | the next ring entry read is the oldest unread one |
| `VirtioRing.Compare16` | kernel/virtio_disk.c:312 | the 16-bit comparison of ring indices says whether entries are unread |
| `Virtio.Disk.constructor` | kernel/virtio_disk.c:144-146 | all descriptors start free |
| `Virtio.Disk.AllocDesc` | kernel/virtio_disk.c:156-166 | the first free descriptor, or none exactly when none is free |
| `Virtio.Disk.FreeDesc` | kernel/virtio_disk.c:169-182 | the descriptor becomes free; both panics are preconditions every caller discharges |
| `Virtio.Disk.Alloc3` | kernel/virtio_disk.c:201-213 | three free descriptors, or the same ones free as before |
| `Virtio.Disk.Format` | kernel/virtio_disk.c:235-269 | the three descriptors, the header and the info entry describe the request |
| `VirtioRing.ServedAsMade` | kernel/virtio_disk.c:238-265 | a device that follows the descriptors, reads and writes only the memory it is allowed to, and takes type and sector from the header reads exactly that block into exactly that buffer, or writes it |
| `VirtioRing.OneBlock` | kernel/virtio_disk.c:216-218 | writing a block to the medium changes that block and no other |
| `Virtio.SectorOf` | kernel/virtio_disk.c:218 | the sector is that of the block exactly for block numbers below 2^31 |
| `Virtio.Disk.Publish` | kernel/virtio_disk.c:238-281 | the request is queued with a chain disjoint from all others and from the free set |
| `Virtio.Published` | kernel/virtio_disk.c:238-281 | a request formatted in three free descriptors and put in the avail ring keeps the protocol invariant |
| `Virtio.Disk.Submit` | kernel/virtio_disk.c:216-285 | published exactly when at most one other request is in flight; otherwise nothing changes |
| `Virtio.Disk.Fill` | kernel/bio.c:101-121 | the contents of a buffer in no request may change |
| `Virtio.Disk.DeviceFetch` | kernel/virtio_disk.c:271-281 | the device finds the oldest unread request as it was made |
| `Virtio.Disk.DeviceComplete` | kernel/virtio_disk.c:309-314 | the device may complete any fetched request, in any order, by following its chain: a read leaves the block in the buffer and the medium as it was, a write the buffer's submitted contents in the block and memory as it was, and no other buffer or block changes; no unread used entry is overwritten |
| `VirtioRing.MovesServed` | kernel/virtio_disk.c:235-314 | the medium stays what the completed writes, in order, made of it, and every read got what they had left there |
| `Virtio.Disk.IntrOne` | kernel/virtio_disk.c:312-324 | a used entry clears exactly its own request's buffer; the status panic is unreachable |
| `Virtio.Disk.Intr` | kernel/virtio_disk.c:295-327 | every completed request is cleared and no other |
| `Virtio.Disk.FreeChain` | kernel/virtio_disk.c:186-197 | frees the three descriptors of the chain, none twice |
| `Virtio.Disk.Finish` | kernel/virtio_disk.c:284-291 | the request took effect at one moment between submission and now: a read has in its buffer what the block held then, a write put there what the buffer held when it was submitted; its descriptors are free, and the free_desc panics are unreachable |
| `ProcTree.Table.constructor` | kernel/proc.c:271-293 | the table after userinit: one process, init |
| `ProcTree.Table.AllocProc` | kernel/proc.c:134-190 | the lowest unused slot with a fresh pid and the killed mark it had, or nothing changed |
| `ProcTree.Table.FreeProc` | kernel/proc.c:194-211 | the slot is cleared: unused, without pid, parent, status or killed mark |
| `ProcTree.Table.ForkFail` | kernel/proc.c:333-338 | the child's slot is unused again |
| `ProcTree.Table.ForkLink` | kernel/proc.c:359-361 | the child gets its parent; the tree stays in order |
| `ProcTree.Table.ForkReady` | kernel/proc.c:363-367 | the child may run; its pid is returned |
| `ProcTree.Table.Reparent` | kernel/proc.c:372-384 | exactly p's children are init's, and init is woken if there are any |
| `ProcTree.Table.Exit` | kernel/proc.c:412-433 | the exit is recorded under its pid, children go to init, the parent is awake; nobody has a zombie parent |
| `ProcTree.Table.Wait` | kernel/proc.c:448-506 | collects a zombie child if there is one, with its own pid and status, which no wait returned before; sleeps only without one and unkilled |
| `ProcTree.Table.Kill` | kernel/proc.c:786-807 | marks the lowest slot with that pid and wakes it if asleep, or fails exactly when there is none; the tree stays in order |
| `ProcTree.BornKilled` | kernel/proc.c:134-190 | kill(0) marks an unused slot, and the next process there starts out killed |
| `ProcTree.Reapable` | kernel/proc.c:320-507 | in every state no parent is gone or a zombie, and a zombie's parent is alive and not asleep in wait |
| `ProcTree.Exited` | kernel/proc.c:389-433 | exit keeps the tree, the accounts of exits and the sleepers in order |
| `Sched.Sched.constructor` | kernel/proc.c:72-90 | procinit's counters are in range |
| `Sched.Sched.SetPolicy` | kernel/sysproc.c:46-53 | only policies 0 to 2 are accepted |
| `Sched.Sched.SetPsPriority` | kernel/sysproc.c:59-71 | only priorities 1 to 10 are accepted |
| `Sched.Sched.SetCfsPriority` | kernel/sysproc.c:24-34 | only priorities 0 to 2 are accepted |
| `Sched.Sched.Tick` | kernel/trap.c:80-88 | a tick adds the priority to an accumulator below 10; all counters stay in range, and at most 19 if they were |
| `Sched.Sched.CfsUpdate` | kernel/proc.c:739-760 | undisturbed, each process is charged one tick for the state it is in |
| `Sched.Sched.ChargeOne` | kernel/proc.c:743-758 | one turn of cfs_update: the process is charged one tick for the state it is in |
| `Sched.Sched.WakeOne` | kernel/proc.c:767-779 | one turn of wakeup, at whatever moment: accumulators at most 19 stay so exactly when the least one is, or the process is not woken |
| `Sched.Sched.Wakeup` | kernel/proc.c:763-781 | undisturbed, who slept on the channel is runnable with the current least accumulator; accumulators at most 19 stay so exactly when that least one is, or nobody is woken |
| `Sched.Sched.ScanOne` | kernel/proc.c:574-587 | one turn of the policy 1 loop, at whatever moment; accumulators and the least one stay at most 19 once they are |
| `Sched.Sched.Pass1` | kernel/proc.c:570-587 | an undisturbed pass picks the lowest-index least accumulator among RUNNABLE and RUNNING, and counts them; if it finds one and accumulators are at most 19, so is the least from then on |
| `Sched.Sched.Choose1` | kernel/proc.c:589-604 | alone, the chosen process starts from 0 again; a runnable one runs |
| `Sched.Sched.Pass2` | kernel/proc.c:607-633 | an undisturbed pass picks the lowest-index RUNNABLE process with the least vruntime, which is: without ticks the highest cfs_priority number first; else, if some have waited, the first that has; else the lowest cfs_priority number first |
| `Sched.FairestPicked` | kernel/proc.c:607-633 | least vruntime says exactly that, with no reference to decay factors |
| `Sched.FairestWaited` | kernel/proc.c:607-633 | that process has stime+retime > 0, and is the lowest-index such, exactly when there is one and no RUNNABLE process is without ticks |
| `Sched.PassedOver` | kernel/proc.c:607-633 | a run in which policy 2 passes over a process that has waited |
| `Sched.VruntimeValues` | kernel/proc.c:614-626 | the three values a vruntime can have |
| `Sched.WokenAtMax` | kernel/proc.c:13 | a run in which an accumulator is INT_MAX: a sleeper woken before the first policy 1 scan |
| `Dispatch.StepInv` | kernel/proc.c:521-686 | each lock operation of scheduler, sched, yield and the rest keeps c->proc and process states in step |
| `Dispatch.RunningOnOneCpu` | kernel/proc.c:521-686 | in every run a process whose lock is free is RUNNING exactly when it is current on one CPU, and none is ever current on two |
| `Dispatch.TimeSlice` | kernel/proc.c:555-569 | an idle CPU can run any runnable process whose lock is free; when that yields, sleeps or exits, only its state has changed |
| `Dispatch.Changed` | kernel/proc.c:766-807 | other code can make a sleeping process runnable and reap a zombie |
| `ShellLex.GetToken` | user/sh.c:274-317 | the loop form of gettoken returns the token, its bounds and the new cursor |
| `ShellLex.Peek` | user/sh.c:319-329 | moves the cursor past blanks and tests the next byte |
| `ShellBlanks.Spelled` | user/sh.c:271-272 | which characters are blanks, symbols and parts of words, spelled out |
| `ShellBlanks.OneWord` | user/sh.c:301-306 | a longest run of characters that are neither one of the five blanks nor one of the seven symbols is one word token |
| `ShellBlanks.LegalWords` | user/sh.c:271-272 | the words of the round trip are the non-empty strings without these characters |
| `ShellBlanks.TokensBefore` | user/sh.c:274-317 | a blank put between two tokens moves the tokens behind it by one place and changes nothing else |
| `ShellBlanks.LineAlike` | user/sh.c:336-455 | what the grammar makes of a line it makes of every line with the same tokens |
| `ShellBlanks.BlankMeansNothing` | user/sh.c:336-351 | a blank, tab, return, newline or vertical tab put where no token is leaves the line refused or accepted as before, with the same tree |
| `ShellBlanks.TrailingBlank` | user/sh.c:336-351 | and so does one after the line |
| `Shell.ParseRedirs` | user/sh.c:383-406 | the loop wraps the command in each redirection, or reports a missing file |
| `Shell.ParseExec` | user/sh.c:424-455 | arguments and redirections in any order, at most 9 arguments |
| `Shell.ParseBlock` | user/sh.c:408-422 | the method form equals its functional specification, BlockOf |
| `Shell.ParsePipe` | user/sh.c:370-381 | the method form equals its functional specification, PipeOf |
| `Shell.ParseLine` | user/sh.c:353-368 | the method form equals its functional specification, LineOf |
| `ShellText.Bracketed` | user/sh.c:408-422 | a bracketed line is the command inside, with the redirections that follow |
| `ShellText.PipePair` | user/sh.c:370-381 | pipelines nest to the right |
| `ShellText.LinePair` | user/sh.c:353-368 | lists nest to the right |
| `ShellText.LineBack` | user/sh.c:353-368 | a background mark wraps the pipeline before it |
| `ShellGrammar.Accepted` | user/sh.c:336-455 | the parser accepts exactly the lines whose tokens the grammar derives, and returns the tree the grammar gives them |
| `ShellGrammar.LineSound` | user/sh.c:353-368 | what parseline returns is derived by the grammar from the tokens it has consumed |
| `ShellGrammar.LineComplete` | user/sh.c:353-368 | whatever the grammar derives before a closing bracket or the end is what parseline returns |
| `ShellGrammar.RestComplete` | user/sh.c:424-455 | words and redirections in any order, fewer than 10 words, before a symbol that ends a command, are what parseexec reads |
| `ShellGrammar.BuildWrap` | user/sh.c:424-455 | words among redirections come to the words in order, under the redirections in order |
| `ShellGrammar.OneTree` | user/sh.c:336-455 | no line has two trees |
| `ShellGrammar.Precedence` | user/sh.c:353-455 | redirections bind closer than pipes, pipes closer than background marks, these closer than lists |
| `Shell.ParseCmd` | user/sh.c:336-351 | parsing terminates on every line and leaves nothing over, or reports a syntax error |
| `ShellText.RoundTrip` | user/sh.c:336-455 | every tree of legal words with at most 9 arguments per command is what parsing its bracketed text returns |
| `ShellText.PrintedParses` | user/sh.c:336-455 | the same for the text inside any line, before a closing bracket or the end |
| `ShellText.LineWords` | user/sh.c:274-455 | every word of a parsed command is a maximal run of word characters of the line |
| `ShellText.NulTerminate` | user/sh.c:458-502 | a NUL goes where each word ends and nowhere else |
| `ShellText.CutWords` | user/sh.c:458-502 | afterwards each word, read as a C string, is exactly its token |
| `ShellText.ParseCommand` | user/sh.c:336-351 | parsecmd on a buffer: the parse, and every word cut to its token |
| `Regex.Concatenation` | user/grep.c:83-105 | the language of a pattern is the concatenation of its elements' languages |
| `Regex.MatchHere` | user/grep.c:83-95 | true exactly when a prefix of the text (all of it under an end anchor) is in the pattern's language |
| `Regex.MatchStar` | user/grep.c:97-105 | the scan finds a number of repetitions after which the rest matches, if there is one |
| `Regex.Match` | user/grep.c:71-81 | true exactly when a substring (a prefix under ^, a suffix under an end anchor) is in the language |
| `Grep.Lines` | user/grep.c:20-28 | prints the matching lines of the buffer and finds the unfinished one |
| `Grep.Append` | user/grep.c:16-33 | what more input adds to the output depends on the earlier input only through the unfinished line |
| `Grep.Grep` | user/grep.c:10-34 | the output is the matching lines up to where reading stops, for every way that read splits the input |
| `Grep.ReadsAll` | user/grep.c:16-17 | all input is read exactly when no line of 1023 bytes or more has input after its first 1023 bytes |
| `Grep.LongLineLost` | user/grep.c:16-17 | an input of which grep prints nothing although every line matches |

## Left out

- Path lookup and unlink, the kernel's inode allocation and reference counts, file descriptors.
- Fs.Fs.Iupdate: an inode's type, device numbers and link count, which no modelled operation changes, stay in the block as they are.
- Fs.Fs.Dirlookup: that the inode is a directory, which the source checks with a panic, is not modelled, nor is the reference that iget takes.
- Fs.Fs.constructor: every inode is in memory from the start, where the source reads it at its first ilock; the panic for a wrong magic number is the precondition.
- Fs.Fs.Filewrite: its chunks run without other writers of the same inode in between; the source releases the inode lock between chunks.
- Mkfs.Mkfs.Winode: the type and link count that mkfs gives an inode are not modelled.
- Mkfs.Mkfs.MapBlock: running past FSSIZE, which the source does not test for and which would put blocks beyond the end of the file system, is excluded by the precondition; the blocks needed are counted exactly.
- Mkfs.Mkfs.Iappend: the same precondition, and that the file stays within MAXFILE blocks, which the source asserts.
- Mkfs.Mkfs.AppendFile: the same.
- Mkfs.Mkfs.AddFile: the same, and that there is an inode left, which the source does not test for.
- Mkfs.Build: lists of files that do not fit the disk or the inode table are excluded in the same way; it takes the names as main shortens them, and the files as read in full buffers; reading of host files is not modelled.
- The log model reads and pins blocks as the buffer cache provides them; `Bio` shows separately that the cache provides a plain block store.
- Log.Log.BeginOp: one look at the condition, with the decision to sleep; the loop that looks again is the caller's.
- UserCopy.Copyout: that every page the user may use is the page table's own, as uvmalloc and uvmcopy make it, is a precondition; so it is for `UserCopy.Copyin` and `UserCopy.Copyinstr`.
- The kernel's own page table, uvmclear and user page faults.
- Vm.Vm.Kfree: the test that the page lies in RAM is a precondition.
- Bio.Cache.Acquire: one look at the lock; the loop that looks again when woken is the caller's, and a disk transfer is one atomic step.
- Vm.Vm.Uvmunmap: takes page numbers, so its panic for an address inside a page does not arise; unmapped pages, its other panic, are excluded by the precondition.
- Umalloc.Heap.Morecore: fewer than 2^27 units, which is exactly when the argument of sbrk is the size meant (`Umalloc.SbrkArgument`).
- Umalloc.Heap.Malloc: the same bound on the request; sbrk's result is a parameter, and memory ends at the RAM's size, so sums of sizes do not wrap.
- Virtio.Disk.Submit: that no other request is under way for the buffer, which its caller's sleep-lock ensures, is a precondition, and so is that the device has the sector; for one it has not the device reports an error, which is the source's panic.
- Virtio.Disk.DeviceComplete: the device completes with status 0; an error status is the source's panic and is not modelled. Memory fences and interrupt acknowledgement are not modelled.
- ProcTree.Table.FreeProc: only the fields of the process tree; the trapframe and the page table are not modelled.
- ProcTree.Table.Kill: of the sleeps that kill ends only that in wait is modelled here; `PipeSleep.KillSleeper` has that on a pipe.
- ProcTree.Table.AllocProc: pids are unbounded integers; overflow of nextpid is not modelled.
- Sched.Sched.CfsUpdate: tick counters are unbounded integers; overflow of int is not modelled.
- Spinlocks, interrupt enabling, context switches and the C memory model: mutual exclusion is assumed of the locks.
- exec, the console, the trap entry code, the test programs and the other user programs.
- Running a parsed shell command; the prompt and cd handling.
