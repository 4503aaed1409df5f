# A verified model of xv6

A Dafny model of the parts of the two xv6 kernels in this repository that are hard to get right, with proofs of what they are
for. `dafny verify dfyconfig.toml` checks all of it. Paths below are relative to the repository.

| component | files | what is proved |
|---|---|---|
| redo log | `Log.dfy`, `LogAdmission.dfy` | a commit is atomic across any crashes, also inside recovery; runs refine an all-or-nothing specification; every operation on the log is a step of the admission protocol, which keeps it from overflowing and makes nobody wait without need |
| files | `FsBlocks.dfy`, `FsFiles.dfy`, `FileSystem.dfy`, `FileWrite.dfy`, `FsRecovery.dfy` | block ownership, in the buffers and on the disk; files are flat byte sequences; how far a write comes and what a commit makes permanent of it; chunked writes stay within their log budget; a crash in any chunk leaves a whole number of chunks |
| buffer cache | `BufferCache.dfy` | the list of buffers is a permutation, blocks are cached once, logged blocks stay, so blocks that are logged or written after each change always read as last written; exactly when a commit finds buffers |
| heap | `Heap.dfy` | free and live blocks tile the memory obtained, the free list is circular and ordered, malloc terminates |
| memory | `PageTable.dfy`, `UserCopy.dfy` | the page table is a partial map; failing operations give back what they took; copying between kernel and user |
| mapped files | `SharedPages.dfy`, `Vma.dfy` | reference counts are numbers of mappings; exactly when all mappings share one page; areas stay disjoint; exactly when they do not |
| processes | `SleepLock.dfy`, `ExitWait.dfy` | no lost wakeup, mutual exclusion between calls, and what every return of fork, wait and exit means, over every interleaving |
| disk driver | `Virtio.dfy` | the descriptor protocol over every interleaving with the device |
| programs | `Shell.dfy`, `ShellGrammar.dfy`, `Grep.dfy` | the shell's parser accepts exactly the language of its grammar and gives each line its one meaning; parsing undoes printing; the matcher decides the language of its pattern |
| network | `Net.dfy` | checksum, frames, bounded queues |

`Params.dfy` and `Sequences.dfy` hold constants and facts that several components share.

Code that changes things in place is modelled by classes whose methods reassign fields; protocols between processes, or between
the driver and its device, by state machines with one step for each stretch of code under a lock. What lies outside a component
appears as a parameter or an open choice: what `sbrk` and `kalloc` answer, how far a user buffer can be read before it faults,
what the device does next, which process runs.

Where the code does something other than what it is evidently meant to do, the model follows the code. Such places have a run
or a lemma with a concrete case, and a theorem with the exact condition under which the intended property holds:

- `log_write` panics on an absorbed write when the log is exactly full (`LogAdmission.PanicsWhen`, `LogAdmission.AbsorptionCanPanic`).
- A commit reads the log's copies into the same cache that the logged blocks fill (`BufferCache.Cache.Commit`, `BufferCache.FullLog`).
- `writei` leaves bytes in a buffer when the source faults, without counting or logging them (`FileSystem.FaultShows`). They
  last as long as the buffer (`FileWrite.FaultRun`, `BufferCache.SavedReadsNewest`, `BufferCache.LostWrite`), unless the open
  transaction lists the block already: then the next commit makes them permanent (`FileSystem.CommitShows`,
  `FileWrite.CommittedFault`).
- `malloc` passes a 64-bit number of bytes to `sbrk`, which takes 32 bits (`Heap.Allocator.Malloc`, `Heap.HugeRequest`).
- `lazy_mmap` drops the lock of the registry while it reads the file, and maps its own page even when another process has
  entered one since (`SharedPages.SharedUnlessOvertaken`, `SharedPages.TwoFaults`).
- `sys_send` checks a signed sum (`Net.CopyStaysInside`, `Net.LengthMinusOne`).
- `munmap` also unmaps the page behind the range (`Vma.MunmapExact`, `Vma.MunmapTakesNeighbour`).
- `mmap` and `munmap` accept negative lengths (`Vma.MmapDiscipline`, `Vma.NegativeMmapBreaks`, `Vma.MunmapDiscipline`,
  `Vma.NegativeUnmapBreaks`).
- `mmap` checks its offset argument and then ignores it (`Vma.MmapShowsFrom`, `Vma.OffsetIgnored`).

## Model

| member | source | states |
|---|---|---|
| `Log.PutHead` | labs/week7/EE23B102/xv6-riscv/kernel/log.c:104-115 | a header block into which a list has been stored reads back as that list |
| `Log.Installed` | labs/week7/EE23B102/xv6-riscv/kernel/log.c:67-84 | installing never writes inside the log region |
| `Log.Logged` | labs/week7/EE23B102/xv6-riscv/kernel/log.c:180-192 | copying to the log changes only the log blocks used and gives each the cached contents |
| `Log.CommitTraceAt` | labs/week7/EE23B102/xv6-riscv/kernel/log.c:195-204 | the disks a crash during a commit can expose are, write by write, those of `CommitDisk` |
| `Log.RecoveryTraceAt` | labs/week7/EE23B102/xv6-riscv/kernel/log.c:118-124 | the same for recovery and `RecoveryDisk` |
| `Log.InstalledAt` | labs/week7/EE23B102/xv6-riscv/kernel/log.c:67-84 | after installing, every listed block has the log copy at its last position and no other block has changed |
| `Log.InstalledAgain` | labs/week7/EE23B102/xv6-riscv/kernel/log.c:67-84 | an installation cut off anywhere and started again ends where an undisturbed one ends |
| `Log.RecoveryRestarts` | labs/week7/EE23B102/xv6-riscv/kernel/log.c:118-124 | a crash after any number of writes of recovery leaves a disk that recovers to the same disk |
| `Log.RecoveryIdempotent` | labs/week7/EE23B102/xv6-riscv/kernel/log.c:118-124 | recovering a recovered disk changes nothing |
| `Log.RecoverySurvivesCrashes` | labs/week7/EE23B102/xv6-riscv/kernel/log.c:118-124 | any number of interrupted recoveries followed by one that finishes equals one undisturbed recovery |
| `Log.SealedRecovers` | labs/week7/EE23B102/xv6-riscv/kernel/log.c:195-204 | once the header write is done, recovery gives every home block exactly the contents of the transaction |
| `Log.CommitStopsEarly` | labs/week7/EE23B102/xv6-riscv/kernel/log.c:195-204 | a commit stopped before its header write recovers to the state before it |
| `Log.CommitStopsLate` | labs/week7/EE23B102/xv6-riscv/kernel/log.c:195-204 | a commit stopped anywhere after it recovers to the whole transaction |
| `Log.CommitIsAtomic` | labs/week7/EE23B102/xv6-riscv/kernel/log.c:66-204 | crash atomicity: for every crash point of a commit and any crashes inside recovery, the home blocks are all as before or all as in the transaction, and which of the two depends only on whether the header write was reached |
| `Log.CommitCompletes` | labs/week7/EE23B102/xv6-riscv/kernel/log.c:195-204 | an undisturbed commit leaves the transaction applied and the header empty |
| `Log.CommitViews` | labs/week7/EE23B102/xv6-riscv/kernel/log.c:195-204 | when exactly the logged blocks are pinned, readers see the same home blocks before and after the commit |
| `Log.RoundRefinesSpec` | labs/week7/EE23B102/xv6-riscv/kernel/log.c:195-204 | one transaction, finished or crashed and recovered, is one step of the all-or-nothing specification |
| `Log.RunRefinesSpec` | labs/week7/EE23B102/xv6-riscv/kernel/log.c:66-204 | over every run of finished and crashed transactions the home blocks are those of the specification |
| `Log.FileLog.LogWrite` | labs/week7/EE23B102/xv6-riscv/kernel/log.c:216-236 | a step of the admission protocol: a modified block enters the header once, absorbed if it is there already; the panic, on which nothing changes, and which an operation within its budget meets only when the block is absorbed by an exactly full log |
| `Log.FileLog.BeginOp` | labs/week7/EE23B102/xv6-riscv/kernel/log.c:128-143 | enters exactly when the log does not commit and has room for one more whole operation, and otherwise sleeps; either way a step of the admission protocol |
| `Log.FileLog.Record` | labs/week7/EE23B102/xv6-riscv/kernel/log.c:223-234 | the block is listed once and readers see its new contents |
| `Log.FileLog.EndOp` | labs/week7/EE23B102/xv6-riscv/kernel/log.c:148-165 | never panics; the last operation starts the commit and the others wake the sleepers, as in the admission protocol |
| `Log.FileLog.CommitOp` | labs/week7/EE23B102/xv6-riscv/kernel/log.c:167-176 | the commit to its end is the one step CommitDone of the admission protocol; readers see the same home blocks before and after; exposes exactly the disks of `CommitDisk` |
| `Log.FileLog.WriteLog` | labs/week7/EE23B102/xv6-riscv/kernel/log.c:180-192 | exposes exactly the disks of the logging phase |
| `Log.FileLog.WriteHead` | labs/week7/EE23B102/xv6-riscv/kernel/log.c:104-115 | one atomic write that stores the in-memory list |
| `Log.FileLog.ReadHead` | labs/week7/EE23B102/xv6-riscv/kernel/log.c:88-98 | loads the list of the header block |
| `Log.FileLog.InstallTrans` | labs/week7/EE23B102/xv6-riscv/kernel/log.c:67-84 | exposes exactly the disks of the installing phase; outside recovery every listed block is unpinned |
| `Log.FileLog.Commit` | labs/week7/EE23B102/xv6-riscv/kernel/log.c:195-204 | exposes exactly the disks of `CommitDisk`; readers see the same home blocks before and after, and nothing stays pinned |
| `Log.FileLog.RecoverFromLog` | labs/week7/EE23B102/xv6-riscv/kernel/log.c:118-124 | exposes exactly the disks of `RecoveryDisk` and ends in the recovered disk |
| `LogAdmission.BeginKeepsInv` | labs/week7/EE23B102/xv6-riscv/kernel/log.c:128-143 | an admitted operation keeps the reservation: logged blocks plus what open operations may still append fit the log |
| `LogAdmission.LogWriteKeepsInv` | labs/week7/EE23B102/xv6-riscv/kernel/log.c:216-236 | appending a block within the budget, or absorbing any block, keeps the reservation |
| `LogAdmission.EndKeepsInv` | labs/week7/EE23B102/xv6-riscv/kernel/log.c:148-176 | ending an operation, with or without a commit, keeps the reservation |
| `LogAdmission.RunInv` | labs/week7/EE23B102/xv6-riscv/kernel/log.c:128-236 | the reservation holds in every state of every run of begin_op, log_write, end_op and commit |
| `LogAdmission.PanicsWhen` | labs/week7/EE23B102/xv6-riscv/kernel/log.c:151-236 | wherever the reservation holds, log_write panics exactly when an absorbed write meets an exactly full log, and end_op never |
| `LogAdmission.AppendsFit` | labs/week7/EE23B102/xv6-riscv/kernel/log.c:216-236 | in every reachable state an operation that has added fewer than MAXOPBLOCKS blocks finds room for a new one, and log_write panics exactly when an absorbed write meets an exactly full log |
| `LogAdmission.CommitSeesFrozenLog` | labs/week7/EE23B102/xv6-riscv/kernel/log.c:148-204 | from the start of a commit to its end the logged set does not change |
| `LogAdmission.NoLostWakeup` | labs/week7/EE23B102/xv6-riscv/kernel/log.c:128-176 | nobody sleeps in begin_op in a state that would admit an operation |
| `LogAdmission.OverbookedOverflows` | labs/week7/EE23B102/xv6-riscv/kernel/log.c:128-143 | with more claimed than the log holds, open operations within their budgets can fill it up and meet the panic |
| `LogAdmission.RefusalNeeded` | labs/week7/EE23B102/xv6-riscv/kernel/log.c:128-143 | whenever begin_op makes an operation wait while nothing commits, there is a run to a state with the same counters in which letting one more in can overflow the log within the budgets |
| `LogAdmission.AbsorptionCanPanic` | labs/week7/EE23B102/xv6-riscv/kernel/log.c:221-221 | a reachable state in which three operations within their budgets have filled the log and a repeated write panics |
| `FsBlocks.WordAfterSet` | labs/week7/EE23B102/xv6-riscv/kernel/fs.c:424-440 | a word stored in an indirect block is read back and its neighbours keep their values |
| `FsBlocks.WordBytes` | labs/week7/EE23B102/xv6-riscv/kernel/fs.c:430-435 | the bytes of a word stand in the block from the lowest to the highest |
| `FsFiles.OwnedExactlyOnce` | labs/week7/EE23B102/xv6-riscv/kernel/fs.c:66-106 | every block referenced from any inode is marked used and referenced from one place only, and every used data block is referenced |
| `FsFiles.FileByteAt` | labs/week7/EE23B102/xv6-riscv/kernel/fs.c:406-444 | byte k of a file is byte k % 1024 of its block k / 1024: where the inode says for the first 12, and where the indirect block says for the others |
| `FsFiles.AttachAddr` | labs/week7/EE23B102/xv6-riscv/kernel/fs.c:406-423 | hanging a fresh zeroed block on a direct address or as indirect block keeps ownership and every file |
| `FsFiles.AttachEntry` | labs/week7/EE23B102/xv6-riscv/kernel/fs.c:424-440 | the same for an entry of the indirect block |
| `FsFiles.DetachIndirect` | labs/week7/EE23B102/xv6-riscv/kernel/fs.c:461-472 | freeing the indirect block and all its entries keeps ownership for the rest |
| `FsFiles.PatchWrites` | labs/week7/EE23B102/xv6-riscv/kernel/fs.c:529-562 | writing into the block that holds an offset writes the file there, and extends it when the write passes its end |
| `FsFiles.PatchAllOthers` | labs/week7/EE23B102/xv6-riscv/kernel/fs.c:529-562 | writing into a data block changes no other file |
| `FsFiles.SpliceTwice` | labs/week7/EE23B102/xv6-riscv/kernel/fs.c:529-562 | writing two adjoining pieces is writing once |
| `FileSystem.Disk.Balloc` | labs/week7/EE23B102/xv6-riscv/kernel/fs.c:67-89 | takes the first free block, zeroed: every block below it is in use; exactly its bit changes; 0 exactly when none is free, and then nothing changes |
| `FileSystem.Disk.Bfree` | labs/week7/EE23B102/xv6-riscv/kernel/fs.c:93-106 | marks one used block free and changes no other bit; the block being free already is the panic and is ruled out by ownership |
| `FileSystem.Disk.Bmap` | labs/week7/EE23B102/xv6-riscv/kernel/fs.c:406-444 | the block of a file position, allocated if need be: the address in the inode for one of the first 12, and otherwise the word of the indirect block; existing references and all contents stay; 0 only when the disk is full |
| `FileSystem.Disk.Iupdate` | labs/week7/EE23B102/xv6-riscv/kernel/fs.c:227-242 | the disk copy becomes the in-core inode |
| `FileSystem.Disk.Readi` | labs/week7/EE23B102/xv6-riscv/kernel/fs.c:495-519 | returns exactly the requested slice of what the file reads as, cut at its end; nothing changes |
| `FileSystem.CountedHere` | labs/week7/EE23B102/xv6-riscv/kernel/fs.c:538-551 | the bytes counted so far never exceed those of the blocks that come in whole, and are exactly those when the next block faults |
| `FileSystem.FaultShows` | labs/week7/EE23B102/xv6-riscv/kernel/fs.c:540-551 | for every file, offset, source and place of the fault: the file has just the counted bytes written over it exactly when the bytes left behind lie past its end or were there before |
| `FileSystem.Disk.WritePiece` | labs/week7/EE23B102/xv6-riscv/kernel/fs.c:538-551 | one turn of the loop: what is in the buffers, what a commit would make permanent, and why it stops |
| `FileSystem.Disk.Writei` | labs/week7/EE23B102/xv6-riscv/kernel/fs.c:529-562 | the place of the fault determines the number r of bytes counted, unless the file grows and the disk fills up first; what the file reads as; what a commit makes permanent of it, if all buffers were on the disk or listed before: what it reads as if the block of the fault was listed already, and otherwise the old file with just the counted bytes spliced in; its size is max(old, off + r), type and link count stay, other files are untouched, in the buffers and for a commit, and only bitmap, inode, indirect and range blocks are listed |
| `FileSystem.CommitShows` | labs/week7/EE23B102/xv6-riscv/kernel/fs.c:540-551 | a commit makes just the counted bytes permanent exactly when the block of the fault was not listed before or the uncounted bytes do not show |
| `FileSystem.FaultStillKept` | labs/week7/EE23B102/xv6-riscv/kernel/fs.c:538-551 | no whole piece before the fault lists the block of the fault |
| `FileSystem.SteadyLogs` | labs/week7/EE23B102/xv6-riscv/kernel/fs.c:406-444 | allocation lists every block that it changes, so if all buffers were on the disk or listed they still are |
| `FileSystem.LoggedGood` | labs/week7/EE23B102/xv6-riscv/kernel/log.c:195-204 | what a commit leaves on the disk is a file system of its own: every block has one owner and every file has its blocks |
| `FileSystem.Disk.NextOp` | labs/week7/EE23B102/xv6-riscv/kernel/log.c:128-143 | what the transaction lists stays listed when another operation begins |
| `FileSystem.Disk.Commit` | labs/week7/EE23B102/xv6-riscv/kernel/log.c:195-204 | exactly the listed blocks go to the disk, as their buffers are then; the disk holds a file system of its own again, in which every file has the contents that were logged |
| `FileSystem.Disk.Crash` | labs/week7/EE23B102/xv6-riscv/kernel/log.c:54-63 | the buffers are lost and the invariant holds again: every file has the contents it had on the disk |
| `FileSystem.Disk.Recycle` | labs/week7/EE23B102/xv6-riscv/kernel/bio.c:76-87 | when the cache gives away the buffer of a block that is not listed, the block reads as on the disk again, and what a commit makes of every file stays |
| `FileSystem.Disk.RecycleAll` | labs/week7/EE23B102/xv6-riscv/kernel/bio.c:76-87 | once all such buffers are gone, every file reads as a commit would leave it |
| `FileSystem.Disk.Itrunc` | labs/week7/EE23B102/xv6-riscv/kernel/fs.c:449-476 | exactly the blocks the inode owned become free, no other file is touched, type and link count stay, and "freeing free block" is never reached |
| `FileWrite.ChunkBudget` | labs/week7/EE23B102/xv6-riscv/kernel/file.c:153-158 | on a disk with one bitmap block a chunk logs at most seven blocks |
| `FileWrite.ChunkSize` | labs/week7/EE23B102/xv6-riscv/kernel/file.c:153-153 | the size of a chunk and of the largest file |
| `FileWrite.ChunkCases` | labs/week7/EE23B102/xv6-riscv/kernel/file.c:155-176 | which chunk is the last: the one that would pass the largest file, or the one in which the source faults |
| `FileWrite.SoFarStep` | labs/week7/EE23B102/xv6-riscv/kernel/file.c:155-176 | one more chunk keeps the relation between the old file, what is counted, what is copied and what a commit makes permanent |
| `FileWrite.FileWrite` | labs/week7/EE23B102/xv6-riscv/kernel/file.c:135-179 | for every signed n: the bytes counted are determined by the place of the fault and the largest file unless the disk fills up first; returns n exactly when all are written, which they are unless the source faults, the file would grow too large or the disk is full; a commit makes the file the old one with the counted bytes spliced in, unless the last chunk faults in a block that was listed before it, which needs another open operation; each chunk is an operation within its budget, and the offset advances by what was counted |
| `FileWrite.TotalCounts` | labs/week7/EE23B102/xv6-riscv/kernel/file.c:155-176 | without a fault and within the largest file all bytes are counted, and in any case all whole chunks before the fault |
| `FileWrite.NextChunk` | labs/week7/EE23B102/xv6-riscv/kernel/file.c:155-176 | one chunk; the case that its fault hits a block listed before is exactly told |
| `FileWrite.CrashedChunk` | labs/week7/EE23B102/xv6-riscv/kernel/log.c:195-204 | the machine stops in a chunk: after recovery the file has all that the chunk counts or nothing of it, by whether the header was written, and no other file has changed |
| `FileWrite.CrashedWrite` | labs/week7/EE23B102/xv6-riscv/kernel/file.c:135-179 | the machine stops in any chunk of a write, or after it: after recovery the file is the old one with exactly the bytes of a whole number of chunks, or all that the write counts, spliced in; no other file has changed, and the file system is sound |
| `FileWrite.FaultRun` | labs/week7/EE23B102/xv6-riscv/kernel/fs.c:540-551 | a write on a valid disk whose source faults: it returns 0, a reader sees the first byte, and once the buffer is recycled the file is as before |
| `FileWrite.CommittedFault` | labs/week7/EE23B102/xv6-riscv/kernel/fs.c:540-551 | two writes in one transaction, of which the second faults in the block that the first has listed: it returns 0, but the commit makes its first byte permanent |
| `FsRecovery.StoredOnce` | labs/week7/EE23B102/xv6-riscv/kernel/log.c:118-124 | for any one-to-one way to hold data, bits and inodes in blocks, a disk determines the file system on it |
| `FsRecovery.CommitStores` | labs/week7/EE23B102/xv6-riscv/kernel/log.c:195-204 | writing the listed buffers to a disk that holds a file system gives a disk that holds what the commit leaves |
| `FsRecovery.CommitRecovers` | labs/week7/EE23B102/xv6-riscv/kernel/log.c:66-204 | stop a commit of the file system after any number of its block writes and interrupt recovery any number of times: the disk holds the file system as before or as the whole commit leaves it, by whether the header was written |
| `BufferCache.OnList` | labs/week7/EE23B102/xv6-riscv/kernel/bio.c:36-53 | the list is a permutation: every buffer is on it |
| `BufferCache.Unlinked` | labs/week7/EE23B102/xv6-riscv/kernel/bio.c:125-137 | taking a node out of the circular doubly linked list |
| `BufferCache.PushedFront` | labs/week7/EE23B102/xv6-riscv/kernel/bio.c:45-51 | putting a node in front of it |
| `BufferCache.Recycled` | labs/week7/EE23B102/xv6-riscv/kernel/bio.c:76-87 | giving an unused buffer to another block: the old block reads as on the disk from now on, and every other block as before |
| `BufferCache.PinnedRecycled` | labs/week7/EE23B102/xv6-riscv/kernel/bio.c:76-87 | a logged block is never the one recycled |
| `BufferCache.ReadsNewest` | labs/week7/EE23B102/xv6-riscv/kernel/bio.c:59-137 | after any events that do not change the block again, a reader gets what was last written to it exactly when, whenever its buffer was given away, that was on the disk |
| `BufferCache.FreshStep` | labs/week7/EE23B102/xv6-riscv/kernel/bio.c:59-151 | every event keeps: a block that is not stray (changed since it was last logged or written) reads as last written, and is listed in the log or on the disk |
| `BufferCache.SavedReadsNewest` | labs/week7/EE23B102/xv6-riscv/kernel/bio.c:59-151 | in every run, a block that is logged or written to the disk between each change and the next recycling of its buffer reads as last written at all times |
| `BufferCache.RoomUnlessFull` | labs/week7/EE23B102/xv6-riscv/kernel/bio.c:76-89 | with no users, a free buffer exists exactly as long as fewer blocks are logged than there are buffers; when there is none, only logged blocks are cached |
| `BufferCache.Cache.constructor` | labs/week7/EE23B102/xv6-riscv/kernel/bio.c:37-53 | the list runs through all buffers and no buffer holds a block |
| `BufferCache.Cache.FindCached` | labs/week7/EE23B102/xv6-riscv/kernel/bio.c:66-73 | the buffer that holds the block, or none does |
| `BufferCache.Cache.FindUnused` | labs/week7/EE23B102/xv6-riscv/kernel/bio.c:78-79 | the last unused buffer of the list, none exactly when all are in use |
| `BufferCache.Cache.Bget` | labs/week7/EE23B102/xv6-riscv/kernel/bio.c:59-89 | the buffer of the block with one more user, or the least recently used unused one set up for it, whose own block then reads as on the disk; none exactly when the block is not cached and no buffer is free, where the source panics; no two buffers hold one block |
| `BufferCache.Cache.TakeOver` | labs/week7/EE23B102/xv6-riscv/kernel/bio.c:79-85 | recycling is one Recycles event, never of a logged block; blocks that are logged or on the disk read as before |
| `BufferCache.Cache.Bread` | labs/week7/EE23B102/xv6-riscv/kernel/bio.c:93-103 | returns what the block reads as, which is what was last written unless the block is stray; or panics like bget |
| `BufferCache.Cache.Write` | labs/week7/EE23B102/xv6-riscv/kernel/fs.c:545-545 | a user changes a buffer: one Changes event |
| `BufferCache.Cache.Bwrite` | labs/week7/EE23B102/xv6-riscv/kernel/bio.c:107-112 | the disk gets what the block reads as: one WritesHome event |
| `BufferCache.Cache.Brelse` | labs/week7/EE23B102/xv6-riscv/kernel/bio.c:117-137 | one user less, whatever the buffer holds; a buffer no longer in use moves to the front and the rest of the order stays |
| `BufferCache.Cache.Bpin` | labs/week7/EE23B102/xv6-riscv/kernel/bio.c:140-144 | one reference more |
| `BufferCache.Cache.Bunpin` | labs/week7/EE23B102/xv6-riscv/kernel/bio.c:147-151 | one reference less |
| `BufferCache.Cache.LogWrite` | labs/week7/EE23B102/xv6-riscv/kernel/log.c:223-234 | one Logs event: a block is listed and pinned once |
| `BufferCache.Cache.Unlog` | labs/week7/EE23B102/xv6-riscv/kernel/log.c:79-81 | one Unlogs event: a block that is home leaves the log and loses its pin |
| `BufferCache.Cache.ReadPair` | labs/week7/EE23B102/xv6-riscv/kernel/log.c:75-76 | the log copy is read before the logged block; fails exactly when the copy is not cached and no buffer is free |
| `BufferCache.Cache.CopyToLog` | labs/week7/EE23B102/xv6-riscv/kernel/log.c:184-190 | the copy gets the contents of the block, on the disk too; other safe blocks read as before, and no other block was written; when it panics |
| `BufferCache.Cache.CopyHome` | labs/week7/EE23B102/xv6-riscv/kernel/log.c:75-82 | the block gets the contents of its copy, on the disk too, and loses its pin; no other block was written; when it panics |
| `BufferCache.Cache.WriteLog` | labs/week7/EE23B102/xv6-riscv/kernel/log.c:180-192 | all logged blocks are copied exactly when a buffer is free or all copies are cached; nothing outside the log area was written |
| `BufferCache.Cache.WriteHead` | labs/week7/EE23B102/xv6-riscv/kernel/log.c:104-115 | the header is written exactly when it is cached or a buffer is free |
| `BufferCache.Cache.InstallTrans` | labs/week7/EE23B102/xv6-riscv/kernel/log.c:67-84 | with a buffer free or the copies cached, every logged block goes home and the log becomes empty; nothing else was written |
| `BufferCache.Cache.Commit` | labs/week7/EE23B102/xv6-riscv/kernel/log.c:195-204 | finds a buffer for each of its reads exactly when nothing is logged, a buffer is free, or the copies and the header are cached; with no users exactly when fewer blocks are logged than there are buffers; then every logged block is on the disk as it read before, that is its last written contents, it is not stray, and nothing else outside the log area was written |
| `BufferCache.FullLog` | labs/week7/EE23B102/xv6-riscv/kernel/log.c:180-204 | a run that logs as many blocks as the log can hold, with no users: the commit panics |
| `BufferCache.LostWrite` | labs/week7/EE23B102/xv6-riscv/kernel/bio.c:59-137 | a run that changes a block, releases it unlogged and reads other blocks: the block is stray, and the next reader gets the old contents |
| `Heap.StopsAtSlot` | labs/week7/EE23B102/xv6-riscv/user/umalloc.c:30-32 | the walk of free stops exactly at the node after which the block belongs |
| `Heap.JoinTiles` | labs/week7/EE23B102/xv6-riscv/user/umalloc.c:33-42 | joining touching blocks keeps the tiling |
| `Heap.CutTiles` | labs/week7/EE23B102/xv6-riscv/user/umalloc.c:74-80 | cutting a block in two keeps the tiling |
| `Heap.GrowTiles` | labs/week7/EE23B102/xv6-riscv/user/umalloc.c:47-61 | new memory extends the tiling by exactly its units |
| `Heap.SbrkAdds` | labs/week7/EE23B102/xv6-riscv/user/umalloc.c:54-54 | for every 32-bit request, the memory the kernel adds is what was asked for exactly when the bytes are below 2^31 |
| `Heap.GrownBacked` | labs/week7/EE23B102/xv6-riscv/user/umalloc.c:47-61 | all blocks lie in memory of the process exactly when the bytes asked for are below 2^31 |
| `Heap.Allocator.FindPred` | labs/week7/EE23B102/xv6-riscv/user/umalloc.c:30-32 | finds the place of a block in the circular address-ordered list |
| `Heap.Allocator.Free` | labs/week7/EE23B102/xv6-riscv/user/umalloc.c:25-44 | the block leaves the blocks in use; list order, tiling and absence of touching free blocks are kept; other users' memory is untouched |
| `Heap.Allocator.Morecore` | labs/week7/EE23B102/xv6-riscv/user/umalloc.c:47-61 | the new units become a free block; memory ends where sbrk of the wrapped 32-bit argument leaves it; the result is null exactly when sbrk fails |
| `Heap.Allocator.Malloc` | labs/week7/EE23B102/xv6-riscv/user/umalloc.c:64-90 | for every 32-bit request: terminates; returns 0 exactly when no free block is large enough and sbrk fails; otherwise one new block of the right size is in use, and all others keep their memory; all blocks are memory of the process exactly when a free block was large enough, sbrk failed, or the bytes asked for are below 2^31 |
| `Heap.HugeRequest` | labs/week7/EE23B102/xv6-riscv/user/umalloc.c:47-90 | a request for 2^32 - 1 bytes in a new process returns a block of 2^28 + 1 units after one unit has been obtained |
| `PageTable.PackRoundTrip` | labs/week7/EE23B102/xv6-riscv/kernel/riscv.h:358-371 | an aligned entry survives the trip through its 64-bit word |
| `PageTable.PackFields` | labs/week7/EE23B102/xv6-riscv/kernel/riscv.h:358-369 | where the valid bit, the permissions and the page number stand in the word |
| `PageTable.LookupWalks` | labs/week7/EE23B102/xv6-riscv/kernel/vm.c:100-117 | the map is what three steps down the tables find, with nine bits of the page number each, the highest first |
| `PageTable.WalkFinds` | labs/week7/EE23B102/xv6-riscv/kernel/vm.c:100-117 | a walk finds the one level-0 table of its page |
| `PageTable.OnePerPlace` | labs/week7/EE23B102/xv6-riscv/kernel/vm.c:100-117 | a place in a tree is held by one page only |
| `PageTable.HangLookup` | labs/week7/EE23B102/xv6-riscv/kernel/vm.c:105-115 | hanging an empty table into the tree changes no mapping |
| `PageTable.PutLookup` | labs/week7/EE23B102/xv6-riscv/kernel/vm.c:163-176 | writing a leaf entry changes the map at one page of one process only |
| `PageTable.AddedRangeUndone` | labs/week7/EE23B102/xv6-riscv/kernel/vm.c:219-260 | unmapping and freeing what has been added restores the map and gives every added page back |
| `PageTable.Vm.constructor` | labs/week7/EE23B102/xv6-riscv/kernel/kalloc.c:27-40 | every whole page of the range is on the free list once |
| `PageTable.Vm.Kalloc` | labs/week7/EE23B102/xv6-riscv/kernel/kalloc.c:69-82 | takes the first free page, 0 exactly when there is none |
| `PageTable.Vm.Kfree` | labs/week7/EE23B102/xv6-riscv/kernel/kalloc.c:47-63 | puts a page in use in front of the free list |
| `PageTable.Vm.Walk` | labs/week7/EE23B102/xv6-riscv/kernel/vm.c:100-117 | the level-0 table of a page; with alloc, missing tables are made and no mapping changes; without, nothing changes |
| `PageTable.Vm.Uvmcreate` | labs/week7/EE23B102/xv6-riscv/kernel/vm.c:181-189 | a new root that maps nothing; all other maps stay |
| `PageTable.Vm.Mappages` | labs/week7/EE23B102/xv6-riscv/kernel/vm.c:148-176 | on success exactly the range is added to the partial map; on failure, impossible with two free pages for each page of the range, a prefix of it |
| `PageTable.Vm.Uvmunmap` | labs/week7/EE23B102/xv6-riscv/kernel/vm.c:195-214 | exactly the range is removed from the map, and with free exactly its pages are given back |
| `PageTable.Vm.Uvmalloc` | labs/week7/EE23B102/xv6-riscv/kernel/vm.c:219-242 | on success exactly the pages between the sizes are mapped, each to a zeroed page of its own; on failure, impossible with three free pages for each new page, the map is restored and every leaf page taken is given back |
| `PageTable.Vm.Uvmdealloc` | labs/week7/EE23B102/xv6-riscv/kernel/vm.c:249-260 | exactly the pages between the sizes are unmapped and given back |
| `PageTable.Vm.Uvmcopy` | labs/week7/EE23B102/xv6-riscv/kernel/vm.c:299-338 | on success every mapped page of the source is mapped in the copy with its permissions and contents in a page of its own, and the source is untouched; on failure, impossible with three free pages for each page, the map is restored and every leaf page taken is given back |
| `PageTable.Vm.Freewalk` | labs/week7/EE23B102/xv6-riscv/kernel/vm.c:265-280 | frees exactly the tables at and below a place |
| `PageTable.Vm.Uvmfree` | labs/week7/EE23B102/xv6-riscv/kernel/vm.c:285-290 | every page of the process, interior and leaf, is given back exactly once, and no other process is touched |
| `UserCopy.FrameWritten` | labs/week7/EE23B102/xv6-riscv/kernel/vm.c:357-389 | copying into one frame shows on its page, and on no page that shares no frame with the range |
| `UserCopy.UserMemory.Walkaddr` | labs/week7/EE23B102/xv6-riscv/kernel/vm.c:123-140 | the frame of a page the user may access, or 0 |
| `UserCopy.UserMemory.Vmfault` | labs/week7/EE23B102/xv6-riscv/kernel/vm.c:467-490 | brings a missing page into being without a change to any byte the process sees; fails exactly when the page is not one it may have or memory is short |
| `UserCopy.UserMemory.CopyOut` | labs/week7/EE23B102/xv6-riscv/kernel/vm.c:357-389 | if no two pages of the range have the same frame, exactly the first `done` bytes of the range change, all of them on success, as seen on every page that shares no frame with the range; fails only at the start of a page that is out of reach |
| `UserCopy.UserMemory.CopyIn` | labs/week7/EE23B102/xv6-riscv/kernel/vm.c:395-417 | returns what the process sees at the range, and nothing it sees changes; fails only at a page that is out of reach |
| `UserCopy.UserMemory.RoundTrip` | labs/week7/EE23B102/xv6-riscv/kernel/vm.c:357-417 | bytes copied out come back in, over any range whose pages have different frames and with pages made on the way |
| `SleepLock.StepKeepsInv` | labs/week6/xv6-labs-2024/kernel/proc.c:548-592 | every step of acquiresleep, releasesleep, holdingsleep, sleep, wakeup and the scheduler keeps the invariant |
| `SleepLock.RunInv` | labs/week6/xv6-labs-2024/kernel/sleeplock.c:21-52 | the invariant holds in every state of every interleaving |
| `SleepLock.Granted` | labs/week6/xv6-labs-2024/kernel/sleeplock.c:21-31 | a lock is granted only when nobody has it |
| `SleepLock.Cleared` | labs/week6/xv6-labs-2024/kernel/sleeplock.c:33-41 | releasing starts a wakeup that will reach every sleeper |
| `SleepLock.LookEnds` | labs/week6/xv6-labs-2024/kernel/proc.c:579-592 | a process a wakeup has looked at is not asleep on the lock any more |
| `SleepLock.MutualExclusion` | labs/week6/xv6-labs-2024/kernel/sleeplock.c:21-41 | in every state of every run at most one process has a sleep lock, where having it means by the calls alone: acquiresleep has returned and releasesleep has not been called since; the lock is locked then |
| `SleepLock.HeldIsHad` | labs/week6/xv6-labs-2024/kernel/sleeplock.c:21-41 | whenever a process is outside these functions, the locks granted to it are exactly those it has by its calls, and each of them is locked and names it as owner |
| `SleepLock.RunCallsFit` | labs/week6/xv6-labs-2024/kernel/sleeplock.c:21-41 | the calls made so far fit the place of the process in the code, at every state of every run |
| `SleepLock.NoLostWakeup` | labs/week6/xv6-labs-2024/kernel/proc.c:548-592 | in every state of every run a process is asleep on a lock only while somebody has it or a wakeup has still to reach the sleeper |
| `SleepLock.HoldingAnswers` | labs/week6/xv6-labs-2024/kernel/sleeplock.c:43-52 | in every run holdingsleep answers whether the process has the lock by its calls |
| `ExitWait.Allocated` | labs/week6/xv6-labs-2024/kernel/proc.c:110-150 | a free slot is taken with a pid never used before |
| `ExitWait.Parented` | labs/week6/xv6-labs-2024/kernel/proc.c:280-326 | fork makes itself the parent under wait_lock |
| `ExitWait.GivenToInit` | labs/week6/xv6-labs-2024/kernel/proc.c:331-341 | giving a child to init, with the wakeup of init still to come |
| `ExitWait.Marked` | labs/week6/xv6-labs-2024/kernel/proc.c:369-386 | becoming a zombie when the parent is not asleep |
| `ExitWait.Dozed` | labs/week6/xv6-labs-2024/kernel/proc.c:426-433 | wait decides to sleep only when no child is a zombie |
| `ExitWait.Reaped` | labs/week6/xv6-labs-2024/kernel/proc.c:408-422 | wait empties the slot of a zombie child of its own whose thread is off its CPU |
| `ExitWait.StepKeepsInv` | labs/week6/xv6-labs-2024/kernel/proc.c:280-435 | every step of fork, exit, wait, sleep, wakeup and the scheduler keeps the invariant |
| `ExitWait.RunInv` | labs/week6/xv6-labs-2024/kernel/proc.c:280-435 | the invariant holds in every state of every interleaving |
| `ExitWait.NoMissedExit` | labs/week6/xv6-labs-2024/kernel/proc.c:330-435 | in every reachable state with wait_lock free, no parent asleep in wait has a zombie child, also one given to init |
| `ExitWait.WaitSleeps` | labs/week6/xv6-labs-2024/kernel/proc.c:391-435 | in every run, a scan that has come to its end has met no zombie child; wait then goes to sleep exactly when it is not killed and some slot has the caller as its parent, and gives up otherwise |
| `ExitWait.WaitReturns` | labs/week6/xv6-labs-2024/kernel/proc.c:391-435 | in every run, when a call of wait returns, it has found a zombie child, whose pid it returns and whose slot it frees unless the copy of the status fails, or there was none and the caller was killed or had no child; it has held wait_lock since it decided |
| `ExitWait.ForkReturns` | labs/week6/xv6-labs-2024/kernel/proc.c:280-326 | in every run, when a call of fork returns, it has made a slot runnable that it had set up with the caller as parent, or had no memory for a child and left its slot free again, or has seen every slot in use during the call |
| `ExitWait.ExitLeavesZombie` | labs/week6/xv6-labs-2024/kernel/proc.c:346-386 | in every run, when the thread of a process that has called exit is gone, it has left a zombie with its pid, and no slot has it as parent |
| `ExitWait.NoExitLost` | labs/week6/xv6-labs-2024/kernel/proc.c:346-435 | in every run the pid of everybody who has exited has been returned by wait or is that of a zombie |
| `ExitWait.ReturnedOnce` | labs/week6/xv6-labs-2024/kernel/proc.c:391-435 | in every run no pid is returned by wait twice, and every returned one is of a process that has exited |
| `ExitWait.FreedAfterExit` | labs/week6/xv6-labs-2024/kernel/proc.c:408-422 | in every run freeproc in wait is for a zombie child of the caller that has left its CPU for good |
| `ExitWait.NoOrphans` | labs/week6/xv6-labs-2024/kernel/proc.c:330-386 | in every reachable state every process but init has a parent that is neither gone nor a zombie |
| `Virtio.RingEmpty` | labs/week7/EE23B102/xv6-riscv/kernel/virtio_disk.c:307-308 | the 16-bit indices agree exactly when the ring is empty, also after wrapping |
| `Virtio.RingPush` | labs/week7/EE23B102/xv6-riscv/kernel/virtio_disk.c:267-273 | adding to a ring overwrites no entry still in it, also when the index wraps |
| `Virtio.ChainAdded` | labs/week7/EE23B102/xv6-riscv/kernel/virtio_disk.c:216-263 | three free descriptors become a chain; the partition is kept |
| `Virtio.ChainGone` | labs/week7/EE23B102/xv6-riscv/kernel/virtio_disk.c:186-197 | the descriptors of a chain become free; the partition is kept |
| `Virtio.NextKeeps` | labs/week7/EE23B102/xv6-riscv/kernel/virtio_disk.c:155-327 | every step of the driver and the device, completions with an error status included, keeps the invariant |
| `Virtio.RunOk` | labs/week7/EE23B102/xv6-riscv/kernel/virtio_disk.c:155-327 | over every interleaving, the free descriptors and the chains in flight partition the descriptors and the rings hold exactly what is due |
| `Virtio.ReturnsAfterCompletion` | labs/week7/EE23B102/xv6-riscv/kernel/virtio_disk.c:282-290 | in every run a request returns only after its own successful completion has been seen |
| `Virtio.Disk.AllocDesc` | labs/week7/EE23B102/xv6-riscv/kernel/virtio_disk.c:157-166 | takes the first free descriptor, -1 exactly when there is none |
| `Virtio.Disk.FreeDesc` | labs/week7/EE23B102/xv6-riscv/kernel/virtio_disk.c:170-182 | blanks one descriptor in use and marks it free |
| `Virtio.Disk.FreeChain` | labs/week7/EE23B102/xv6-riscv/kernel/virtio_disk.c:186-197 | terminates, freeing exactly the three descriptors of the chain |
| `Virtio.Disk.Alloc3Desc` | labs/week7/EE23B102/xv6-riscv/kernel/virtio_disk.c:202-213 | three different free descriptors, or, when there are fewer than three, no change |
| `Virtio.Disk.Submit` | labs/week7/EE23B102/xv6-riscv/kernel/virtio_disk.c:216-280 | a request becomes a chain in flight at the next avail slot, or nothing changes |
| `Virtio.Disk.DeviceTake` | labs/week7/EE23B102/xv6-riscv/kernel/virtio_disk.c:267-280 | the device finds the oldest request exactly when there is one |
| `Virtio.Disk.DeviceComplete` | labs/week7/EE23B102/xv6-riscv/kernel/virtio_disk.c:229-263 | following the descriptors, the device does what was asked for when the request was submitted, and writes the status, which may be an error, where the request keeps it |
| `Virtio.Disk.IntrOne` | labs/week7/EE23B102/xv6-riscv/kernel/virtio_disk.c:307-324 | panics exactly when the oldest completion has an error status; otherwise exactly its buffer is marked as done |
| `Virtio.Disk.Intr` | labs/week7/EE23B102/xv6-riscv/kernel/virtio_disk.c:295-327 | every completion has been seen, unless it panics, which is at a completion with an error status; only successful ones were marked as done |
| `Virtio.Disk.Finish` | labs/week7/EE23B102/xv6-riscv/kernel/virtio_disk.c:282-292 | returns exactly when the own request is done, and frees exactly its descriptors |
| `SharedPages.Recounted` | labs/week7/EE23B102/xv6-riscv/kernel/vm.c:590-600 | changing a count keeps the chains a map |
| `SharedPages.Inserted` | labs/week7/EE23B102/xv6-riscv/kernel/vm.c:601-608 | a new entry at the front of its chain keeps the chains a map |
| `SharedPages.Removed` | labs/week7/EE23B102/xv6-riscv/kernel/vm.c:616-627 | taking an entry out keeps the chains a map |
| `SharedPages.LastGone` | labs/week7/EE23B102/xv6-riscv/kernel/vm.c:620-624 | the last reference goes exactly with the last mapping |
| `SharedPages.Registry.Lookup` | labs/week7/EE23B102/xv6-riscv/kernel/vm.c:578-587 | finds the entry exactly when the key is in the map |
| `SharedPages.Registry.GetOrCreate` | labs/week7/EE23B102/xv6-riscv/kernel/vm.c:590-609 | one more reference to the entry there is, or a new entry, or no change for lack of memory |
| `SharedPages.Registry.Decref` | labs/week7/EE23B102/xv6-riscv/kernel/vm.c:612-630 | one reference less; the page is freed with the last one |
| `SharedPages.Registry.Fault` | labs/week7/EE23B102/xv6-riscv/kernel/vm.c:662-715 | a fault that no other overlaps: all mappings of a key share one page and are counted; a failing fault, for lack of memory only, changes nothing |
| `SharedPages.Registry.Unmap` | labs/week7/EE23B102/xv6-riscv/kernel/sysfile.c:628-639 | the page is freed exactly when the last place that maps its key goes |
| `SharedPages.AloneIsOneStep` | labs/week7/EE23B102/xv6-riscv/kernel/vm.c:662-715 | the two steps of a first fault with nothing between them are the one step of the class |
| `SharedPages.GoodStep` | labs/week7/EE23B102/xv6-riscv/kernel/vm.c:662-715 | with faults that overlap: every step keeps the counts equal to the numbers of mappings, and no page is free, lost or used twice |
| `SharedPages.SharedUnlessOvertaken` | labs/week7/EE23B102/xv6-riscv/kernel/vm.c:685-715 | in every run all mappings of a key always lead to one page exactly when no fault maps its own page after another has entered one for its key |
| `SharedPages.NeverFreed` | labs/week7/EE23B102/xv6-riscv/kernel/vm.c:612-630 | in every run a page lost by such a fault is never free again |
| `SharedPages.TwoFaults` | labs/week7/EE23B102/xv6-riscv/kernel/vm.c:685-715 | a run in which two processes fault on one page of a file: they get two pages, and one of them is never freed |
| `Vma.MmapDiscipline` | labs/week7/EE23B102/xv6-riscv/kernel/sysfile.c:536-562 | a new area keeps the discipline exactly when its length is positive |
| `Vma.MmapShowsFrom` | labs/week7/EE23B102/xv6-riscv/kernel/sysfile.c:512-561 | the new area shows the file from the offset asked for exactly when that is 0 |
| `Vma.NegativeMmapBreaks` | labs/week7/EE23B102/xv6-riscv/kernel/sysfile.c:528-562 | a run in which mmap accepts a negative length and the areas are no longer in order |
| `Vma.OffsetIgnored` | labs/week7/EE23B102/xv6-riscv/kernel/sysfile.c:524-561 | a run in which a file is mapped from its second page and shows its first |
| `Vma.TrimKeepsOffsets` | labs/week7/EE23B102/xv6-riscv/kernel/sysfile.c:641-652 | whatever is taken away, every remaining address shows the same place of the file |
| `Vma.MunmapDiscipline` | labs/week7/EE23B102/xv6-riscv/kernel/sysfile.c:577-652 | for every address and signed length: the areas stay in order exactly when a new start or end is a page boundary between MMAPBASE and cur, and a stretch that a negative length adds meets no other area |
| `Vma.AlignedTrimsWell` | labs/week7/EE23B102/xv6-riscv/kernel/sysfile.c:577-652 | which page-aligned requests of positive length always satisfy |
| `Vma.NegativeUnmapBreaks` | labs/week7/EE23B102/xv6-riscv/kernel/sysfile.c:577-652 | a run in which munmap of a negative length lays an area over another one |
| `Vma.VisitedOneMore` | labs/week7/EE23B102/xv6-riscv/kernel/sysfile.c:627-628 | a page-aligned munmap visits the pages asked for and the one behind them |
| `Vma.MunmapExact` | labs/week7/EE23B102/xv6-riscv/kernel/sysfile.c:627-639 | a page-aligned munmap takes away exactly what was asked for if and only if the page behind is not mapped |
| `Vma.MunmapTakesNeighbour` | labs/week7/EE23B102/xv6-riscv/kernel/sysfile.c:570-655 | a run with two adjoining areas in which unmapping the first takes a page of the second |
| `Vma.RunDisciplined` | labs/week7/EE23B102/xv6-riscv/kernel/sysfile.c:508-655 | a run of successful calls, with any arguments, keeps the areas page-aligned, disjoint and inside [MMAPBASE, cur), with cur below MMAPTOP, exactly when every mmap had positive length and every munmap trimmed well |
| `Vma.Process.Mmap` | labs/week7/EE23B102/xv6-riscv/kernel/sysfile.c:508-567 | when it fails, and otherwise the area of the rounded-up length in the first free slot at the end of the areas so far, with the permissions, flags and file asked for |
| `Vma.Process.UnmapPages` | labs/week7/EE23B102/xv6-riscv/kernel/sysfile.c:627-639 | panics exactly when a page is mapped in the range of an unaligned address or the walk leaves the address space; otherwise exactly the visited pages are unmapped |
| `Vma.Process.Munmap` | labs/week7/EE23B102/xv6-riscv/kernel/sysfile.c:570-655 | when it fails, when it panics, and otherwise exactly the visited pages are unmapped, and of the first covering area just the addresses asked for are gone if they touch an end of it, and none if they do not; a negative length adds addresses instead; what stays shows the same place of the same file |
| `Vma.TrimTakesAway` | labs/week7/EE23B102/xv6-riscv/kernel/sysfile.c:641-652 | trimming takes just the addresses asked for out of the area if they touch an end of it, and leaves it as it was if they do not; what stays shows the same place of the same file |
| `Shell.GetToken` | labs/week7/EE23B102/xv6-riscv/user/sh.c:272-314 | every token but the end consumes something, a word token is a word, and white space behind it is gone |
| `Shell.WrapJoins` | labs/week7/EE23B102/xv6-riscv/user/sh.c:381-403 | redirections that come later go around those before |
| `Shell.RedirsParse` | labs/week7/EE23B102/xv6-riscv/user/sh.c:381-403 | printed redirections are read back |
| `Shell.ArgsParse` | labs/week7/EE23B102/xv6-riscv/user/sh.c:432-448 | printed arguments and redirections are read back |
| `Shell.ItemParses` | labs/week7/EE23B102/xv6-riscv/user/sh.c:422-452 | a printed part of a command is read as one command |
| `Shell.OpParses` | labs/week7/EE23B102/xv6-riscv/user/sh.c:351-378 | a printed pipe, list or background command is read as a line |
| `Shell.RoundTrip` | labs/week7/EE23B102/xv6-riscv/user/sh.c:334-452 | printing any well-formed command tree and parsing the result gives the tree back |
| `Shell.LineWellFormed` | labs/week7/EE23B102/xv6-riscv/user/sh.c:351-365 | every parsed line is a well-formed tree |
| `Shell.Reparse` | labs/week7/EE23B102/xv6-riscv/user/sh.c:334-348 | for every line that parses, printing the command and parsing that gives the same command |
| `Shell.Parser.PeekAt` | labs/week7/EE23B102/xv6-riscv/user/sh.c:317-326 | moves over white space and tells whether one of the characters is next |
| `Shell.Parser.ReadToken` | labs/week7/EE23B102/xv6-riscv/user/sh.c:272-314 | reads the token that `GetToken` computes |
| `Shell.Parser.ParseRedirs` | labs/week7/EE23B102/xv6-riscv/user/sh.c:381-403 | terminates; outcome and cursor are those of `Redirs` |
| `Shell.Parser.ParseArgs` | labs/week7/EE23B102/xv6-riscv/user/sh.c:430-448 | terminates; outcome and cursor are those of `Args`, with both panics |
| `Shell.Parser.ParseExec` | labs/week7/EE23B102/xv6-riscv/user/sh.c:422-452 | terminates; outcome and cursor are those of `Command` |
| `Shell.Parser.ParseBlock` | labs/week7/EE23B102/xv6-riscv/user/sh.c:406-419 | terminates; outcome and cursor are those of `Block` |
| `Shell.Parser.ParsePipe` | labs/week7/EE23B102/xv6-riscv/user/sh.c:368-378 | terminates; outcome and cursor are those of `Pipeline`, which reads `a | b | c` as the pipe of a and the pipe of b and c (`ShellGrammar.PipelineAccepts`) |
| `Shell.Parser.ParseLine` | labs/week7/EE23B102/xv6-riscv/user/sh.c:351-365 | terminates; outcome and cursor are those of `Line` |
| `Shell.Parser.ParseCmd` | labs/week7/EE23B102/xv6-riscv/user/sh.c:334-348 | terminates on every line; outcome is that of `Parse`, with leftovers as an error |
| `ShellGrammar.LineSpells` | labs/week7/EE23B102/xv6-riscv/user/sh.c:272-314 | every string spells the tokens that are read from it |
| `ShellGrammar.SpellingRead` | labs/week7/EE23B102/xv6-riscv/user/sh.c:272-314 | a string that spells a sequence of tokens is read as these tokens |
| `ShellGrammar.PlainAccepts` | labs/week7/EE23B102/xv6-riscv/user/sh.c:422-452 | words and redirections in any order are read as one command with the words in order and the redirections around it |
| `ShellGrammar.PipelineAccepts` | labs/week7/EE23B102/xv6-riscv/user/sh.c:368-378 | commands with bars between are read as the right-nested pipe |
| `ShellGrammar.LineAccepts` | labs/week7/EE23B102/xv6-riscv/user/sh.c:351-365 | the tokens of any derivation of the grammar are read as what it stands for: right-nested pipes and lists without parentheses, any number of `&` |
| `ShellGrammar.LineSound` | labs/week7/EE23B102/xv6-riscv/user/sh.c:351-365 | whatever is read has a derivation that stands for the result |
| `ShellGrammar.ParsesExactly` | labs/week7/EE23B102/xv6-riscv/user/sh.c:272-452 | for every string and command: the parser accepts the string with this command exactly when the grammar derives it |
| `ShellGrammar.Unambiguous` | labs/week7/EE23B102/xv6-riscv/user/sh.c:272-452 | no string stands for two commands |
| `Grep.FirstItem` | labs/week7/EE23B102/xv6-riscv/user/grep.c:85-106 | a word of a pattern is a piece of its first item and a word of the rest |
| `Grep.StartsStar` | labs/week7/EE23B102/xv6-riscv/user/grep.c:99-106 | a starred item takes any fitting number of characters |
| `Grep.Match` | labs/week7/EE23B102/xv6-riscv/user/grep.c:73-82 | true if and only if some part of the text, bound by a leading ^ and a trailing $, is in the language of the pattern |
| `Grep.MatchHere` | labs/week7/EE23B102/xv6-riscv/user/grep.c:85-96 | true if and only if a word of the pattern starts the text; the mutual recursion terminates |
| `Grep.MatchStar` | labs/week7/EE23B102/xv6-riscv/user/grep.c:99-106 | true if and only if the pattern matches after some number of fitting characters |
| `Net.BswapsTwice` | labs/week6/xv6-labs-2024/kernel/net.h:5-9 | swapping the bytes of a 16-bit number twice gives it back |
| `Net.BswaplTwice` | labs/week6/xv6-labs-2024/kernel/net.h:11-17 | the same for 32 bits |
| `Net.SwapReads16` | labs/week6/xv6-labs-2024/kernel/net.h:5-9 | swapping a 16-bit number as the machine reads it gives the number in network byte order |
| `Net.SwapReads32` | labs/week6/xv6-labs-2024/kernel/net.h:11-17 | the same for 32 bits |
| `Net.TwoFolds` | labs/week6/xv6-labs-2024/kernel/net.c:201-202 | two foldings without 32-bit overflow equal addition with end-around carry, for every 32-bit sum |
| `Net.SumStored` | labs/week6/xv6-labs-2024/kernel/net.c:185-199 | storing a number in a zero word adds it to the sum |
| `Net.SumJoins` | labs/week6/xv6-labs-2024/kernel/net.c:185-199 | the sums of parts add up when the first is one of whole words, and a word has its low byte first |
| `Net.ChecksumCancels` | labs/week6/xv6-labs-2024/kernel/net.c:250-250 | a header of any length and field position with its checksum stored has checksum 0 |
| `Net.InCksum` | labs/week6/xv6-labs-2024/kernel/net.c:185-206 | the complement of the one's complement sum of the words, an odd last byte included |
| `Net.Send` | labs/week6/xv6-labs-2024/kernel/net.c:208-267 | no frame exactly when it would not fit a page; otherwise one with the payload, addresses, types, ports and lengths at their places byte by byte in network order, and a header that checks |
| `Net.TakesApart` | labs/week6/xv6-labs-2024/kernel/net.c:269-344 | for every frame, on its bytes: when it is malformed, and otherwise which port, payload, source address and source port are taken from it; what lies behind the length it names is ignored |
| `Net.CopyStaysInside` | labs/week6/xv6-labs-2024/kernel/net.c:222-226 | of the 32-bit lengths that pass the size check, exactly those from 0 to the room behind the headers keep the copy inside the page |
| `Net.LengthMinusOne` | labs/week6/xv6-labs-2024/kernel/net.c:222-226 | the length -1 passes the check |
| `Net.SendThenTakeApart` | labs/week6/xv6-labs-2024/kernel/net.c:269-330 | taking a sent frame apart gives the payload, source address and source port |
| `Net.UdpTable.FindBoundPort` | labs/week6/xv6-labs-2024/kernel/net.c:51-58 | where the port is bound, or nowhere |
| `Net.UdpTable.Bind` | labs/week6/xv6-labs-2024/kernel/net.c:65-89 | binds the low 16 bits unless they are bound or the table is full |
| `Net.UdpTable.IpRx` | labs/week6/xv6-labs-2024/kernel/net.c:269-344 | a well-formed datagram for a bound port goes to the end of its queue if there is room; every other frame changes nothing; counts equal lengths and stay at most 16 |
| `Net.UdpTable.Recv` | labs/week6/xv6-labs-2024/kernel/net.c:119-183 | the oldest packet leaves its queue and at most maxlen bytes of it are handed over |
| `Net.UdpTable.SendAndReceive` | labs/week6/xv6-labs-2024/kernel/net.c:208-344 | a frame sent to a bound port with room arrives as it was sent, behind everything that arrived before |

## Left out

- FileSystem.Disk.Balloc: the bitmap is a sequence of bits; the byte masks that pick a bit are not modelled.
- FileSystem.Disk.Bfree: the same.
- FileSystem.Disk.Writei: what a commit makes permanent is stated for a write that finds every buffer on the disk or listed; remains of earlier faults in its blocks are listed with them.
- FileSystem.Disk.Iupdate: the other fields of an inode travel as one value, and the byte layout of inode blocks is not modelled; `FsRecovery` takes it as a parameter.
- FileSystem.Disk.Crash: recovery is one step, which leaves what the last commit left; `FsRecovery.CommitRecovers` says why.
- FileSystem.Disk.constructor: bitmap and inode blocks lie below the data blocks, as `mkfs` lays them out.
- FileWrite.FileWrite: only inode files; pipes and devices are not modelled. What other operations of the transaction do between two chunks is not modelled, except that they may let it be committed.
- FileWrite.CrashedWrite: no other operation is open.
- Heap.Allocator.Malloc: after a request whose wrapped argument to `sbrk` is not positive the source writes a header to memory that is not there and the process is killed; the model returns a block, of which it states that it is not memory of the process.
- Heap.Allocator.Morecore: the same; memory obtained starts where it ended before or later, so an `sbrk` that the program calls itself with a negative argument is not modelled, and neither is what malloc does after a request that was not met.
- PageTable.Vm.Uvmcopy: the contents of a page are one value.
- PageTable.Vm.Kfree: the alignment and range panics are not modelled; pages come from the free list only.
- UserCopy.UserMemory.Vmfault: a fault in a mapped file area takes a fresh frame; sharing it with other processes is the subject of `SharedPages`.
- UserCopy.UserMemory.CopyOut: what shows on a range with two pages of one frame, or on another page with a frame of the range, is left open.
- SleepLock.RunInv: preemption is a process that takes no step for a while; the CPU-local interrupt nesting of spin locks is not modelled.
- ExitWait.RunInv: the exit status, open files and the working directory, and what kill does apart from waking a sleeper and making wait give up, are not modelled; pids do not wrap around.
- SharedPages.Registry.Fault: a fault is one step, although the source drops the registry lock between looking up and inserting; `SharedPages.SharedUnlessOvertaken` is about faults that overlap, and there memory never runs short.
- Vma.Process.Munmap: writing pages back to the file is not modelled.
- Vma.Process.Mmap: the file is an argument; the source indexes its table of open files with an unchecked number.
- BufferCache.Cache.Commit: the buffers a block passes through on its way home; the disks a crash can expose are the subject of `Log`, where a block is a sequence of words, while here and in `Virtio` its contents are one value.
- PageTable.PackRoundTrip: the tables hold entries; that an entry and its 64-bit word are the same is stated beside them.
- Net.Send: the payload is a sequence, so its length is not negative (`Net.CopyStaysInside` is about the others); failures of `kalloc` and `copyin`, which send nothing, are not modelled.
- Net.UdpTable.IpRx: a queue is a sequence of packets, not a ring or list of pointers.
- Net.UdpTable.Recv: requires a limit that is not negative; a caller that has to wait tries again, and a failing `copyout` is not modelled.
- Virtio.Disk.Submit: memory barriers and device registers are not modelled; buffers in flight are distinct because their users hold them locked.
- Grep.Match: the loop that reads a file into a buffer and cuts it into lines is not modelled.
- Shell.Parser.ParseCmd: words are values, so `nulterminate` is not modelled; neither is running commands.
- Directories, path names, inode allocation and reference counts, pipes, consoles and the system call layer.
- Boot, traps, device set-up and assembly code, which are hardware plumbing.
- The teardown of mapped areas at exit and their copying at fork, where the source does not do what it is evidently meant to do.
- ARP and the ring buffers of the network card.
