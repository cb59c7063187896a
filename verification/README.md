# A Dafny model of the xv6 kernel core and its tournament lock

This project models the parts of an xv6 kernel whose correctness rests on invariants over many steps: the
write-ahead log and the buffer cache, the block and inode layer, link counts, page tables and the page
allocator, the virtio block driver, sleep locks, exit and wait; and, at user level, the tournament lock built
from kernel Peterson locks and the storage allocator. `dafny verify dfyconfig.toml` checks everything.

Two forms are used. Protocols, where several processes, a device or a crash may come between any two accesses,
are state machines: a state, the steps, an invariant that every step keeps, and theorems about every state of
every run. Code that works in place on its own data is a class with methods and loops, whose contracts are
stated with functions that have their own lemmas.

| module | about |
|---|---|
| `Tournament`, `PetersonTable` | the Peterson steps of all processes in the tree, and the lock table and tree operations in place |
| `Collections` | an option type and a fact about sets |
| `RedoLog`, `LogSystem`, `LogBudget` | the on-disk log format and recovery; concurrent operations, group commit and crashes; when `log_write` panics |
| `BufferCache` | the LRU ring of buffers |
| `LogCache`, `LogView`, `LogCommit`, `LogBuffers`, `LogDevice` | the buffers as the cache of the log system; one block, whole commits and recoveries on values; when a commit runs out of buffers; `log.c` on top of `bio.c` in place |
| `FsImage`, `FileSystem` | who owns which block, file contents as bytes; `balloc` to `filewrite` in place |
| `Links`, `LinkOps` | the law of link counts; `link`, `unlink` and `create` in place |
| `PageTable`, `VmSpec`, `Vm` | page tables in memory; effects on the whole system; `vm.c` and `kalloc.c` in place |
| `Virtio`, `VirtioQueue` | driver and device as a state machine; the descriptor table in place |
| `SleepLock`, `ExitWait` | sleep and wakeup; process parents, zombies and pids |
| `Umalloc` | `malloc` and `free` |

Where the code does something other than it says or than one would hope, the model follows the code:

- The roll-back of a failed `tournament_acquire` begins by releasing the lock that was just refused. It is
  refused again, so every level acquired before stays held (`PetersonTable.Table.TournamentAcquire`).
- There are 15 Peterson locks (`kernel/petersonlock.h`), although a comment says 16.
- `log_write` tests for a full log before it looks for an entry to absorb the write. An operation that has used up
  its `MAXOPBLOCKS` blocks and logs one of them again can therefore meet the panic, for every log size; with a
  block new to the operation it can exactly if the log is no larger than `LOGSIZE`, as the one mkfs makes is. A
  bound of m blocks for each operation keeps clear of it exactly if `MAXOPBLOCKS + 2 * m` is less than what the
  log can list (`LogBudget.PanicsIff`).
- There are as many buffers as the log may list blocks. A commit panics exactly if all buffers are in use when it
  starts (`LogDevice.Log.Commit`). With the log that mkfs makes this needs one buffer held by somebody else, with
  a larger one not even that (`LogBuffers.StarvesIff`, `LogBuffers.ShippedSizes`).
- A copy from the caller that fails in the middle of a block leaves the bytes copied in the block, which is not
  logged. `writei` has then changed more of the file than it reports, exactly by the readable bytes that
  replace some of the file (`FileSystem.Fs.Writei`, with `FileSystem.Changed`).
- An entry put into a directory that has been unlinked breaks the law of link counts, and nothing else does
  (`LinkOps.Files.Link`, `LinkOps.Files.Create`; a concrete case is `Links.UnlinkedBreaksLaw`). A process gets
  there through its current directory, or when the directory is unlinked after `nameiparent` has returned it
  and before the caller locks it.
- A comment says that the size given to `uvmdealloc` may be larger than that of the process; the code panics
  exactly if whole pages are given up and the old size is more pages than the process has
  (`Vm.Kernel.Uvmdealloc`, `Vm.Kernel.DeallocPanics`; one byte is enough, `Vm.Kernel.OneAbove`).
- `morecore` passes a 64-bit product to `sbrk`, which takes an int. All blocks of the allocator are memory of the
  process after `malloc` exactly if `sbrk` was not called, or failed, or the product is below 2^31, that is for
  requests of at most 0x7FFFFFE0 bytes (`Umalloc.Allocator.Malloc`, `Umalloc.ArgFits`). The largest request asks
  `sbrk` for 16 bytes (`Umalloc.LargeRequests`).
- `kill` wakes a process that sleeps in `wait`, and `wait` then returns. A kill that falls between `wait`'s test and
  its sleep is missed, and the process sleeps although it has been killed; exactly those are missed
  (`ExitWait.KillNoticed`, `ExitWait.KillMissed`; a run from boot is `ExitWait.MissedKill`).

## Model

| member | source | states |
|---|---|---|
| `Tournament.Meet` | user/libtournament.c:65-72 | two distinct process ids meet with opposite roles at one level, and at no other node or level do they take opposite sides of the same lock |
| `Tournament.NodeInjective` | user/libtournament.c:70-72 | a node number determines the level and the group of processes that use it |
| `Tournament.UniquePosition` | user/libtournament.c:65-86 | while the lower levels exclude each other, at most one process is on each side of a node |
| `Tournament.PetersonStep` | kernel/petersonlock.c:39-50 | one step of one side keeps the two-process invariant of a lock: both sides never hold it |
| `Tournament.StepKeepsInv` | kernel/petersonlock.c:34-67 | every shared access of every process keeps the invariant of the whole tree, for any number of levels |
| `Tournament.Reachable` | user/libtournament.c:59-108 | the invariant holds after every schedule, with the two reads of the spin test as separate steps |
| `Tournament.MutualExclusion` | user/libtournament.c:59-108 | in every run at most one process is between acquire and release, and every node has at most one holder |
| `Tournament.SomeoneMoves` | kernel/petersonlock.c:41-50 | in every reachable state with a process in acquire or release some process there is not blocked at its spin test |
| `Tournament.MovesInTwo` | kernel/petersonlock.c:47-50 | such a process gets past the test within two of its own steps |
| `Tournament.DeadlockFree` | user/libtournament.c:59-89 | every run in which a process is acquiring can be extended to one in which some process is inside |
| `Tournament.OvertakeOnce` | kernel/petersonlock.c:41-50 | an opponent that enters a node before a waiting process hands it the turn |
| `Tournament.BoundedBypass` | kernel/petersonlock.c:41-50 | from any reachable state in which a process is at the spin test of a node, and for every schedule in which it never holds that node: it is still at the test at the end, and the opponents have entered the node at most once |
| `Tournament.StaysAtTest` | kernel/petersonlock.c:44-50 | a process at the test of a node leaves it only by getting past the node, whoever takes the step |
| `Tournament.SoloAcquire` | user/libtournament.c:59-89 | without contention a process is inside after three steps a level, with its own flag up and the turn given away on exactly the locks of its path, and the opponents' flags as they were |
| `Tournament.SoloRelease` | user/libtournament.c:92-108 | a release ends after one step a level, with exactly its own flags on its path lowered |
| `PetersonTable.Table.constructor` | kernel/petersonlock.c:12-17 | no lock is active at first |
| `PetersonTable.Table.Create` | kernel/petersonlock.c:20-31 | takes and clears the first inactive lock; -1 exactly if all are active, and then nothing changes |
| `PetersonTable.Table.Acquire` | kernel/petersonlock.c:34-45 | raises the flag of its role and gives the turn away; fails without effect on a bad or inactive lock |
| `PetersonTable.Table.Release` | kernel/petersonlock.c:56-67 | lowers the flag of its role and changes nothing else |
| `PetersonTable.Table.Destroy` | kernel/petersonlock.c:70-76 | deactivates the lock, if it was active |
| `PetersonTable.Table.CreateLocks` | user/libtournament.c:25-35 | succeeds exactly if so many locks are inactive, and then activates and clears the first inactive ones in order, and nothing else; on an empty table the i-th lock gets number i; a failure leaves the set of active locks, and every lock that was active, as it was |
| `PetersonTable.Table.TournamentCreate` | user/libtournament.c:12-43 | succeeds exactly with memory for the ids, for 1, 2, 4, 8 and 16 processes, if that many less one locks are inactive; they are the first inactive ones, on an empty table numbered from 0; every lock that was active stays as it was |
| `PetersonTable.CountLevels` | user/libtournament.c:37-43 | the number of levels is the binary logarithm |
| `PetersonTable.Table.RollBack` | user/libtournament.c:76-82 | lowers its flags from one level down to the first inactive lock; each of those locks is the old one with that flag lowered, and all others are as they were |
| `PetersonTable.Table.TournamentAcquire` | user/libtournament.c:59-89 | succeeds exactly if all locks on the path are active; each lock taken is the old one with the own flag up and the turn given away; on failure every level below the failed one stays held and nothing else changes |
| `PetersonTable.Table.TournamentRelease` | user/libtournament.c:92-108 | lowers its own flags from the root down to the first inactive lock, keeps the turn and the opponent's flag, and changes nothing else; succeeds exactly if there is none |
| `RedoLog.PutHead` | kernel/log.c:103-114 | reading back a written header gives the listed blocks |
| `RedoLog.HeaderWords` | kernel/log.c:103-114 | every word of a header written: the count first, then the entries in order, then what the block held before |
| `RedoLog.HeaderRoundTrip` | kernel/log.c:87-97 | a header read has as many entries as its count says, and writing it back gives the same block |
| `RedoLog.InstallAt` | kernel/log.c:69-83 | installing n entries puts each logged block in its home and leaves all other blocks alone |
| `RedoLog.RecoverRestores` | kernel/log.c:117-123 | recovery rebuilds the committed contents of every block outside the log, and a recovered disk recovers to the same |
| `LogSystem.StepKeepsCore` | kernel/log.c:69-235 | every step, with a crash or an eviction anywhere, keeps disk, header, pins and cache consistent with the committed and the latest contents |
| `LogSystem.StepKeepsReserved` | kernel/log.c:127-175 | listed blocks and unused budgets together stay within the log |
| `LogSystem.StepKeepsHist` | kernel/log.c:127-235 | committed contents are the replay of whole operations, in order |
| `LogSystem.CrashAtomicity` | kernel/log.c:69-203 | wherever a run stops, recovery yields the committed writes applied to the initial disk; of each operation that is all writes or none, and none of an operation still active |
| `LogSystem.CommitPoint` | kernel/log.c:194-203 | what a crash recovers changes only at the first header write of a commit, then to exactly what readers see, with no operation active |
| `LogSystem.ReadsLatest` | kernel/log.c:215-235 | outside boot and recovery a read returns the last contents logged for a block, committed or not, whatever was evicted |
| `LogSystem.Reservations` | kernel/log.c:127-175 | the log never overflows, lists no block twice, stays in its region, and commits with no operation outstanding |
| `LogSystem.RecoveryEnds` | kernel/log.c:117-123 | recovery, however often interrupted, ends with the committed contents in place and an empty log |
| `LogSystem.ReachedRun` | kernel/log.c:69-235 | the states with every property that holds at boot and that every step keeps are those in which a run can end |
| `LogBudget.StepBounded` | kernel/log.c:127-235 | every step of operations with m blocks each keeps a bound on listed blocks and unused budgets |
| `LogBudget.PanicNeeds` | kernel/log.c:215-221 | an operation that logs at most m blocks meets the panic only if what the log can list is at most MAXOPBLOCKS + 2m |
| `LogBudget.FirstPanics` | kernel/log.c:215-221 | otherwise a run is constructed that ends in it |
| `LogBudget.PanicsIff` | kernel/log.c:215-221 | so the panic is reachable exactly if what the log can list is at most MAXOPBLOCKS + 2m, and with a block new to the operation exactly if it is less |
| `LogBudget.DocumentedBudget` | kernel/log.c:127-142 | with MAXOPBLOCKS blocks for each operation it is reachable for every log, with a new block exactly if the log is no larger than LOGSIZE; with fewer blocks for each and a log of LOGSIZE blocks or more, never |
| `BufferCache.GotUnique` | kernel/bio.c:59-89 | giving a line to a block that is in none keeps every block in at most one |
| `BufferCache.FetchCoherent` | kernel/bio.c:93-103 | bread gives the current contents of the block, whichever buffer is recycled, and keeps all lines coherent |
| `BufferCache.ModifyCoherent` | kernel/fs.c:522-526 | a change in a buffer somebody refers to changes the current contents of that block only |
| `BufferCache.WriteCoherent` | kernel/bio.c:107-112 | after bwrite the disk has the contents, and readers see no difference |
| `BufferCache.ReleaseCoherent` | kernel/bio.c:117-137 | a reference may be dropped if another remains or the buffer is clean |
| `BufferCache.Unlink` | kernel/bio.c:128-129 | takes a buffer out of the doubly linked ring, which stays well formed in the remaining order |
| `BufferCache.PushFront` | kernel/bio.c:130-133 | puts a buffer first in the ring |
| `BufferCache.Bcache.constructor` | kernel/bio.c:37-53 | all buffers are in the ring, unused |
| `BufferCache.Bcache.Lookup` | kernel/bio.c:66-74 | finds the buffer of a block exactly if there is one |
| `BufferCache.Bcache.LeastRecent` | kernel/bio.c:77-78 | finds the unreferenced buffer closest to the least recently used end |
| `BufferCache.Bcache.Bget` | kernel/bio.c:59-89 | a reference to the one buffer of the block, or the least recently used unreferenced one given to it; panics exactly if the block has none and all are referenced |
| `BufferCache.Bcache.Bread` | kernel/bio.c:93-103 | the same with contents: a buffer that is not valid is read from disk, a valid one is left alone |
| `BufferCache.Bcache.Bwrite` | kernel/bio.c:107-112 | the disk gets the contents of the buffer at its block |
| `BufferCache.Bcache.Brelse` | kernel/bio.c:117-137 | the last release moves the buffer to the front; the ring stays a permutation of all buffers |
| `BufferCache.Bcache.Bpin` | kernel/bio.c:140-144 | one reference more, nothing else |
| `BufferCache.Bcache.Bunpin` | kernel/bio.c:147-151 | one reference less, nothing else |
| `LogCache.CachedIff` | kernel/bio.c:66-74 | a block is in the cache of the log system exactly if it has a buffer |
| `LogCache.Refill` | kernel/bio.c:59-103 | what bread does to the buffers is at most one eviction of a block that is not pinned and one fill, each an enabled step of the log system, and every read gives what it gave |
| `LogCache.NextPinned` | kernel/log.c:179-191 | the next block to copy to the log or to install is pinned, so its buffer is still there |
| `LogView.Lend` | kernel/bio.c:93-103 | bread lends a line with what a reader must see |
| `LogView.Return` | kernel/bio.c:117-137 | brelse keeps references equal to holders and pins |
| `LogView.Store` | kernel/log.c:76-79 | a buffer changed and written out, and unpinned when installed, is one step of the log system |
| `LogView.SecondFree` | kernel/log.c:74-75 | of the two breads that copy a block the second never panics |
| `LogView.TransferDone` | kernel/log.c:74-81 | the copy of a block is one step, with every buffer given back |
| `LogCommit.AllCopied` | kernel/log.c:179-191 | after write_log the slots hold the latest contents, and a crash recovers the old ones |
| `LogCommit.HeadWritten` | kernel/log.c:197-198 | the header write makes what readers see what a crash recovers |
| `LogCommit.AllInstalled` | kernel/log.c:69-83 | after install_trans the home blocks are as committed and nothing is pinned |
| `LogCommit.CommitDone` | kernel/log.c:194-203 | the four parts of a commit leave the latest contents in place and committed, and nothing listed or pinned |
| `LogCommit.RecoveryDone` | kernel/log.c:117-123 | recovery leaves the committed contents in place and never changes what a crash recovers |
| `LogCommit.LogBlockFull` | kernel/bio.c:77-88 | bread of a block of the log panics exactly if all buffers are referenced |
| `LogCommit.LogOne` | kernel/log.c:223-233 | a pin exactly for a block not yet listed keeps references equal to holders and pins |
| `LogCommit.OpsRunning` | kernel/log.c:148-156 | end_op never finds a commit under way |
| `LogBuffers.StarvedNeeds` | kernel/bio.c:77-88 | a commit that finds all buffers in use has listed blocks and other holders for all of them |
| `LogBuffers.StarvesIff` | kernel/log.c:179-191 | for any numbers of buffers and of buffers held by others, a commit can find all in use exactly if there are no more buffers than those held and those the log can list |
| `LogBuffers.ShippedSizes` | kernel/param.h:10-11 | with NBUF buffers and the log of mkfs that needs one holder, with a larger log none |
| `LogDevice.Log.Boot` | kernel/log.c:54-66 | after a reset only the disk is known, and all buffers are unused |
| `LogDevice.Log.Get` | kernel/bio.c:93-103 | bread on the real buffers, as in LogView.Lend; panics exactly if the block has no buffer and all are referenced |
| `LogDevice.Log.WriteOut` | kernel/log.c:76-79 | a buffer changed and written is one step of the log system, so the disk is recoverable before and after |
| `LogDevice.Log.Transfer` | kernel/log.c:73-81 | one block copied between log and home through two buffers, as one step; panics exactly if the first bread does, and then nothing has changed |
| `LogDevice.Log.WriteLog` | kernel/log.c:179-191 | the slots hold the latest contents of the listed blocks, and a crash still recovers the old ones |
| `LogDevice.Log.WriteHead` | kernel/log.c:103-114 | the header write is one step of the log system, at whichever point it is made |
| `LogDevice.Log.InstallTrans` | kernel/log.c:69-83 | all home blocks are as committed and nothing is pinned |
| `LogDevice.Log.ClearLog` | kernel/log.c:200-201 | erases the log, as one step |
| `LogDevice.Log.Commit` | kernel/log.c:194-203 | with a buffer to spare exactly the writes of a commit are made, in order, and the latest contents are in place and committed; without one it panics before the first write |
| `LogDevice.Log.ReadHead` | kernel/log.c:87-97 | the in-memory header is the one on disk |
| `LogDevice.Log.RecoverFromLog` | kernel/log.c:117-123 | restores the committed contents without ever changing what a crash recovers, with two free buffers and without a panic |
| `LogDevice.Log.TryBegin` | kernel/log.c:127-142 | begin_op admits an operation exactly if no commit is under way and every outstanding budget fits |
| `LogDevice.Log.Hold` | kernel/bio.c:93-103 | between boots bread returns the last contents logged for the block |
| `LogDevice.Log.LogWrite` | kernel/log.c:215-235 | lists the block once, pins it and changes what readers see; panics exactly by the tests of the source, and then nothing has changed |
| `LogDevice.Log.EndOp` | kernel/log.c:146-175 | the last operation commits for all, and then nothing is listed or pinned and the latest contents are in place; it panics exactly if something is listed and all buffers are in use |
| `FsImage.PutWord` | kernel/fs.c:410-414 | an entry of an indirect block reads back as written, and the others are untouched |
| `FsImage.AddrOwned` | kernel/fs.c:383-421 | every block of a file is owned by its slot alone |
| `FsImage.GainsOwned` | kernel/fs.c:383-421 | giving a free block to an empty slot keeps exclusive ownership and the bitmap |
| `FsImage.LinkDirectGains` | kernel/fs.c:388-405 | a new direct or indirect block fills one slot; the indirect one has no entries because balloc zeroes it |
| `FsImage.LinkEntryGains` | kernel/fs.c:407-416 | a new entry of the indirect block fills one slot of one file |
| `FsImage.WriteDataData` | kernel/fs.c:514-528 | overwriting a block of a file changes that block of that file only |
| `FsImage.DropIndirectOwned` | kernel/fs.c:438-449 | freeing the indirect block after its entries keeps ownership exact |
| `FsImage.TruncFrees` | kernel/fs.c:426-453 | emptying the slots of an inode frees the blocks it owned and no others |
| `FsImage.WrittenBytes` | kernel/fs.c:506-539 | blocks spliced one by one add up to the old bytes with the new ones written over them, up to the new end of the file |
| `FileSystem.Fs.constructor` | mkfs/mkfs.c:92-116 | an image with empty inodes and only the metadata in use is consistent |
| `FileSystem.Fs.Balloc` | kernel/fs.c:66-88 | the first free block, marked and zeroed; 0 exactly if none is free |
| `FileSystem.Fs.Bfree` | kernel/fs.c:92-105 | clears the bit of a block in use |
| `FileSystem.Fs.Bmap` | kernel/fs.c:383-421 | returns the address of the block, allocated if need be; 0 only with a full disk; no contents, size or other file change, and every change is in a block logged, of which there is a bound |
| `FileSystem.Fs.MapIndirect` | kernel/fs.c:398-418 | the same for a block behind the indirect block, which may be allocated too |
| `FileSystem.Fs.Itrunc` | kernel/fs.c:426-453 | frees exactly the blocks the inode held, never a free one, and leaves every other file alone; the block of every bit changed and of the inode is logged |
| `FileSystem.CoversTrans` | kernel/log.c:215-235 | steps that log every bit of the bitmap and every block they change do so together |
| `FileSystem.Fs.CopyIn` | kernel/fs.c:518-527 | the block has the bytes that could be copied, and is logged exactly if those are all |
| `FileSystem.Fs.WriteRound` | kernel/fs.c:514-528 | one round of writei's loop: more bytes in blocks of the file, everything else kept; it fails exactly if its share of the block cannot be read in full, or the file lacks the block and none is free |
| `FileSystem.AccountRound` | kernel/fs.c:514-528 | a round adds at most two blocks to those logged besides the indirect one, one for a block that exists |
| `FileSystem.Fs.WriteLoop` | kernel/fs.c:514-528 | writes a prefix of the bytes within that account; more than it counts only after a copy that failed within a block; every change but in that block is logged |
| `FileSystem.Fs.Writei` | kernel/fs.c:506-539 | the file is the old one with a prefix of the bytes written over it at the offset: those reported, and exactly the readable rest that replaces bytes of the file; other files are untouched and there are no holes; it stops early only before a block whose share cannot be read in full, or that the file lacks while none is free; the inode's block, every bit and every block changed are logged, but for a block in which the copy failed |
| `FileSystem.WriteDone` | kernel/fs.c:530-538 | with the new size no block below it is missing, and the contents are the spliced bytes below it |
| `FileSystem.Fs.Readi` | kernel/fs.c:472-496 | returns exactly the addressed slice; with no holes nothing is allocated and nothing logged |
| `FileSystem.ChunkFits` | kernel/file.c:155-162 | the blocks of one chunk, with bitmap, indirect and inode blocks, are at most MAXOPBLOCKS |
| `FileSystem.Fs.WriteTransaction` | kernel/file.c:164-169 | one transaction logs at most MAXOPBLOCKS blocks at any offset and for any number of bitmap blocks, among them every block changed but one in which the copy failed |
| `FileSystem.Fs.WriteChunk` | kernel/file.c:158-174 | one chunk continues where the last one ended, and reports why it is incomplete and how much of the file it changed |
| `FileSystem.Fs.Filewrite` | kernel/file.c:155-176 | all chunks together write a prefix of the bytes in order, at any offset; the result is the length exactly if that is all; otherwise every chunk before one is written, that one was out of range or stopped as in writei, and the bytes changed are counted exactly |
| `Links.AddFileLaw` | kernel/sysfile.c:145-156 | a new entry for a file keeps the law of link counts exactly if its directory is linked |
| `Links.AddDirLaw` | kernel/sysfile.c:276-289 | the same for a new directory, with its ".." and its parent's count |
| `Links.RemoveFileLaw` | kernel/sysfile.c:222-233 | removing an entry of a file keeps the law, and its count was at least one |
| `Links.EmptyOneLink` | kernel/sysfile.c:174-186 | an empty directory is named exactly once besides its own "." |
| `Links.RemoveDirLaw` | kernel/sysfile.c:217-233 | removing an empty directory keeps the law; its count was one and its parent's at least two |
| `Links.RemoveDirShape` | kernel/sysfile.c:189-243 | and the tree of directories stays a tree |
| `Links.NamedLinked` | kernel/sysfile.c:211-216 | an inode that a linked directory names has links, so the panic of unlink is unreachable |
| `Links.Reclaim` | kernel/fs.c:337-362 | freeing an inode without links keeps the law: no linked directory names it |
| `Links.UnlinkedBreaksLaw` | kernel/sysfile.c:246-302 | a concrete tree in which a file created in an unlinked directory breaks the law |
| `LinkOps.Files.constructor` | mkfs/mkfs.c:118-129 | a root directory alone satisfies the law |
| `LinkOps.FindFirst` | kernel/fs.c:560-572 | the search finds the first entry with the name |
| `LinkOps.Files.DirLookup` | kernel/fs.c:552-575 | the first slot with the name, or none |
| `LinkOps.Files.DirLink` | kernel/fs.c:580-606 | fails for a name that exists or without room, else fills the first unused slot |
| `LinkOps.Files.Link` | kernel/sysfile.c:124-170 | succeeds exactly for a file, with a directory to put it in, room, and a new name; it then fills the first unused slot and counts one link more; every failure leaves the inodes as they were; after a success the law holds, and no inode is lost, exactly if the directory is linked |
| `LinkOps.Files.IsDirEmpty` | kernel/sysfile.c:174-186 | tells whether only "." and ".." are in use |
| `LinkOps.Files.Unlink` | kernel/sysfile.c:189-243 | fails exactly for ".", "..", a missing name or a directory in use; otherwise removes the entry and keeps the law, and frees the inode exactly if that was its last link and nobody refers to it; the panic is unreachable |
| `LinkOps.Files.Remove` | kernel/sysfile.c:222-238 | the entry and the counts it stands for go together, for files and directories |
| `LinkOps.Files.Ialloc` | kernel/fs.c:199-219 | gives the first free inode its type and a reference; 0 exactly if none is free, and then nothing changes |
| `LinkOps.Files.Iput` | kernel/fs.c:337-362 | drops a reference; the last one frees an inode exactly if it has no links, and keeps the law; every inode in use has a link or a reference |
| `LinkOps.Files.Create` | kernel/sysfile.c:246-302 | an existing name gives its inode exactly for a file; a new one fails exactly if no inode is free or there is no room for the entry, or for the dots of a directory; otherwise the first free inode, with its entries, in the first unused slot; one reference more in both cases; every failure leaves the inodes as they were; the law holds afterwards exactly if the directory is linked |
| `PageTable.Pte` | kernel/riscv.h:348-352 | page number and flags can be read back from an entry |
| `PageTable.SlotsDiffer` | kernel/vm.c:86-103 | distinct virtual pages, of one or of two page tables, have distinct entries |
| `PageTable.AttachTable` | kernel/vm.c:95-99 | a zeroed page-table page put below a zero entry changes no translation of any page table |
| `PageTable.AttachLeaf` | kernel/vm.c:156-158 | writing an unused leaf entry changes that translation and no other |
| `PageTable.DetachData` | kernel/vm.c:186-189 | a mapped user page belongs to that virtual page alone, so it may be taken back |
| `PageTable.ClearLeaf` | kernel/vm.c:190 | zeroing a leaf entry removes that translation and no other |
| `PageTable.RemoveNode` | kernel/vm.c:272-287 | taking an empty page-table page out of the tree changes no translation |
| `PageTable.RootIn` | kernel/vm.c:86-103 | every page-table page hangs below a root |
| `VmSpec.UserPages` | kernel/vm.c:226-249 | n mapped user pages use n distinct pages |
| `VmSpec.TablesSize` | kernel/vm.c:86-103 | n consecutive virtual pages need at most 2n page-table pages below the root |
| `VmSpec.NotEnough` | kernel/vm.c:306-333 | if one round lacks a page, then what was free at the start is less than what the whole range needs |
| `VmSpec.AllocsUndone` | kernel/vm.c:234-246 | growing and then unmapping restores every translation and every data page |
| `VmSpec.BuiltAndDestroyed` | kernel/proc.c:182-211 | a page table built and destroyed leaves every page as it was |
| `Vm.Kernel.constructor` | kernel/kalloc.c:27-40 | every page handed to the allocator is free, once |
| `Vm.Kernel.Kalloc` | kernel/kalloc.c:69-82 | takes the first page of the free list, which was in no use; 0 exactly if the list is empty |
| `Vm.Kernel.Kfree` | kernel/kalloc.c:47-63 | returns a page that is allocated and in no page table; no page is on the list twice |
| `Vm.Kernel.Walk` | kernel/vm.c:86-103 | finds the page of the entry, or with alloc makes exactly the missing tables on the way; no translation of any page table changes; fails exactly without a table, or with fewer free pages than missing tables |
| `Vm.Kernel.Mappages` | kernel/vm.c:143-165 | maps exactly its range to consecutive pages, and succeeds exactly if the free pages are enough for the missing tables of the range; on failure exactly a first part of it is mapped and no page is free |
| `Vm.Kernel.Uvmunmap` | kernel/vm.c:171-192 | unmaps exactly the pages of its range up to the first that is not mapped, where it panics; with do_free exactly their pages become free, without it they stay allocated |
| `Vm.Kernel.Uvmdealloc` | kernel/vm.c:256-267 | unmaps and frees exactly the pages between the two sizes and returns the smaller one; panics exactly if one of them is not mapped |
| `Vm.Kernel.DeallocPanics` | kernel/vm.c:251-267 | for an address space of n pages that is exactly if whole pages are given up and the old size is more than n pages |
| `Vm.Kernel.OneAbove` | kernel/vm.c:251-267 | one byte above the address space is enough |
| `Vm.Kernel.RoomLeft` | kernel/vm.c:226-249 | the user pages never reach the trapframe: memory runs out first |
| `Vm.Kernel.Uvmalloc` | kernel/vm.c:226-249 | grows the address space with zeroed pages and the given permissions, or leaves every translation and every data page as it was, for any new size; succeeds exactly if the free pages are enough for the new pages and the missing tables, so with three for each page always; after a failure no more are free than pages were asked for |
| `Vm.Kernel.Freewalk` | kernel/vm.c:272-287 | frees every page-table page of the subtree once and touches nothing else; its panic on a leaf is unreachable |
| `Vm.Kernel.Uvmfree` | kernel/vm.c:292-297 | returns every user page and every page-table page once, without a panic |
| `Vm.Kernel.Uvmcopy` | kernel/vm.c:306-333 | the child gets copies of all pages with the same flags, or every translation and every data page is as it was; succeeds exactly if the free pages are enough for the copies and the child's missing tables, so with three for each page always; after a failure no more are free than pages were to be copied |
| `Vm.Kernel.Uvmcreate` | kernel/vm.c:197-205 | a page table in which nothing is mapped; 0 exactly if no page is free |
| `Vm.Kernel.ProcPagetable` | kernel/proc.c:182-211 | maps the trampoline and the trapframe and nothing else, or returns every page it took; 0 exactly with fewer than three free pages |
| `Vm.Kernel.ProcFreepagetable` | kernel/proc.c:216-221 | frees each user page and page-table page of the process exactly once, keeps the trampoline and trapframe pages, and disturbs no other page table |
| `Virtio.Alloc3Succeeds` | kernel/virtio_disk.c:201-213 | three descriptors are found exactly if three are free |
| `Virtio.FreeChainOfThree` | kernel/virtio_disk.c:186-197 | freeing a request's chain frees its three descriptors without a panic |
| `Virtio.RingPop` | kernel/virtio_disk.c:312-324 | different indices mean an unread entry, and the reader's slot holds the oldest |
| `Virtio.FetchesOldest` | kernel/virtio_disk.c:272-277 | the device gets the chain heads in the order they were published |
| `Virtio.EffectOn` | kernel/virtio_disk.c:216-258 | a write replaces one block of the disk by the buffer, a read replaces the buffer by the block, and every other block and buffer is left alone |
| `Virtio.ServesRequest` | kernel/virtio_disk.c:239-265 | in every state the invariant allows, a device that follows the descriptors of an outstanding request does what was asked for, and reports success in that request's status |
| `Virtio.StepKeepsInv` | kernel/virtio_disk.c:216-327 | every step of driver and device keeps chains, headers, buffers and both rings consistent |
| `Virtio.Conservation` | kernel/virtio_disk.c:157-292 | in every run free descriptors and three for each request are all there are; chains are disjoint and every descriptor in use is in one |
| `Virtio.FreedWhenDone` | kernel/virtio_disk.c:283-289 | a chain is freed only after the device has completed it, and then exactly its descriptors |
| `Virtio.ReleasesOwnBuffer` | kernel/virtio_disk.c:312-324 | a completion, in whatever order the device finishes, releases exactly the buffer of its request and finds its status 0 |
| `Virtio.NoOverrun` | kernel/virtio_disk.c:272-277 | in every run neither ring's next slot holds an unread entry |
| `Virtio.Formatted` | kernel/virtio_disk.c:239-265 | from the call to the return the three descriptors taken are header, data and status of that call: the device may write the data exactly for a read, the header never and the status always, and the header names the sector and the direction |
| `Virtio.Served` | kernel/virtio_disk.c:216-292 | a request has exactly one completion between its call and its return; a write then puts in the block what the buffer held at the call, a read returns what the block held at that moment, and nothing else changes |
| `Virtio.DiskChanges` | kernel/virtio_disk.c:216-292 | the disk changes only by the completion of a write |
| `Virtio.SomeStep` | kernel/virtio_disk.c:272-327 | while a request is outstanding some step is enabled that brings one closer to its return |
| `Virtio.Drains` | kernel/virtio_disk.c:216-327 | every run can be continued to one in which all requests have returned and all descriptors are free |
| `VirtioQueue.Queue.AllocDesc` | kernel/virtio_disk.c:157-166 | takes the first free descriptor; -1 exactly if there is none |
| `VirtioQueue.Queue.FreeDesc` | kernel/virtio_disk.c:170-182 | zeroes and frees one descriptor |
| `VirtioQueue.Queue.FreeChainFrom` | kernel/virtio_disk.c:186-197 | follows and frees the chain as the specification does |
| `VirtioQueue.Queue.Alloc3Desc` | kernel/virtio_disk.c:201-213 | three descriptors or none: a failure leaves the table exactly as it was |
| `SleepLock.SpinStep` | kernel/sleeplock.c:22-41 | the spinlock is held exactly between its acquire and release |
| `SleepLock.StepKeepsInv` | kernel/proc.c:541-609 | every step of acquiresleep, releasesleep, sleep, wakeup, kill and the scheduler keeps the invariant |
| `SleepLock.MutualExclusion` | kernel/sleeplock.c:22-41 | in every run at most one process holds the sleep lock, and the lock records it |
| `SleepLock.NoLostWakeup` | kernel/proc.c:541-585 | whenever lock and spinlock are free, nobody is asleep on the lock or about to be |
| `SleepLock.DeadlockFree` | kernel/sleeplock.c:22-41 | unless a process sits on the lock, some process in acquire or release can always move |
| `SleepLock.SoloAcquire` | kernel/sleeplock.c:22-31 | acquiresleep takes a free lock in four steps and changes nothing else |
| `SleepLock.SoloSleep` | kernel/proc.c:541-566 | with the lock taken it puts the process to sleep on it, with neither spinlock held |
| `SleepLock.SoloRelease` | kernel/sleeplock.c:34-41 | releasesleep frees the lock and makes runnable exactly the processes that sleep on it |
| `ExitWait.StepKeepsTree` | kernel/proc.c:285-440 | every step of fork, exit, wait and kill keeps parents, status and wait_lock consistent |
| `ExitWait.StepKeepsInv` | kernel/proc.c:285-440 | and pids, exit status and reaped pids |
| `ExitWait.ParentsLive` | kernel/proc.c:336-391 | in every run no process has a zombie or unused parent, and every process but init has a parent |
| `ExitWait.NoLostExit` | kernel/proc.c:352-440 | a process asleep in wait has no zombie child |
| `ExitWait.NoChildrenLeft` | kernel/proc.c:431-435 | after a scan that found no zombie wait gives up, unless killed, only without children; the other exit with -1 is a failed copyout (lines 416-421), which leaves the zombie |
| `ExitWait.ReapedOnce` | kernel/proc.c:396-440 | wait returns a pid at most once and only after its exit; until then the zombie has a live parent |
| `ExitWait.FreedByParent` | kernel/proc.c:407-428 | a process that has run is freed only as a zombie, by a wait of its parent that returns its pid |
| `ExitWait.ToldStatus` | kernel/proc.c:383-425 | the status wait copies out for a pid is the one that process gave to exit |
| `ExitWait.Adopted` | kernel/proc.c:336-391 | when an exit ends, exactly the children that process had when it took wait_lock belong to init, every other parent is as it was, and the process is a zombie with its status |
| `ExitWait.KillNoticed` | kernel/proc.c:431-438 | after a kill that does not fall between the test of wait and its sleep, the process never sleeps in wait again, and the next scan without a zombie returns |
| `ExitWait.KillMissed` | kernel/proc.c:591-607 | a kill that does is missed: the process can sleep, killed |
| `ExitWait.MissedKill` | kernel/proc.c:431-438 | a run from boot in which that happens |
| `ExitWait.WaitReaps` | kernel/proc.c:396-429 | a process with a zombie child that finds wait_lock free can return from wait by its own steps with the first zombie in the table, which is then free, and nothing else changed |
| `ExitWait.ExitEnds` | kernel/proc.c:373-389 | a process that finds wait_lock free can exit by its own steps, which leave it a zombie with its status, its children to init and the lock free |
| `Umalloc.Insert` | user/umalloc.c:30-43 | a block put between its neighbours keeps the ring in address order with one wrap |
| `Umalloc.Join` | user/umalloc.c:33-42 | coalescing two touching blocks keeps the ring, and their units are those of the joint block |
| `Umalloc.Split` | user/umalloc.c:78-82 | the tail of a larger block becomes a block that overlaps no other |
| `Umalloc.Take` | user/umalloc.c:76-77 | a whole block leaves the ring |
| `Umalloc.Grant` | user/umalloc.c:54-58 | memory from sbrk becomes a block apart from all others |
| `Umalloc.Advance` | user/umalloc.c:74 | following the pointers visits every free block once before coming round |
| `Umalloc.Units` | user/umalloc.c:69 | the units hold the bytes asked for besides the header, with less than a unit to spare, and fit in 32 bits |
| `Umalloc.CoreUnits` | user/umalloc.c:52-53 | the least number of units that is neither below the request nor below 4096 |
| `Umalloc.Allocator.Locate` | user/umalloc.c:30-32 | the search of free ends within a lap at the place in address order |
| `Umalloc.Allocator.Free` | user/umalloc.c:25-44 | the block is free, coalesced with both neighbours; the ring stays ordered without touching blocks, all other live blocks and all units obtained are kept |
| `Umalloc.ArgTruncates` | user/umalloc.c:54 | the argument of sbrk is the product modulo 2^32, as a signed number |
| `Umalloc.ArgFits` | user/umalloc.c:54 | that is the product exactly if it is below 2^31, that is for requests of at most 0x7FFFFFE0 bytes |
| `Umalloc.LargeRequests` | user/umalloc.c:54 | two requests for which it is not: one asks for a single unit, one makes sbrk shrink the process |
| `Umalloc.MemoryIff` | user/umalloc.c:54-58 | after sbrk every unit of every block is below the break exactly if the product is below 2^31 |
| `Umalloc.Allocator.Sbrk` | kernel/proc.c:265-281 | the break moves by the argument, unless the process cannot grow or would shrink below zero |
| `Umalloc.Allocator.Morecore` | user/umalloc.c:47-61 | on success the ring has a block that is large enough, with exactly the units it claims added, at least 4096 and at least those asked for, whatever sbrk gave |
| `Umalloc.Allocator.Search` | user/umalloc.c:74-89 | one lap finds a block that fits exactly if there is one: the first on the way from the block after freep |
| `Umalloc.Allocator.Carve` | user/umalloc.c:75-86 | the block handed out has the size asked for, is the end of the one found, and overlaps no live block; the one found leaves the ring exactly if nothing of it remains, and freep is the block before it |
| `Umalloc.Allocator.Malloc` | user/umalloc.c:64-90 | for any request: fails exactly if nothing fits and sbrk fails; otherwise one new live block of the right size, the end of the first that fits if one does, all others kept, with at most one call of sbrk and one lap after it; the blocks are memory of the process exactly if sbrk was not needed, or failed, or the product fits in an int |

## Left out

- Weak memory: accesses are sequentially consistent, as the fences in the Peterson lock intend.
- Spinlocks: acquire and release are atomic steps.
- PetersonTable.Table.Acquire: its spin loop is left to module `Tournament`; here the call is its two writes.
- PetersonTable.Table.TournamentCreate: fork is left out, so one process id is a parameter of the tree operations.
- Tournament: acquire uses node numbers as lock numbers, so the locks are taken to be numbered from 0 (see `PetersonTable.Table.CreateLocks`) and to stay active.
- LogSystem, Virtio, SleepLock and ExitWait: protocols are step relations over values; the code in place is in `LogDevice`, `BufferCache` and `VirtioQueue`, each method running alone, and the scans over the process table are single steps of the machine.
- RedoLog: the write of one block, and so of the header, is atomic.
- LogSystem: an operation logs at most MAXOPBLOCKS distinct blocks, which `FileSystem` proves of filewrite only; `LogBudget` has runs with any smaller bound.
- LogDevice.Log.LogWrite: the new contents are put into the buffer by the call itself, after its panic tests; in the source the caller has done so before.
- LogDevice.Log.TryBegin: one round of the loop; sleeping and waking are left out.
- LogDevice.Log.RecoverFromLog: two buffers are unreferenced, as all are at boot.
- BufferCache: locks on single buffers; a caller holds the buffers it got.
- BufferCache.FetchCoherent: not for block 0 of device 0, which buffers never used look like.
- FsImage: the bitmap is a sequence of booleans, not bits in blocks; block contents are bytes.
- FileSystem.Fs.Writei: what a failed copy left in a block is seen until its buffer is recycled; the model has one copy of a block, so it stays.
- FileSystem: the inode table and the inode cache.
- Links: names are not cut to DIRSIZ, and nlink does not overflow its 16 bits.
- LinkOps.Files.Link: paths are resolved by the caller, which holds references to what they name, and all inodes are on one device.
- LinkOps.Files.Iput: an inode without links has been read, so the test of its valid bit is left out; its blocks are the subject of `FileSystem.Fs.Itrunc`.
- PageTable: physical page numbers are unbounded; accessed and dirty bits do not occur.
- Vm.Kernel.Kfree: the free list is a sequence, not a list threaded through the pages.
- Vm.Kernel.Mappages: reaching MAXVA or a page already mapped, where the source panics, is excluded by a precondition.
- Vm: copyin, copyout and the kernel's own page table.
- Virtio: the device reports an error only for a chain that makes no sense; with any status but 0 the source panics.
- ExitWait: open files and the current directory; a slot is allocated and freed in one step; only a process that runs is killed, and its return to user space, where it exits, is left out.
- ExitWait.ToldStatus: a status that the caller of wait does not want counts as copied out.
- Vm.Kernel.Uvmdealloc: the number of pages given up fits in an int, as it does for all sizes below 2^43; the range does not reach the trapframe without a gap.
- Umalloc: block sizes are unbounded; in the source they fit in 32 bits as long as the process has less than 64 GB.
- Umalloc.Allocator.Malloc: the source has one loop; here a lap is a method and a second lap starts where the source goes on.
- Pipes, the console, traps, system-call dispatch, exec's loading of programs and device registers: they would add only easier members or none.
