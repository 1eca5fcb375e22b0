# A verified model of the kernel's core

The repository is a small AArch64 teaching kernel with a Unix-like file system and a musl C
library. This project models, in Dafny, the parts of it whose correctness is hard to see, and
proves what they promise, for all inputs, all runs and all crash points.

| files | what they model |
|---|---|
| `Bytes`, `HeaderCodec`, `WriteAheadLog`, `LogProtocol`, `BlockCache` | the block cache, its write-ahead log, group commit and crash recovery (`src/fs/cache.c`) |
| `Bitmap`, `FileSpec`, `InodeTable`, `FileSystem` | block allocation, inode entries on disk, and files made of direct and indirect blocks (`src/fs/cache.c`, `src/fs/inode.c`) |
| `FileCrash` | what a crash leaves of the files: the log and the file layer together |
| `RedBlackSpec`, `RedBlackHeap`, `RedBlackMove`, `RedBlackTree` | the red-black tree on nodes with parent links (`src/common/rbtree.c`) |
| `Scheduler`, `Semaphore`, `SemaphoreRuns`, `SemaphoreTheorems` | the run queue, semaphores, and every interleaving of processes that use them (`src/kernel/sched.c`, `src/common/sem.c`) |
| `LinkedList` | circular lists (`src/common/list.c`) |
| `HeapSpec`, `Heap` | kalloc and kfree (`src/kernel/mem.c`, `mydata.c`, `myheader.c`) |
| `PageTableSpec`, `PageTable` | four-level page tables (`src/kernel/pt.c`, `src/aarch64/mmu.h`) |
| `Pipe` | pipes (`src/fs/pipe.c`) |
| `CtorSpec`, `CtorOrder`, `Ctors` | the order of constructors of shared objects (`musl/ldso/dynlink.c`) |
| `SymbolLookup` | GNU hash tables of symbols (`musl/ldso/dynlink.c`) |
| `Basics` | notions that several of these share |

`dafny verify dfyconfig.toml` checks all of it.

## How the parts are modelled

*The log.* A disk is a sequence of 512-byte blocks, a commit the sequence of block writes that
`commit` issues, and a crash a cut after any number of them. `Recovered` is what a disk is worth:
its home blocks with a pending log laid over them. Every write keeps that value, except the header
write of a commit, which changes it in one step. `LogProtocol` is a state machine over any number
of operations, with a crash possible between any two device writes. `BlockCache` is the code on
`Block` objects; its `trace` of device writes is shown to be the one that the other two speak of.
The laws on runs are stated on the steps: what the last update of a block wrote is on disk when
`end_op` is released, and is what the disk is worth from the commit point on.

*Files.* The file layer works on the blocks as the cache shows them. A file is an entry and the
list of its blocks; `Owners` says that files share no block and that every used block belongs to a
file or is lost. `Holds` says which files a disk holds, by its bitmap and inode entries alone. It
speaks of home blocks only, so it joins the two layers: `Volume.Write` and `Volume.Clear` lead
from one disk that holds files to another, `FileCrash` carries the files of the latest commit
point across a crash, `Cache.Init` shows the recovered disk, and `Volume.Mount` reads it again.

*The tree.* Methods rewrite `RbNode` objects. Each pointer write is mirrored in a ghost `Store`,
`RedBlackHeap` says which tree a store holds, with the path to the place of work as a `Context`,
and `RedBlackSpec` proves balance and order of the result on trees as values.

*Processes.* `SemaphoreRuns` has one step for each section of code under a lock. Taking the run
queue lock while holding a semaphore's lock, and handing it over to the next process, are steps of
their own, because the absence of lost wakeups rests on them. An interrupt handler takes its steps
in the name of the process it interrupts, an idle one included. The laws on semaphores count the
actions of a run: posts, grants, and who holds what.

*Shared objects.* `CtorOrder` defines the two orders without the code: breadth-first by the place
where an object is first found, which leaves only one list, and depth-first by a recursive search.

## Where the code departs from its description

- `inode_write` recomputes the number of blocks from `num_bytes`, which it updates only at its end.
  A write that grows a file by more than one block beyond those it counts replaces blocks that it
  has just filled: their bytes read as zero, and the replaced blocks stay marked for ever.
  `FileSpec.WriteExact` says exactly when, `Volume.Write` how many blocks are lost, and
  `FileSpec.GrowthLoses` gives a source that is lost for every such growth.
- `kill` wakes processes in DEEPSLEEPING too. An operation killed in `end_op` returns before its
  blocks are on disk (`LogProtocol.KilledRun`); `LogProtocol.EscapeExact` says exactly which of them
  are, and `LogProtocol.EndOpReturns` that all are if the operation is not killed. For the same
  reason the assertion of `unalertable_wait_sem` fails (`SemaphoreTheorems.UnalertableWait`,
  `SemaphoreTheorems.KilledWait`).
- `_activate_proc` makes a ZOMBIE runnable, although its comment calls for a panic, and `kill` does
  not pass over zombies: one that is killed resumes behind the call of the scheduler in `exit`
  (`SemaphoreTheorems.KilledZombie`). `SemaphoreTheorems.GoneUntilRoused` says exactly when: once it
  is activated after it has exited.
- `kalloc` of more than 4080 bytes returns a block that is too small. The end offset of its block is
  computed in 16 bits and kept in 13; where it does not survive that, the headers of the page make
  no sense any more. `Heap.Allocator.Kalloc` and `Heap.EndOffsetRoom` say exactly for which sizes,
  `Heap.SafeSizes` gives the first.
- A block that is changed and released without `sync` shows the change as long as it stays cached,
  and loses it when it is evicted (`BlockCache.Cache.Release`).

## Model

| member | source | states |
|---|---|---|
| `Bytes.PackRoundTrip` | src/fs/defines.h:73-79 | words laid out little-endian and packed side by side are read back unchanged |
| `Bytes.PutWordAt` | src/fs/inode.c:85-88 | writing one word of a block changes that word and no other |
| `HeaderCodec.HeaderRoundTrip` | src/fs/cache.c:80-88 | a log header written to its 512-byte block is read back unchanged |
| `HeaderCodec.HeaderLayout` | src/fs/defines.h:73-79 | the count is the first 64-bit word of the block, and the block numbers follow it |
| `HeaderCodec.KernelCodecOk` | src/fs/defines.h:73-79 | the kernel's header layout has the round trip that the log relies on, and every block reads as some header |
| `WriteAheadLog.ListLength` | src/fs/cache.c:318-340 | the scan that lists each pinned block once finds as many as there are |
| `WriteAheadLog.CommitStep` | src/fs/cache.c:318-410 | what the disk is after any number of the writes of a commit: the log so far, the header, the home blocks |
| `WriteAheadLog.CommitRecovered` | src/fs/cache.c:318-410 | after any number of writes of a commit the disk is worth all of the old state or all of the new, turning at the header write |
| `WriteAheadLog.RestoreStep` | src/fs/cache.c:206-220 | what the disk is after any number of the writes of a recovery |
| `WriteAheadLog.RestoreRecovered` | src/fs/cache.c:206-220 | a recovery, cut anywhere, does not change what the disk is worth; a complete one leaves that at home and an empty log |
| `WriteAheadLog.RecoveryCompletes` | src/fs/cache.c:206-220 | a recovery that runs to its end makes the disk what it was worth, whether or not the flag in memory was set |
| `WriteAheadLog.CrashAtomicity` | src/fs/cache.c:206-410 | cut a commit anywhere, then any number of recoveries anywhere: the first one that completes leaves all of the old home blocks or all of the new, and an empty header |
| `LogProtocol.StepInv` | src/fs/cache.c:250-447 | every step of every operation, of commit, of recovery, and a crash keep the accounts and the meaning of the disk |
| `LogProtocol.Reservation` | src/fs/cache.c:250-360 | in every run the pinned blocks are as many as the operations have charged, at most `operation_count`, which is the whole reservation of those that run and the charges of the others, and is within the log and within its header |
| `LogProtocol.NoPanic` | src/fs/cache.c:363-447 | no operation runs during a commit, each operation's two counters make up its reservation, and `write_data` finds as many blocks as `write_log` |
| `LogProtocol.CommitBegins` | src/fs/cache.c:425-438 | a commit begins exactly when the last running operation ends, and takes all that is pinned |
| `LogProtocol.KeepsContents` | src/fs/cache.c:283-315 | a block that no update names keeps the contents that its users see, until a crash |
| `LogProtocol.UpdateDurable` | src/fs/cache.c:283-447 | when `end_op` is released, the data of the last update of a block is on disk at home |
| `LogProtocol.UpdateSurvives` | src/fs/cache.c:206-447 | from the commit point after an update until another one, whatever crashes and recoveries happen, the disk is worth the data of that update |
| `LogProtocol.SyncedMeans` | src/fs/cache.c:283-315 | what an operation has synced is exactly what it has updated since it began |
| `LogProtocol.EndOpDurable` | src/fs/cache.c:413-447 | when `end_op` is released by a commit, every home block is on disk as its users last saw it, and no log is pending |
| `LogProtocol.CrashConsistency` | src/fs/cache.c:206-447 | at any moment of any run, crashes and cut recoveries included, the disk is worth what its users saw at the latest commit point since a checkpoint, or at that checkpoint; no operation was in progress then |
| `LogProtocol.RecoveryRestores` | src/fs/cache.c:206-248 | after a completed recovery the home blocks are the committed contents |
| `LogProtocol.EndOpReturns` | src/fs/cache.c:413-447 | an operation stays in `end_op` until a commit is done or it is killed (or the machine crashes); if it is not killed, every block that it has updated is at home on disk when it returns |
| `LogProtocol.EscapeExact` | src/fs/cache.c:429-437 | an operation killed in `end_op`, whether a commit is under way or not, finds a block that it has updated on disk exactly when `write_data` has sent it already or it holds what it held at the latest checkpoint |
| `LogProtocol.KilledRun` | src/kernel/proc.c:145-174 | on every disk with room for two operations there is such a run that leaves a synced block off the disk |
| `LogProtocol.CrashPossible` | src/fs/cache.c:206-248 | a crash is possible in every state, so the statements about crashes are about all of them |
| `LogProtocol.CommitProceeds` | src/fs/cache.c:401-410 | a commit can always take its next step |
| `LogProtocol.RecoveryProceeds` | src/fs/cache.c:206-220 | a recovery can always take its next step |
| `BlockCache.Cache.Init` | src/fs/cache.c:206-247 | the writes of a recovery, then an empty cache that shows what the disk was worth, and no log pending |
| `BlockCache.Cache.Lookup` | src/fs/cache.c:113-124 | the cached copy of a block, or none if there is none |
| `BlockCache.Cache.Victim` | src/fs/cache.c:143-150 | the last block of the list that is neither referenced nor pinned |
| `BlockCache.Cache.Grow` | src/fs/cache.c:126-140 | a new block in front of the list, read from disk; the view of every block stays |
| `BlockCache.Cache.Reuse` | src/fs/cache.c:143-161 | an idle block turned into another; the view of every block stays |
| `BlockCache.Cache.Acquire` | src/fs/cache.c:109-176 | the block with the contents that its users last saw, taken exactly if nobody holds it, and else referenced so that it stays; a cached block stays in place, another is a new one in front while there are few or all are busy, and else takes the place of the last idle one; no view and no other block changes |
| `BlockCache.Cache.Obtain` | src/fs/cache.c:120-122 | a caller that had to wait takes the block when it is free |
| `BlockCache.Cache.Release` | src/fs/cache.c:179-204 | no other view changes, and this one exactly if an unsynced change is evicted; the block is evicted exactly if it is idle and there are too many, comes to the front if it is idle otherwise, and the order of the others stays; the cache stays in order exactly if the block is gone, pinned or as on disk |
| `BlockCache.Cache.WriteThrough` | src/fs/cache.c:285-291 | without an operation the block goes straight to disk, and no view changes |
| `BlockCache.Cache.Sync` | src/fs/cache.c:283-315 | in an operation the block is pinned and charged once, and the counters keep their sum; failure exactly when the reservation is used up; no view changes |
| `BlockCache.Cache.PinnedBlocks` | src/fs/cache.c:318-338 | the pinned blocks, each once, in list order |
| `BlockCache.Cache.CopyToLog` | src/fs/cache.c:343-352 | the device writes to the log, in order, and no change at home |
| `BlockCache.Cache.FillHeader` | src/fs/cache.c:353-359 | the header names the pinned blocks in the order of the log |
| `BlockCache.Cache.SendHome` | src/fs/cache.c:388-390 | the device writes home, in order, and what they make of the disk |
| `BlockCache.Cache.UnpinAll` | src/fs/cache.c:391-395 | nothing is pinned any more, and no view changes |
| `BlockCache.Cache.WriteData` | src/fs/cache.c:363-396 | the writes of `write_data`; afterwards nothing is pinned and every view is as before |
| `BlockCache.Cache.EraseHeader` | src/fs/cache.c:397-400 | the header is empty on disk and in memory |
| `BlockCache.Cache.Commit` | src/fs/cache.c:401-410 | the code issues exactly the writes of the commit of its pinned blocks; cut after any number of them, its own trace leaves the disk that the crash theorem speaks of; no home block changes for its users, and no log is pending at the end |
| `BlockCache.TraceEffect` | src/fs/cache.c:318-410 | those writes make of the disk what the crash theorem speaks of, after any number of them |
| `BlockCache.CommitCrash` | src/fs/cache.c:206-410 | crash atomicity for the trace of the code: cut anywhere, and recovered after any number of cut recoveries, it leaves all of the old home blocks or all of the new |
| `BlockCache.Cache.RestoreLog` | src/fs/cache.c:206-220 | the code issues exactly the writes of the recovery of the disk it finds, leaves at home what that disk was worth, and no log pending |
| `BlockCache.RestoreEffect` | src/fs/cache.c:206-220 | those writes make of the disk what the crash theorem speaks of, after any number of them |
| `Bitmap.PutGet` | src/common/bitmap.h:26-44 | setting or clearing a bit in 64-bit cells changes that bit and no other |
| `Bitmap.MarkMarked` | src/fs/cache.c:490-500 | marking a block in the bitmap changes its mark and no other |
| `Bitmap.FirstClear` | src/fs/cache.c:465-476 | the first clear bit of a bitmap block, below the end of the scan |
| `Bitmap.FindFree` | src/fs/cache.c:453-480 | the lowest block that is not marked, or all are |
| `Bitmap.MarkFirst` | src/user/mkfs/main.c:254-266 | on a blank disk exactly the first blocks come to be marked |
| `InodeTable.PutEntryIn` | src/fs/inode.c:80-82 | an inode entry written to its place in a block is read back unchanged, and no other entry changes |
| `InodeTable.EntryLayout` | src/fs/defines.h:51-61 | the size is in word 2 of an entry, the direct addresses in the next twelve, the indirect one in the last |
| `InodeTable.PutOnWord` | src/fs/inode.c:176-191 | writing an entry changes no word of another entry, and leaves the words with its own type, device and links |
| `InodeTable.OnlyEntry` | src/fs/inode.c:176-191 | if one entry of the table has changed, then its words are the only ones before the bitmap that have |
| `InodeTable.BeforeInodes` | src/fs/defines.h:34-49 | so the super block and the log area are the same altogether |
| `InodeTable.InodesPut` | src/fs/inode.c:176-191 | writing the entry of one inode to disk changes that entry and no other |
| `FileSpec.WriteExact` | src/fs/inode.c:490-529 | the contents after a write are the intended ones exactly when the bytes lost are zero; always so if the file grows by at most one block beyond those counted |
| `FileSpec.GrowthLoses` | src/fs/inode.c:490-529 | for every greater growth there is a source that is not stored |
| `FileSpec.TriangleZero` | src/fs/inode.c:367-440 | no block is lost exactly if the file grows by at most one block beyond those counted |
| `FileSpec.ReadBack` | src/fs/inode.c:452-529 | what was written within that bound is read back |
| `FileSpec.StepWritten` | src/fs/inode.c:507-522 | one round of the write loop takes the contents from those after `m` bytes to those after `m + c` |
| `FileSystem.SinceStep` | src/fs/inode.c:355-449 | each call of `inode_map` in a write takes free blocks only |
| `FileSystem.CountGivenUp` | src/fs/inode.c:367-440 | each such call gives up exactly the blocks beyond those counted, so their number grows as 0 + 1 + 2 + ... |
| `FileSystem.Volume.Format` | src/user/mkfs/main.c:104-132 | a disk of zeros with the blocks before the data marked is in order: every inode has an empty file, and no block is lost |
| `FileSystem.Volume.Mount` | src/fs/inode.c:151-201 | on a disk that holds files, the entries read in give exactly those files |
| `FileSystem.Volume.OnDisk` | src/fs/inode.c:176-191 | the files of a volume are on its disk, to be found by bitmap and inode entries alone |
| `FileSystem.Volume.Alloc` | src/fs/cache.c:450-487 | the lowest free block, marked and zeroed, or failure exactly on a full disk; all other data blocks and all entries as before |
| `FileSystem.Volume.Free` | src/fs/cache.c:490-500 | the mark of one block is cleared, and no data changes |
| `FileSystem.Volume.SyncEntry` | src/fs/inode.c:176-191 | the where and how long of one inode on disk changes; its type and links, all other entries, what lies before them and all data blocks stay |
| `FileSystem.Volume.FillDirect` | src/fs/inode.c:395-406 | new direct addresses, of blank blocks that were free; failure only on a full disk |
| `FileSystem.Volume.FillIndirect` | src/fs/inode.c:411-440 | new addresses in the indirect block, of blank blocks that were free; failure only on a full disk |
| `FileSystem.Volume.Lookup` | src/fs/inode.c:355-393 | without an operation, the address of the block that holds a byte, or 0 beyond the blocks counted |
| `FileSystem.Volume.Map` | src/fs/inode.c:355-449 | in an operation, the same, growing the file by blank blocks that were free, keeping those that it counted, and writing the entry back; failure only beyond the largest file or on a full disk |
| `FileSystem.Volume.WriteFile` | src/fs/inode.c:490-529 | the contents become `WriteResult`, the entry is on disk, blocks of others and their contents stay, and `LostBlocks` says how many blocks are lost; failure only where an assertion fails, with nothing changed, or on a full disk |
| `FileSystem.Volume.ReadFile` | src/fs/inode.c:452-487 | the slice of the contents, cut at the end of the file; failure exactly beyond it |
| `FileSystem.Volume.ClearFile` | src/fs/inode.c:246-283 | exactly the blocks of the file are freed, direct, indirect and the indirect block, and the file is empty, on disk too |
| `FileSystem.OneChanged` | src/fs/inode.c:246-529 | a change within one file's blocks and free ones keeps every file in its own blocks and all other contents |
| `FileSystem.Volume.Read` | src/fs/inode.c:452-487 | reading inode `n` returns the slice of its contents |
| `FileSystem.Volume.Write` | src/fs/inode.c:490-529 | writing inode `n` changes its contents to `WriteResult` and no other file's, and before the bitmap nothing but its entry; used blocks are reserved, owned or lost, and exactly `LostBlocks` more are lost; it fails where an assertion fails, with nothing changed, and else only on a full disk |
| `FileSystem.Volume.Clear` | src/fs/inode.c:246-283 | clearing inode `n` empties it, frees what it owned, and changes no other file, and before the bitmap nothing but its entry |
| `FileCrash.SameHolds` | src/fs/defines.h:34-49 | the files that a disk holds are in its home blocks, none of them in the log |
| `FileCrash.FilesDetermined` | src/fs/inode.c:355-393 | a disk determines the contents of each of its files |
| `FileCrash.FilesKept` | src/fs/cache.c:206-447 | at any moment of any run, crashes and cut recoveries included, the disk is worth one that holds exactly the files of the latest commit point since a checkpoint, or of that checkpoint; no operation was in progress then |
| `FileCrash.FilesSurvive` | src/fs/cache.c:206-248 | after a crash and a complete recovery the disk holds the files of the latest commit point, and its users see them |
| `RedBlackSpec.InsertFixCorrect` | src/common/rbtree.c:40-109 | the fix-up of an insertion makes the tree red-black again and keeps the order of the nodes |
| `RedBlackSpec.EraseFixCorrect` | src/common/rbtree.c:161-246 | the fix-up of a removal makes up for the missing black node and keeps the order of the nodes |
| `RedBlackSpec.ErasedCorrect` | src/common/rbtree.c:110-160 | removal keeps the tree red-black and drops exactly one node |
| `RedBlackSpec.HeightBound` | src/common/rbtree.c:247-297 | a tree of n nodes is at most 2 log2(n+1) deep |
| `RedBlackHeap.PlugIn` | src/common/rbtree.c:25-39 | memory holds a tree exactly when it holds a part in focus and the context around it |
| `RedBlackMove.Seat` | src/common/rbtree.c:144-157 | putting the successor in place of the node yields the tree with the successor there |
| `RedBlackTree.RbRoot.ChangeChild` | src/common/rbtree.c:25-33 | the link of the parent, or of the root, is redirected, and nothing else |
| `RedBlackTree.RbRoot.RotateSetParents` | src/common/rbtree.c:34-39 | one node takes the place and colour of another |
| `RedBlackTree.RbRoot.FixLeft` | src/common/rbtree.c:62-78 | cases 2 and 3 of the insertion fix-up, parent on the left |
| `RedBlackTree.RbRoot.FixRight` | src/common/rbtree.c:90-106 | cases 2 and 3 of the insertion fix-up, parent on the right |
| `RedBlackTree.RbRoot.InsertFixup` | src/common/rbtree.c:40-109 | memory comes to hold the tree that the fix-up is to produce, with all parent links |
| `RedBlackTree.RbRoot.Place` | src/common/rbtree.c:247-267 | the node hangs at its place in key order, or a node of equal key exists and nothing changed |
| `RedBlackTree.RbRoot.Insert` | src/common/rbtree.c:247-270 | the node is added in key order and the tree is red-black; -1 and an unchanged tree exactly when the key exists |
| `RedBlackTree.RbRoot.Lookup` | src/common/rbtree.c:277-288 | the node with the key, or null exactly when there is none |
| `RedBlackTree.RbRoot.First` | src/common/rbtree.c:289-297 | the node with the least key, or null for the empty tree |
| `RedBlackTree.RbRoot.StepLeft` | src/common/rbtree.c:164-203 | one round of the removal fix-up, short side on the left |
| `RedBlackTree.RbRoot.StepRight` | src/common/rbtree.c:204-244 | one round of the removal fix-up, short side on the right |
| `RedBlackTree.RbRoot.EraseFixup` | src/common/rbtree.c:161-246 | memory comes to hold the tree that the fix-up is to produce; the loop ends because it climbs |
| `RedBlackTree.RbRoot.Successor` | src/common/rbtree.c:129-139 | the least node of the right subtree and the path to it |
| `RedBlackTree.RbRoot.Unlink` | src/common/rbtree.c:110-160 | the node is out of the tree in memory, and the place to rebalance from is returned if there is one |
| `RedBlackTree.RbRoot.Erase` | src/common/rbtree.c:271-276 | exactly that node is removed, and the tree is red-black, sorted and correctly linked |
| `LinkedList.Merge` | src/common/list.c:8-32 | one ring is put into another after a node; a null node changes nothing |
| `LinkedList.Insert` | src/common/list.h:20-20 | a node becomes the first element of a list |
| `LinkedList.Detach` | src/common/list.c:34-44 | a node leaves its ring, which closes; null exactly when it was alone |
| `Scheduler.DetachKeeps` | src/common/list.c:34-44 | detaching removes one element of a list without repetition and no other |
| `Scheduler.DetachOrder` | src/common/list.c:34-44 | and all others stay in order |
| `Scheduler.ActivatedOk` | src/kernel/sched.c:73-106 | waking a process keeps the run queue exact, whatever state it is in; it changes nothing exactly if the process is ready or in DEEPSLEEPING on an alert, and else the process becomes RUNNABLE and the first in the queue |
| `Scheduler.ScheduledOk` | src/kernel/sched.c:170-195 | a call of the scheduler keeps the run queue and the current processes exact |
| `Scheduler.NextRunnable` | src/kernel/sched.c:178-181 | the assertion of the scheduler holds: the process picked is RUNNABLE, and idle only if it is this CPU's |
| `Scheduler.RunQueue.constructor` | src/kernel/sched.c:19-35 | at the start every CPU runs its idle process and the queue is empty, which is a state in order |
| `Scheduler.RunQueue.Activate` | src/kernel/sched.c:73-106 | the new state, and whether the process became ready |
| `Scheduler.RunQueue.UpdateThisState` | src/kernel/sched.c:108-122 | the process leaves the CPU, and the queue if it is to sleep or end |
| `Scheduler.RunQueue.PickNext` | src/kernel/sched.c:124-152 | the process at the index if it is RUNNABLE, else the last one in the queue that is; idle only if there is none, or in a panic |
| `Scheduler.RunQueue.Sched` | src/kernel/sched.c:170-195 | the state after a switch to the process so picked; a killed process stays, unless it is to end |
| `Semaphore.CancelledOk` | src/common/sem.c:63-67 | a waiter that was not posted for leaves the list, and the assertion on the counter holds |
| `Semaphore.PostedKeeps` | src/common/sem.c:74-82 | a post takes the oldest waiter off the list and no other |
| `Semaphore.ActivateAllReady` | src/common/sem.c:34-42 | waking several processes makes each of them ready and changes no other |
| `Semaphore.Counter.constructor` | src/common/sem.c:6-10 | a new semaphore is in order exactly if its counter is not negative |
| `Semaphore.Counter.Get` | src/common/sem.c:12-19 | the counter is taken down exactly if it was positive |
| `Semaphore.Counter.GetAll` | src/common/sem.c:23-32 | all that is there is taken |
| `Semaphore.Counter.BeginWait` | src/common/sem.c:51-58 | granted at once exactly if the counter was positive, else on the list |
| `Semaphore.Counter.EndWait` | src/common/sem.c:62-69 | true exactly if posted for; else off the list again |
| `Semaphore.Counter.Post` | src/common/sem.c:74-82 | the oldest waiter is marked and made ready |
| `Semaphore.Counter.PostAll` | src/common/sem.c:34-42 | it ends, wakes exactly the present waiters in the order of arrival, returns their number and leaves max(val, 0) |
| `SemaphoreRuns.SwitchInv` | src/kernel/sched.c:170-195 | handing the run queue lock over to the next process keeps every process where it should be |
| `SemaphoreRuns.PostInv` | src/common/sem.c:74-82 | a post keeps the sleep lists, the locks and the marks consistent |
| `SemaphoreRuns.WakeInv` | src/common/sem.c:80-80 | the wakeup of a post reaches its waiter, however far that has come on its way to sleep |
| `SemaphoreRuns.ReturnInv` | src/common/sem.c:62-71 | a return from `_wait_sem`, with or without a post, keeps them as well |
| `SemaphoreTheorems.StepInv` | src/common/sem.c:48-82 | every step of every process keeps the invariant |
| `SemaphoreTheorems.SchedulerExclusive` | src/kernel/sched.c:73-195 | in every run the queue holds each ready process but the idle ones exactly once, `rq_count` is its length, and a process runs exactly when it is current on one CPU |
| `SemaphoreTheorems.SwitchFair` | src/kernel/sched.c:124-195 | whoever takes a CPU was RUNNABLE, and idle takes one only when every queued process runs already |
| `SemaphoreTheorems.SleepListLength` | src/common/sem.c:48-82 | in every run the sleep list is max(0, -val) long, so both assertions hold |
| `SemaphoreTheorems.Conservation` | src/common/sem.c:12-82 | in every run the initial value and the posts of a semaphore make up its counter, its waiters and the grants, counted over the actions |
| `SemaphoreTheorems.NoLostWakeup` | src/common/sem.c:48-82 | in every run, while a semaphore's lock is free, a process in `_wait_sem` is on the sleep list or has been posted for, and then does not sleep |
| `SemaphoreTheorems.UnalertableWait` | src/common/sem.h:38-39 | a wait fails exactly if nobody has posted for it, and an unalertable one only in a process that somebody has killed before |
| `SemaphoreTheorems.KilledMeans` | src/kernel/proc.c:145-174 | a process is marked as killed exactly if somebody has killed it |
| `SemaphoreTheorems.KilledWait` | src/kernel/proc.c:145-174 | and from every start every process can come to such a failure |
| `SemaphoreTheorems.GoneUntilRoused` | src/kernel/sched.c:73-106 | in every run a process that has exited is a ZOMBIE, and ready to run again exactly if it has been activated since; then it was killed or alerted |
| `SemaphoreTheorems.KilledZombie` | src/kernel/proc.c:53-174 | and from every start every process can exit, be killed and be ready to run again |
| `SemaphoreTheorems.ServedInOrder` | src/common/sem.c:48-82 | in every run no process stays on a sleep list through more posts than there were waiters before it |
| `SemaphoreTheorems.HeldMeans` | src/common/sem.h:49-53 | the holders are exactly those granted a unit that have not posted since |
| `SemaphoreTheorems.SleepLockExclusive` | src/common/sem.h:49-53 | a sleep lock that only its holders release never has two |
| `SemaphoreTheorems.SleepLockTaken` | src/common/sem.h:49-53 | it has one exactly if its counter is not positive |
| `SemaphoreTheorems.ReleasedBetween` | src/common/sem.h:49-53 | between two grants of it there is a release |
| `HeapSpec.Disjoint` | src/kernel/mem.c:128-166 | no two blocks of a page overlap |
| `HeapSpec.WithinPage` | src/kernel/myheader.c:48-133 | every block lies between the page header and the end of its page, is aligned and can hold a free header |
| `HeapSpec.TakeOk` | src/kernel/mydata.c:7-15 | taking the head of a free list keeps pages and lists consistent |
| `HeapSpec.FreeOk` | src/kernel/mydata.c:31-38 | so does putting a block on the list for its size |
| `HeapSpec.CutOk` | src/kernel/mem.c:135-162 | so does cutting a block in two, with the back offset of the block behind |
| `HeapSpec.PageOk` | src/kernel/mem.c:91-110 | so does a new page |
| `Heap.EndOffsetRoom` | src/kernel/mem.c:99-108 | the end offset of a block survives 16 and 13 bits exactly if it is not negative in the first and leaves room for a header in the second; below 8192 it is unchanged |
| `Heap.SafeSizes` | src/kernel/mem.c:99-108 | it survives for every size up to 8168, and not for 8169 |
| `Heap.Allocator.constructor` | src/kernel/mem.c:89-89 | an empty heap is in order |
| `Heap.Allocator.FindList` | src/kernel/mem.c:195-204 | the first list that is not empty, from an index on |
| `Heap.Allocator.AllocPage` | src/kernel/mem.c:91-122 | the first block of one new page, and the rest of the page as the first block of the list for its size if it is large enough; no tiling of the page exists exactly when the end offset does not survive |
| `Heap.Allocator.AllocBlock` | src/kernel/mem.c:128-166 | the block taken, cut if at least three units are left over |
| `Heap.Allocator.Kalloc` | src/kernel/mem.c:168-216 | a block that was not live, large enough exactly if a page could hold it; the head of the first list with sufficient blocks, so of the smallest sufficient size, and one new page exactly if there is none; live blocks keep their extent; the heap stays in order exactly when the end offset survives |
| `Heap.Allocator.Kfree` | src/kernel/mem.c:218-233 | exactly that block is no longer live, and it is the head of the list for its size |
| `PageTableSpec.TableEntryParts` | src/aarch64/mmu.h:65-66 | a table entry gives back the page it was made from |
| `PageTableSpec.IndicesOfPage` | src/kernel/pt.c:30-33 | the four indices are the digits of the page number |
| `PageTableSpec.PageOfInjective` | src/aarch64/mmu.h:70-73 | different page numbers have different indices |
| `PageTableSpec.WalkIs` | src/kernel/pt.c:34-52 | following the entries along indices leads to the one table with that path, or nowhere |
| `PageTableSpec.WithTableSame` | src/kernel/pt.c:35-49 | a new intermediate table changes the translation of no page |
| `PageTableSpec.SetEntryOk` | src/kernel/pt.c:120-120 | setting a last-level entry changes the translation of one page only |
| `PageTable.PageDirectory.constructor` | src/kernel/pt.c:57-63 | a new directory has an entry for no page |
| `PageTable.PageDirectory.GetPte` | src/kernel/pt.c:12-55 | the place of the entry of a page; without `alloc` it is found exactly when all tables exist and nothing changes, with it exactly if there are pages for the missing tables, and just these are taken; no translation changes and no page is lost |
| `PageTable.PageDirectory.VmMap` | src/kernel/pt.c:108-126 | the flat map from pages to entries changes at one page; pages are taken for the missing tables only, and none is lost |
| `PageTable.PageDirectory.FreePgdir` | src/kernel/pt.c:65-98 | the pages of all tables are free again, each once, and no others |
| `Pipe.CountersTell` | src/fs/pipe.h:7-16 | the 32-bit counters tell an empty and a full pipe and the slot of a byte, although they wrap |
| `Pipe.Pipe.constructor` | src/fs/pipe.c:16-24 | a new pipe is empty and in order |
| `Pipe.Pipe.Write` | src/fs/pipe.c:66-89 | bytes are appended to the stream until all are or 512 are in flight |
| `Pipe.Pipe.Read` | src/fs/pipe.c:91-116 | the next bytes of the stream; it sleeps only on an empty pipe with a writer |
| `CtorSpec.PushOk` | musl/ldso/dynlink.c:1555-1560 | going down to a dependency that is not marked keeps the search consistent |
| `CtorSpec.EmitOk` | musl/ldso/dynlink.c:1562-1562 | so does output of an object, whose dependencies come before it or lead back to it |
| `CtorSpec.DoneSorted` | musl/ldso/dynlink.c:1550-1563 | a search that has ended has listed what the object needs, each once, in order |
| `CtorSpec.AcyclicOrder` | musl/ldso/dynlink.c:1508-1575 | without cycles every dependency precedes its dependents |
| `CtorOrder.CoursePush` | musl/ldso/dynlink.c:1555-1560 | going down to a dependency keeps output and stack on the way to the order of the recursive search |
| `CtorOrder.CourseEmit` | musl/ldso/dynlink.c:1562-1562 | so does output of an object |
| `CtorOrder.BfsAppend` | musl/ldso/dynlink.c:1342-1346 | a dependency not yet listed comes last in breadth-first order |
| `CtorOrder.OneBreadthFirst` | musl/ldso/dynlink.c:1303-1352 | a breadth-first list is determined by its beginning and its objects |
| `Ctors.Room` | musl/ldso/dynlink.c:1515-1531 | the output and the stack never fill the shared buffer |
| `Ctors.Linker.constructor` | musl/ldso/dynlink.c:1259-1301 | the lists hold the direct dependencies and nothing is marked, which is a state in order |
| `Ctors.Linker.Descend` | musl/ldso/dynlink.c:1551-1561 | the inner loop ends at an object with no dependency left, the stack staying behind the output |
| `Ctors.Linker.ClearMarks` | musl/ldso/dynlink.c:1519-1528 | the number of slots is enough for all that the object needs, by its list or by the number of objects |
| `Ctors.Linker.QueueCtors` | musl/ldso/dynlink.c:1508-1575 | for every graph it ends and returns every object needed exactly once, each after its dependencies save those that need it in turn, in the very order in which a recursive depth-first search leaves them, and a null pointer behind them; which marks are left is stated exactly |
| `Ctors.Linker.ExtendBfsDeps` | musl/ldso/dynlink.c:1303-1352 | the list of an object comes to hold exactly the objects that it needs, its direct ones first, the others once each in breadth-first order |
| `Ctors.OneList` | musl/ldso/dynlink.c:1303-1352 | there is only one such list |
| `SymbolLookup.GnuHash` | musl/ldso/dynlink.c:244-251 | the hash is 5381 * 33^n + s[0] * 33^(n-1) + ... + s[n-1] modulo 2^32 |
| `SymbolLookup.GnuLookup` | musl/ldso/dynlink.c:267-286 | the first visible symbol of that name that a linear search finds, or none exactly if it finds none |
| `SymbolLookup.GnuLookupFiltered` | musl/ldso/dynlink.c:288-298 | the same with the filter in front, which rejects no symbol that is there |

## Left out

- Drivers, interrupts, the console, trap entry, context switching in assembly and boot: device and machine code. A device write is one atomic step.
- Spinlocks, memory ordering and the lock-free page stack: locks are taken to be atomic, and a section of code under a lock to be one step.
- Blocking itself: a call that would wait is a step that is not enabled (`LogProtocol`, `SemaphoreRuns`) or a section that ends (`Pipe`). Termination of waits under fair scheduling is not stated.
- Inode allocation, reference counts, link counts, types and directories: the words of an entry that hold them are left as they are on disk.
- The limit of ten blocks for one operation is modelled in the log, not in the file layer, where a write may take any number.
- The order of nodes in a red-black tree is by an integer key, as `compare` in `src/fs/inode.c` has it; the word that packs parent and colour is two fields.
- FileSystem.Volume.Free: asks for a data block, as all its callers pass; `cache_free` would clear the mark of any block.
- FileSystem.Volume.Write: says nothing of the files after a panic on a full disk, where the kernel stops.
- FileCrash.FilesKept: takes the files at a commit point as the operations before it have left them; that each operation by itself leads from files to files is `Volume.Write` and `Volume.Clear`, and how concurrent operations exclude each other by inode locks is not part of the model.
- BlockCache.Cache.Commit: asks for no more pinned blocks than the log and its header can hold, which `LogProtocol.Reservation` shows of every run.
- Heap.Allocator.Kalloc: asks for sizes whose number of 8-byte units fits in the 16 bits that `getCeilDivEight` returns, beyond which the table is indexed out of its bounds; page counts, the flag `inUse` and concurrent calls are not part of the model, and a page is always available.
- PageTable.PageDirectory.VmMap: takes the entry as one number and does not count page references.
- PageTable.PageDirectory.FreePgdir: does not free the sections of the address space.
- SymbolLookup.GnuLookup: speaks of tables that are well formed; `& (size - 1)` on the filter is the remainder by its size, a power of two.
- Ctors.Linker.QueueCtors: memory is always available, and the check for constructors running in another thread is not part of the model.
- Message queues (`src/common/ipc.c`), `copyout`, `free_sections`, `pipeClose` and path walking: they do not do what their interfaces say, or are glue.
- exec, mmap, fork, system calls, `printk`, and the rest of the C library: glue, tables or wrappers that would only add easy members.
