# Verified models of the xv6 kernels and the synchronization exercises

This project models the hard parts of the repository in Dafny and proves what they promise.

- Crash-safe storage: the write-ahead log (`LogDisk`, `WriteAheadLog`, `LogWrites`, `LogPanic`, `LogDevice`), the buffer cache
  (`BufferCache`), inodes and their blocks (`FsImage`, `FileSystem`).
- Memory: copy-on-write fork against eager fork (`CowFrames`, `EagerFork`, `CowView`, `CowFork`), three-level page tables
  against a finite map (`Sv39`, `PageTable`), the user allocator (`HeapRing`, `Malloc`, `Allocator`).
- Scheduling and blocking: the lottery (`Lottery`), pipes with sleep and wakeup (`PipeBuffer`, `Pipe`), both
  read-write locks (`RwLock`), the bounded buffer (`MasterWorker`).
- The shell parser (`ShellLexer`, `ShellParser`, `ShellPrinter`, `ShellGrammar`). `Basics` holds what several modules share.

Code that updates state in place is modelled by classes whose methods are proved against functions on values;
protocols are state machines over their critical sections, and their theorems speak of every state of every run.
One block read or write is atomic, and so is one stretch under a lock, except where sleep, wakeup, signals or
crashes between writes are the point. A panic stops the model and is a result of the operation that panics.

`dafny verify dfyconfig.toml` checks everything.

Where the code does not keep a promise, the model follows the code, shows a failing state and gives the exact
condition:

- log_write's guard also fires on writes it would absorb, and compares with the log size less one
  (`WriteAheadLog.LogWritePanic`, `LogPanic`).
- A store at or above the process size, but inside its last page, is killed once the page is copy-on-write
  (`CowFork.Kernel.Store`, `CowFork.StoreAboveSizeKills`).
- copyout writes read-only pages that are not marked COW where they are, for everybody who shares them
  (`CowView.CopyoutExact`, `CowFork.CopyoutSmears`).
- A writer killed between two bytes returns without waking readers (`Pipe.FineExact`, `Pipe.KilledWriterStrands`).
- A copyin that fails half-way leaves bytes in a cached block that is not logged and not counted
  (`FileSystem.Fs.Writei`, `FileSystem.RoomExact`, `FileSystem.CopyinSpoils`).
- randomrange includes its upper end, so a draw can leave the process table; the model treats that as no dispatch
  (`Lottery.DrawReachesTotal`, `Lottery.PickIs`).
- The lottery frees the process lock between choice and dispatch, so two CPUs can spend one ticket twice; then
  ticket counts have no lower bound (`Lottery.NegativeExactly`, `Lottery.NoLowerBound`).
- sbrk takes an int, so morecore can use more than it was granted (`Allocator.SbrkArgExact`,
  `Allocator.OverrunAtTwoGigabytes`).
- A buffer of no cells deadlocks masters and workers (`MasterWorker.DeadlockExactly`).

## Model

| member | source | states |
|---|---|---|
| `LogDisk.EncodeHead` | xv6-Lottery-Scheduler-Offline-03/kernel/log.c:102-114 | the header block starts with the count and then the logged block numbers |
| `LogDisk.CommitStep` | xv6-Lottery-Scheduler-Offline-03/kernel/log.c:178-203 | each block write of a commit takes the disk from one point of the commit to the next: log copies, header, home blocks, erased header |
| `LogDisk.CommitAtomic` | xv6-Lottery-Scheduler-Offline-03/kernel/log.c:178-203 | crash atomicity: after any prefix of the writes of a commit, recovery yields all old home blocks or all new ones, and the new ones exactly when the first header write is in the prefix |
| `LogDisk.RecoverIdempotent` | xv6-Lottery-Scheduler-Offline-03/kernel/log.c:68-123 | a recovery cut off after any write leaves what the next recovery will produce unchanged; a complete one leaves exactly that on the home blocks and an empty log |
| `LogDisk.RestartedRecovery` | xv6-Lottery-Scheduler-Offline-03/kernel/log.c:68-123 | however often recovery crashes and restarts, at any point each time, the attempt that ends leaves on every home block what the first disk stood for, and an empty log |
| `WriteAheadLog.BeginInv` | xv6-Lottery-Scheduler-Offline-03/kernel/log.c:126-142 | admitting an operation keeps the whole invariant; its reservation fits |
| `WriteAheadLog.LogWriteInv` | xv6-Lottery-Scheduler-Offline-03/kernel/log.c:214-235 | absorbing or adding a block keeps the invariant, also when log_write panics |
| `WriteAheadLog.EndInv` | xv6-Lottery-Scheduler-Offline-03/kernel/log.c:146-175 | ending an operation, and starting the commit of the group with the last one, keeps the invariant |
| `WriteAheadLog.CommitWriteInv` | xv6-Lottery-Scheduler-Offline-03/kernel/log.c:178-203 | every block write of commit keeps the invariant |
| `WriteAheadLog.RecoverWriteInv` | xv6-Lottery-Scheduler-Offline-03/kernel/log.c:68-123 | every block write of recovery keeps the invariant |
| `WriteAheadLog.EvictInv` | xv6-Lottery-Scheduler-Offline-03/kernel/bio.c:58-89 | dropping any unpinned buffer keeps the invariant |
| `WriteAheadLog.CrashInv` | xv6-Lottery-Scheduler-Offline-03/kernel/log.c:116-123 | a crash in any state leads to a state that satisfies the invariant |
| `WriteAheadLog.CommitStepIs` | xv6-Lottery-Scheduler-Offline-03/kernel/log.c:178-203 | the buffer cache feeds each commit write the block the log protocol needs |
| `WriteAheadLog.RunInv` | xv6-Lottery-Scheduler-Offline-03/kernel/log.c:126-235 | the invariant holds in every state of every interleaving of operations, commit writes, cache fills, evictions, crashes and recoveries |
| `WriteAheadLog.DoneGrows` | xv6-Lottery-Scheduler-Offline-03/kernel/log.c:193-203 | no run takes back a committed group |
| `WriteAheadLog.WholeRunDurability` | xv6-Lottery-Scheduler-Offline-03/kernel/log.c:126-203 | recovering from any state of any run gives the first disk with exactly the committed groups applied in order; committed groups hold only ended operations, never overlap each other or a lost group, and only grow |
| `WriteAheadLog.RecoveryEnds` | xv6-Lottery-Scheduler-Offline-03/kernel/log.c:116-123 | when recovery ends, the home blocks on disk hold the committed groups and nothing else |
| `WriteAheadLog.BreadIsLogical` | xv6-Lottery-Scheduler-Offline-03/kernel/bio.c:92-103 | bread returns the disk overlaid by all logged updates, in every running or committing state of every run |
| `LogWrites.LogWriteSeen` | xv6-Lottery-Scheduler-Offline-03/kernel/log.c:214-235 | over every run, after log_write the block reads as the data it was given and every other block as before; the update joins the group, the block is logged and pinned, the disk untouched |
| `LogWrites.OnlyLogWriteLogs` | xv6-Lottery-Scheduler-Offline-03/kernel/log.c:126-235 | over every run no other step adds an update: it leaves the groups alone, commits the current one or, in a crash, drops it |
| `LogWrites.WriteLasts` | xv6-Lottery-Scheduler-Offline-03/kernel/log.c:146-235 | a block reads as last written until the next log_write to it, and once a group has committed after the write, recovery brings the data back from every later disk, crashes included |
| `LogWrites.EndCommits` | xv6-Lottery-Scheduler-Offline-03/kernel/log.c:146-203 | the last end_op closes the group at once when nothing is logged, and otherwise in exactly 2n+2 block writes, with the commit at the header write |
| `LogWrites.RecoverAt` | xv6-Lottery-Scheduler-Offline-03/kernel/log.c:68-123 | recovery ends after one block write per logged block and one for the header |
| `WriteAheadLog.ReservationHolds` | xv6-Lottery-Scheduler-Offline-03/kernel/log.c:126-142 | logged blocks plus unused reservations of all outstanding operations never exceed LOGSIZE; logged numbers are distinct home blocks and stay pinned until installed |
| `WriteAheadLog.RoomForNewBlock` | xv6-Lottery-Scheduler-Offline-03/kernel/log.c:126-142 | an operation within its MAXOPBLOCKS always finds a free header entry |
| `WriteAheadLog.LogWritePanic` | xv6-Lottery-Scheduler-Offline-03/kernel/log.c:219-222 | over every run and for every log_write, new or absorbed: it panics exactly when the on-disk log has no block left, or when the header is full and the block is already in it; a new block never meets a full header |
| `LogPanic.NewBlockPanics` | xv6-Lottery-Scheduler-Offline-03/kernel/log.c:219-222 | in a log of at most LOGSIZE blocks, three operations that keep to their reservations bring log_write to panic |
| `LogPanic.AbsorbedPanics` | xv6-Lottery-Scheduler-Offline-03/kernel/log.c:219-222 | in a larger log, a write that would be absorbed panics once the header is full |
| `LogDevice.Log.constructor` | xv6-Lottery-Scheduler-Offline-03/kernel/log.c:54-65 | memory at boot |
| `LogDevice.Log.FillHeader` | xv6-Lottery-Scheduler-Offline-03/kernel/log.c:106-111 | the loop of write_head encodes the in-memory header |
| `LogDevice.Log.WriteHead` | xv6-Lottery-Scheduler-Offline-03/kernel/log.c:102-114 | one block write, of the encoded header |
| `LogDevice.Log.WriteLog` | xv6-Lottery-Scheduler-Offline-03/kernel/log.c:178-191 | the writes issued are the log copies in order |
| `LogDevice.Log.InstallTrans` | xv6-Lottery-Scheduler-Offline-03/kernel/log.c:68-83 | the writes issued are the home blocks in order; pins are dropped outside recovery |
| `LogDevice.Log.Commit` | xv6-Lottery-Scheduler-Offline-03/kernel/log.c:193-203 | the writes issued are exactly those of the atomicity theorem, in its order; nothing when nothing was logged |
| `LogDevice.Log.ReadHead` | xv6-Lottery-Scheduler-Offline-03/kernel/log.c:86-97 | the in-memory header equals the decoded header block |
| `LogDevice.Log.RecoverFromLog` | xv6-Lottery-Scheduler-Offline-03/kernel/log.c:116-123 | the writes issued are exactly those of the recovery theorems |
| `LogDevice.Log.LogWrite` | xv6-Lottery-Scheduler-Offline-03/kernel/log.c:214-235 | absorption or append, pinning a new block once; the exact condition of the two panics |
| `LogDevice.Log.TryBegin` | xv6-Lottery-Scheduler-Offline-03/kernel/log.c:126-142 | lets an operation in exactly when the protocol allows its begin step, and the invariant behind the crash theorems still holds after it; refuses only while committing or without room |
| `LogDevice.Log.EndOp` | xv6-Lottery-Scheduler-Offline-03/kernel/log.c:146-175 | the last outstanding operation commits the whole group, earlier ones write nothing |
| `BufferCache.Unlink` | xv6-Lottery-Scheduler-Offline-03/kernel/bio.c:128-129 | taking a buffer out of the doubly linked ring leaves a ring of the others, in order |
| `BufferCache.PushFront` | xv6-Lottery-Scheduler-Offline-03/kernel/bio.c:130-133 | the four assignments put the buffer first in the ring |
| `BufferCache.Cache.constructor` | xv6-Lottery-Scheduler-Offline-03/kernel/bio.c:36-53 | binit builds one ring of all buffers |
| `BufferCache.Cache.Bget` | xv6-Lottery-Scheduler-Offline-03/kernel/bio.c:58-89 | the buffer that holds the block, or the least recently released idle one; fails exactly when all are busy and none holds the block; no block is ever held twice |
| `BufferCache.Cache.Recycle` | xv6-Lottery-Scheduler-Offline-03/kernel/bio.c:75-88 | the second scan takes the least recently released idle buffer |
| `BufferCache.Cache.Bread` | xv6-Lottery-Scheduler-Offline-03/kernel/bio.c:92-103 | returns the contents of the block; as long as idle buffers hold nothing newer than the disk, every other block reads as before |
| `BufferCache.Cache.Bwrite` | xv6-Lottery-Scheduler-Offline-03/kernel/bio.c:106-112 | from then on the disk alone has the block as the cache shows it, every block still reads as before, and idle buffers still hold nothing newer than the disk |
| `BufferCache.Cache.MoveToFront` | xv6-Lottery-Scheduler-Offline-03/kernel/bio.c:127-133 | the ring keeps all its buffers and the order of the others |
| `BufferCache.Cache.Brelse` | xv6-Lottery-Scheduler-Offline-03/kernel/bio.c:116-137 | an idle buffer becomes the most recently used, others keep their place; no contents change, and idle buffers go on to hold nothing newer than the disk exactly when this one is still referenced or written back |
| `BufferCache.Cache.Bpin` | xv6-Lottery-Scheduler-Offline-03/kernel/bio.c:139-144 | one more reference, and no block reads differently |
| `BufferCache.Cache.Bunpin` | xv6-Lottery-Scheduler-Offline-03/kernel/bio.c:146-151 | one reference less, no block reads differently, and the same exact condition for idle buffers |
| `BufferCache.ReadContents` | xv6-Lottery-Scheduler-Offline-03/kernel/bio.c:92-103 | a read and the eviction behind it are invisible through the cache |
| `BufferCache.OldestFound` | xv6-Lottery-Scheduler-Offline-03/kernel/bio.c:75-88 | scanning the ring from its tail finds the least recently released idle buffer |
| `BufferCache.UniqueRecycled` | xv6-Lottery-Scheduler-Offline-03/kernel/bio.c:75-88 | recycling a buffer for a block nobody holds keeps every block held at most once |
| `CowFrames.SoleMapper` | xv6-Copy-On-Write-Memory-Offline-05/1805112.patch:174-177 | a frame counted once has one mapping entry |
| `CowFrames.Share` | xv6-Copy-On-Write-Memory-Offline-05/1805112.patch:274-291 | sharing a frame with a second entry keeps counts equal to the number of mapping entries |
| `CowFrames.Unmap` | xv6-Copy-On-Write-Memory-Offline-05/1805112.patch:77-103 | dropping an entry and its reference keeps the accounts; the frame goes on the free list exactly with its last reference |
| `CowFrames.Move` | xv6-Copy-On-Write-Memory-Offline-05/1805112.patch:179-207 | moving one entry to a fresh copy keeps the accounts |
| `EagerFork.ForkUndone` | xv6-Lottery-Scheduler-Offline-03/kernel/vm.c:305-333 | removing the child of a fork gives back the memory before it |
| `EagerFork.StepSized` | xv6-Lottery-Scheduler-Offline-03/kernel/vm.c:225-297 | under eager copying a process has exactly the pages below its size after every operation |
| `EagerFork.RunNext` | xv6-Lottery-Scheduler-Offline-03/kernel/vm.c:305-333 | an eager run goes on from where its prefix ended |
| `EagerFork.WriteStores` | xv6-Lottery-Scheduler-Offline-03/kernel/vm.c:351-371 | after a write process p loads the bytes at their own addresses, and every other address of every process loads as before |
| `EagerFork.ForkLoads` | xv6-Lottery-Scheduler-Offline-03/kernel/vm.c:305-333 | the child of a fork loads at every address what its parent loads there |
| `EagerFork.ReachIs` | xv6-Lottery-Scheduler-Offline-03/kernel/vm.c:351-371 | copyout is stopped by the first address it cannot translate |
| `EagerFork.RoundUp` | xv6-Lottery-Scheduler-Offline-03/kernel/riscv.h:338 | the number of pages that sz bytes take |
| `CowView.SmearFrame` | xv6-Copy-On-Write-Memory-Offline-05/1805112.patch:319-339 | writing the frame of a read-only page writes it for every process that maps the frame |
| `CowView.SmearStores` | xv6-Copy-On-Write-Memory-Offline-05/1805112.patch:319-339 | what loads tell of such a write: the bytes at their addresses in p and in the pages that share its read-only frames, and nothing else |
| `CowView.CopyoutExact` | xv6-Copy-On-Write-Memory-Offline-05/1805112.patch:319-339 | copyout does what eager copying does if and only if every read-only page it changes is shared with nobody |
| `CowView.TameNext` | xv6-Copy-On-Write-Memory-Offline-05/1805112.patch:218-225 | stores below the process size and copyouts on writable pages stay so along an eager run |
| `CowFork.SameCounts` | xv6-Copy-On-Write-Memory-Offline-05/1805112.patch:294-298 | equal entries and held frames mean equal reference counts: nothing leaked |
| `CowFork.Kernel.constructor` | xv6-Copy-On-Write-Memory-Offline-05/1805112.patch:58-75 | kinit: every frame is free once, with count zero |
| `CowFork.Kernel.Kalloc` | xv6-Copy-On-Write-Memory-Offline-05/1805112.patch:105-122 | takes the head of the free list with count one; fails exactly when the list is empty; no process sees a difference |
| `CowFork.Kernel.Kfree` | xv6-Copy-On-Write-Memory-Offline-05/1805112.patch:77-103 | one reference less, and onto the free list with the last one |
| `CowFork.Kernel.SharePage` | xv6-Copy-On-Write-Memory-Offline-05/1805112.patch:262-291 | the child sees the parent's page, both entries lose PTE_W, and no view changes |
| `CowFork.Kernel.UvmCopy` | xv6-Copy-On-Write-Memory-Offline-05/1805112.patch:247-298 | all pages shared or, when memory runs out, none; the view is that of the eager copy |
| `CowFork.Kernel.Fork` | xv6-Copy-On-Write-Memory-Offline-05/1805112.patch:247-298 | the view is that of an eager fork; a failed fork leaves view, sizes, page tables and every reference count as before |
| `CowFork.Kernel.CowAlloc` | xv6-Copy-On-Write-Memory-Offline-05/1805112.patch:165-209 | the page becomes private and writable and nothing else changes for any process; the exact failure condition and the frames it takes |
| `CowFork.Kernel.Store` | xv6-Copy-On-Write-Memory-Offline-05/1805112.patch:218-225 | a user store does what it does under eager copying: the address loads the byte and every other address of every process loads as before; the exact condition under which the fault handler kills the process |
| `CowFork.Kernel.Copyout` | xv6-Copy-On-Write-Memory-Offline-05/1805112.patch:319-339 | what every process loads afterwards, read-only pages included; it stops short exactly when the free list is shorter than the copies it takes; it agrees with eager copying exactly when it changes no shared read-only page |
| `CowFork.Kernel.UvmUnmap` | xv6-Lottery-Scheduler-Offline-03/kernel/vm.c:170-192 | panics exactly at an unmapped page; otherwise removes exactly the pages of the range, with their references |
| `CowFork.Kernel.GrowProc` | xv6-Lottery-Scheduler-Offline-03/kernel/vm.c:225-249 | zeroed pages up to the new size, or nothing when memory runs out |
| `CowFork.Kernel.ShrinkProc` | xv6-Lottery-Scheduler-Offline-03/kernel/vm.c:255-267 | removes exactly the pages above the new size |
| `CowFork.Kernel.Exit` | xv6-Lottery-Scheduler-Offline-03/kernel/vm.c:291-297 | returns all pages and page-table pages of the process |
| `CowFork.Kernel.Spawn` | xv6-Lottery-Scheduler-Offline-03/kernel/proc.c:177-207 | a new, empty process |
| `CowFork.Kernel.Perform` | xv6-Copy-On-Write-Memory-Offline-05/1805112.patch:165-339 | frame accounting holds between operations: counts equal mapping entries, free frames are the uncounted ones, writable entries are unshared; an operation reports success exactly when the free list covers the frames it takes and it is allowed; with memory enough it refines its eager counterpart unless it is misjudged |
| `CowFork.Kernel.Run` | xv6-Copy-On-Write-Memory-Offline-05/1805112.patch:165-339 | over any sequence of operations every process sees what eager copying shows, up to an operation that finds the actual free list too short or is misjudged in the actual state; none does when the free list covers the cost of the run, stores stay below the process size and copyouts on writable pages |
| `CowFork.StoreAboveSizeKills` | xv6-Copy-On-Write-Memory-Offline-05/1805112.patch:218-225 | a store above the process size but inside its last page is killed although eager copying allows it |
| `CowFork.CopyoutSmears` | xv6-Copy-On-Write-Memory-Offline-05/1805112.patch:319-339 | after a fork, copyout to a read-only page of one process changes what the other sees, which eager copying does not |
| `FsImage.GetPut` | xv6-Lottery-Scheduler-Offline-03/kernel/fs.c:408-420 | words of an indirect block are independent |
| `FsImage.AttachOwned` | xv6-Lottery-Scheduler-Offline-03/kernel/fs.c:382-421 | giving a free block to an empty slot keeps every named block named once |
| `FsImage.AttachFiles` | xv6-Lottery-Scheduler-Offline-03/kernel/fs.c:382-421 | allocating a block changes no file |
| `FsImage.PutBytes` | xv6-Lottery-Scheduler-Offline-03/kernel/fs.c:518-531 | a write inside one block changes exactly those bytes of the one file that owns it |
| `FsImage.TruncatedConsistent` | xv6-Lottery-Scheduler-Offline-03/kernel/fs.c:425-453 | truncation keeps ownership consistent and other files unchanged |
| `FileSystem.Fs.constructor` | xv6-Lottery-Scheduler-Offline-03/kernel/fs.c:41-47 | mounting an image; a consistent one gives a valid file system |
| `FileSystem.Fs.Balloc` | xv6-Lottery-Scheduler-Offline-03/kernel/fs.c:65-88 | the lowest free block, zeroed and marked; 0 exactly when the disk is full; which blocks are logged |
| `FileSystem.Fs.Bfree` | xv6-Lottery-Scheduler-Offline-03/kernel/fs.c:90-105 | clears the bit of a block in use |
| `FileSystem.Fs.Bmap` | xv6-Lottery-Scheduler-Offline-03/kernel/fs.c:382-421 | the block of a file position, allocated on demand behind its indirect block; never changes any file; which blocks are logged |
| `FileSystem.Fs.Iupdate` | xv6-Lottery-Scheduler-Offline-03/kernel/fs.c:225-241 | the inode on disk equals the one in memory |
| `FileSystem.Fs.Writei` | xv6-Lottery-Scheduler-Offline-03/kernel/fs.c:505-539 | replaces [off, off+tot) and extends the size to the larger end, other files stay; -1 exactly for bad arguments; it stops on a block boundary; with enough free blocks the arguments alone decide how far it comes, and the file is the old one with just the bytes written if and only if the bytes of a piece that failed half-way are the ones already there; every block changed is logged, except the one of a failed copyin, and at most MAXOPBLOCKS for up to three blocks of bytes |
| `FileSystem.PartialExact` | xv6-Lottery-Scheduler-Offline-03/kernel/fs.c:522-525 | bytes left behind by a failed copyin are invisible exactly when they are the ones that were there |
| `FileSystem.RoomExact` | xv6-Lottery-Scheduler-Offline-03/kernel/fs.c:505-539 | the bytes counted and stored, and the exact condition for an unspoilt file, from the arguments and the free blocks before the call |
| `FileSystem.CopyinSpoils` | xv6-Lottery-Scheduler-Offline-03/kernel/fs.c:520-525 | a mounted image and a call whose copyin fails inside the first block: nothing is counted and the file has changed |
| `FileSystem.CopiedAll` | xv6-Lottery-Scheduler-Offline-03/kernel/fs.c:517-528 | every byte is counted exactly when every byte can be copied in |
| `FileSystem.Fs.Readi` | xv6-Lottery-Scheduler-Offline-03/kernel/fs.c:471-496 | delivers the bytes of the file from off on, as many as were asked for, as the file has and as the caller's memory takes, with no change; -1 exactly when it is the memory that ends first |
| `FileSystem.WriteThenRead` | xv6-Lottery-Scheduler-Offline-03/kernel/fs.c:471-539 | reading at off right after writing there gives back exactly the bytes that were counted |
| `FileSystem.Fs.Itrunc` | xv6-Lottery-Scheduler-Offline-03/kernel/fs.c:425-453 | frees exactly the blocks of the inode, each marked in use when its turn comes, so the panic on freeing a free block is unreachable; every block changed is logged |
| `FileSystem.FreedSlot` | xv6-Lottery-Scheduler-Offline-03/kernel/fs.c:425-453 | the next block to free is still marked in use |
| `FileSystem.BlocksConserved` | xv6-Lottery-Scheduler-Offline-03/kernel/fs.c:65-105 | metadata, owned and free blocks add up to the disk |
| `FileSystem.FirstRoundMapped` | xv6-Lottery-Scheduler-Offline-03/kernel/fs.c:505-539 | an unaligned start falls in a block the file already has |
| `FileSystem.Fs.WriteChunk` | xv6-Lottery-Scheduler-Offline-03/kernel/file.c:155-168 | one transaction of filewrite logs at most MAXOPBLOCKS distinct blocks, for any number of bitmap blocks, and takes at most one free block per piece and one more |
| `FileSystem.Fs.FileWrite` | xv6-Lottery-Scheduler-Offline-03/kernel/file.c:149-175 | the file becomes the overlay of the bytes written, with the same exception for a failed copyin, other files stay; how far it comes is that of the arguments unless the disk fills up, and with enough free blocks it returns the full count exactly when all bytes can be copied in and fit |
| `FileSystem.FileAll` | xv6-Lottery-Scheduler-Offline-03/kernel/file.c:149-175 | chunk by chunk everything goes in exactly when everything can be copied in and fits the largest file |
| `Sv39.PxPage` | xv6-Lottery-Scheduler-Offline-03/kernel/riscv.h:355-357 | the three indices determine the page of an address below MAXVA |
| `Sv39.SlotsDistinct` | xv6-Lottery-Scheduler-Offline-03/kernel/vm.c:85-103 | distinct pages below MAXVA reach distinct leaf slots |
| `Sv39.ViewAt` | xv6-Lottery-Scheduler-Offline-03/kernel/vm.c:108-126 | every address of a page translates as the page's entry in the finite map |
| `Sv39.SetView` | xv6-Lottery-Scheduler-Offline-03/kernel/vm.c:158-190 | writing the leaf entry of a page updates or removes that page in the finite map and nothing else |
| `Sv39.LinkView` | xv6-Lottery-Scheduler-Offline-03/kernel/vm.c:96-100 | adding an empty page-table page changes no translation |
| `Sv39.FreedRoot` | xv6-Lottery-Scheduler-Offline-03/kernel/vm.c:271-287 | the order of freewalk lists every page-table page exactly once |
| `PageTable.Vm.constructor` | xv6-Lottery-Scheduler-Offline-03/kernel/vm.c:196-205 | an empty page table |
| `PageTable.Vm.Walk` | xv6-Lottery-Scheduler-Offline-03/kernel/vm.c:85-103 | finds the leaf slot, adding tables on demand; with alloc it fails exactly when fewer pages are free than tables are missing, and otherwise takes exactly those; translations stay as they are and no page is lost, also when memory runs out |
| `PageTable.Vm.Mappages` | xv6-Lottery-Scheduler-Offline-03/kernel/vm.c:142-165 | the finite map with the mapped stretch added and nothing else changed; it succeeds exactly when the pages lie below MAXVA, none is mapped and the free pages cover the tables missing for the stretch; otherwise it stops at the first page that is mapped, beyond MAXVA or without memory, with the outcome of that page; 64-bit wrap of the end included |
| `PageTable.StoppedDone` | xv6-Lottery-Scheduler-Offline-03/kernel/vm.c:142-165 | stopping page by page comes to success exactly when the whole stretch can be mapped |
| `Sv39.LinkHasTable` | xv6-Lottery-Scheduler-Offline-03/kernel/vm.c:96-100 | a new table is there for exactly the addresses it covers |
| `PageTable.Vm.Uvmunmap` | xv6-Lottery-Scheduler-Offline-03/kernel/vm.c:170-192 | aligned, it succeeds exactly when all npages pages are mapped as leaves and no frame to be freed is a table; otherwise it ends as the first page that stops it; on success exactly these pages go and each frame is put on the free list once; the free list stays sound when those frames were private; a range whose end passes 2^64 included |
| `PageTable.Vm.Freewalk` | xv6-Lottery-Scheduler-Offline-03/kernel/vm.c:271-287 | succeeds exactly when no lowest-level entry is left, and then returns each table below once; otherwise it panics at a leaf or follows an entry without permissions |
| `PageTable.Vm.Uvmfree` | xv6-Lottery-Scheduler-Offline-03/kernel/vm.c:291-297 | succeeds exactly when the mapped pages are those that begin below the size and none of their frames is a table; then every frame and every page-table page goes back exactly once and nothing is left; otherwise which page stops it |
| `PageTable.ClearRoot` | xv6-Lottery-Scheduler-Offline-03/kernel/vm.c:271-287 | the tables hold no leaf exactly when the finite map is empty |
| `HeapRing.SearchStops` | xv6-Lottery-Scheduler-Offline-03/user/umalloc.c:30-32 | the stop condition of free's search holds at exactly one block of the ring |
| `HeapRing.InsertRing` | xv6-Lottery-Scheduler-Offline-03/user/umalloc.c:33-43 | inserting there keeps the ring and its address order |
| `HeapRing.AbsorbRing` | xv6-Lottery-Scheduler-Offline-03/user/umalloc.c:33-43 | merging a neighbour keeps the ring and its address order |
| `Malloc.TakeWholeOk` | xv6-Lottery-Scheduler-Offline-03/user/umalloc.c:76-77 | taking a whole block keeps list, disjointness and units |
| `Malloc.TakeTailOk` | xv6-Lottery-Scheduler-Offline-03/user/umalloc.c:78-82 | taking the tail of a block keeps list, disjointness and units |
| `Allocator.CoalescedIs` | xv6-Lottery-Scheduler-Offline-03/user/umalloc.c:33-42 | the four assignments of free equal insertion, then merging upwards, then downwards |
| `Allocator.FreedOk` | xv6-Lottery-Scheduler-Offline-03/user/umalloc.c:24-44 | after free the list is in order, its blocks touch neither each other nor live blocks, and no unit is lost |
| `Allocator.GrantOk` | xv6-Lottery-Scheduler-Offline-03/user/umalloc.c:46-61 | fresh units above the heap count as one more live block |
| `Allocator.SbrkArgExact` | xv6-Lottery-Scheduler-Offline-03/user/umalloc.c:54 | sbrk is asked for what morecore goes on to use if and only if that fits an int, and for less otherwise |
| `Allocator.OverrunAtTwoGigabytes` | xv6-Lottery-Scheduler-Offline-03/user/umalloc.c:46-61 | the first request of 2^31 bytes is overrun, whatever sbrk could grant |
| `Allocator.Arena.constructor` | xv6-Lottery-Scheduler-Offline-03/user/umalloc.c:21-22 | the empty heap |
| `Allocator.Arena.FindSpot` | xv6-Lottery-Scheduler-Offline-03/user/umalloc.c:30-32 | the search ends at the one block the freed block belongs after |
| `Allocator.Arena.Free` | xv6-Lottery-Scheduler-Offline-03/user/umalloc.c:24-44 | the live blocks lose exactly the freed one; list order, gaps, disjointness and units are kept |
| `Allocator.Arena.Morecore` | xv6-Lottery-Scheduler-Offline-03/user/umalloc.c:46-61 | a free block of at least the requested units, or the exact condition of failure or overrun; the break moves by the larger of 4096 and the request, and only on success |
| `Allocator.Arena.Malloc` | xv6-Lottery-Scheduler-Offline-03/user/umalloc.c:63-90 | a new live block of exactly the units for the request, disjoint from all others; NULL and overrun each under their exact condition; the break moves only when no free block is long enough; the search ends |
| `RwLock.StepInv` | Pthread-Synchronization-Offline-04/rwlock/rwlock-writer-pref.cpp:11-66 | counters, exclusion and attended sleepers are kept by every step of both locks |
| `RwLock.RunInv` | Pthread-Synchronization-Offline-04/rwlock/rwlock-reader-pref.cpp:11-64 | they hold over every schedule with spurious wakeups |
| `RwLock.MutualExclusion` | Pthread-Synchronization-Offline-04/rwlock/rwlock-writer-pref.cpp:11-66 | a writer is never inside together with a reader or another writer, in both locks |
| `RwLock.NoLostWakeup` | Pthread-Synchronization-Offline-04/rwlock/rwlock-reader-pref.cpp:25-64 | no idle lock with a sleeping thread and nobody woken, in both locks |
| `RwLock.WritersFirst` | Pthread-Synchronization-Offline-04/rwlock/rwlock-writer-pref.cpp:11-23 | with writer preference no reader enters while a writer waits |
| `RwLock.ReadersFirst` | Pthread-Synchronization-Offline-04/rwlock/rwlock-reader-pref.cpp:11-23 | with reader preference a reader sleeps only while a writer is inside |
| `RwLock.ReaderEnters` | Pthread-Synchronization-Offline-04/rwlock/rwlock-writer-pref.cpp:11-23 | over every run a reader gets in exactly when no thread is writing and, with writer preference, no writer waits; otherwise it sleeps, and nobody else moves |
| `RwLock.WriterEnters` | Pthread-Synchronization-Offline-04/rwlock/rwlock-writer-pref.cpp:37-49 | over every run a writer gets in exactly when no thread is reading or writing; otherwise it sleeps, and nobody else moves |
| `RwLock.ReaderLeaves` | Pthread-Synchronization-Offline-04/rwlock/rwlock-writer-pref.cpp:25-35 | whom a leaving reader wakes, thread by thread, in both locks |
| `RwLock.WriterLeaves` | Pthread-Synchronization-Offline-04/rwlock/rwlock-writer-pref.cpp:51-66 | whom a leaving writer wakes, thread by thread, in both locks |
| `RwLock.TwoReaders` | Pthread-Synchronization-Offline-04/rwlock/rwlock-writer-pref.cpp:11-23 | two readers can be inside at once, in both locks |
| `RwLock.AnyThreadCanMove` | Pthread-Synchronization-Offline-04/rwlock/rwlock-writer-pref.cpp:11-66 | no thread is ever held up but by the lock: each can take its next step at any time, and any one sleeping writer can be the one a signal wakes |
| `PipeBuffer.PutPending` | xv6-Lottery-Scheduler-Offline-03/kernel/pipe.c:91-96 | storing a byte appends it to the pending bytes, across counter wrap-around |
| `PipeBuffer.GetPending` | xv6-Lottery-Scheduler-Offline-03/kernel/pipe.c:119-123 | taking a byte removes the oldest pending one, across counter wrap-around |
| `PipeBuffer.Ring.Fill` | xv6-Lottery-Scheduler-Offline-03/kernel/pipe.c:82-98 | the copy loop of pipewrite, undisturbed, appends bytes until the buffer is full |
| `PipeBuffer.Ring.Drain` | xv6-Lottery-Scheduler-Offline-03/kernel/pipe.c:118-126 | the copy loop of piperead delivers the oldest bytes |
| `Pipe.StepInv` | xv6-Lottery-Scheduler-Offline-03/kernel/pipe.c:58-130 | every byte of pipewrite, every other stretch under the pipe lock and every kill keeps the queue law, the lock, and the reason every resting writer has |
| `Pipe.Fifo` | xv6-Lottery-Scheduler-Offline-03/kernel/pipe.c:76-130 | over every run readers get exactly the written bytes in order, and at most PIPESIZE are pending |
| `Pipe.StepBytes` | xv6-Lottery-Scheduler-Offline-03/kernel/pipe.c:76-130 | over every run only a writer's step adds a written byte, its next one, and a reader that does not sleep gets as much as it asked for and the pipe has |
| `Pipe.OwnBytes` | xv6-Lottery-Scheduler-Offline-03/kernel/pipe.c:76-103 | the bytes a call of pipewrite adds are its own in order, and all of them when it finishes |
| `Pipe.HolderTurn` | xv6-Lottery-Scheduler-Offline-03/kernel/pipe.c:76-103 | over every run, exactly when the writer with the pipe lock stores a byte, gives up, sleeps on a full pipe or returns |
| `Pipe.OthersTurn` | xv6-Lottery-Scheduler-Offline-03/kernel/pipe.c:76-130 | over every run, exactly when a waiting reader or writer gets the pipe lock; who dozes can always fall asleep |
| `Pipe.FineExact` | xv6-Lottery-Scheduler-Offline-03/kernel/pipe.c:76-103 | a step leaves a reader asleep on a pipe that is not empty exactly when a writer, killed after it stored bytes in this stretch, gives up |
| `Pipe.NoLostWakeup` | xv6-Lottery-Scheduler-Offline-03/kernel/proc.c:604-651 | over every run, with the pipe lock free, a resting reader faces an empty pipe with an open write end, unless a writer killed between two bytes left it there and no wakeup has followed |
| `Pipe.WriterAwoken` | xv6-Lottery-Scheduler-Offline-03/kernel/proc.c:604-651 | over every run, kills included, a resting writer faces a full pipe with an open read end |
| `Pipe.KilledWriterStrands` | xv6-Lottery-Scheduler-Offline-03/kernel/pipe.c:82-87 | a run in which the killed writer leaves a reader asleep with a byte in the pipe |
| `Pipe.NeverBothAsleep` | xv6-Lottery-Scheduler-Offline-03/kernel/pipe.c:76-130 | readers and writers never rest at the same time, kills included |
| `Lottery.PickIs` | xv6-Lottery-Scheduler-Offline-03/kernel/proc.c:500-522 | a process is dispatched exactly for the draws that name one of its tickets; the search leaves the table exactly for draws not below the total |
| `Lottery.TicketShare` | xv6-Lottery-Scheduler-Offline-03/kernel/proc.c:500-522 | of the draws below the total each process wins exactly its current tickets |
| `Lottery.Accounting` | xv6-Lottery-Scheduler-Offline-03/kernel/proc.c:467-543 | whatever the draws and whatever other processes do, the dispatches of an always-ready process equal the tickets it was given less those it holds |
| `Lottery.ShareBetweenResets` | xv6-Lottery-Scheduler-Offline-03/kernel/proc.c:486-496 | between two resets an always-ready process is dispatched exactly initial_tickets times |
| `Lottery.ProportionalShare` | xv6-Lottery-Scheduler-Offline-03/kernel/proc.c:467-543 | two always-ready processes run in the ratio of their tickets up to one allotment, at every moment of every run |
| `Lottery.NeverNegative` | xv6-Lottery-Scheduler-Offline-03/kernel/proc.c:467-543 | on one CPU, over every run of choices, dispatches, forks, settickets and state changes, no ticket count is negative |
| `Lottery.NegativeExactly` | xv6-Lottery-Scheduler-Offline-03/kernel/proc.c:467-543 | some run takes a process below zero if and only if there is more than one CPU |
| `Lottery.NoLowerBound` | xv6-Lottery-Scheduler-Offline-03/kernel/proc.c:467-543 | with more than one CPU ticket counts fall below any bound |
| `Lottery.ChooseThenPay` | xv6-Lottery-Scheduler-Offline-03/kernel/proc.c:486-541 | a choice dispatched at once is one round of the lottery |
| `Lottery.TicketsSet` | xv6-Lottery-Scheduler-Offline-03/kernel/proc.c:756-774 | settickets changes nothing for fewer than one ticket, and otherwise takes effect at the next reset and on that process only |
| `Lottery.SpendExact` | xv6-Lottery-Scheduler-Offline-03/kernel/proc.c:524-541 | paying for a dispatch takes a process below zero exactly when it has no ticket left by then |
| `Lottery.SpentTwice` | xv6-Lottery-Scheduler-Offline-03/kernel/proc.c:515-541 | with a second CPU one ticket is spent twice between choice and dispatch |
| `Lottery.SomeoneCanWin` | xv6-Lottery-Scheduler-Offline-03/kernel/proc.c:485-500 | while some process is runnable, some draw dispatches one |
| `Lottery.DrawReachesTotal` | xv6-Lottery-Scheduler-Offline-03/kernel/random.c:24-34 | draws lie between 0 and the total, and the total itself, which dispatches nobody, can be drawn |
| `Lottery.RandomRangeEven` | xv6-Lottery-Scheduler-Offline-03/kernel/random.c:24-34 | every number of the range is drawn by exactly one of any hi - lo + 1 consecutive values of random() |
| `Lottery.Scheduler.TotalRunnable` | xv6-Lottery-Scheduler-Offline-03/kernel/proc.c:442-458 | the sum over runnable processes |
| `Lottery.Scheduler.Reset` | xv6-Lottery-Scheduler-Offline-03/kernel/proc.c:486-496 | refills all runnable processes exactly when none has a ticket |
| `Lottery.Scheduler.Search` | xv6-Lottery-Scheduler-Offline-03/kernel/proc.c:500-522 | the first process at which the running count exceeds the draw |
| `Lottery.Scheduler.RunOnce` | xv6-Lottery-Scheduler-Offline-03/kernel/proc.c:480-541 | one turn of the scheduler is one round of the lottery |
| `ShellLexer.GetToken` | xv6-Lottery-Scheduler-Offline-03/user/sh.c:266-309 | the next token of the line's token sequence, with the cursor at the rest |
| `ShellLexer.Peek` | xv6-Lottery-Scheduler-Offline-03/user/sh.c:311-321 | whether the next token starts with one of the characters; no token is passed over |
| `ShellParser.Parser.ParseRedirs` | xv6-Lottery-Scheduler-Offline-03/user/sh.c:375-398 | agrees with the grammar on answer, error and cursor |
| `ShellParser.Parser.ParseArgs` | xv6-Lottery-Scheduler-Offline-03/user/sh.c:431-446 | agrees with the grammar; arguments go below the redirections around them |
| `ShellParser.Parser.ParseExec` | xv6-Lottery-Scheduler-Offline-03/user/sh.c:416-447 | agrees with the grammar |
| `ShellParser.Parser.ParseBlock` | xv6-Lottery-Scheduler-Offline-03/user/sh.c:400-414 | agrees with the grammar |
| `ShellParser.Parser.ParsePipe` | xv6-Lottery-Scheduler-Offline-03/user/sh.c:362-373 | agrees with the grammar |
| `ShellParser.Parser.ParseLine` | xv6-Lottery-Scheduler-Offline-03/user/sh.c:345-360 | agrees with the grammar, and ends |
| `ShellParser.Parser.ParseCmd` | xv6-Lottery-Scheduler-Offline-03/user/sh.c:328-341 | a tree or an error for every line, as the grammar says |
| `ShellParser.NulTerminate` | xv6-Lottery-Scheduler-Offline-03/user/sh.c:450-494 | writes NUL behind every word and nowhere else |
| `ShellParser.EndsOutside` | xv6-Lottery-Scheduler-Offline-03/user/sh.c:450-494 | no NUL falls inside a word |
| `ShellParser.Terminated` | xv6-Lottery-Scheduler-Offline-03/user/sh.c:450-494 | every stored string then reads as exactly its source token |
| `ShellParser.ParseBuffer` | xv6-Lottery-Scheduler-Offline-03/user/sh.c:328-343 | parsing and terminating a buffer: tree or error as the grammar says, each word readable as a C string |
| `ShellPrinter.SpreadReads` | xv6-Lottery-Scheduler-Offline-03/user/sh.c:266-309 | lexemes written with spaces are read back as those tokens |
| `ShellPrinter.RoundTrip` | xv6-Lottery-Scheduler-Offline-03/user/sh.c:345-447 | every command tree with legal words and fewer than MAXARGS arguments is parsed back from its printed form |
| `ShellGrammar.ReadParts` | xv6-Lottery-Scheduler-Offline-03/user/sh.c:416-447 | a simple command has as arguments all its words that follow no redirection mark, and its redirections in order around it |
| `ShellGrammar.AcceptsExactly` | xv6-Lottery-Scheduler-Offline-03/user/sh.c:328-447 | a line is accepted with a tree if and only if the grammar has a derivation of the line with that tree |
| `ShellGrammar.RejectsExactly` | xv6-Lottery-Scheduler-Offline-03/user/sh.c:328-447 | a line is turned down if and only if the grammar has no derivation of it |
| `MasterWorker.Buffer.constructor` | Pthread-Synchronization-Offline-04/master-worker/master-worker.c:102-104 | the empty buffer |
| `MasterWorker.Buffer.MasterPass` | Pthread-Synchronization-Offline-04/master-worker/master-worker.c:42-57 | one pass of a master under the mutex |
| `MasterWorker.Buffer.WorkerPass` | Pthread-Synchronization-Offline-04/master-worker/master-worker.c:72-89 | one pass of a worker under the mutex, with the item it takes |
| `MasterWorker.StepInv` | Pthread-Synchronization-Offline-04/master-worker/master-worker.c:31-92 | every step keeps the counters, the items, and the reason every blocked thread has |
| `MasterWorker.Conservation` | Pthread-Synchronization-Offline-04/master-worker/master-worker.c:31-92 | the buffer holds produced minus consumed items within its size, and every item is in the buffer or consumed, once |
| `MasterWorker.CountersMove` | Pthread-Synchronization-Offline-04/master-worker/master-worker.c:31-92 | over every run a pass that moves raises its counter by one, exactly when it can, and nothing else moves the counters |
| `MasterWorker.AllConsumed` | Pthread-Synchronization-Offline-04/master-worker/master-worker.c:65-92 | when a worker has finished, all items have been consumed exactly once |
| `MasterWorker.NoDeadlock` | Pthread-Synchronization-Offline-04/master-worker/master-worker.c:31-92 | with a positive buffer size and a thread of each kind, no reachable state has every unfinished thread blocked |
| `MasterWorker.DeadlockExactly` | Pthread-Synchronization-Offline-04/master-worker/master-worker.c:31-92 | for any positive numbers of threads, a state with every unfinished thread blocked is reachable if and only if the buffer has no cells and there is something to produce |

## Left out

- Device drivers, traps, context switch, the TLB and control registers: hardware.
- Directories, path lookup, inode allocation and reference counts, file descriptors, exec: they would add easier
  members beside the block and byte laws.
- Sleep locks and spin locks themselves: a locked stretch is one step.
- CowFork.Kernel.GrowProc: the number of page-table pages each new mapping takes is a parameter; `PageTable` models how walk takes them.
- FileSystem.Fs.Writei: what a block that was changed but not logged reads as after its buffer is evicted is not modelled.
- FileSystem.Fs.WriteChunk: the bound of MAXOPBLOCKS is not shown to be reached.
- FileSystem.Fs.FileWrite: pipes and devices behind a file descriptor are not modelled.
- BufferCache.Cache.Bread: the cache of `WriteAheadLog` is a map from blocks to contents; that `BufferCache` implements it is not proved.
- Pipe.Fifo: user copies succeed; the byte piperead drops when copyout fails is not modelled.
- Lottery.Accounting: one CPU, with unbounded integers for ticket sums.
- Lottery.NeverNegative: holds of one CPU only; `Lottery.NegativeExactly` proves the limit. A CPU's scan of the table for a choice is one step.
- Lottery.Scheduler.RunOnce: the bits of random() are a parameter, and memory just past the process table counts as not runnable.
- RwLock.RunInv: all counters start at zero; the initialisers set only the mutex and the conditions.
- PageTable.Vm.Uvmunmap: the model ends (`Astray`) where kfree would overwrite a page-table page, and PageTable.Vm.Freewalk where it would follow an entry without permissions into user memory.
- Allocator.Arena.Malloc: header sizes are unbounded; coalescing past 2^32 units is not modelled.
- Barber shop, zemaphore, toggle tests, console, system-call tracing, the second xv6 tree, user tests and the shell-script exercise.
