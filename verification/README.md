# xv6-L8, verified

A Dafny 4.11 model of the parts of xv6-L8 (xv6 for RISC-V with copy-on-write
fork, an EDF ready queue and symlinks) whose correctness is hardest to see, with
proofs of what they are for. `dafny verify dfyconfig.toml` checks everything.

Each component is a class with the fields its C counterpart updates, methods
with the same branches and loops, and a specification that does not mention how
the code works. Panics are either outcomes with an exact condition or demands
that every modelled caller is shown to meet.

- **Redo log over the buffer cache** (`Blocks`, `LogProtocol`, `LogCrash`,
  `LogWrites`, `LogRecovery`, `LogHistory`, `LogFull`, `BufferCache`, `Log`,
  `CacheUse`, `LogClient`). Disk writes are atomic and in order; a crash may fall between any
  two, also while recovering. `LogProtocol` is the protocol as a state machine
  over single disk accesses, `LogHistory` adds any number of concurrent
  operations, and `Log` is the C code as a class over the cache class, proved to
  issue the machine's writes. `CacheUse` accounts for every reference and lock in
  the cache. `LogClient` takes the calls of any operations, the buffers that
  operations and readers take, wait for and release, and the turns of the commit,
  one at a time and in any order, and keeps the history machine in step with them.
- **Copy-on-write memory** (`PhysMem`, `Cow`, `Eager`, `CowRun`, `CowRights`).
  Reference counts, the free list and page-table entries on one side; on the
  other, address spaces that copy every page at fork.
- **Page tables** (`Sv39`, `PageTables`). Three levels of real table pages, and
  the map from page number to PTE they stand for. `Cow` works with that map;
  `TableSlots` shows that the two agree, change by change.
- **Blocks, inodes and file contents** (`FsImage`, `FsSteps`, `FsAlloc`,
  `FsBytes`, `FsWrite`, `FsTrunc`, `FsLogged`, `Fs`), as seen through the log;
  `FsLogged` says that whatever changes is passed to log_write, and `FsLog` joins
  what a transaction of filewrite logs with what begin_op reserves for it.
- **Names and link counts** (`Tree`, `Links`), **paths and symlinks** (`Paths`,
  `Symlinks`), and sys_symlink over names and file contents (`SymlinkCall`, with
  two runs from a new disk in `SymlinkRuns`).
- **EDF scheduler** (`ReadyQueue`, `Scheduler`, `SchedulerRun`), on one hart.
- **User heap allocator** (`FreeList`, `Umalloc`).
- **Virtio disk driver** (`VirtioRing`, `Virtio`) together with the device, and
  the **pipe** (`Pipes`).
- `Basics` holds what the modules share; `Sets` counts with finite sets.

Invariants are written as "every part holds" (`Holds`, `Fits`), so that a proof
unfolds only the part it needs.

## Where the code and its promise part

- `log_write` tests for a full log before it looks for absorption, so a writer
  within its budget can panic when it writes one of its own blocks again.
  `LogFull.AbsorptionCanPanic` gives the run and
  `LogHistory.LogWritePanicsExactly` the exact condition.
- NBUF equals LOGBLOCKS, and `fileread` and `filestat` take buffers outside any
  operation. So a turn of `commit` finds no buffer for its log block, and panics,
  exactly when the pinned blocks and those that others hold or wait for are NBUF
  together: `LogClient.Calls.Perform`. `LogFull.CommitCanExhaustCache` gives a
  run, every operation within its budget, in which the logged blocks alone are.
- `cowfault` does not look at whether a page was ever writable, only at PTE_X. So
  a store to a read-only page that is not executable goes through, with a fork
  or without one, and a fork takes the right to store from exactly the pages
  that are writable and executable; see `CowRights.ForkRights`.
- `growproc` does not test a shrink against the size: asking for more than there
  is wraps around and shrinks nothing; see `CowRun.Machine.Shrink`.
- `follow_symlink` gives up after 10 hops even if the tenth reaches a file, so
  chains of at most 9 hops succeed; `Symlinks.Lookups.FollowSymlink` says so.
- `sys_symlink` reports failure but leaves the new name behind, with an empty
  target, exactly when the name can be made, the target is not empty, and the
  free blocks are no more than the directory takes for the name:
  `SymlinkCall.Names.MakeSymlink`. `SymlinkRuns.FullDisk` gives such a run with no
  block free, `SymlinkRuns.LastBlockForName` one in which the name takes the last.
- `create` and `link` accept a directory that has been removed but is still open.
  The tree stays consistent exactly if the directory has not been removed:
  `Links.Directories.Create`, `Links.Directories.Link`.
- The ".." of a removed directory may name a freed inode, and looking it up then
  panics in `ilock`; `Symlinks.DanglingUp` gives such a tree. No path from a
  working directory meets a freed inode exactly if going up from it, through
  removed directories, meets none: `Symlinks.ClearExactly`.
- `kkill(0)` marks the first unused process slot, and `allocproc` does not clear
  the mark, so the next process starts out killed:
  `Scheduler.Scheduler.KillZeroThenFork`. `SchedulerRun.MarkedExactly` says
  exactly when an unused slot carries a mark.

## Model

| member | source | states |
|---|---|---|
| LogProtocol.HeaderPutHeader | xv6-L8/kernel/log.c:87-115 | read_head gives back the block list that write_head stored, for every list that fits |
| LogProtocol.IoKeeps | xv6-L8/kernel/log.c:66-124 | every single disk access of commit and of recovery keeps the log's invariant, and what the disk would recover to changes only at the header write |
| LogProtocol.LogWriteKeeps | xv6-L8/kernel/log.c:215-236 | appending or absorbing a block keeps the list duplicate-free, in range and pinned |
| LogProtocol.EndOpKeeps | xv6-L8/kernel/log.c:147-176 | the last end_op starts a commit and no other does; the invariant survives |
| LogCrash.RunIoLogical | xv6-L8/kernel/log.c:66-124 | over any number of disk accesses, what the disk would recover to is the old contents before the commit point and the transaction's after it |
| LogCrash.RecoverYieldsLogical | xv6-L8/kernel/log.c:117-124 | recovery cut short any number of times ends with the same home blocks as one undisturbed recovery |
| LogCrash.CommitIsAtomic | xv6-L8/kernel/log.c:179-204 | crash after any number of commit's accesses and during any number of recoveries: the home blocks are all new if the first header write got through, all old if not |
| LogCrash.CommitInstalls | xv6-L8/kernel/log.c:194-204 | an undisturbed commit puts every logged block home, empties the log and ends |
| LogWrites.RunAlong | xv6-L8/kernel/log.c:179-204 | the writes commit issues are, one by one, the accesses of the log machine |
| LogWrites.CommitWritesAreAtomic | xv6-L8/kernel/log.c:179-204 | the same atomicity for the very sequence of writes the C code issues |
| LogWrites.CommitWritesInstall | xv6-L8/kernel/log.c:66-84 | the whole sequence leaves the transaction home and the header empty |
| LogRecovery.RecoveryRuns | xv6-L8/kernel/log.c:117-124 | the writes recovery issues are, one by one, the accesses of the log machine after power-on |
| LogRecovery.RecoveryWritesAreIdempotent | xv6-L8/kernel/log.c:117-124 | recovery cut after any number of its writes, and again during any number of recoveries, ends with what the first disk logically held |
| LogRecovery.RecoveredHome | xv6-L8/kernel/log.c:117-124 | installing the list of a committed header gives the logical contents |
| LogHistory.StepKeeps | xv6-L8/kernel/log.c:127-176 | any step of any process, the disk or the power supply keeps the history invariant, reservations included |
| LogHistory.RecoveredStateIsACommitBoundary | xv6-L8/kernel/log.c:127-204 | after any interleaving of operations, commits and crashes, recovery yields the effect of a prefix of the history that splits no operation; with nothing running, of all of it |
| LogHistory.NoneStraddles | xv6-L8/kernel/log.c:147-176 | no operation has writes on both sides of a commit boundary |
| LogHistory.QuietMeansDurable | xv6-L8/kernel/log.c:147-176 | when no operation runs and no commit is under way, everything written is durable |
| LogHistory.EndOpNeverPanics | xv6-L8/kernel/log.c:147-176 | in every reachable state committing excludes running operations, and end_op does not reach its panic |
| LogHistory.WriterInBudgetFindsRoom | xv6-L8/kernel/log.c:127-143 | begin_op's reservation leaves every writer that has logged fewer than MAXOPBLOCKS blocks a free slot, whatever the others do |
| LogHistory.LogWritePanicsExactly | xv6-L8/kernel/log.c:215-236 | log_write within the budget panics exactly if the log is full and already lists the block |
| LogFull.AbsorptionCanPanic | xv6-L8/kernel/log.c:215-236 | from power-on, on any disk with enough data blocks, a run with all operations within budget after which log_write of a block already logged panics |
| LogFull.CommitCanExhaustCache | xv6-L8/kernel/log.c:179-192 | from power-on, on any disk with enough data blocks, a run with all operations within budget after which the last end_op finds NBUF blocks pinned |
| BufferCache.Unlink | xv6-L8/kernel/bio.c:116-137 | taking a buffer out of the doubly linked list keeps the ring through all the others |
| BufferCache.PushFront | xv6-L8/kernel/bio.c:36-53 | putting a buffer behind the head keeps the ring and makes it first |
| BufferCache.MoveToFront | xv6-L8/kernel/bio.c:116-137 | moving the buffer just released to the front keeps the list a permutation of all buffers in order of last release |
| BufferCache.BreadView | xv6-L8/kernel/bio.c:58-103 | loading a block into its buffer, or recycling an unreferenced one, changes what no block reads as |
| BufferCache.ViewFrame | xv6-L8/kernel/bio.c:58-151 | changing one buffer changes what only its own block reads as |
| BufferCache.Cache.constructor | xv6-L8/kernel/bio.c:36-53 | binit links all NBUF buffers into one ring |
| BufferCache.Cache.Find | xv6-L8/kernel/bio.c:63-73 | the first search finds the block's buffer if there is one, and there is at most one |
| BufferCache.Cache.FindVictim | xv6-L8/kernel/bio.c:75-88 | the second search finds the unreferenced buffer whose last release is oldest; it fails exactly if all are referenced |
| BufferCache.Cache.Bread | xv6-L8/kernel/bio.c:92-103 | the buffer returned holds what the block reads as, locked and referenced; it fails exactly if the block is not cached and no buffer is free; nothing else reads differently |
| BufferCache.Cache.BreadWait | xv6-L8/kernel/bio.c:63-71 | a caller who finds the buffer locked has a reference on it before it waits, and no block reads differently |
| BufferCache.Cache.BreadWake | xv6-L8/kernel/bio.c:92-103 | the buffer waited for is still that of the block, and its holder sees what the block reads as |
| BufferCache.Cache.Bwrite | xv6-L8/kernel/bio.c:106-112 | the block is on disk, as the next write of the history, and reads as the buffer |
| BufferCache.Cache.Brelse | xv6-L8/kernel/bio.c:116-137 | the last release moves the buffer to the front; no block reads differently |
| BufferCache.Cache.Bpin | xv6-L8/kernel/bio.c:139-144 | one more reference, invisible to readers |
| BufferCache.Cache.Bunpin | xv6-L8/kernel/bio.c:146-151 | one reference less on a buffer its caller still holds, invisible to readers |
| Log.FullExactly | xv6-L8/kernel/bio.c:75-88 | no buffer is free exactly if the pinned blocks and the buffers others have in use add up to NBUF |
| Log.WriteLogBlock | xv6-L8/kernel/log.c:184-191 | one turn writes the logged contents to the log block and nothing else reads differently; it panics exactly if pins and buffers in use fill the cache |
| Log.InstallBlock | xv6-L8/kernel/log.c:71-83 | one turn copies log block to home block and drops exactly that pin, whatever buffers others have in use; it panics as exactly |
| Log.DiskLog.BeginOp | xv6-L8/kernel/log.c:127-143 | an operation is admitted exactly if no commit runs and its reservation fits; the state follows the machine |
| Log.DiskLog.LogWrite | xv6-L8/kernel/log.c:215-236 | panics exactly when the machine says; otherwise the list, the pin (once per block) and the contents follow it, and no other buffer changes |
| Log.DiskLog.WriteLog | xv6-L8/kernel/log.c:179-192 | the log blocks are written in order, from the cache |
| Log.DiskLog.WriteHead | xv6-L8/kernel/log.c:103-115 | exactly the header block is written, with the current list |
| Log.DiskLog.InstallTrans | xv6-L8/kernel/log.c:66-84 | every log block goes to its home block, in order, each pin dropped once |
| Log.DiskLog.Commit | xv6-L8/kernel/log.c:194-204 | the writes issued are the planned sequence; it panics exactly if the logged blocks and the buffers in use add up to NBUF |
| Log.DiskLog.EndOp | xv6-L8/kernel/log.c:147-176 | only the last operation commits, with the planned writes; it lacks a buffer exactly if the logged blocks and the buffers others have in use add up to NBUF; afterwards the home blocks read as before, the log is empty and only those buffers are referenced |
| Log.DiskLog.ReadHead | xv6-L8/kernel/log.c:87-98 | the list in memory is the one in the header block |
| Log.DiskLog.Recover | xv6-L8/kernel/log.c:117-124 | the writes issued are the planned sequence, the home blocks become what the disk stood for, and the log is empty |
| CacheUse.FullExactly | xv6-L8/kernel/bio.c:75-88 | no buffer is free exactly if NBUF blocks are pinned, held or waited for |
| CacheUse.Take | xv6-L8/kernel/bio.c:57-103 | bread takes one reference and the lock of one block's buffer, no block reads differently, and it panics exactly if the block has no reference and NBUF other blocks have |
| CacheUse.Wait | xv6-L8/kernel/bio.c:64-73 | bread of a held block adds a reference, which keeps the buffer |
| CacheUse.Wake | xv6-L8/kernel/bio.c:64-73 | the waiter gets the block it waited for |
| CacheUse.Drop | xv6-L8/kernel/bio.c:117-138 | brelse gives up one reference and the lock, and no block reads differently |
| LogClient.LogHeld | xv6-L8/kernel/log.c:206-236 | a change to a held buffer and log_write panic exactly when the machine says; otherwise the log follows the machine, the block is pinned once, and every other reference and lock, whoever has it, stays |
| LogClient.CopyToLog | xv6-L8/kernel/log.c:184-191 | a turn of write_log writes the cached contents to the log block; nothing else reads differently and the references of all others stay |
| LogClient.CopyHome | xv6-L8/kernel/log.c:71-83 | a turn of install_trans copies the log block to its home block and drops exactly that pin |
| LogClient.Calls.constructor | xv6-L8/kernel/log.c:53-64 | initlog with its recovery is a run of the history machine from power-on to rest |
| LogClient.Calls.Write | xv6-L8/kernel/log.c:215-236 | one logged block is one step of the history machine, with any buffers held by others |
| LogClient.Calls.End | xv6-L8/kernel/log.c:147-176 | end_op is one step of the history machine, and the last one starts the commit |
| LogClient.Calls.Turn | xv6-L8/kernel/log.c:66-204 | each turn of the commit is the machine's next disk access |
| LogClient.Calls.Settle | xv6-L8/kernel/log.c:147-204 | a commit that finds a buffer, while nobody holds a logged block, ends, with the log empty and the whole history durable |
| LogClient.Calls.Perform | xv6-L8/kernel/log.c:127-236 | any call, buffer taken or released, or turn of the commit, attempted at any moment, happens, must wait or panics, each exactly when stated on the state before; the buffers held and waited for change accordingly, and the history machine takes the same step |
| LogClient.Calls.Run | xv6-L8/kernel/log.c:127-236 | any list of such attempts, in any order, stays in step with the history machine; it stops early only at a panic |
| LogClient.Calls.ReadsSeeEveryWrite | xv6-L8/kernel/bio.c:92-103 | at every moment of such a run, in the middle of a commit too, every home block reads as the writes of all operations so far leave it |
| LogClient.Calls.CrashAnywhere | xv6-L8/kernel/log.c:117-124 | a crash at any moment of such a run, with any number of crashes while recovering, yields the durable part of the history, which splits no operation |
| LogClient.CrashDuringEnd | xv6-L8/kernel/log.c:179-204 | a crash after any of the writes of the last end_op recovers to the durable part of the history or to all of it, the header write deciding |
| PhysMem.AllocKeeps | xv6-L8/kernel/kalloc.c:142-162 | kalloc takes a page nothing maps, with count 1 |
| PhysMem.FreeHeld | xv6-L8/kernel/kalloc.c:106-137 | kfree of a page in hand puts it on the free list once |
| PhysMem.LinkKeeps | xv6-L8/kernel/vm.c:148-177 | a new entry for a page in hand keeps every count equal to the number of entries |
| PhysMem.ShareKeeps | xv6-L8/kernel/vm.c:307-350 | a second entry for a shared page, both without PTE_W, keeps counts exact and writable pages singly mapped |
| PhysMem.UnmapKeeps | xv6-L8/kernel/vm.c:195-219 | dropping an entry and freeing its page keeps counts exact; the page becomes free exactly when that was its last entry |
| PhysMem.SoleRef | xv6-L8/kernel/vm.c:526-583 | an entry whose page has count 1 is the only one for it |
| PhysMem.DecrefKeeps | xv6-L8/kernel/kalloc.c:37-43 | giving up one of several references keeps the counts exact |
| PhysMem.PagesConserved | xv6-L8/kernel/kalloc.c:27-162 | free pages and mapped pages add up to all pages in every reachable state |
| Cow.Vm.constructor | xv6-L8/kernel/kalloc.c:73-100 | freerange puts every page on the free list once |
| Cow.Vm.Kalloc | xv6-L8/kernel/kalloc.c:142-162 | fails exactly if the list is empty; the page returned is mapped nowhere and no space reads differently |
| Cow.Vm.Kfree | xv6-L8/kernel/kalloc.c:106-137 | one reference less; filled with junk and on the list exactly at the last |
| Cow.Vm.Walk | xv6-L8/kernel/vm.c:100-118 | it succeeds exactly if there is a free page for each table missing on the way, takes exactly those, and leaves what every space reads unchanged |
| Cow.Vm.Uvmunmap | xv6-L8/kernel/vm.c:195-219 | exactly the entries of the range go; every other page of every space reads the same; no free page is used |
| Cow.Vm.Uvmalloc | xv6-L8/kernel/vm.c:223-247 | zeroed pages appear in exactly the new range, or on failure no user entry differs; it succeeds exactly if as many pages are free as the range has pages and missing tables, and takes exactly those |
| Cow.Vm.Uvmdealloc | xv6-L8/kernel/vm.c:253-265 | exactly the pages past the new size go |
| Cow.Vm.Uvmcopy | xv6-L8/kernel/vm.c:307-350 | the child reads every page of the parent, both without PTE_W; it succeeds exactly if there is a free page for each table the child is missing, and takes exactly those, no page of memory besides; on failure the child has no entry and the parent reads the same |
| Cow.Vm.Cowfault | xv6-L8/kernel/vm.c:526-583 | the faulting entry gets a private writable page with the same contents, no one else's reads change, and the remap cannot fail for want of a table page; it refuses exactly what the code refuses, and takes a page exactly if the old one is shared |
| Cow.Vm.Vmfault | xv6-L8/kernel/vm.c:488-509 | a lazy page appears zeroed exactly if it is missing inside the size and there is a page for it and each missing table; otherwise no space reads differently |
| Cow.Vm.Store | xv6-L8/kernel/vm.c:395-405 | bytes written through a writable entry are seen by that space at that page and by no other |
| Cow.Vm.Freewalk | xv6-L8/kernel/vm.c:269-289 | all tables at and below the given one are freed, each once, and no other entry changes |
| Cow.Vm.Uvmfree | xv6-L8/kernel/vm.c:293-299 | every page and table of the space is given back |
| Eager.WritePageBytes | xv6-L8/kernel/vm.c:368-411 | in the eager specification a write changes exactly the addressed bytes |
| CowRun.ForkAgrees | xv6-L8/kernel/vm.c:307-350 | sharing at fork reads the same as copying at fork |
| CowRun.WriteAgrees | xv6-L8/kernel/vm.c:395-405 | a write to a private page agrees with a write in the eager specification |
| CowRun.ResizeAgrees | xv6-L8/kernel/proc.c:305-321 | growing and shrinking agree with the eager specification, zero fill included |
| CowRun.Machine.Fork | xv6-L8/kernel/proc.c:435-452 | the child is an eager copy of the parent exactly if there are pages for its root and its missing tables, and it takes just those; otherwise no one can tell the difference and no page is lost |
| CowRun.Machine.StoreFault | xv6-L8/kernel/trap.c:80-99 | the fault dispatch makes the page writable without changing what anyone reads, exactly if the address is below KERNBASE and cowfault or vmfault accepts it |
| CowRun.Machine.UserStore | xv6-L8/kernel/trap.c:80-99 | a user store goes through, as the eager write, exactly if the page is writable or its fault is handled; one that is killed changes no one's view |
| CowRun.Machine.Copyout | xv6-L8/kernel/vm.c:368-411 | a prefix of the source reaches the space, all of it exactly on success, and no other byte of any space changes; it stops only where the memory it leaves cannot serve the next page, so never within the size with three free pages for each page touched |
| CowRun.Machine.Copyin | xv6-L8/kernel/vm.c:416-439 | on success the bytes are those of the eager specification; it fails only where the memory it leaves cannot supply the next page, so never within the size with three free pages for each page touched |
| CowRun.Machine.GrowEager | xv6-L8/kernel/sysproc.c:62-86 | growth with writable pages is the eager resize, exactly if there are pages for it and its missing tables; failure changes no view |
| CowRun.Machine.GrowLazy | xv6-L8/kernel/sysproc.c:62-86 | growth without pages is the same resize |
| CowRun.Machine.Shrink | xv6-L8/kernel/proc.c:305-321 | shrinking is the eager resize, and no change at all when more is asked for than there is |
| CowRun.Machine.Exit | xv6-L8/kernel/proc.c:541-548 | the space disappears and no other is affected |
| CowRun.Machine.Perform | xv6-L8/kernel/vm.c:307-583 | each call amounts to its effect in the eager specification, or to nothing exactly at a bad address or without the pages it needs; one that goes through takes exactly those |
| CowRun.Machine.Run | xv6-L8/kernel/vm.c:307-583 | any run of these calls over any number of spaces reads, throughout, as a run of the eager specification; each call comes to nothing exactly at a bad address or without the pages it needs in the memory it finds |
| CowRights.ForkRights | xv6-L8/kernel/vm.c:526-583 | with a page free, a store goes through before a fork exactly if the page is writable or not executable, and after it exactly if it is not executable; so the two agree exactly unless it is both |
| Sv39.PxOfAddress | xv6-L8/kernel/riscv.h:372-375 | the three indices are the shifted and masked address |
| Sv39.PxDistinct | xv6-L8/kernel/riscv.h:372-380 | below MAXVA two addresses have the same indices exactly if they are in the same page |
| Sv39.WithTableKeeps | xv6-L8/kernel/vm.c:106-116 | a new table keeps the tables a tree and the map unchanged |
| Sv39.WithLeafView | xv6-L8/kernel/vm.c:148-219 | writing the slot walk returns changes the map at that page only |
| Sv39.PruneKeeps | xv6-L8/kernel/vm.c:269-289 | removing a subtree and clearing its entry leaves a tree |
| PageTables.PageTable.constructor | xv6-L8/kernel/vm.c:181-190 | uvmcreate gives the empty map |
| PageTables.PageTable.Walk | xv6-L8/kernel/vm.c:100-118 | the slot returned is the page's own; the map never changes; only tables on the way are added, each from one free page, and with alloc it fails only when the pages ran out before the last; no page is lost |
| PageTables.PageTable.Mappages | xv6-L8/kernel/vm.c:148-177 | map update on exactly the pages done, all of them on success; it stops only at a page whose table is missing with no page free |
| PageTables.PageTable.Uvmunmap | xv6-L8/kernel/vm.c:195-219 | map removal on exactly the range |
| PageTables.PageTable.Remap | xv6-L8/kernel/vm.c:562-569 | replacing a mapping never fails for want of a table page |
| PageTables.PageTable.Freewalk | xv6-L8/kernel/vm.c:269-289 | the tables below a node and its own go to the free list, each once; the panic for a leaf is not reached |
| PageTables.PageTable.FreeTables | xv6-L8/kernel/vm.c:293-299 | after the last mapping is gone every table page is free exactly once |
| TableSlots.StandsAtFirst | xv6-L8/kernel/vm.c:181-190 | an empty tree stands for a space with no entry but its root |
| TableSlots.StandsWithTable | xv6-L8/kernel/vm.c:106-116 | a new table page in the tree is one new table entry of the memory model |
| TableSlots.StandsWithLeaf | xv6-L8/kernel/vm.c:148-219 | writing or clearing a leaf in the tree is the same change of one user entry of the memory model |
| TableSlots.StandsWalked | xv6-L8/kernel/vm.c:100-118 | the walk to a page finds its tables in the tree exactly if the memory model has their entries |
| FsImage.FreshDisk | xv6-L8/mkfs/mkfs.c:93-109 | a disk with only metadata marked and empty files satisfies the invariant |
| FsImage.TakeKeeps | xv6-L8/kernel/fs.c:66-89 | a block whose bit is clear is no metadata and no file's; claiming it changes no file |
| FsImage.ReleaseKeeps | xv6-L8/kernel/fs.c:92-106 | clearing the bit of an unlinked block restores "set bits are metadata and pointers" |
| FsSteps.LinkKeeps | xv6-L8/kernel/fs.c:405-444 | writing a new block number into an empty direct, indirect or entry place keeps every block singly owned |
| FsSteps.StoreReads | xv6-L8/kernel/fs.c:528-562 | writing a data block changes what one file reads at one place |
| FsTrunc.DetachDrops | xv6-L8/kernel/fs.c:462-472 | unhooking the index block unhooks exactly it and the blocks it lists, all different |
| FsTrunc.ShrunkFrees | xv6-L8/kernel/fs.c:448-476 | with all pointers of a file gone, the bits cleared are exactly those of its blocks |
| FsBytes.BlockWrote | xv6-L8/kernel/fs.c:538-549 | overlaying part of one block is writing those bytes of the file, across any alignment |
| FsBytes.WroteSplices | xv6-L8/kernel/fs.c:552-553 | bytes written and the size raised to cover them are a splice of the file's byte sequence |
| FsBytes.ReadBack | xv6-L8/kernel/fs.c:494-562 | reading where one has written gives what was written |
| FsWrite.AccountBlock | xv6-L8/kernel/fs.c:538-549 | a turn of writei adds one data block and at most one bitmap block, one more once for the index block, none for a partial first block |
| FsWrite.ChunkLogs | xv6-L8/kernel/file.c:149-173 | a chunk of filewrite logs at most nine blocks besides the inode's |
| FsLog.WithinReservation | xv6-L8/kernel/log.c:127-143 | in any interleaving, an operation that logs blocks of a set of at most MAXOPBLOCKS stays within its budget, and finds room for each that is not in the log yet |
| FsLog.FilewriteFindsRoom | xv6-L8/kernel/file.c:149-173 | every block that a transaction of filewrite logs is an enabled step of the history machine, in any order and interleaving, exactly unless the log is full and holds the block already |
| Fs.FileSystem.Balloc | xv6-L8/kernel/fs.c:66-89 | the first free block, zeroed and past the metadata; 0 exactly if the disk is full |
| Fs.FileSystem.Bfree | xv6-L8/kernel/fs.c:92-106 | the panic is exactly the case of a clear bit; otherwise the bit is cleared and its bitmap block logged |
| Fs.FileSystem.Bmap | xv6-L8/kernel/fs.c:405-444 | the block of the file at bn, with no file reading differently and nothing allocated that was there; 0 exactly if the blocks it lacks, two with the index block, are not free; every block and bit it changes is logged |
| Fs.FileSystem.Itrunc | xv6-L8/kernel/fs.c:448-476 | exactly the file's own blocks become free, without "freeing free block"; every other file is the same; every bit it clears and the inode are logged |
| Fs.FileSystem.Readi | xv6-L8/kernel/fs.c:494-519 | exactly the slice of the contents, and nothing is allocated or logged |
| FsLogged.CoveredTrans | xv6-L8/kernel/log.c:206-236 | if each of two changes is covered by what was logged, so are both together |
| FsLogged.RangeMore | xv6-L8/kernel/fs.c:538-549 | the data block of each turn of writei is logged, and those before stay so |
| Fs.FileSystem.Writei | xv6-L8/kernel/fs.c:528-562 | -1 exactly past the end or the limit; otherwise a prefix is spliced in, and it ends only where the disk it leaves has no room for the next block; no hole below size, no other file changed, inode on disk up to date; every changed block and bit, every data block of the range and the inode are logged |
| Fs.FileSystem.Filewrite | xv6-L8/kernel/file.c:134-179 | the bytes written and the new offset agree with one splice, short only at the limit or where the disk has no room; every transaction on the way logs at most MAXOPBLOCKS distinct blocks, and every changed block and bit is in one of them |
| Tree.AttachKeeps | xv6-L8/kernel/sysfile.c:163-210 | a new name for a new or existing file keeps every nlink equal to the number of names |
| Tree.AttachKeepsExactly | xv6-L8/kernel/fs.c:602-629 | a new name keeps the tree consistent exactly if its directory has not been removed |
| Tree.FoundKeeps | xv6-L8/kernel/sysfile.c:308-331 | a new directory keeps the counts, its ".." counted in the parent |
| Tree.FoundKeepsExactly | xv6-L8/kernel/sysfile.c:308-331 | so does a new directory |
| Tree.DetachKeeps | xv6-L8/kernel/sysfile.c:228-283 | removing a name of a file keeps the counts |
| Tree.RemoveKeeps | xv6-L8/kernel/sysfile.c:258-275 | removing an empty directory keeps the counts, of the parent too |
| Tree.OneLink | xv6-L8/kernel/sysfile.c:213-226 | a directory isdirempty accepts has exactly one link |
| Tree.StaysLinked | xv6-L8/kernel/sysfile.c:266-269 | a parent keeps a link of its own when its child goes |
| Tree.FreeKeeps | xv6-L8/kernel/fs.c:337-363 | freeing an inode without links leaves no name for it |
| Links.Directories.Dirlookup | xv6-L8/kernel/fs.c:574-598 | a slot with the name exactly if there is one |
| Links.Directories.Dirlink | xv6-L8/kernel/fs.c:602-629 | the name goes into an empty or new slot exactly if it is not there and there is room |
| Links.Directories.IsDirEmpty | xv6-L8/kernel/sysfile.c:213-226 | true exactly if nothing but the dots is in use |
| Links.Directories.Ialloc | xv6-L8/kernel/fs.c:199-220 | a free inode unless there is none |
| Links.Directories.Iput | xv6-L8/kernel/fs.c:337-363 | the last reference frees exactly an inode without links |
| Links.VacantAt | xv6-L8/kernel/fs.c:602-629 | a name not found in a directory, removed or not, is neither of the dots, and dirlink's slot is free for it |
| Links.ReachableIf | xv6-L8/kernel/fs.c:574-598 | a name in a directory leads to an inode that exists, unless the directory was removed and the name is ".." |
| Links.Directories.Link | xv6-L8/kernel/sysfile.c:163-210 | in any directory, removed or not: all or nothing, exactly as the name fits or not; the tree stays consistent exactly if nothing is done or the directory was not removed |
| Links.Directories.Create | xv6-L8/kernel/sysfile.c:285-342 | in any directory, removed or not: an existing name gives its node exactly if a file is asked for and it is a file or a device; otherwise a new node under a name that was free, or nothing at all exactly if a node or a place is lacking; the tree stays consistent exactly if nothing is made or the directory was not removed |
| Links.Directories.Unlink | xv6-L8/kernel/sysfile.c:228-283 | in any directory, removed or not, succeeds exactly for a name other than the dots of no filled directory; its panics are not reached; the node goes exactly if that was the last link and no one has it open |
| SymlinkCall.Names.WriteEntry | xv6-L8/kernel/fs.c:602-629 | dirlink's writei puts the entry into the directory's file exactly if it has an empty slot or the blocks it lacks are free, and takes exactly those |
| SymlinkCall.Names.MakeName | xv6-L8/kernel/sysfile.c:285-342 | create for a symlink: node, entry and the directory's file agree, exactly if there is a node, the name is new and the entry fits; otherwise no node or file changes |
| SymlinkCall.Names.WriteTarget | xv6-L8/kernel/sysfile.c:574-579 | all of the target reaches the new file, or none of it exactly if no block is free |
| SymlinkCall.Names.MakeSymlink | xv6-L8/kernel/sysfile.c:556-584 | in any directory, removed or not: the name is made exactly if there is a node and the entry fits; then the call succeeds exactly if the target is empty or more blocks are free at the call than the directory takes, and the file holds the target or nothing; every file agrees with its node and no other file changes |
| SymlinkRuns.FullDisk | xv6-L8/kernel/sysfile.c:556-584 | from a new disk with no free block, the call fails and leaves the name |
| SymlinkRuns.LastBlockForName | xv6-L8/kernel/sysfile.c:556-584 | from a new disk with one free block, and the directory's block filled with names, the call fails and leaves the name, which took the block |
| Paths.ReadBack | xv6-L8/kernel/fs.c:630-668 | any list of names written as a path is read back, each cut to DIRSIZ |
| Paths.Skipelem | xv6-L8/kernel/fs.c:645-668 | the first element and a rest with the other elements; none exactly at the end |
| Symlinks.CycleNeverEnds | xv6-L8/kernel/sysfile.c:107-132 | a chain that returns to a node reaches no file after any number of hops |
| Symlinks.WalkGrounded | xv6-L8/kernel/fs.c:674-714 | in a consistent tree no sequence of names from a node meets a freed inode exactly if going up from it, through removed directories, meets none |
| Symlinks.ClearExactly | xv6-L8/kernel/fs.c:674-714 | the same of all path names and the working directory |
| Symlinks.UpFromRemoved | xv6-L8/kernel/fs.c:674-714 | a directory whose ".." names a freed inode has been removed, and looking ".." up in it meets that inode |
| Symlinks.DanglingUp | xv6-L8/kernel/fs.c:674-714 | a consistent tree in which one does |
| Symlinks.AbsoluteAnywhere | xv6-L8/kernel/fs.c:679-682 | a path with a slash before each name leads from the root, whatever the working directory |
| Symlinks.RelativeFromHere | xv6-L8/kernel/fs.c:679-682 | without the first slash it leads from the working directory |
| Symlinks.HopsLead | xv6-L8/kernel/sysfile.c:107-122 | a symlink leads where the first MAXPATH - 1 bytes of its target do, from the root or from the working directory |
| Symlinks.Lookups.Namei | xv6-L8/kernel/fs.c:674-714 | for every path that meets no freed inode, the node it leads to from the root if it begins with a slash and else from the working directory, with one more reference on it and no lock or other reference left; no node is freed on the way |
| Symlinks.Lookups.FollowSymlink | xv6-L8/kernel/sysfile.c:98-135 | the end of the chain exactly if it is at most 9 hops away with every target resolvable; one lock and one reference on success, none on failure |
| ReadyQueue.RoomFor | xv6-L8/kernel/proc.c:362-367 | a process outside the queue leaves room in it, so the overflow panic is not reached |
| ReadyQueue.InsertKeeps | xv6-L8/kernel/proc.c:369-382 | insertion keeps the queue sorted by deadline, priority and time of insertion, in step with in_rq and RUNNABLE |
| ReadyQueue.DequeueKeeps | xv6-L8/kernel/proc.c:411-430 | removal of the first keeps it too, and the first is RUNNABLE |
| ReadyQueue.SetProcKeeps | xv6-L8/kernel/proc.c:728-816 | state and attribute changes of a process outside the queue keep the invariant |
| ReadyQueue.InsertKept | xv6-L8/kernel/proc.c:369-382 | a newcomer goes behind those of equal rank, and no one in the queue loses its place |
| Scheduler.FirstIsPicked | xv6-L8/kernel/proc.c:625-698 | once all who may run are queued, the first is least by deadline, priority and age |
| Scheduler.Scheduler.RqInsert | xv6-L8/kernel/proc.c:331-383 | the process goes after all not greater and before all greater, if it has started and is not queued; otherwise nothing |
| Scheduler.Scheduler.RqDequeue | xv6-L8/kernel/proc.c:411-430 | the first leaves, the others keep their order |
| Scheduler.PickedFirst | xv6-L8/kernel/proc.c:625-698 | by the fields: no process that may run has an earlier deadline than the one picked, or the same and a smaller priority number |
| Scheduler.Scheduler.Schedule | xv6-L8/kernel/proc.c:625-698 | the process run is least by deadline and priority among all RUNNABLE ones whose start time has come, ties by insertion; none exactly if there is no such process; those that stay keep their places |
| Scheduler.Scheduler.Yield | xv6-L8/kernel/proc.c:728-741 | back to RUNNABLE, in the queue if started, behind those of equal rank |
| Scheduler.Scheduler.Sleep | xv6-L8/kernel/proc.c:782-816 | SLEEPING on the channel; the process was not in the queue |
| Scheduler.Scheduler.Wakeup | xv6-L8/kernel/proc.c:820-837 | exactly the sleepers on the channel become RUNNABLE and, if started, queued in table order; no one in the queue loses its place |
| Scheduler.Scheduler.Tick | xv6-L8/kernel/trap.c:191-205 | time passes and its sleepers wake, without upsetting the queue or anyone's place in it |
| Scheduler.Scheduler.Kill | xv6-L8/kernel/proc.c:842-864 | the first process with the pid is marked, and woken if asleep; -1 exactly if there is none |
| Scheduler.Scheduler.Fork | xv6-L8/kernel/proc.c:435-493 | the child, in the first unused slot, inherits deadline and priority and the slot's kill mark, and is queued behind those of equal rank; failure exactly without a slot or memory, and it leaves the slot clean |
| Scheduler.Scheduler.Spawn | xv6-L8/kernel/proc.c:163-210 | allocproc's slot made RUNNABLE and queued, for userinit and kfork |
| Scheduler.VictimOfZero | xv6-L8/kernel/proc.c:842-864 | the slot kkill(0) finds is the one allocproc will find |
| Scheduler.Scheduler.KillZeroThenFork | xv6-L8/kernel/proc.c:842-864 | after kkill(0) the next child starts out killed |
| Scheduler.Scheduler.Exit | xv6-L8/kernel/proc.c:513-567 | ZOMBIE, and not in the queue |
| Scheduler.Scheduler.Reap | xv6-L8/kernel/proc.c:571-616 | the slot is free again |
| Scheduler.Scheduler.SetSchedAttr | xv6-L8/kernel/sysproc.c:138-168 | a process changes its own attributes without unsorting the queue |
| SchedulerRun.Machine.Run | xv6-L8/kernel/proc.c:286-864 | any sequence of scheduling events has, one by one, the effects stated, and keeps the places of all who stay in the queue |
| SchedulerRun.FirstComeFirstServed | xv6-L8/kernel/proc.c:331-383 | over any such sequence, a process in the queue since before q joined is not passed over for q unless q ranks before it |
| SchedulerRun.SecondChildWaits | xv6-L8/kernel/proc.c:435-493 | with two unused slots, after fork, fork, yield the second child is not the one that runs |
| SchedulerRun.MarkedExactly | xv6-L8/kernel/proc.c:842-864 | an unused slot carries a kill mark exactly if kkill(0) has just found it or it had one and was not taken |
| FreeList.InsertKeeps | xv6-L8/user/umalloc.c:33-43 | a block linked after its predecessor keeps the list circular and in address order |
| FreeList.JoinKeeps | xv6-L8/user/umalloc.c:33-42 | merging two touching blocks keeps the list, the tiling and the units |
| FreeList.SplitKeeps | xv6-L8/user/umalloc.c:78-82 | cutting units off the end of a free block keeps them too |
| FreeList.KeptOutside | xv6-L8/user/umalloc.c:24-90 | changes inside a free block touch no unit of a live one |
| Umalloc.SearchEnds | xv6-L8/user/umalloc.c:30-32 | where free's search stops, the block belongs |
| Umalloc.PassedAll | xv6-L8/user/umalloc.c:74-89 | back at freep the whole list has been tried |
| Umalloc.Allocator.Free | xv6-L8/user/umalloc.c:24-44 | the block becomes free, merged with what it touches; no two free blocks are adjacent, every unit is still in exactly one block, and no other live block is written to; the search ends |
| Umalloc.Allocator.Morecore | xv6-L8/user/umalloc.c:46-61 | the new units are all free, merged or not, and a block of that size can be found |
| Umalloc.Allocator.Malloc | xv6-L8/user/umalloc.c:63-90 | null exactly if nothing fits and sbrk refuses; otherwise one new live block with room for the bytes, the others intact to the last unit; the loop ends, also after morecore |
| VirtioRing.PushKeeps | xv6-L8/kernel/virtio_disk.c:272-278 | publishing overwrites no entry the other side has not taken, across the 16-bit wrap |
| VirtioRing.PopKeeps | xv6-L8/kernel/virtio_disk.c:313-325 | the entry read is the oldest, across the wrap |
| VirtioRing.SubmitKeeps | xv6-L8/kernel/virtio_disk.c:236-282 | a new request keeps free descriptors and chains a partition, and every chain laid out for its buffer |
| VirtioRing.CompleteKeeps | xv6-L8/kernel/virtio_disk.c:295-328 | a completion by the device in any order keeps the invariant |
| VirtioRing.FinishKeeps | xv6-L8/kernel/virtio_disk.c:289-292 | giving back a chain keeps the partition |
| Virtio.SignalAllClears | xv6-L8/kernel/virtio_disk.c:295-328 | the interrupt handler clears the mark of exactly the buffers whose requests completed |
| Virtio.Disk.AllocDesc | xv6-L8/kernel/virtio_disk.c:157-167 | a free descriptor unless there is none |
| Virtio.Disk.Alloc3Desc | xv6-L8/kernel/virtio_disk.c:202-214 | three different free descriptors, or none taken; it succeeds if there are three |
| Virtio.Disk.Start | xv6-L8/kernel/virtio_disk.c:216-282 | the request is published, or all is as before and the caller waits |
| Virtio.Disk.DeviceComplete | xv6-L8/kernel/virtio_disk.c:236-266 | a device that follows the descriptors transfers exactly between the request's block and its buffer |
| Virtio.Disk.Intr | xv6-L8/kernel/virtio_disk.c:295-328 | every completed request is signalled; the status panic is not reached |
| Virtio.Disk.FreeChain | xv6-L8/kernel/virtio_disk.c:185-198 | exactly the three descriptors of the chain become free |
| Virtio.Disk.Stop | xv6-L8/kernel/virtio_disk.c:284-293 | once the mark is gone the request is over and its chain given back |
| Pipes.FullExactly | xv6-L8/kernel/pipe.c:88 | the tests for full and empty are right however often the 32-bit counters have wrapped |
| Pipes.StoreKeeps | xv6-L8/kernel/pipe.c:95 | storing a byte overwrites none that is pending |
| Pipes.TakeKeeps | xv6-L8/kernel/pipe.c:123 | the byte taken is the oldest pending |
| Pipes.Pipe.Write | xv6-L8/kernel/pipe.c:76-103 | what is stored is the next stretch of the source, after everything stored before, by any writer; it sleeps exactly with bytes left and the pipe full, and fails exactly with bytes to write and no reader or killed |
| Pipes.Pipe.Read | xv6-L8/kernel/pipe.c:105-130 | what is delivered are the oldest bytes pending, in order; it sleeps exactly on an empty pipe with a writer, and fails exactly then if killed; at most the byte of a failed copyout is lost |

## Left out

- Boot, assembly, the trampoline, context switch, PLIC, UART, console, printf, tracing, exec, ELF loading and the fetching of system call arguments.
- Spin locks and sleep locks: each system call, interrupt handler or part of a call between two sleeps is one step; waits are steps that are not enabled.
- Interleavings of several harts inside one step.
- Copies from or to user memory that fail in the middle of readi and writei: buffers are the kernel's.
- The packing of bitmap bits into bytes and of page numbers and flags into PTE bits.
- The trampoline and trapframe mappings of an address space; sizes stay below them.
- The table of NINODE in-memory inodes and its panic; the file table and file descriptors.
- The in-place update of fixed C arrays other than the ready queue and the pipe's buffer: descriptors, rings, buffers, inodes and blocks are sequences in a field that the methods reassign.
- rq_remove: its callers reach it only with a RUNNABLE process, and the process on the hart is RUNNING.
- Fs.FileSystem.Bmap: the block past MAXFILE, a panic in bmap, is a demand that readi and writei meet.
- PageTables.PageTable.Mappages: demands pages not yet mapped, where the code panics.
- Links.Directories.Create: a name that leads to a freed inode, where ilock panics, is excluded, and Links.ReachableIf says that only the ".." of a removed directory can; nlink is unbounded where the code has 16 bits; `room` stands for the growth of the directory by a slot, which SymlinkCall.Names.WriteEntry decides for symlinks.
- Links.Directories.Iput: always the last reference; reference counts are in Symlinks.
- SymlinkCall.Names.MakeSymlink: a name that leads to a freed inode, where ilock panics, is excluded.
- SymlinkCall.Names.MakeName: the same; the files of nodes other than directories and symlinks hold anything.
- Symlinks.Lookups.Namei: a path that meets a freed inode, where ilock panics, is excluded; Symlinks.ClearExactly says when there is none.
- Symlinks.Lookups.FollowSymlink: the same for the targets it follows.
- FsWrite.ChunkLogs: an upper bound; a chunk that logs ten blocks needs a disk with four bitmap blocks, and mkfs makes one.
- Log.DiskLog.EndOp: the loops of commit as they stand in the code, with the buffers others have in use the same throughout and none of them pinned; LogClient.Calls.Perform takes the same turns one at a time, while others take, hold, wait for and release any home block.
- Log.DiskLog.Commit: as Log.DiskLog.EndOp.
- Log.DiskLog.WriteLog: as Log.DiskLog.EndOp; its turn is LogClient.CopyToLog.
- Log.DiskLog.InstallTrans: as Log.DiskLog.EndOp; its turn is LogClient.CopyHome.
- Log.WriteLogBlock: as Log.DiskLog.EndOp; LogClient.CopyToLog is the turn among others who use the block.
- Log.InstallBlock: as Log.DiskLog.EndOp; LogClient.CopyHome is the turn among others who use the block.
- LogClient.Calls.Perform: an attempt that must wait leaves no reference of the committing thread on the pinned block it waits for, which has one anyway.
- Scheduler.Scheduler.Schedule: ticks is an unbounded integer.
- Umalloc.Allocator.Malloc: sbrk is assumed to return new memory above all it returned before, below 2^36 bytes, and to grant only amounts that fit its int argument.
- mkfs itself; its result is the start of `Fs` and `Links`.
- copyinstr, stat, chdir, open modes, the mutex system calls, kwait's search for a child and user programs: easy next to the rest.
