# Proofs about xv6

This project models the parts of the xv6-riscv kernel and user programs whose correctness is
hardest to see from the code, and proves what they promise. Where the C code updates state in
place the model does too: classes with fields, arrays and loops, each method proved against a
specification function or predicate. Protocols that run concurrently are machines of atomic
steps, each step being what one thread does between taking and giving up a lock, and the
theorems are about every run of the machine.

| part | files | what it is about |
|---|---|---|
| Write-ahead log | `LogMachine`, `LogReservation`, `LogDisks`, `LogCache`, `Log`, `LogRefinement` | crash atomicity with crashes anywhere, also in recovery; the exact condition under which log_write() cannot panic; the code, over the buffer cache, refines the machine |
| Page tables and memory | `Sv39`, `VmState`, `VmFree`, `VmSpaces`, `VmCopy`, `Vm`, `VmViews`, `ProcMemory`, `Program`, `Exec` | the three-level tree is to the hardware a flat page map; every page of the pool always has exactly one use, through every out-of-memory exit; user copies, fork and growth byte by byte; exec() builds exactly the image, in which the program finds its arguments |
| Directories | `DirTree`, `DirSteps`, `Directories`, `DirNames` | live directories form a tree and link counts are exact after every create, link, unlink and rollback; which name leads where |
| Processes | `ProcMachine`, `ProcSteps`, `ProcRuns`, `ProcLives`, `ProcProgress` | no lost exit, no orphan, one hart for each running process, each exit reaped at most once, sleepers that sleep until woken, no deadlock, in every run |
| User allocator | `FreeList`, `Umalloc` | the free list is an address-ordered ring without adjacent blocks; free and live blocks partition the heap; the searches end |
| Files and blocks | `FsLayout`, `FsState`, `FileBytes`, `FileSystem` | one owner for every block, contents after a write and what a reader gets, everything that is changed is logged, and how much one chunk can log |
| Chunks and crashes | `ChunkCommit`, `ChunkRuns` | a chunk of a file write is on the disk as a whole or not at all, whatever crashes; the largest chunk, and a copy that fails |
| Buffer cache | `LruRing`, `Bio` | the cache agrees with the plain block map; the LRU order |
| virtio queue | `Virtio` | descriptors and chains partition, rings never overwrite, the device moves the block that was asked for, each request is done exactly once and leaves what it was to leave |
| Shell parser | `ShSyntax`, `ShGrammar`, `ShLanguage`, `ShWords`, `ShParser`, `ShRoundTrip` | the lines that the parser accepts are exactly those of the syntax, with its meaning; round trip from tree to text; words as strings after nulterminate() |
| Pipe, grep | `PipeRing`, `Grep` | FIFO across 32-bit wrap and who may sleep when; the meaning of patterns |

`Options` holds the option type that several of them use. `dafny verify dfyconfig.toml` checks
everything.

How the parts fit: `Log` runs on the buffer cache of `Bio`. `LogCache` ties the two: a buffer that no
holder is changing has the bytes that were logged for its block, or else those on the disk, so nothing
that could be recycled is ever lost, and every home block reads as in the view of `LogMachine`.
`LogRefinement` shows that the disks that commit() and recovery pass through are those of the machine.
`FileSystem.FileDisk.WriteOp` shows that a chunk of filewrite() logs all that it changes, unless a
copy fails inside a block, and at most seven blocks on a disk with one bitmap block;
`LogReservation.MkfsLog` shows that log_write() cannot panic for operations of up to nine blocks on
the disk mkfs makes. `ChunkCommit` joins them: what `WriteOp` states of a chunk, with its blocks as
the writes of the machine, leaves after any crash the whole chunk or none of it.

Some results are about code that does not always do what one would expect:

- The guard in log_write() is tighter than the reservation in begin_op(). With nlog = LOGSIZE an
  operation that logs MAXOPBLOCKS distinct blocks can meet the panic; `PanicIff` gives the exact bound.
- create() and the second half of sys_link() keep the link counts only in a directory that still has a
  link; `CreateKeepsIff` and `LinkKeepsIff` show that this is exactly the condition, `RevivedOrphan` and
  `UncountedFile` what happens otherwise, and `FileInRemoved`, `DirectoryInRemoved` and `LinkInRemoved`
  are runs from a new disk that come to it.
- A writer of a pipe that is killed after its first byte returns without waking the readers;
  `KilledWriter` is that run, and `PipeBuffer.Write` says when a reader is left asleep over bytes.
- When a copy from the caller fails inside a block, writei() releases a buffer that it has changed and
  not logged; `HalfCopied` is such a run, and `FileDisk.WriteOp` says which block it is and that there
  is none when the caller's memory ends between blocks or after the last byte.
- A chunk of filewrite() can log MAXOPBLOCKS blocks on a disk with four bitmap blocks, as `LargestChunk`
  shows: just the size of operation for which `PanicIff` has a run that panics.
- A program header of a size that leaves the process without memory makes exec() fail, because
  uvmalloc() returns the new size and 0 stands for failure.

## Model

| member | source | states |
|---|---|---|
| `LogMachine.CrashAtomicity` | kernel/log.c:178-203 | For every crash point among the block writes of commit(), and any number of further crashes inside recovery, a completed recovery leaves every home block as it was before the transaction if the first header write had not happened, and every home block as the transaction left it otherwise |
| `LogMachine.CommitOutcome` | kernel/log.c:193-203 | What is durable right after the crash, or right after the header write if that came first: the old home blocks, or the view that the operations had |
| `LogMachine.RecoveryKeepsDurable` | kernel/log.c:116-123 | Past the commit point, recovery steps and crashes in any number keep what is durable |
| `LogMachine.CopyKeepsDurable` | kernel/log.c:178-191 | While write_log() copies, neither what is durable nor what the file system sees changes |
| `LogMachine.HeadWritePending` | kernel/log.c:102-114 | The header write is the commit point: from then on the log stands for the whole transaction |
| `LogMachine.HeadRoundTrip` | kernel/log.c:85-114 | write_head() puts the number of blocks into the first word and their numbers into the next, and read_head() gives back that list |
| `LogMachine.StepKeeps` | kernel/log.c:67-235 | Every step of begin_op(), log_write(), end_op(), commit(), recovery, and every crash keeps the invariant that ties disk, pinned buffers and header to what is durable |
| `LogMachine.RunKeeps` | kernel/log.c:67-235 | The invariant holds in every state of every run |
| `LogMachine.NeverStuck` | kernel/log.c:67-203 | In every such state the next step of commit() or of recovery is defined: every block and list entry it touches exists |
| `LogMachine.FreshInv` | mkfs/mkfs.c:108-115 | A new disk, with its zeroed log, satisfies the invariant |
| `LogReservation.LogReservation` | kernel/log.c:125-175 | Over every run with crashes in which an operation adds at most k distinct blocks: the log holds at most MAXOPBLOCKS + 2k blocks and none twice, commit() runs only with no operation in progress, and with none in progress and no commit under way the log is empty |
| `LogReservation.PanicIff` | kernel/log.c:220-221 | A run in which log_write() panics exists if and only if MAXOPBLOCKS + 2k reaches the limit in its guard |
| `LogReservation.PanicReachable` | kernel/log.c:133-140 | One way of it: the run that fills the log, built step by step |
| `LogReservation.MkfsLog` | mkfs/mkfs.c:25 | On a disk with nlog = LOGSIZE the guard can fire exactly for operations of MAXOPBLOCKS blocks; nine are safe |
| `Log.Log.constructor` | kernel/log.c:54-65 | The assignments of initlog() on a cache in which no buffer is in use: nothing is held, changed or logged, and cache and log are tied |
| `Log.Log.InitLog` | kernel/log.c:54-65 | initlog(): it returns with an empty log and the recovered disk, having passed through exactly the disks of recovery, and cannot panic with two buffers or more |
| `Log.Log.Bread` | kernel/bio.c:91-103 | The buffer of the block, held once more; it panics exactly when no buffer is available; unless its holder is changing it, it has what was last logged for the block, or else what the disk has |
| `Log.Log.Change` | kernel/log.c:205-213 | The holder of a buffer may change it; from then on it counts as changed and not yet logged |
| `Log.Log.Bwrite` | kernel/bio.c:105-112 | One disk write, of the bytes in the buffer; cache and log stay tied |
| `Log.Log.Brelse` | kernel/bio.c:114-137 | Whatever is released after log_write() or bwrite(), no buffer that could be recycled differs from the disk: this follows from the tie between cache and log and is not required |
| `Log.Log.Bunpin` | kernel/bio.c:146-151 | The same for a pinned block once it is installed |
| `Log.Log.WriteHead` | kernel/log.c:102-114 | One disk write, of the header that encodes the list; it panics only when every buffer is in use, and then write_head() could not get one |
| `Log.Log.ReadHead` | kernel/log.c:85-97 | The list in memory becomes the one that the header on disk encodes |
| `Log.Log.CopyOne` | kernel/log.c:184-189 | One iteration of write_log(): the pinned bytes of a block go to its log slot, and the pinned block itself never needs a buffer |
| `Log.Log.InstallOne` | kernel/log.c:74-82 | One iteration of install_trans(): the log slot goes to the home block, whose buffer is unpinned unless recovering |
| `Log.Log.WriteLog` | kernel/log.c:178-191 | The disks passed through, one after each block written, in order, and the last of them |
| `Log.Log.InstallTrans` | kernel/log.c:68-83 | The same for the installation, with exactly the installed blocks unpinned unless recovering |
| `Log.Log.Commit` | kernel/log.c:193-203 | The whole sequence of disks that commit() passes through, through the cache, and the state after it: nothing is pinned and nothing more is held; it panics only when every buffer is in use |
| `Log.Log.RecoverFromLog` | kernel/log.c:116-123 | The whole sequence of disks that recovery passes through, and the state after it; it panics only when there are not two buffers to use |
| `Log.Log.BeginOp` | kernel/log.c:126-142 | An operation is admitted exactly when no commit is under way and the log has room for it and those in progress |
| `Log.Log.EndOp` | kernel/log.c:146-175 | The last operation to end commits, passing through exactly the disks of a commit, and leaves the log empty; any other changes nothing but the count |
| `Log.Log.LogWrite` | kernel/log.c:214-235 | The panic condition exactly; otherwise the block is listed once, its buffer pinned once however often it is logged, and what is logged for it is what its buffer has now |
| `Log.Log.Update` | kernel/log.c:205-213 | The typical use of log_write(), with its exact panic condition: the block then reads as the new bytes, nothing is held, and the list has it once |
| `Log.Log.ReadBlock` | kernel/bio.c:91-137 | Whatever is pinned, held or recycled, a block that nobody is changing reads as it was last logged, or else as it is on the disk |
| `Log.Log.ReadsAsView` | kernel/log.c:205-213 | Every home block that nobody is changing reads in the cache as the file system of the log machine sees it |
| `LogCache.LatestIsView` | kernel/log.c:205-213 | The same on values: with the disk and the pinned blocks of a machine state, the latest bytes of every home block are those of its view |
| `LogCache.ReadsLogged` | kernel/bio.c:91-103 | The latest bytes of a block are the logged ones, if it is in the log, and else those on the disk |
| `LogCache.TiedSettled` | kernel/bio.c:74-85 | No buffer that could be recycled differs from the disk |
| `LogCache.DirtyCached` | kernel/log.c:224-231 | A block in the log is in the cache, in a buffer with a reference: pinning has kept it from being recycled |
| `LogCache.TiedRead` | kernel/bio.c:55-103 | bread(), whether it finds the block or recycles a buffer for it, keeps the tie |
| `LogCache.TiedOne` | kernel/log.c:214-235 | Changes to one buffer and to what is held, changed or logged of its block keep the tie if that buffer is then as it has to be |
| `LogCache.TiedWrite` | kernel/bio.c:105-112 | bwrite() keeps the tie |
| `LogDisks.CommitSlots` | kernel/log.c:178-203 | After write_log() and write_head() every log slot holds the bytes of the block that the header gives it |
| `LogDisks.InstallSlots` | kernel/log.c:68-83 | Installing a block keeps the slots of those after it |
| `LogRefinement.CommitRefines` | kernel/log.c:193-203 | The disks that Commit records are those of a run of the machine, in order, so crash atomicity covers each of them |
| `LogRefinement.RecoverRefines` | kernel/log.c:116-123 | The same for recovery; and every disk a crash can leave meets what initlog() needs |
| `Sv39.SetLeaf` | kernel/vm.c:181 | Writing a level-0 entry changes the flat page map at that page and nowhere else |
| `Sv39.AddMid` | kernel/vm.c:110-115 | Hanging a zeroed level-1 table below the root keeps the flat page map |
| `Sv39.AddLow` | kernel/vm.c:110-115 | Hanging a zeroed level-0 table below a level-1 table keeps the flat page map |
| `Sv39.SpaceFrame` | kernel/vm.c:95-118 | What a tree stands for depends on its own table pages only |
| `VmState.WalkStep` | kernel/vm.c:101-116 | An entry above level 0 is empty or leads to the next table: it is never a leaf, so the superpage case of walk() is not taken |
| `VmState.ProcFits` | kernel/memlayout.h:43-64 | A process has fewer pages than the pool, so growth never reaches TRAPFRAME |
| `VmState.OwnerUnique` | kernel/vm.c:253-281 | Only the page that is mapped at page v of a process is owned as its page v |
| `VmViews.TranslateFlat` | kernel/vm.c:84-118 | For every page below MAXVA the walk that the hardware makes through the tables finds exactly what the flat page map has: its entry at level 0, or a fault |
| `Vm.Kernel.constructor` | kernel/kalloc.c:26-31 | kinit(): every page of the pool is free and there is no address space |
| `Vm.Kernel.FreeRange` | kernel/kalloc.c:33-40 | Every page of the range goes to the free list |
| `Vm.Kernel.Kalloc` | kernel/kalloc.c:68-82 | The first free page, no longer free and filled with junk; 0 exactly when there is none |
| `Vm.Kernel.Kfree` | kernel/kalloc.c:46-63 | The page, filled with junk, goes to the front of the free list |
| `Vm.Kernel.Walk` | kernel/vm.c:95-118 | The level-0 entry of a page; the flat map never changes; with alloc it fails only when fewer than two pages were free, and what it took is a table page of that space |
| `Vm.Kernel.AllocTable` | kernel/vm.c:110-115 | One new table page on the path, or nothing when no page is free |
| `Vm.Kernel.MapPages` | kernel/vm.c:159-188 | Exactly the given range is mapped, as MapRangeAt spells out; on failure a beginning of it, and only when free pages were short |
| `Vm.MapRangeAt` | kernel/vm.c:175-186 | Page v + j goes to physical page ppn + j with the given permissions, and no other entry changes |
| `Vm.Kernel.UvmUnmap` | kernel/vm.c:193-219 | Exactly the given range is unmapped, and with do_free exactly its pages become free |
| `Vm.Kernel.UvmCreate` | kernel/vm.c:223-232 | A new empty space from one free page; 0 exactly when none is free |
| `Vm.Kernel.AllocPage` | kernel/vm.c:264-279 | One iteration of the loop: the page is taken and mapped, or everything but new table pages is as before |
| `Vm.Kernel.UvmAlloc` | kernel/vm.c:253-281 | Growth adds zeroed pages with the given permissions exactly from oldsz to newsz; failure only when free pages were short, and then the flat map is restored and only table pages of this space were kept |
| `Vm.Kernel.UvmDealloc` | kernel/vm.c:287-299 | Exactly the pages from newsz to oldsz become free |
| `Vm.Kernel.FreeWalk` | kernel/vm.c:303-319 | From an empty tree, exactly the table pages from that place down become free, each once |
| `Vm.Kernel.UvmFree` | kernel/vm.c:323-329 | The space is gone and exactly its pages are free |
| `Vm.Kernel.CopyPage` | kernel/vm.c:346-362 | One iteration of the loop: a copy of page i is mapped as page i, or everything but new table pages is as before |
| `Vm.Kernel.UvmCopy` | kernel/vm.c:337-368 | All pages copied, with the same flags and bytes; on failure, only when free pages were short, the child has no user page and only table pages were kept |
| `Vm.Kernel.UvmClear` | kernel/vm.c:372-381 | Only the U flag of that page goes |
| `Vm.Kernel.Walkaddr` | kernel/vm.c:123-141 | The physical page of a user page, 0 exactly when there is none open to user mode |
| `Vm.Kernel.Copyout` | kernel/vm.c:386-419 | Success exactly when every touched page is valid, user and writable; the bytes up to the first that is not, and no others, are written |
| `Vm.Kernel.Copyin` | kernel/vm.c:424-444 | Success exactly when every byte is user-mapped, and then the result is the flat view |
| `Vm.Kernel.Copyinstr` | kernel/vm.c:450-487 | Success exactly when a NUL lies within the first max bytes with every byte up to it user-mapped, and then the result is that string |
| `VmCopy.CopyRoundTrip` | kernel/vm.c:386-444 | What copyout() wrote is what copyin() reads |
| `VmCopy.WrittenView` | kernel/vm.c:386-419 | Seen byte by byte, exactly the written range changes |
| `VmViews.WrittenApart` | kernel/vm.c:386-419 | What is written for one process, no other process sees |
| `VmViews.GrownBytes` | kernel/vm.c:253-281 | A grown process sees its old memory byte by byte as it was, and above that zeroes that it can write |
| `VmViews.ShrunkBytes` | kernel/vm.c:287-299 | A process that has shrunk sees what is left as it was, and cannot read the rest |
| `VmViews.CopiedBytes` | kernel/vm.c:337-368 | A copy sees the same bytes as the original at every address, with the same access |
| `VmCopy.StringUnique` | kernel/vm.c:450-487 | The string at an address is unique |
| `VmFree.EntryLeads` | kernel/vm.c:307-317 | What freewalk() finds in an entry of a tree where nothing is mapped: a table below it or nothing, so its panic is not reached |
| `VmFree.ChildFreed` | kernel/vm.c:307-317 | One iteration of the loop frees the whole subtree of that entry and nothing else |
| `VmFree.LoopDone` | kernel/vm.c:318 | After the loop and the kfree() exactly the subtree is free |
| `VmSpaces.BuiltGone` | kernel/proc.c:208-216 | A space built from free pages, whatever was done to it since, gives every page back when it is freed: all uses and contents are restored |
| `VmSpaces.NewSpaceOk` | kernel/vm.c:223-232 | A zeroed page is an empty address space |
| `VmSpaces.DropSpace` | kernel/vm.c:323-329 | Freeing the tables of a space where nothing is mapped leaves the others sound |
| `ProcMemory.ProcPagetable` | kernel/proc.c:174-206 | A space with exactly the trampoline and trap frame mapped; on failure, only with fewer than five free pages, every page is back |
| `ProcMemory.ProcFreePagetable` | kernel/proc.c:208-216 | The space is gone and exactly its pages are free |
| `ProcMemory.GrowProc` | kernel/proc.c:257-275 | Growth: every old byte reads as before and every new one as zero and can be written. Shrinking: what is left reads as before and what is above cannot be read, and exactly those pages are free. User pages stay those below the rounded size; growth fails only when free pages are short, without effect on the mapping |
| `ProcMemory.ForkMemory` | kernel/proc.c:286-297 | At every address the child sees what the parent saw, with the same access, in pages of its own; the parent is unchanged; on failure, only when free pages are short, every page is back |
| `Exec.LoadSeg` | kernel/exec.c:147-170 | The bytes of the file go to their address; success exactly when the file has them; walkaddr() never fails |
| `Exec.LoadOne` | kernel/exec.c:56-69 | One segment: size, bytes and flags of the pages after it; failure only for a bad header, a short file, an empty process or too few free pages |
| `Exec.LoadSegments` | kernel/exec.c:52-70 | All segments: the memory is the overlay of all of them, failing only for the same reasons |
| `Exec.MakeStack` | kernel/exec.c:78-88 | Guard page and stack pages at the next page boundary, with their flags; failure only when pages are short |
| `Exec.PushArgs` | kernel/exec.c:90-110 | The argument strings and the pointer array lie on the stack; failure only when there are too many, they do not fit, or the stack is not writable, which MakeStack rules out |
| `Exec.Bad` | kernel/exec.c:137-145 | The bad exit gives back every page taken since exec() began |
| `Exec.Exec` | kernel/exec.c:22-145 | On success the old space is gone and the new one holds exactly the image, size, stack pointer and page flags that the file and the arguments determine, from which a new program starts as Program.ExecStarts says; on failure every page, use and content is as before; it fails only for a program or arguments it cannot run or when free pages are short |
| `Program.ArgsReadable` | kernel/exec.c:90-110 | In the image, every argument string with its NUL can be read at its address, and the array at the stack pointer holds these addresses |
| `Program.ExecStarts` | kernel/exec.c:22-145 | What the new program finds: every loaded segment lies in its memory; every byte below the stack comes from the last segment over it, or is zero; every page has the access of the first header that reaches it; then the guard page and the stack, zero up to the stack pointer, at which argv lies |
| `Program.ArgvLoads` | kernel/exec.c:90-119 | A 64-bit little-endian load at sp + 8 k gives an address at which argument k with its NUL can be read, the load after the last gives 0, and sp is a multiple of 16 |
| `Program.LoadedByte` | kernel/exec.c:52-70 | A byte of the loaded image is the byte of the file that the last segment over it gives it, and zero if none has file bytes there |
| `Program.FlagsFirst` | kernel/exec.c:12-20 | A page is readable and open to the user, and writable or executable exactly as the first header that reaches it says |
| `Program.PushedKeeps` | kernel/exec.c:90-101 | A later string never overwrites an earlier one, and each starts at a multiple of 16 |
| `Program.StackDown` | kernel/exec.c:90-101 | The stack pointer goes down by at least each string and its NUL |
| `Program.OnlyGuardClosed` | kernel/exec.c:78-88 | Of all pages of the new process only the guard page is closed to user mode, and the stack is writable |
| `DirTree.Rooted` | kernel/sysfile.c:244-302 | From every live directory ".." leads to the root |
| `DirTree.NoCycle` | kernel/sysfile.c:244-302 | No directory lies below itself |
| `DirTree.OneName` | kernel/sysfile.c:123-302 | A directory other than the root has exactly one entry beyond "." and "..", and it is in its parent |
| `DirSteps.LinkBegunOk` | kernel/sysfile.c:138-147 | Raising the count before the entry exists keeps tree and counts |
| `DirSteps.LinkedOk` | kernel/sysfile.c:149-156 | Writing the entry keeps them |
| `DirSteps.LinkUndoneOk` | kernel/sysfile.c:163-169 | The bad exit keeps them |
| `DirSteps.ReclaimedOk` | kernel/fs.c:336-362 | Freeing an inode without links keeps them |
| `DirSteps.CreatedDirTree` | kernel/sysfile.c:270-289 | A new directory keeps the tree: it is one deeper than its parent |
| `DirSteps.UnlinkedFileOk` | kernel/sysfile.c:222-233 | Removing a file keeps tree and counts |
| `DirSteps.UnlinkedDirOk` | kernel/sysfile.c:222-233 | Removing an empty directory keeps tree and counts |
| `DirSteps.NamedLinked` | kernel/sysfile.c:215-216 | What an entry names has a link, so the panic of sys_unlink() is not reached |
| `DirSteps.EmptyRefs` | kernel/sysfile.c:172-186 | An empty directory is named by its entry in its parent and nothing else, and has one link |
| `DirSteps.TwoRefs` | kernel/sysfile.c:225-228 | The parent of a directory has at least two links |
| `Directories.DirLookup` | kernel/fs.c:549-575 | The first entry with that name, exactly when there is one |
| `Directories.IsDirEmpty` | kernel/sysfile.c:172-186 | True exactly when no slot beyond the first two is used |
| `Directories.Inodes.constructor` | mkfs/mkfs.c:116-128 | A root directory that is its own parent, and nothing else in use, satisfies the invariant |
| `Directories.Inodes.DirLink` | kernel/fs.c:577-606 | The entry goes into the first unused slot; it fails exactly when the name is there or a needed block is not |
| `Directories.Inodes.IAlloc` | kernel/fs.c:195-219 | The first free inode, exactly when there is one; 0 exactly when there is none |
| `Directories.Inodes.Reclaim` | kernel/fs.c:341-357 | An inode without links becomes free; the invariant is kept |
| `Directories.Inodes.LinkBegin` | kernel/sysfile.c:138-147 | Fails exactly for a directory; the count is raised; the invariant is kept |
| `Directories.Inodes.LinkEnd` | kernel/sysfile.c:149-169 | In any directory, the entry is written, or the count is taken back, exactly as dirlink() can or cannot; the invariant is kept unless the entry goes into a directory without links |
| `Directories.Inodes.LinkIn` | kernel/sysfile.c:151-153 | The dirlink() of it, in any directory: which entry is written and when |
| `Directories.Inodes.Create` | kernel/sysfile.c:244-302 | In any directory. For a name that is there: create() gives its inode exactly when a file is asked for and it is a file or a device, so open with O_CREATE succeeds on it and mkdir and mknod never do, and nothing changes. Otherwise how the inode table changes, with the exact failure condition; a failure leaves the table as it was. The invariant is kept if the directory has a link |
| `Directories.Inodes.Unlink` | kernel/sysfile.c:188-243 | The entry of that name goes and the counts follow, or nothing changes because no entry of that name may go; the invariant is kept |
| `DirNames.CreateLeads` | kernel/sysfile.c:244-302 | After create() the name leads to the new inode, every other name in every directory where it led, a new directory has "." and ".." alone, and exactly the new inode and the parent of a new directory have one link more |
| `DirNames.LinkLeads` | kernel/sysfile.c:149-156 | After a link the name leads to the inode, every other name where it led, and no count changes |
| `DirNames.LinkUndoes` | kernel/sysfile.c:142-169 | Before that exactly the count of the inode goes up by one, and the bad exit leaves everything as it was |
| `DirNames.UnlinkLeads` | kernel/sysfile.c:188-243 | After unlink the name leads nowhere, every other name where it led, and exactly the inode, and the parent of a removed directory, have one link less |
| `DirNames.RemovesIff` | kernel/sysfile.c:172-243 | sys_unlink() can remove a name if and only if it is neither "." nor "..", it leads to something, and if that is a directory nothing but the dots is in it |
| `DirNames.LookupLeads` | kernel/fs.c:549-575 | In a live directory dirlookup() finds an inode under a name exactly when the name leads there |
| `Directories.CreateKeepsIff` | kernel/sysfile.c:244-302 | create() in a directory keeps tree and counts if and only if that directory has a link |
| `Directories.LinkKeepsIff` | kernel/sysfile.c:149-156 | The same for the second half of sys_link() |
| `Directories.RevivedOrphan` | kernel/sysfile.c:244-302 | The failing case for directories, from every state: a removed directory comes back to life without an entry in its parent |
| `Directories.UncountedFile` | kernel/sysfile.c:244-302 | The failing case for files, from every state: a link that no live directory holds |
| `Directories.RemovedDirectory` | kernel/sysfile.c:188-243 | A run of mkdir and rmdir from a new disk to a removed directory that a process may still have as its current one |
| `Directories.FileInRemoved` | kernel/sysfile.c:244-302 | The run goes on with create() of a file there: the counts are then wrong |
| `Directories.DirectoryInRemoved` | kernel/sysfile.c:244-302 | Or with create() of a directory there: the removed directory is live again with no entry in its parent |
| `Directories.LinkInRemoved` | kernel/sysfile.c:149-156 | Or with sys_link() of a file to a name there |
| `ProcRuns.NoLostExit` | kernel/proc.c:388-435 | In every run, whenever wait_lock is free a process asleep in wait() has no zombie child |
| `ProcRuns.OnlyInitSleepsOver` | kernel/proc.c:328-386 | And while it is held, only init may, before the exit() in progress has come to it |
| `ProcRuns.NoOrphan` | kernel/proc.c:277-435 | In every run every process in use but init has a parent that is neither UNUSED nor a zombie |
| `ProcRuns.OneHart` | kernel/proc.c:437-519 | In every run a process whose lock is free is RUNNING exactly when a hart has it, and never two do |
| `ProcRuns.SchedChecks` | kernel/proc.c:483-508 | The checks of sched() hold whenever a thread comes to it, and an exited thread is never switched to again |
| `ProcRuns.BootOk` | kernel/proc.c:231-255 | The state after userinit() satisfies the invariant |
| `ProcRuns.RunKeeps` | kernel/proc.c:277-616 | The invariant holds in every state of every run |
| `ProcSteps.ForkKeeps` | kernel/proc.c:277-326 | Each lock-to-lock step of fork(), with allocproc() and freeproc(), keeps the invariant |
| `ProcSteps.ExitKeeps` | kernel/proc.c:328-386 | Each step of exit(), reparent() and the wakeup() calls in them that concerns a second process keeps the invariant |
| `ProcSteps.ExitAloneKeeps` | kernel/proc.c:328-386 | So does each of them that concerns no other process |
| `ProcSteps.WaitKeeps` | kernel/proc.c:388-435 | Each step of wait(), with its sleep(), that looks at a second process keeps the invariant; what a reap does is in ProcLives.ReapedOnce and ReapFrees |
| `ProcSteps.WaitAloneKeeps` | kernel/proc.c:388-435 | So does each of them that looks at no other process |
| `ProcSteps.SleepKeeps` | kernel/proc.c:545-616 | sleep(), wakeup(), kill() and yield() |
| `ProcSteps.SchedKeeps` | kernel/proc.c:437-543 | Each step of scheduler(), sched() and forkret() |
| `ProcSteps.StepKeeps` | kernel/proc.c:277-616 | Every enabled step of any thread or hart keeps the invariant |
| `ProcLives.ReapedOnce` | kernel/proc.c:388-435 | In every run each exit is reaped at most once: between two reaps of an entry of the table lie a fork() that takes it and an exit of it |
| `ProcLives.ReapFrees` | kernel/proc.c:407-419 | What is reaped was a zombie child of the caller, and its entry is then UNUSED, without parent and unlocked |
| `ProcLives.ReapedTaken` | kernel/proc.c:105-121 | So any thread that then calls fork() can take it |
| `ProcLives.LivedBetween` | kernel/proc.c:277-386 | An entry that was UNUSED and is a zombie has been taken by a fork() and has exited since |
| `ProcLives.StepLives` | kernel/proc.c:277-616 | In every reachable state, for every step and every entry: only fork() takes an UNUSED entry, only the exit of its own process makes a zombie, only wait() ends one, and only wakeup() on its channel or kill() ends a sleep |
| `ProcLives.SleepsTill` | kernel/proc.c:545-590 | In every run a process that goes to sleep on a channel sleeps there until wakeup() of that channel or kill() comes to it, and then it is runnable |
| `ProcLives.KilledStays` | kernel/proc.c:592-616 | In every run a killed process is not asleep right after, and stays killed as long as its entry is in use |
| `ProcLives.ForkStarts` | kernel/proc.c:300-326 | In every run a fork() that completes has made a runnable child of the caller out of an entry that it had taken |
| `ProcLives.ForkFails` | kernel/proc.c:277-298 | In every run a fork() that fails has given back the entry it had taken |
| `ProcLives.WaitFails` | kernel/proc.c:424-429 | In every run wait() gives up only for a process that has been killed or has no children |
| `ProcProgress.NoDeadlock` | kernel/proc.c:277-616 | In every state of every run a thread that a hart runs in one of the operations can take its next step; or it waits for the lock of one process, whose holder can; or for wait_lock, whose holder can, or waits for the lock of one process, whose holder can |
| `ProcProgress.HolderGoes` | kernel/proc.c:437-543 | Whoever holds the lock of a process, thread or scheduler, can take its next step |
| `ProcProgress.WaitHolderGoes` | kernel/proc.c:328-435 | The holder of wait_lock can, or waits for the lock of one process, whose holder can |
| `ProcProgress.OwnLock` | kernel/proc.c:483-508 | Nobody holds the lock of a process whose thread runs |
| `ProcProgress.HartGoes` | kernel/proc.c:437-475 | In every run a hart runs a thread, or its scheduler can go on, or it can take any process that is RUNNABLE and not locked, which then runs there |
| `ProcProgress.CanCall` | kernel/proc.c:277-616 | In every run a running thread can call exit(), wait(), fork(), sleep() and yield() when the locks they begin with are free, and kill() and wakeup() come to every process whose lock is free |
| `FreeList.InsertOk` | user/umalloc.c:33-43 | free() keeps the list in address order, disjoint and with no two blocks adjacent |
| `FreeList.InsertFree` | user/umalloc.c:33-43 | Exactly the units of the freed block are added |
| `FreeList.TakeOk` | user/umalloc.c:75-85 | Taking units from a block keeps the list |
| `FreeList.TakeFree` | user/umalloc.c:75-85 | Exactly the units taken leave the list |
| `Umalloc.InsertLinked` | user/umalloc.c:33-43 | The pointer writes of free() produce the ring of the new list |
| `Umalloc.TakeLinked` | user/umalloc.c:75-85 | The pointer writes of malloc() produce the ring of the new list |
| `Umalloc.FreedPartition` | user/umalloc.c:24-44 | After free(), free and live blocks still partition the heap |
| `Umalloc.TakenPartition` | user/umalloc.c:75-85 | After malloc(), too, and the new block overlaps no live one |
| `Umalloc.GrownPartition` | user/umalloc.c:54-59 | And with a region from sbrk() added |
| `Umalloc.Units` | user/umalloc.c:69 | The units asked for cover the header and nbytes, with less than one to spare |
| `Umalloc.Allocator.constructor` | user/umalloc.c:21-22 | Before the first call there is no list, no block and no heap |
| `Umalloc.Allocator.Search` | user/umalloc.c:30-32 | The circular search stops, and at the one place where the block belongs |
| `Umalloc.Allocator.Free` | user/umalloc.c:24-44 | The list is the old one with the block inserted and joined; other live blocks are untouched |
| `Umalloc.Allocator.MoreCore` | user/umalloc.c:46-61 | The region is added to heap and list, and some block is then large enough; without one nothing changes |
| `Umalloc.Allocator.Cut` | user/umalloc.c:75-85 | The found block loses exactly n units from its end, or goes |
| `Umalloc.Allocator.Malloc` | user/umalloc.c:63-90 | The search ends after at most one morecore(); the result is a new live block of Units(nbytes); the heap grows only when no block was large enough; 0 only when sbrk() gave nothing and none was |
| `FsLayout.SetWordOk` | kernel/fs.h:28-34 | Storing a block number in an indirect block is read back, and no other entry changes |
| `FsLayout.BitChanged` | kernel/fs.c:74-103 | Setting or clearing a bit of the free map changes that bit only |
| `FsState.OnePlace` | kernel/fs.c:372-421 | No block is in two places: direct slots and indirect entries of all inodes are different blocks |
| `FsState.AddedOk` | kernel/fs.c:65-88 | Putting a free block into an empty place keeps ownership, bitmap and no-holes |
| `FsState.TruncatedOk` | kernel/fs.c:423-453 | So does taking all blocks of an inode away |
| `FsState.StoredOk` | kernel/fs.c:520-527 | New bytes in a data block keep them |
| `FileBytes.WroteContents` | kernel/fs.c:505-539 | A file into whose blocks src was written part by part, and whose size takes in r bytes of it, has the contents c[..off] + src + c[off+len(src)..] up to that size, and other files have theirs |
| `FileBytes.HasAll` | kernel/fs.c:472-496 | Every byte below the size of a file is on the disk |
| `FileSystem.FileDisk.constructor` | mkfs/mkfs.c:108-115 | A disk on which only the metadata is in use satisfies the invariant |
| `FileSystem.FileDisk.Mount` | kernel/fs.c:40-47 | A disk in use, in any state that satisfies the invariant |
| `FileSystem.FileDisk.Balloc` | kernel/fs.c:65-88 | The first block whose bit is clear, now set, zeroed and logged; 0 exactly when there is none |
| `FileSystem.GrownTrans` | kernel/fs.c:65-88 | Allocations that are first fit one after the other are first fit together |
| `FileSystem.FileDisk.MapsSize` | kernel/fs.h:50-51 | Blocks are in no more blocks of the free map than there are of them |
| `FileSystem.FileDisk.Bfree` | kernel/fs.c:90-105 | The bit of the block is cleared and its bitmap block logged |
| `FileSystem.FileDisk.AllocDirect` | kernel/fs.c:388-396 | A missing direct block: an unowned block gets that place, or the disk is full |
| `FileSystem.FileDisk.AllocIndirect` | kernel/fs.c:401-406 | The same for the indirect block |
| `FileSystem.FileDisk.AllocEntry` | kernel/fs.c:409-415 | The same for an entry of it |
| `FileSystem.FileDisk.Bmap` | kernel/fs.c:382-421 | The block at that place; no other place and no byte of any file changes; what is there already is not allocated again; everything changed is logged; 0 only when the disk is full |
| `FileSystem.FileDisk.ITrunc` | kernel/fs.c:423-453 | Exactly the blocks of the inode are freed and its contents are empty, "freeing free block" is not reached, other files keep their contents, everything changed is logged |
| `FileSystem.FileDisk.ReadI` | kernel/fs.c:467-496 | Within the file, what is delivered is the contents from off on: n bytes or, if there are not that many, all up to the end, and their number is returned; -1 exactly when the memory of the caller ends before that, after what it has room for; past the end or on overflow nothing; nothing is allocated or logged |
| `FileSystem.FileDisk.FileRead` | kernel/file.c:107-130 | fileread() of an inode: the offset moves by exactly the bytes delivered, which are those of the file from the old offset to the new one; fewer than asked for only at the end of the file |
| `FileSystem.FileDisk.ReadAll` | kernel/file.c:107-130 | Reading on from the beginning in pieces of any size until 0 comes back gives exactly the contents of the file |
| `FileSystem.WrittenByte` | kernel/fs.c:505-538 | After a write the file has the bytes written from off on, every other byte as it was, and ends where it ended or at the last byte written |
| `FileSystem.FileDisk.WriteBlock` | kernel/fs.c:516-528 | One iteration of the loop: the next part of src is in its block and logged, or the disk is full, or the copy failed and what the caller had of that part is in the block and not logged |
| `FileSystem.FileDisk.WriteLoop` | kernel/fs.c:516-528 | A beginning of src is written, up to a block boundary: all of it unless the disk is full or a copy fails; new blocks are allocated first fit; data and new blocks are bounded by the blocks touched |
| `FileSystem.FileDisk.WriteI` | kernel/fs.c:498-539 | Contents and return value of a write, for any offset, across the direct and indirect boundary, with a full disk and with a copy that fails; -1 exactly for a bad offset or size; everything changed is logged but for the block of a failed copy, and only inode ino changes |
| `FileSystem.FileDisk.WriteOp` | kernel/file.c:148-175 | One chunk logs at most MAXOPBLOCKS distinct blocks, at most nine if aligned, and at most seven with one bitmap block; it allocates at most four blocks, first fit; every block it changes is logged unless a copy fails inside a block |
| `FileSystem.FileDisk.FileWrite` | kernel/file.c:135-181 | The file after all chunks, the new offset and the return value; -1 only for a full disk, memory the caller does not have, or an offset or size out of range |
| `ChunkRuns.LargestChunk` | kernel/file.c:149-155 | The bound is attained: a run in which one chunk is written whole and logs exactly MAXOPBLOCKS blocks |
| `ChunkRuns.TenLogged` | kernel/file.c:149-155 | Whatever covers the changes of that chunk has ten blocks or more |
| `ChunkRuns.FirstFour` | kernel/fs.c:65-88 | The four blocks it takes are, by first fit, in four different blocks of the free map |
| `ChunkRuns.NewPlace` | kernel/fs.c:382-421 | Over any number of allocations a place that was filled keeps its block and one that was empty gets a block that was free |
| `ChunkRuns.HalfCopied` | kernel/fs.c:522-525 | A run in which a copy fails inside a block: writei() returns 0 and logs only the inode, and the block of the file has changed |
| `ChunkCommit.ChunkAtomic` | kernel/file.c:157-168 | A chunk and the log together: after a crash at any point of the commit, and any number of crashes in recovery, the home blocks stand for the state before the chunk if the header had not been written, and for the state after it otherwise |
| `ChunkCommit.GroupCommit` | kernel/log.c:126-203 | Any number of operations that begin, write and end on an idle log: after such a crash the home blocks are as before all of them, or with everything over them that was passed to log_write() |
| `ChunkCommit.Ran` | kernel/log.c:126-235 | While operations run, the disk stays as it is and the file system sees what was written over it |
| `ChunkCommit.UnloggedShows` | kernel/fs.h:31-51 | A block that a chunk did not pass to log_write() stands for the new state as it did for the old one |
| `ChunkCommit.OneState` | kernel/fs.h:8-51 | The home blocks stand for one state only: its inodes, its free map and every word of its other blocks |
| `LruRing.UnlinkOk` | kernel/bio.c:128-129 | The two pointer writes take a buffer out of the ring |
| `LruRing.PushOk` | kernel/bio.c:130-133 | The four pointer writes put it at the front |
| `Bio.LatestHeld` | kernel/bio.c:91-103 | A valid buffer has the latest bytes of its block |
| `Bio.RecycleSame` | kernel/bio.c:76-84 | Recycling a clean buffer changes what no block reads as |
| `Bio.ChangeBlock` | kernel/bio.c:105-112 | New bytes in a buffer are the new bytes of its block and of no other |
| `Bio.LeastRecent` | kernel/bio.c:74-77 | The first unused buffer from the back is the one put at the front longest ago |
| `Bio.Cache.constructor` | kernel/bio.c:36-53 | The ring is a permutation of all buffers, which hold nothing |
| `Bio.Cache.Bget` | kernel/bio.c:55-89 | The one buffer of the block, or the unused one least recently put at the front; all blocks read as before; it panics exactly when there is neither |
| `Bio.Cache.Find` | kernel/bio.c:65-72 | The search from the front finds the block exactly when a buffer has it |
| `Bio.Cache.FindUnused` | kernel/bio.c:74-85 | The search from the back finds the least recent unused buffer |
| `Bio.Cache.Bread` | kernel/bio.c:91-103 | The latest bytes of the block; a buffer that is held or pinned is never given to another block |
| `Bio.Cache.Bwrite` | kernel/bio.c:105-112 | The disk has the bytes of the buffer; all blocks read as before |
| `Bio.Cache.Change` | kernel/log.c:205-213 | What the holder of a buffer writes into it is what its block now reads as |
| `Bio.Cache.Bpin` | kernel/bio.c:139-144 | One more reference; all blocks read as before |
| `Bio.Cache.Bunpin` | kernel/bio.c:146-151 | One reference less; all blocks read as before; the cache stays settled exactly if a buffer without references is then as on the disk |
| `Bio.Cache.Brelse` | kernel/bio.c:114-137 | One reference less, and a buffer that nobody holds any more goes to the front; all blocks read as before; the cache stays settled exactly if such a buffer is as on the disk |
| `Virtio.Pigeons` | kernel/virtio_disk.c:271-277 | No more than NUM heads can be pending, so no slot is used twice |
| `Virtio.PushHolds` | kernel/virtio_disk.c:271-277 | Adding an entry overwrites no pending one |
| `Virtio.PopHolds` | kernel/virtio_disk.c:312-324 | Taking an entry takes the oldest pending one |
| `Virtio.SlotOf` | kernel/virtio_disk.c:271-277 | A 16-bit index leads to the slot of the count it stands for, also where it wraps |
| `Virtio.Counts` | kernel/virtio_disk.c:312 | 16-bit indices are equal exactly when nothing is pending |
| `Virtio.AddChain` | kernel/virtio_disk.c:236-269 | Three free descriptors become a chain; free descriptors and chains still partition all |
| `Virtio.RemoveChain` | kernel/virtio_disk.c:184-197 | And back |
| `Virtio.StoredBlock` | kernel/virtio_disk.c:215-219 | Two sectors stored from sector 2 b on are block b, and no other block changes |
| `Virtio.Queue.constructor` | kernel/virtio_disk.c:143-145 | All descriptors free, both rings empty, and the disk as it is |
| `Virtio.Queue.AllocDesc` | kernel/virtio_disk.c:155-166 | The first free descriptor, exactly when there is one |
| `Virtio.Queue.FreeDesc` | kernel/virtio_disk.c:168-182 | The descriptor is cleared and free |
| `Virtio.Queue.Alloc3` | kernel/virtio_disk.c:199-213 | Three distinct free descriptors, or none taken because there are not three |
| `Virtio.Queue.FreeChain` | kernel/virtio_disk.c:184-197 | Exactly the three descriptors of the chain become free; the panics of free_desc() are not reached |
| `Virtio.Queue.Format` | kernel/virtio_disk.c:236-269 | A device that reads the chain as section 5.2.6 of VIRTIO 1.1 has it finds the command with the first sector of the block, the buffer with its length and direction, and where the status byte goes |
| `Virtio.Queue.Submit` | kernel/virtio_disk.c:215-281 | A new request for that buffer, block and direction is queued behind those pending, or nothing changes because three descriptors are not free |
| `Virtio.Queue.Take` | kernel/virtio_disk.c:271-281 | The device takes the oldest request that it has not taken |
| `Virtio.Queue.Transfer` | kernel/virtio_disk.c:236-265 | The device stores 512-byte sectors. A write through the chain makes the 1024 bytes at byte blockno * 1024 of the disk those of the buffer and leaves every other block number as it was; a read gives the buffer the bytes of that block |
| `Virtio.Queue.MoveBytes` | kernel/virtio_disk.c:236-265 | The transfer leaves the buffers of all other requests as they are |
| `Virtio.Queue.Change` | kernel/virtio_disk.c:283-291 | Between requests the holder of a buffer may change it, without effect on any request |
| `Virtio.Queue.Complete` | kernel/virtio_disk.c:309-319 | The device may complete any request it has taken, in any order: a write makes exactly its block number the bytes that the buffer had when it was submitted, a read moves that block into the buffer, and the used entry goes behind those pending |
| `Virtio.Queue.Intr` | kernel/virtio_disk.c:294-327 | Exactly the requests with an entry in the used ring become done, each once; the status check does not fail |
| `Virtio.Queue.IntrOne` | kernel/virtio_disk.c:312-324 | One entry: the buffer of its own request is marked done |
| `Virtio.Queue.Finish` | kernel/virtio_disk.c:283-291 | The request is removed and its chain freed exactly when it is done; the buffer of a read is then the block as it was when the device completed it, whatever other requests ran in between |
| `ShLanguage.Accepted` | user/sh.c:327-447 | Every line that is written as the syntax says is accepted, and means what it says there: simple commands with redirections before, between and after their words, groups, pipes, lists and background commands, however tabs, newlines and other blanks lie between the tokens; the first redirection written is the innermost |
| `ShLanguage.Parsed` | user/sh.c:327-447 | Conversely, every line that the parser accepts is written as the syntax says and means what it says there |
| `ShLanguage.AcceptedIff` | user/sh.c:327-343 | So the parser panics exactly on the lines that are not in the language |
| `ShLanguage.LaidLex` | user/sh.c:266-309 | gettoken() finds the tokens of any line in which they lie apart |
| `ShLanguage.LexLaid` | user/sh.c:266-309 | And every line is its tokens with blanks between |
| `ShLanguage.SimpleRead` | user/sh.c:416-447 | parseexec() reads words and redirections in any order as the words, wrapped in the redirections as they stand |
| `ShLanguage.CommandRead` | user/sh.c:400-447 | The same for groups |
| `ShLanguage.PipelineRead` | user/sh.c:362-373 | parsepipe() reads the tokens of a pipeline as what it says |
| `ShLanguage.LineRead` | user/sh.c:345-360 | parseline() reads the tokens of a line as what it says |
| `ShLanguage.LineParsed` | user/sh.c:345-447 | And what it accepts has been the tokens of such a line |
| `ShRoundTrip.RoundTrip` | user/sh.c:327-343 | For every command tree with legal words and at most MAXARGS - 1 words to a simple command, parsing its fully parenthesised text gives that tree |
| `ShWords.LineFits` | user/sh.c:345-447 | For every line, each word and file of the parsed command is a whole word of the line |
| `ShWords.WordsFit` | user/sh.c:430-445 | A simple command never has MAXARGS words |
| `ShWords.WordsAreStrings` | user/sh.c:449-494 | After nulterminate() each word is a string of its own and equals its token |
| `ShWords.NulTerminate` | user/sh.c:449-494 | Exactly the positions after words become NUL |
| `ShParser.NextToken` | user/sh.c:266-309 | The loop computes the next token |
| `ShParser.PeekFor` | user/sh.c:311-321 | The loop moves over white space and tells whether one of the symbols follows |
| `ShParser.ParseRedirections` | user/sh.c:375-398 | The loop wraps the command in its redirections |
| `ShParser.ParseWords` | user/sh.c:432-443 | The loop collects words and redirections, or panics as the grammar says |
| `ShParser.ParseExecCmd` | user/sh.c:416-447 | parseexec() computes what the grammar says, redirections after words included, and terminates |
| `ShParser.ParseBlockCmd` | user/sh.c:400-414 | parseblock() does |
| `ShParser.ParsePipeCmd` | user/sh.c:362-373 | parsepipe() does |
| `ShParser.ParseLineCmd` | user/sh.c:345-360 | parseline() does |
| `ShParser.Parse` | user/sh.c:329-340 | parsecmd() up to nulterminate() does, leftovers included |
| `ShParser.ParseAndTerminate` | user/sh.c:327-343 | parsecmd() on the line in place: the command of the grammar, and every word of it left as a string that equals its token |
| `PipeRing.Counters` | kernel/pipe.c:88-123 | 32-bit counters lead to the right slots and tell empty and full, also where they wrap |
| `PipeRing.PutByte` | kernel/pipe.c:95 | Storing a byte keeps the buffer equal to what was put in and not yet taken |
| `PipeRing.TakeByte` | kernel/pipe.c:123 | The byte taken is the oldest one |
| `PipeRing.PipeBuffer.constructor` | kernel/pipe.c:22-56 | An empty pipe, both ends open |
| `PipeRing.PipeBuffer.Write` | kernel/pipe.c:76-103 | How many bytes go in, in order, and whether the call returns, fails or sleeps; a sleeping writer implies a full pipe that is open for reading; a reader is left asleep over bytes if and only if one slept, the pipe is open for reading, and the writer is killed after its first and before its last byte and before a copy failed or the buffer was full |
| `PipeRing.PipeBuffer.Read` | kernel/pipe.c:105-130 | The oldest bytes come out, as many as there are up to n; a sleeping reader implies an empty pipe that is open for writing, in runs without a writer killed after its first byte |
| `PipeRing.PipeBuffer.Close` | kernel/pipe.c:58-74 | Closing an end wakes those who sleep on the other |
| `PipeRing.PipeBuffer.Wake` | kernel/proc.c:597-616 | A process that kill() wakes no longer sleeps here |
| `PipeRing.KilledWriter` | kernel/pipe.c:84-87 | A run that ends with a reader asleep over an unread byte: the writer was killed after its first byte |
| `Grep.Match` | user/grep.c:72-82 | True exactly when some suffix of the text, or only the whole text after ^, has a prefix in the language of the items |
| `Grep.MatchHere` | user/grep.c:84-96 | True exactly when a prefix of the text is in the language of the items, all of it after a final $ |
| `Grep.MatchStar` | user/grep.c:98-106 | True exactly when the text splits into a run of the character and a match of the rest |
| `Grep.FirstItem` | user/grep.c:84-96 | A match of item and rest is a piece for the item followed by a match of the rest |
| `Grep.OnlyEol` | user/grep.c:91-92 | $ matches exactly at the end of the text |

## Left out

- Assembly, traps, interrupts, CSRs, UART, PLIC, console, boot, TLB flushing and the kernel's own page table: hardware I/O.
- Weak memory: all machines are sequentially consistent, and swtch() is an atomic hand-over of p->lock.
- Physical addresses and the packing of bits in a page-table entry: entries are pairs of a page number and a set of flags; virtual addresses in page-table code are page numbers.
- Spinlocks and sleeplocks as data structures: a lock-delimited region is one atomic step or method.
- The inode cache, its reference counts, ilock() and iget(): `Directories.Inodes.Reclaim` is iput() of the last reference and can be called at any time an inode has no links.
- namex() and path strings: directories are given by inode number, with a flag for a path that leads nowhere.
- The byte encoding of directory entries; names are strings, not cut to DIRSIZ.
- The file table, file descriptors, fileread() of pipes and devices, and sys_open().
- FileSystem.FileDisk.FileWrite: no other process writes the file between two chunks.
- Log.Log.Brelse: requires what the comment before log_write() asks of its callers, that a changed buffer has been passed to log_write() or bwrite(); writei() does not do so after a copy that fails, as `ChunkRuns.HalfCopied` shows, and what the cache then gives up is not modelled; sleeplocks, which make the holder of a buffer its only user, appear as the notion of a buffer that is being changed.
- Directories.Inodes.DirLink: whether a new directory block can be had is given by a flag, since directories are lists of entries here and not file contents.
- ChunkCommit.ChunkAtomic: type, device numbers and link count in the inode blocks are words that the model leaves open.
- The register handshake of virtio_disk_init() and memory fences: the constructor of `Virtio.Queue` is the state after it; the device reports success, and the bytes of a request move in one step.
- The ELF header check and the reading of program headers: exec() is given the headers, and whether the file ends before the last of them.
- Trap frame, registers, process name and open files in fork() and exec().
- Exec.Exec: requires fewer or more than MAXARG arguments, since with exactly MAXARG the terminating 0 would fall outside ustack[]; sys_exec() passes fewer.
- Exec.PushArgs: has the same precondition for the same reason.
- Vm.Kernel.MapPages: requires pages that are not mapped yet and permissions of a leaf; remapping panics in the source, and all callers pass leaves.
- Vm.Kernel.UvmUnmap: requires mapped pages, which the source checks with panics; without do_free it covers only the trampoline and trap frame, its only such uses.
- Umalloc.Allocator.Malloc: sizes are unbounded, so a request whose size overflows 32 bits, or sbrk()'s int, is not covered; regions from sbrk() lie above base and above earlier ones, as the model requires.
- Overflow of pid and nlink, and the error number returned for a process that is not found in kill().
- sys_pgaccess(), vmprint() and their system calls, runcmd() of the shell, the line buffering of grep(), printf and the other user programs: easy once the parts above are there, or text formatting.
- mkfs beyond its layout constants and the state it starts from.
