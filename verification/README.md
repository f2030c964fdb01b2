# Verified models of an xv6 derivative

This project models the kernel and user code of an xv6 derivative in Dafny and proves what that code is
for. Each component is modelled from its own source file:

- **The redo log** (`Disk`, `LogFormat`, `Log`, `LogProtocol`, `LogRuns`, `LogLink`): crash atomicity over
  every prefix of disk writes with recovery that may itself be interrupted, the whole protocol of operations,
  commit, crash and recovery as a refinement of a disk that changes by whole transactions, the durability of
  every operation that ends, and what follows for any property that finished operations keep.
- **The buffer cache** (`BufferRing`, `Bio`): the doubly linked ring, least-recently-released recycling,
  unique keys, and agreement of what is read with what was last written.
- **The user-level allocator** (`FreeList`, `Umalloc`), after section 8.7 of The C Programming Language,
  2nd edition: one canonical address-ordered ring, and all units partitioned into free and live blocks.
- **Two-level page tables** (`Paging`, `PagingCopy`, `PagingCount`, `PagingRights`, `PagingView`, `VmSpec`, `Vm`),
  as 32-bit paging of section 4.3 of the Intel SDM Volume 3A defines them: a partial map from pages to frames,
  memory as the process reads it, rollback, copying, access rights, frame conservation, and exactly when each
  operation finds frames enough.
- **Blocks, files and the image builder** (`FsFormat`, `FsCount`, `FsBlocks`, `Fs`, `FsChunks`, `Mkfs`): who
  owns which block, files as byte sequences through direct and indirect blocks, and exactly when a write runs
  out of blocks.
- **Directories, paths and link counts** (`Names`, `Directory`, `DirTree`, `Sysfile`, `Paths`): directories as
  finite maps, paths as folds of lookup, absolute paths of directories, exact link counts and the tree of
  live directories, from the path of each call to the entry it changes.
- **Processes and sleep locks** (`Proc`, `ProcProtocol`, `ProcRuns`, `Sleeplock`) as interleaved steps: no
  lost wakeup, no orphan, every zombie reaped once, what kill does, one owner of a sleep lock.
- **Pipes** (`Pipe`, `PipeSleep`): first in, first out through 32-bit counters that wrap, and who sleeps.
- **The regular expression matcher** (`Grep`), after chapter 9 of The Practice of Programming, decided
  against the language of the pattern.
- **The shell parser** (`ShellGrammar`, `ShellSyntax`, `Shell`): the recursive descent parser against a
  grammar of syntax trees, exact in both directions, and a printing that parses back.

Code that changes state is a class whose methods state the new state and keep an invariant; each method
that stands for a section under a lock is one step of the interleavings. Protocols that need finer steps
are state machines, with a theorem about every run. Panics are results, or preconditions where the source
makes them the caller's duty. Integers are unbounded except where the source's 32-bit arithmetic matters
(unit counts in malloc, offsets in readi and writei, sizes in mappages and growproc, pipe counters), where
the wrap-around is written out.

Where the code and its comments differ, the model follows the code:

- mkfs gives the log LOGSIZE blocks while log_write stops at log.size - 1, so "too big a transaction" can be
  reached within the budgets; `LogProtocol.NoPanicExactly` gives the exact condition.
- Shrinking a process to size 0 is taken for a failure by growproc although the pages are gone, and the old
  size stays; `Vm.Machine.Growproc` states that this is the one case in which pages below the recorded size
  go missing, which copyuvm later panics on.
- The unit count of malloc wraps for the last few sizes below 2^32; `Umalloc.UnitsSuffice` and
  `Umalloc.CoreRequestExact` say for which, `Umalloc.Heap.Malloc` what comes of it.
- mkfs rounds the root directory up past its last block when its size is a multiple of BSIZE;
  `Mkfs.RoundedHole`.
- Creating an entry in a removed directory breaks link counts or the tree, always and only then;
  `DirTree.LinkIntoRemoved`, `DirTree.GrownInRemoved`, and the contracts of `SysLink` and `SysCreate`.
- A path through the ".." of a removed directory can meet a freed inode and panic; `Sysfile.OrphanLost` is
  such a path, `Sysfile.FileTree.Namex` says exactly which are, `Sysfile.LinkedNeverLost` which never are.
- Chunks of filewrite are sized to the whole log, not to what begin_op reserves for one operation;
  `FsChunks.ChunkFitsLog` and `FsChunks.OverBudget`.
- A killed writer leaves pipewrite without waking the readers of what it has written;
  `PipeSleep.MoveReaders` says when a reader is left asleep for it, `PipeSleep.Stranded` is such a run.
- kill does not look at the state of the slot it marks, and only wait clears the mark: a slot whose fork
  failed keeps it for the next process; `ProcRuns.KilledExactly`.
- `>>` is parsed like `>`.

`Common` holds the two definitions that all modules share. `dafny verify dfyconfig.toml` checks everything.

## Model

| member | source | states |
|---|---|---|
| `LogFormat.CrashAtomic` | src/log.c:192-202 | For every transaction of distinct home blocks, every number k of single-block writes of commit that reached the disk, and every sequence of interruptions of recovery: after recovery the home blocks are the old ones if the header write is not among the k, and those of the whole transaction if it is |
| `LogFormat.RecoveryRestartable` | src/log.c:117-124 | Recovery cut short after any k of its writes and run again ends in the same disk as one full recovery |
| `LogFormat.RecoveryInterruptible` | src/log.c:117-124 | The same for any number of interruptions at any points |
| `LogFormat.BeforeHeader` | src/log.c:176-197 | Any prefix of the log writes before the header leaves a disk that recovers to the old home blocks |
| `LogFormat.AfterHeader` | src/log.c:197-198 | From the header write on, after any number of installed blocks, the disk is committed: the log names and holds the whole transaction |
| `LogFormat.CommittedRecovers` | src/log.c:117-124 | Recovering a committed disk performs exactly the whole transaction on the home blocks |
| `LogFormat.CommitFinal` | src/log.c:192-202 | A commit that runs to the end has installed the transaction and left an empty log |
| `LogFormat.CommitSteps` | src/log.c:192-202 | write_log, write_head, install_trans and write_head, each reading the disk the previous one left, issue exactly the write sequence the crash theorem is about |
| `Logs.Log.constructor` | src/log.c:55-68 | Starting on any well-formed image recovers it: the disk is the recovered image and the in-memory log is empty |
| `Logs.Log.InstallTrans` | src/log.c:70-84 | The disk sees the home writes of the listed blocks in order, each with the contents of its log block, and those buffers are clean |
| `Logs.Log.ReadHead` | src/log.c:86-98 | The in-memory list becomes the one the header block holds |
| `Logs.Log.WriteHead` | src/log.c:100-115 | One disk write that puts the in-memory list into the header block |
| `Logs.Log.RecoverFromLog` | src/log.c:117-124 | The disk becomes the recovered disk by exactly the recovery writes, and the log is empty |
| `Logs.Log.TryBeginOp` | src/log.c:126-143 | An operation is admitted exactly when no commit runs and the log has room for MAXOPBLOCKS more blocks for it and every outstanding one |
| `Logs.Log.LogWrite` | src/log.c:204-233 | Panics exactly in the two cases of the source; otherwise the block is listed once, its buffer pinned, and the disk as seen by the kernel changes in that block only; the listed numbers stay distinct and are exactly the pinned ones |
| `Logs.Log.WriteLog` | src/log.c:176-190 | The log blocks receive exactly what the pinned buffers hold, in list order, and the buffers stay pinned |
| `Logs.Log.Commit` | src/log.c:192-202 | The disk sees exactly the commit write sequence; afterwards every buffer is clean, the log is empty and the home blocks on disk are what the kernel saw before |
| `Logs.Log.ViewIsUpdated` | src/log.c:204-233 | The disk as the kernel sees it is the disk on which the listed transaction has been carried out |
| `Logs.Log.EndOp` | src/log.c:145-174 | The last operation out commits, and then the disk holds what the kernel saw; any other changes nothing but the count; the panic is exactly an end during a commit |
| `LogProtocol.StepRefines` | src/log.c:126-233 | Every step of any interleaving of operations, single-block commit writes, crashes and recovery is a step of a disk that changes only by whole transactions |
| `LogProtocol.RunRefines` | src/log.c:126-233 | Every run refines that specification, and recovering the disk of the state reached gives exactly the committed home blocks |
| `LogProtocol.BootInv` | src/log.c:55-68 | A machine booted on any disk with a well-formed header starts in the invariant, standing for the recovered disk |
| `LogProtocol.PutStep` | src/log.c:213-233 | log_write only happens while no commit is under way, keeps the reservation and the list distinct, and changes the current contents in its block only |
| `LogProtocol.EndStep` | src/log.c:145-174 | end_op never meets a running commit, and every budget is returned; what the last one starts is in `LogRuns.EndedIsDurable` |
| `LogProtocol.WriteLogTick` | src/log.c:176-190 | Copying a block to the log changes neither what a crash would leave nor what the kernel sees |
| `LogProtocol.WriteHeadTick` | src/log.c:100-115 | Writing the header, with no operation outstanding, makes the current contents durable in one step |
| `LogProtocol.InstallTick` | src/log.c:70-84 | Installing a block changes neither what a crash would leave nor what the kernel sees |
| `LogProtocol.InstallTickInv` | src/log.c:70-84 | During installation exactly the blocks not yet installed stay pinned |
| `LogProtocol.ClearHeadTick` | src/log.c:192-202 | Erasing the header changes nothing durable |
| `LogProtocol.RecoveredIsDurable` | src/log.c:117-124 | Recovery produces the contents the protocol calls durable |
| `LogProtocol.NoPanicStep` | src/log.c:213-222 | With log.size > LOGSIZE no step panics in a state of the invariant |
| `LogProtocol.NoPanicExactly` | src/log.c:213-222 | From a boot with an empty log, no run of operations within their budget ever panics if and only if log.size > LOGSIZE; with nlog = LOGSIZE as mkfs sets it, a run that panics is constructed |
| `LogRuns.CommitTicks` | src/log.c:192-202 | The ticks of a commit in the protocol make exactly the write sequence the crash theorem is about: after k of them the disk has the first k writes, and after the last the commit is finished |
| `LogRuns.FinishedIsDurable` | src/log.c:192-202 | When the commit has finished, the durable home blocks are those the kernel sees |
| `LogRuns.EndedIsDurable` | src/log.c:145-174 | From any state of any run, once the outstanding operations have ended, in whatever order, their commit comes and ends by itself: then no operation, commit or listed block is left, recovery gives exactly the home blocks the kernel saw, and begin_op admits the next operation |
| `LogRuns.Settles` | src/log.c:117-202 | A commit or recovery under way, with no crash, comes to its end in a known number of steps and makes what the kernel sees durable |
| `LogRuns.CrashKeeps` | src/log.c:12-34 | What the log is for: a property of the home blocks that holds whenever no operation is in progress holds of the recovered disk after a crash at any point of any run |
| `LogLink.BeginAgrees` | src/log.c:126-143 | begin_op admits an operation exactly when the protocol does, which is when all reservations fit in the log |
| `LogLink.PutAgrees` | src/log.c:204-233 | log_write panics, absorbs and pins as the protocol does |
| `LogLink.EndAgrees` | src/log.c:145-174 | The last end_op leaves on disk what the protocol's commit leaves there |
| `BufferRing.Unlinked` | src/bio.c:134-135 | Taking any node out leaves one ring of the remaining nodes in the same order |
| `BufferRing.Inserted` | src/bio.c:136-139 | Putting a node behind the head gives one ring with that node first |
| `BufferCache.Bcache.constructor` | src/bio.c:40-58 | binit links all buffers into one ring through the head; every buffer is blank |
| `BufferCache.Bcache.Find` | src/bio.c:70-78 | The walk along next finds a buffer with the key if there is one, the most recently released of them |
| `BufferCache.Bcache.Victim` | src/bio.c:80-94 | The walk along prev finds, of all unreferenced clean buffers, the one whose last full release is oldest; none only if there is none |
| `BufferCache.Bcache.Bget` | src/bio.c:60-95 | Either the buffer that caches the block gains a reference, or no buffer caches it and the least recently released free clean one is recycled; a dirty buffer is never recycled; the panic means every buffer is in use or dirty. One ring, unique keys of handed out buffers and coherence with the disk are kept |
| `BufferCache.Bcache.Lock` | src/bio.c:75-75 | A process that came through bget becomes the holder |
| `BufferCache.Bcache.Fill` | src/memide.c:35-60 | After the rest of bread the buffer has the last value written to its block, from memory or from disk |
| `BufferCache.Bcache.Bread` | src/bio.c:97-108 | bread of a block nobody holds returns it locked with the last value written to it |
| `BufferCache.Bcache.Pin` | src/log.c:231-231 | log_write makes the data the last value of the block and the buffer dirty |
| `BufferCache.Bcache.Bwrite` | src/bio.c:110-118 | The data becomes the last value of the block and the disk contents, and the buffer is clean |
| `BufferCache.Bcache.Unlock` | src/bio.c:122-128 | The holder lets go after its changes were written |
| `BufferCache.Bcache.Unref` | src/bio.c:130-143 | The reference count drops by one; a buffer without users becomes the most recently used, the ring order of the others is kept |
| `BufferCache.Bcache.ToFront` | src/bio.c:134-139 | The six pointer assignments move the buffer to the front of one ring |
| `BufferCache.OnDisk` | src/bio.c:97-108 | The block of a handed out buffer that is not valid has its last value on disk |
| `BufferCache.FirstOfKey` | src/bio.c:51-78 | Although all buffers start with the shared key (0,0), of two buffers with one key only the nearer to the front can have been handed out |
| `FreeLists.JoinedOrdered` | src/umalloc.c:33-42 | Putting a block back with coalescing keeps the list ordered, disjoint and free of adjacent blocks |
| `FreeLists.JoinedCovers` | src/umalloc.c:33-42 | The units of the list afterwards are exactly the old ones and those of the block |
| `FreeLists.CarvedOrdered` | src/umalloc.c:75-82 | Taking n units from a block keeps the list ordered, disjoint and without adjacent blocks |
| `FreeLists.CarvedCovers` | src/umalloc.c:75-82 | The units of the list afterwards are exactly the old ones without those handed out |
| `FreeLists.Canonical` | src/umalloc.c:24-44 | A set of free units has only one such list: the ring depends on what is free, not on the order of calls |
| `Umalloc.UnitsSuffice` | src/umalloc.c:69-69 | The 32-bit unit count holds nbytes if and only if nbytes is at most 2^32 - 8, and no smaller count would |
| `Umalloc.CoreRequestExact` | src/umalloc.c:52-54 | The byte count passed to sbrk does not wrap if and only if nbytes is outside (2^32 - 16, 2^32 - 8] |
| `Umalloc.FreedRep` | src/umalloc.c:33-43 | The header assignments of free turn the ring of the old list into the ring of the list with the block put back |
| `Umalloc.CarvedRep` | src/umalloc.c:75-83 | The header assignments of malloc turn the ring of the old list into the ring of the carved list |
| `Umalloc.FreedSound` | src/umalloc.c:24-44 | free keeps the partition of all granted units into free and live blocks |
| `Umalloc.TakenSound` | src/umalloc.c:75-85 | So does the allocation of a block |
| `Umalloc.GrownSound` | src/umalloc.c:46-61 | So does a region obtained from sbrk |
| `Umalloc.Heap.constructor` | src/umalloc.c:21-22 | Before the first call nothing is free, live or granted |
| `Umalloc.Heap.FindSlot` | src/umalloc.c:29-32 | The search stops at the ring header after which the block belongs, and terminates |
| `Umalloc.Heap.Free` | src/umalloc.c:24-44 | Exactly the units of the block become free, it is no longer live, the ring stays the one canonical ordered ring, and freep is the header below the block |
| `Umalloc.Heap.Morecore` | src/umalloc.c:46-61 | A fresh region is added to what is free, so that some block is large enough; without one nothing changes |
| `Umalloc.Heap.Start` | src/umalloc.c:70-73 | The first call makes the empty ring through base |
| `Umalloc.Heap.Scan` | src/umalloc.c:74-86 | One turn around the ring finds the first block behind freep that is large enough, or there is none |
| `Umalloc.FoundNext` | src/umalloc.c:74-87 | The block found is the first large enough one in ring order behind the header where the search began |
| `Umalloc.Heap.Take` | src/umalloc.c:75-85 | The tail of the chosen block becomes live, disjoint from everything live before, and the rest stays free |
| `Umalloc.Heap.Malloc` | src/umalloc.c:63-90 | Terminates after at most one morecore, called exactly when no free block is large enough; otherwise the result is the end of the first block behind freep that fits, and the next search begins there. It is a new live block of at least nbytes, null only when sbrk fails; all granted units stay partitioned into free and live blocks. It goes wrong exactly when it has to ask sbrk for a size in (2^32 - 16, 2^32 - 8]: the request wraps to 0 bytes |
| `Umalloc.Heap.Search` | src/umalloc.c:74-89 | The loop goes round at most twice, calls morecore at most once, and after it always finds a block |
| `Vm.Machine.Walkpgdir` | src/fmt/vm.c:51-74 | Returns the table of the address, creating an absent one from a fresh zeroed frame; fails exactly when it is absent and may not or cannot be created; no translation changes |
| `Vm.Machine.MapOne` | src/fmt/vm.c:89-93 | One entry changes; the remap panic is exactly a page already present, and the failure exactly a missing table without a frame |
| `Vm.Machine.Mappages` | src/fmt/vm.c:76-101 | All pages of the range get consecutive frames, and no other translation changes, exactly when all were absent and there is a free frame for every table missing; otherwise it stops, with the pages in front mapped, at a present page (the panic) or at a table without a frame |
| `Vm.Machine.DropStep` | src/fmt/vm.c:321-332 | Jumping over an absent directory entry passes no mapped page |
| `Vm.Machine.Deallocuvm` | src/fmt/vm.c:307-335 | Exactly the pages from PGROUNDUP(newsz) up to oldsz lose their translation and each of their frames is freed once |
| `Vm.Machine.GrowStep` | src/fmt/vm.c:288-302 | A page gains a zeroed frame from the free list exactly when there is one for it and for its table if missing; otherwise at most the frame in hand is left over |
| `Vm.Machine.Allocuvm` | src/fmt/vm.c:275-305 | Succeeds exactly when the sizes are in order and there is a free frame for every page and for every table missing; then exactly the pages from PGROUNDUP(oldsz) up to newsz have distinct fresh zeroed frames and no other translation changes. On failure the translations are as before and every user frame taken is free again |
| `PagingCount.NeedNext` | src/fmt/vm.c:288-302 | The frames a range of pages needs are one for its first page, one for that page's table if missing, and what the rest needs of the directory with that table |
| `PagingCount.PaidNext` | src/fmt/vm.c:86-99 | The frames mappages has taken are one for each table that was missing in the range it has passed |
| `VmSpec.RunStopped` | src/fmt/vm.c:86-99 | A run of mappages that stops early met a present page or needs more tables than there were frames |
| `Vm.Machine.Rollback` | src/fmt/vm.c:290-301 | The error paths give back the pages mapped so far and the frame in hand |
| `Paging.RolledBack` | src/fmt/vm.c:290-301 | Undoing the added pages restores every translation; only page tables stay |
| `Paging.GrowPage` | src/fmt/vm.c:288-302 | Mapping one more fresh frame extends the partial map by that page and keeps all frames accounted for |
| `Paging.DropUser` | src/fmt/vm.c:325-331 | Unmapping a user page and freeing its frame keeps the table consistent |
| `VmSpec.NextTable` | src/fmt/vm.c:324-324 | The jump lands on the first page of the next directory entry |
| `VmSpec.RoundUpExact` | src/fmt/vm.c:288-288 | The pages below PGROUNDUP(sz) are those that hold a byte below sz |
| `Vm.Machine.FreeTables` | src/fmt/vm.c:361-366 | Frees every table frame once |
| `Vm.Machine.Freevm` | src/fmt/vm.c:351-368 | Every frame of the page table, and no other, joins the free list, none twice |
| `Vm.Machine.MapRange` | src/fmt/vm.c:167-172 | One row of the kernel map is installed, exactly when there is a frame for each of its missing tables |
| `Vm.Machine.MapKernel` | src/fmt/vm.c:166-173 | All rows are installed exactly when there are 64 free frames, one for each kernel page table |
| `Vm.Machine.Setupkvm` | src/fmt/vm.c:151-174 | Succeeds exactly when there are 65 free frames; the directory then has exactly the kernel map and no user page, and all frames are accounted for |
| `VmSpec.KernelStep` | src/fmt/vm.c:126-136 | Each row of kmap maps its range and leaves the rest of the kernel half as it was |
| `VmSpec.KernelMissing` | src/fmt/vm.c:166-173 | Each row of kmap needs exactly the tables the rows before it have not made |
| `Vm.Machine.Copyuvm` | src/fmt/vm.c:383-413 | Succeeds exactly when there is a free frame for the directory, each kernel table, each user page and each user table; the copy then has every user page of the parent with equal contents and flags, on frames disjoint from the parent and distinct from each other, and the kernel half; the parent is unchanged either way |
| `Vm.Machine.CopyPages` | src/fmt/vm.c:394-408 | The loop copies every page of the parent exactly when there are frames for all of them and their tables |
| `Vm.Machine.Discard` | src/fmt/vm.c:409-412 | The error path touches nothing but frames that were free before |
| `PagingCopy.CopyPage` | src/fmt/vm.c:395-407 | Copying one page keeps the pages copied before and all frames accounted for |
| `PagingCopy.CopyDisjoint` | src/fmt/vm.c:395-408 | No frame of the copy is a frame of the parent |
| `PagingCopy.ParentKept` | src/fmt/vm.c:383-413 | The parent table and its frames are untouched |
| `PagingRights.TableDecides` | src/fmt/vm.c:71-71 | A page may be accessed or written as its table entry says: the directory entry withholds no right |
| `PagingRights.GrownRights` | src/fmt/vm.c:297-297 | Every page allocuvm adds may be read and written by the process, through both levels |
| `PagingRights.KernelRights` | src/fmt/vm.c:126-136 | No kernel page may be accessed by the process, and all but the kernel text may be written by the kernel |
| `PagingRights.CopyRights` | src/fmt/vm.c:399-404 | A copied page has the rights of the page it copies |
| `PagingView.GrownLoads` | src/fmt/vm.c:275-305 | As the process reads its memory: growing adds zeros and changes no other word |
| `PagingView.ShrunkLoads` | src/fmt/vm.c:307-335 | Shrinking takes words away and changes no other |
| `PagingView.CopyLoads` | src/fmt/vm.c:383-413 | A forked child reads what its parent reads, and the parent what it read before |
| `Vm.Machine.Growproc` | src/fmt/proc.c:150-169 | Says exactly which size is recorded, when growing succeeds, which pages are gained or lost, and that nothing is mapped above the recorded size. If every page below the size was mapped before, that holds afterwards if and only if the request did not shrink a nonempty process to exactly 0, which is reported as a failure after the pages are gone |
| `Vm.Machine.Grow` | src/fmt/proc.c:158-160 | Growing succeeds exactly when the size stays below KERNBASE and frames suffice; then every page up to the new size is mapped if every page up to the old one was |
| `Vm.Machine.Shrink` | src/fmt/proc.c:161-164 | Shrinking drops exactly the pages above the new size; those below the old one are all mapped afterwards only if none was dropped |
| `VmSpec.ShrunkParts` | src/fmt/vm.c:307-335 | After deallocuvm the pages below the new size are as before and those up to the old one are gone |
| `Vm.Machine.Lifecycle` | src/fmt/vm.c:151-368 | setupkvm, then any growing and shrinking requests, then freevm: it runs exactly when there are 65 frames to begin with, and then the free list holds the same set of frames as before, none twice |
| `FsFormat.MarkedUsed` | src/fs.c:66-68 | Setting or clearing a bitmap bit changes the state of no other block |
| `FsFormat.WordOfWithWord` | src/fs.c:372-374 | Storing a word into an indirect block reads back and disturbs no other word |
| `FileSystems.FileSystem.constructor` | src/fs.c:163-178 | A file system starts from any image in which every named block is owned, such as a finished mkfs image |
| `FileSystems.FileSystem.FindFree` | src/fs.c:63-76 | The scan finds the lowest free block, or there is none |
| `FileSystems.FileSystem.Balloc` | src/fs.c:55-78 | Takes and zeroes the lowest free block; the panic means every block is in use; ownership of every other block is kept |
| `FileSystems.FileSystem.Bfree` | src/fs.c:80-96 | Clears exactly that bit; panics exactly when it is clear already |
| `FsBlocks.AllocatedOwned` | src/fs.c:55-78 | A free block is named by nobody, so taking it disturbs no name |
| `FsBlocks.TakeAddr` | src/fs.c:360-370 | Naming a fresh block in addrs keeps the ownership invariant and every byte of every file |
| `FsBlocks.TakeEntry` | src/fs.c:371-376 | Naming a fresh block in the indirect block does too |
| `FileSystems.FileSystem.NameBlock` | src/fs.c:361-370 | An empty entry of addrs gets a fresh block |
| `FileSystems.FileSystem.BmapIndirect` | src/fs.c:371-378 | The entry of the indirect block, allocated if it is missing |
| `FileSystems.FileSystem.BmapNewIndirect` | src/fs.c:367-378 | The same when the indirect block has to be allocated first |
| `FileSystems.FileSystem.Bmap` | src/fs.c:352-382 | Returns the block of the file block number, allocating only what is missing and keeping every existing name and byte; out of range exactly from MAXFILE on; out of blocks only if fewer are free than missing |
| `FileSystems.FileSystem.Readi` | src/fs.c:430-463 | On a file without holes reading is slicing of its contents for any offset and length, with no allocation and no change; refused exactly as the two tests say |
| `FileSystems.FileSystem.ReadPiece` | src/fs.c:449-461 | One turn reads exactly that piece of the contents from one block and allocates nothing |
| `FileSystems.FileSystem.WriteChunk` | src/fs.c:484-490 | One piece inside one block is written and every other byte of every file is kept |
| `FileSystems.FileSystem.WriteLoop` | src/fs.c:484-490 | All pieces are written exactly when there is a free block for every block the range lacks, the indirect block included; exactly that many are taken |
| `FileSystems.FileSystem.Writei` | src/fs.c:465-497 | On a file without holes writing overwrites or extends its contents and keeps every other byte of every file; refused exactly as the tests say; never asks bmap out of range; runs out of blocks exactly when the range lacks more blocks than are free |
| `FsCount.LackSplit` | src/fs.c:484-490 | Two writes in a row take as many blocks as one write of both |
| `FsCount.LackBound` | src/file.c:124-131 | A write takes at most one block for each block it touches and one for the indirect block |
| `FsBlocks.LackInside` | src/fs.c:484-486 | Overwriting bytes a file has takes no block, so it cannot run out |
| `FsBlocks.SpentJoin` | src/fs.c:484-490 | The blocks two consecutive pieces take are those the whole range lacked |
| `FsBlocks.PatchedBytes` | src/fs.c:485-488 | Copying bytes into one data block writes exactly those bytes of that file |
| `FsBlocks.WrittenFile` | src/fs.c:484-496 | The pieces and the new size make up the overwritten or extended contents |
| `FileSystems.FileSystem.Itrunc` | src/fs.c:384-417 | Clears exactly the bits of the blocks the inode names, each once, so that the freeing panic is unreachable; every other file keeps its blocks and bytes |
| `FileSystems.FileSystem.FreeDirect` | src/fs.c:396-401 | The direct blocks go, each found in use |
| `FileSystems.FileSystem.FreeIndirect` | src/fs.c:403-413 | The entries of the indirect block and the block itself go, each found in use |
| `FsBlocks.FreeingSlot` | src/fs.c:396-413 | A slot whose turn it is names a block whose bit is still set |
| `FsBlocks.TruncatedOwned` | src/fs.c:384-417 | After that the invariant holds without the inode's blocks |
| `FileSystems.FileSystem.Filewrite` | src/file.c:115-156 | Exactly the chunks that fit below the largest file are in the file and the offset is past them; the call succeeds when that is all of them. It panics exactly when those chunks lack more blocks than are free |
| `FileSystems.FileSystem.Ialloc` | src/fs.c:182-205 | The lowest free inode number becomes a file without blocks; none exactly when all are taken; every file keeps its bytes |
| `FsBlocks.NewInode` | src/fs.c:182-205 | A new inode names no block, so ownership and every byte of every file are kept |
| `FsBlocks.OverwrittenTwice` | src/file.c:133-152 | Writing consecutive chunks is writing their concatenation |
| `FsChunks.ReadBack` | src/fs.c:465-497 | What was written is read back, with the bytes around it as they were and the length as it must be |
| `FsChunks.AcceptedIs` | src/file.c:133-152 | filewrite accepts all bytes if they fit below the largest file, and otherwise as many whole chunks as do |
| `FsChunks.ChunkFitsLog` | src/file.c:126-133 | On a file without holes one chunk touches no more distinct blocks than LOGSIZE: data, indirect, inode and bitmap blocks together |
| `FsChunks.OverBudget` | src/file.c:133-133 | But it exceeds what begin_op reserves, in data blocks alone, exactly when it covers more than MAXOPBLOCKS blocks, as a full chunk does |
| `Mkfs.Balloc` | src/mkfs.c:237-251 | The bitmap marks exactly the first `used` blocks |
| `Mkfs.Image.constructor` | src/mkfs.c:93-111 | The empty image satisfies the ownership invariant |
| `Mkfs.Image.Ialloc` | src/mkfs.c:223-235 | The next inode number, with no blocks; every file keeps its bytes |
| `Mkfs.Image.NameNext` | src/mkfs.c:271-279 | A block handed out by counting up is a fresh block, named in addrs |
| `Mkfs.Image.EntryNext` | src/mkfs.c:280-284 | The same for an entry of the indirect block |
| `Mkfs.Image.MapBlock` | src/mkfs.c:269-286 | The block of the file block number, taken if it is missing |
| `Mkfs.Image.AppendChunk` | src/mkfs.c:287-293 | One piece is added and nothing is named beyond the end |
| `Mkfs.Image.Iappend` | src/mkfs.c:255-297 | The bytes are added at the end of the file, without holes, and no other file changes, whenever the blocks the range lacks are still to be had, to the last one |
| `Mkfs.Image.Finish` | src/mkfs.c:158-165 | The finished image satisfies the ownership invariant, and its bitmap marks exactly the blocks handed out |
| `Mkfs.RoundedHole` | src/mkfs.c:158-163 | The rounded root size leaves no hole if and only if the size was not a multiple of BSIZE |
| `Mkfs.RoundedNext` | src/mkfs.c:161-161 | The rounded size is the next multiple of BSIZE above the size |
| `Names.Strncmp` | src/string.c:55-65 | Zero exactly when the two strings have the same character at each of the first n places up to the terminator |
| `Names.BoundedAgree` | src/string.c:55-65 | Two names cut to n characters are the same exactly when they agree place by place |
| `Names.Strncpy` | src/string.c:67-78 | The copy is padded to n characters and compares equal to the original |
| `Names.Skipelem` | src/fs.c:566-604 | Nothing exactly when the path has no element; otherwise the first element as a directory compares it, and a path with exactly the remaining elements, empty exactly when there are none |
| `Names.ElementsJoined` | src/fs.c:569-579 | Elements written with slashes in front come back as they were |
| `Names.ElementsConcat` | src/fs.c:569-579 | A slash anywhere, single or in a run, ends one element and begins the next |
| `Names.ElementsLegal` | src/fs.c:581-604 | No element is empty or holds a slash |
| `Directory.WrittenBindings` | src/fs.c:558-561 | Writing a new name into a free slot extends the finite map by that name |
| `Directory.ClearedBindings` | src/sysfile.c:217-219 | Zeroing a slot removes exactly its name from the map |
| `Sysfile.FileTree.constructor` | src/mkfs.c:117-128 | A new tree is the root directory with its dots, and satisfies the invariant |
| `Sysfile.FileTree.Dirlookup` | src/fs.c:508-534 | Finds a name, compared on DIRSIZ characters, if and only if the map has it, and with the inode the map gives |
| `Sysfile.FileTree.Dirlink` | src/fs.c:536-564 | Fails exactly when the name is bound; otherwise binds it, in the first free slot or at the end, and the map is extended |
| `Sysfile.FileTree.Iput` | src/fs.c:312-334 | One reference less; the last one frees an inode without links, and the tree invariant is kept |
| `Sysfile.FileTree.Namex` | src/fs.c:606-643 | Changes no inode. It is lost (the panic of ilock) exactly when an element is to be looked up in an inode that was freed; otherwise the result equals folding lookup over the elements of the path (all but the last for nameiparent), and the references are unchanged except one more on the inode returned |
| `Sysfile.LinkedWalk` | src/fs.c:606-643 | From an inode that has a link, every path stays among allocated inodes that have links |
| `Sysfile.LinkedNeverLost` | src/fs.c:606-643 | So a walk from the root, or from a directory that was not removed, never panics |
| `Sysfile.OrphanLost` | src/fs.c:606-643 | A walk that panics: "../x" in a removed directory whose parent was freed; absolute paths are not affected |
| `Paths.AbsolutePath` | src/fs.c:615-618 | Every live directory has an absolute path, the names on the way down from the root, and namex takes it there whatever the current directory is |
| `Paths.RelativePath` | src/fs.c:615-618 | A path that does not begin with a slash means, in a live current directory, what it means behind that directory's absolute path |
| `Paths.NameInCwd` | src/fs.c:606-643 | A name alone is looked up in the current directory, live or removed |
| `Paths.ParentIs` | src/fs.c:626-630 | nameiparent gives the directory the path without its last element leads to, and that element |
| `Paths.TrailLeads` | src/fs.c:620-637 | Looking up the names on the way down leads to the directory |
| `Sysfile.LinkSpelled` | src/sysfile.c:139-151 | link enters only names that a path can spell |
| `Sysfile.UnlinkSpelled` | src/sysfile.c:217-228 | unlink leaves only such names |
| `DirTree.LinkKeeps` | src/sysfile.c:139-151 | A link to a file in a live directory keeps exact link counts, the dots and the tree |
| `DirTree.LinkIntoRemoved` | src/sysfile.c:139-151 | A link written into a removed directory always makes the count wrong |
| `DirTree.LinkIntoFreed` | src/sysfile.c:139-151 | It stays wrong when the removed directory is freed |
| `DirTree.BornKeeps` | src/fs.c:182-205 | A new unlinked inode keeps the invariant |
| `DirTree.GrownKeeps` | src/sysfile.c:260-280 | A new directory with its dots and its entry keeps the invariant, one level below its parent |
| `DirTree.GrownInRemoved` | src/sysfile.c:260-280 | A directory made inside a removed one always breaks the tree |
| `DirTree.EmptyDirLinks` | src/sysfile.c:212-228 | An empty directory has exactly one link, and its parent at least two |
| `DirTree.UnlinkKeeps` | src/sysfile.c:217-228 | Removing an entry, with the links it stood for, keeps the invariant |
| `DirTree.NamedHasLink` | src/sysfile.c:210-211 | What a live directory names has a link: the nlink panic is unreachable |
| `DirTree.FreedKeeps` | src/fs.c:323-331 | Freeing an inode without links keeps the invariant |
| `DirTree.ReachesRoot` | src/sysfile.c:269-275 | From every live directory ".." leads to the root |
| `DirTree.BareKeeps` | src/mkfs.c:117-128 | The root directory of a new image satisfies the invariant |
| `Sysfile.FileTree.Isdirempty` | src/sysfile.c:166-180 | True exactly when every slot after the dots is free |
| `Sysfile.FileTree.Unlink` | src/sysfile.c:200-238 | In the parent directory: removes the entry with its links unless the name is a dot, missing, or a directory with entries; the invariant is kept, the nlink panic is unreachable, and the inode is freed exactly when its last link and reference are gone |
| `Sysfile.FileTree.Remove` | src/sysfile.c:207-238 | The name found, it is removed exactly when it is not a directory with entries |
| `Sysfile.FileTree.SysUnlink` | src/sysfile.c:183-238 | From the path: panics exactly when the walk is lost; otherwise the entry the path names is removed as above or nothing changes; the invariant and all references are kept |
| `Sysfile.FileTree.SysLink` | src/sysfile.c:117-164 | From the two paths: succeeds only if the old one names no directory and the new one is a free name in a directory, fails only if not, changing nothing, and panics exactly when a walk or the lock between them meets a freed inode. The invariant is kept if and only if the new parent was not removed |
| `Sysfile.FileTree.LinkAt` | src/sysfile.c:139-151 | Both paths resolved: fails exactly when the name is bound, and then every inode is as before the call |
| `Sysfile.FileTree.LinkUndone` | src/sysfile.c:157-163 | The error path takes the link back |
| `Sysfile.FileTree.LinkDone` | src/sysfile.c:147-151 | The successful path; the directory may be freed by it if it was removed |
| `Sysfile.FileTree.Dropping` | src/sysfile.c:217-228 | The writes of unlink and the references it drops |
| `Sysfile.FileTree.Ialloc` | src/fs.c:182-205 | The lowest free inode number, none only if all are taken |
| `Sysfile.FileTree.Create` | src/sysfile.c:240-283 | In the parent directory: a name that exists is opened only as a file for a file; a new one is bound to a new inode with one link, everything else unchanged; panics exactly on a name of a freed inode or when all inodes are taken; the invariant is kept if and only if the parent was not removed |
| `Sysfile.FileTree.SysCreate` | src/sysfile.c:240-283 | From the path: the same in the parent the path leads to; refused exactly without a parent or for a name that is there and is not a file opened as a file; panics also when the walk is lost; opening returns the inode the path resolves to; names stay such as a path can spell |
| `Paths.LinkCan` | src/sysfile.c:117-164 | sys_link succeeds whenever the old path names a file in a live directory and the new one a free name in a live directory |
| `Paths.UnlinkCan` | src/sysfile.c:183-238 | sys_unlink succeeds on every name of a live directory but the dots and directories with entries |
| `Paths.CreateCan` | src/sysfile.c:240-283 | create makes any new name in a live directory while an inode is free |
| `Sysfile.FileTree.Make` | src/sysfile.c:260-283 | A new name: the invariant is kept, or lost for good, as the parent is live or removed |
| `Sysfile.FileTree.OpenExisting` | src/sysfile.c:251-258 | The branch for an existing name |
| `Sysfile.FileTree.MakeFile` | src/sysfile.c:260-280 | A new file or device; the dirlink panic is unreachable |
| `Sysfile.FileTree.MakeDir` | src/sysfile.c:260-280 | A new directory; the parent gains the link of ".." |
| `Sysfile.FileTree.MakeDots` | src/sysfile.c:269-275 | Slots 0 and 1 become "." and ".."; the panic is unreachable |
| `ProcTable.Ptable.Wakeup1` | src/fmt/proc.c:501-511 | Exactly the processes sleeping on the channel become runnable |
| `ProcTable.Ptable.Allocproc` | src/fmt/proc.c:55-74 | The first unused slot, all before it being in use, becomes an embryo with the next pid; none exactly when all slots are used |
| `ProcTable.Ptable.Exit` | src/fmt/proc.c:244-261 | The parent is woken, children go to init, which is woken if one of them is a zombie, and the process is a zombie |
| `ProcTable.Ptable.Wait` | src/fmt/proc.c:268-310 | One pass reaps a zombie child if there is one, gives up exactly without children or when killed, and sleeps on itself otherwise |
| `ProcTable.Ptable.Kill` | src/fmt/proc.c:522-543 | The first process with the pid is marked killed and is not asleep afterwards; otherwise nothing changes |
| `ProcProtocol.ExitKeeps` | src/fmt/proc.c:244-261 | exit leaves no process asleep in wait with a zombie child, nobody without an able parent, and its pid accounted for |
| `ProcProtocol.ExitedAt` | src/fmt/proc.c:244-261 | What exit does to each entry: its children, and they alone, become children of init; it becomes a zombie; exactly its sleeping parent, and init if it inherits a zombie, are woken; nothing else changes |
| `ProcProtocol.ReapKeeps` | src/fmt/proc.c:281-293 | Reaping keeps the invariant and records the pid once |
| `ProcProtocol.ForkKeeps` | src/fmt/proc.c:175-217 | Every part of fork keeps it, including what runs without the lock and both failures |
| `ProcProtocol.SwitchKeeps` | src/fmt/proc.c:359-434 | So do the scheduler, yield, sleep, the sleep in wait, and kill |
| `ProcProtocol.WakeupKeeps` | src/fmt/proc.c:513-520 | So does wakeup on any other channel |
| `ProcProtocol.StepKeeps` | src/fmt/proc.c:51-543 | Every step of every interleaving keeps the invariant |
| `ProcProtocol.BootInv` | src/fmt/proc.c:101-136 | It holds when only init exists |
| `ProcProtocol.RunKeeps` | src/fmt/proc.c:51-543 | It holds after every run |
| `ProcProtocol.EveryRun` | src/fmt/proc.c:171-310 | After every run from boot: no process sleeps in wait with a zombie child; every live process but init has a parent that is neither unused nor a zombie; every exited pid is a zombie or was returned by wait, not both, and none was returned twice |
| `ProcRuns.KillMarks` | src/fmt/proc.c:522-543 | kill marks its process, whatever its state, and leaves it awake |
| `ProcRuns.KilledExactly` | src/fmt/proc.c:268-293 | Over every run: a slot is marked exactly if it was killed and has not been reaped by wait since |
| `ProcRuns.WaitingKeeps` | src/fmt/proc.c:268-310 | No step leaves a process asleep in wait that is marked or has no child |
| `ProcRuns.WaitCanEnd` | src/fmt/proc.c:268-310 | After every run from boot, a process asleep in wait was not killed since its slot was last reaped, has a child, and each of its children can still act |
| `ProcRuns.Diagram` | src/fmt/proc.c:51-543 | The state diagram: exactly which steps bring a process into each state and out of it |
| `ProcRuns.Recorded` | src/fmt/proc.c:51-310 | Each exit is recorded with its pid, each reaping too, and a new process gets a pid never used |
| `ProcRuns.CanAct` | src/fmt/proc.c:51-520 | Nobody is stuck: what runs may go on or give way, what can run may be run, and a fork may be finished |
| `ProcRuns.WaitOutcomes` | src/fmt/proc.c:273-310 | wait can reap exactly if there is a zombie child, and can sleep exactly if there is none, but a child, and the process is not marked |
| `ProcRuns.ForkDone` | src/fmt/proc.c:171-217 | fork, when nothing fails, ends with a child of the caller that can run, under a new pid, and changes nothing else |
| `ProcRuns.WaitedFor` | src/fmt/proc.c:221-310 | A parent asleep in wait is woken by its child's exit, and wait then returns the child's pid and frees the slot |
| `Sleeplock.StepKeeps` | src/fmt/proc.c:457-520 | Every single access of acquiresleep, releasesleep, sleep, wakeup and the scheduler keeps one owner, the spin lock discipline and the pending wakeups |
| `Sleeplock.GoWakeup` | src/fmt/proc.c:474-482 | No access can leave a process asleep with the lock free and no wakeup to come |
| `Sleeplock.GoOwner` | src/sleeplock.c:14-30 | The lock is taken, and records the pid, exactly while one process owns it |
| `Sleeplock.EveryRun` | src/sleeplock.c:14-30 | Every interleaving: at most one owner; a sleeper finds the lock held or a releaser's wakeup still pending; with no release half done, the lock is held by another process |
| `Sleeplock.AcquireReturns` | src/sleeplock.c:14-22 | In every interleaving acquiresleep returns, if it does, with its caller as the owner |
| `Sleeplock.OwnerReleases` | src/sleeplock.c:24-30 | Nobody loses the lock but by its own releasesleep |
| `Sleeplock.Uncontended` | src/sleeplock.c:14-22 | A free lock nobody else is after is acquired without sleeping |
| `Sleeplock.Contended` | src/fmt/proc.c:457-482 | A held lock puts the caller to sleep with both spin locks let go |
| `Sleeplock.Resumes` | src/fmt/proc.c:484-496 | A process that was woken goes back to try again |
| `Sleeplock.Releases` | src/sleeplock.c:24-30 | releasesleep, undisturbed, frees the lock and wakes every process asleep on it, and no other |
| `Pipes.TestsExact` | src/pipe.c:87-116 | The full and empty tests on wrapping counters are exact |
| `Pipes.PutQueue` | src/pipe.c:95-95 | Storing a byte appends it to the queue, also when the counter wraps |
| `Pipes.GetQueue` | src/pipe.c:118-118 | Taking a byte removes the oldest |
| `Pipes.Pipe.constructor` | src/pipe.c:33-39 | A new pipe is empty and open at both ends |
| `Pipes.Pipe.WriteFrom` | src/pipe.c:80-100 | Until it returns or sleeps, pipewrite appends its bytes in order and stops early only on a full ring, failing exactly when no reader is left or the writer is killed |
| `Pipes.Pipe.Read` | src/pipe.c:102-123 | piperead returns the oldest bytes, as many as asked for and present, and sleeps only on an empty pipe that can still be written |
| `Pipes.Pipe.Close` | src/pipe.c:61-77 | The page is freed exactly by the second close |
| `Pipes.StepKeeps` | src/pipe.c:61-123 | Every step of readers, writers and closers keeps the account of bytes, references and the page |
| `Pipes.NoUseAfterFree` | src/file.c:55-80 | No step that touches the page comes after it was freed |
| `Pipes.EveryRun` | src/pipe.c:61-123 | Every run: what went in is exactly what was written, what came out is the front of it, as much as was read, the rest is the ring and at most PIPESIZE, and the page is freed once, exactly when both ends are closed |
| `Pipes.RunAccounts` | src/pipe.c:80-123 | No byte written is forgotten and every read gets one |
| `Pipes.CanMove` | src/pipe.c:80-123 | A byte can be written exactly while there is a writer and room, and read exactly while there is a reader and a byte |
| `PipeSleep.EveryRun` | src/pipe.c:61-123 | Every run: writers sleep only on a full pipe that can be read; readers only on an empty one that can be written, and never both at once, unless a killed writer broke off a write while a reader slept |
| `PipeSleep.MoveReaders` | src/pipe.c:86-93 | A reader's wakeup is lost exactly by a killed writer that breaks off after writing while a reader sleeps |
| `PipeSleep.Stranded` | src/pipe.c:86-90 | A run in which that happens |
| `PipeSleep.Relieved` | src/pipe.c:61-100 | The next write that is not broken off, or the close of the writing end, wakes it |
| `PipeSleep.WriteAgrees` | src/pipe.c:80-100 | The outcomes and lengths are those of pipewrite on the ring itself |
| `Grep.Matchhere` | src/grep.c:84-96 | Terminates, and is true exactly when the text starts with a word of the pattern (and ends with it for a final $) |
| `Grep.Matchstar` | src/grep.c:98-106 | Terminates, and is true exactly when the text starts with repetitions of c followed by the rest of the pattern |
| `Grep.Match` | src/grep.c:72-82 | True exactly when some stretch of the text is a word of the pattern, at the ends the anchors ask for |
| `Grep.StartsCons` | src/grep.c:84-106 | A text starts with a list of items exactly when, after a word of the first, it starts with the others |
| `Grep.OccursSuffix` | src/grep.c:72-82 | Occurring is starting some suffix, or the whole text when anchored |
| `Grep.ShowParsed` | src/grep.c:84-96 | Writing the parsed pattern down gives the expression back: parsing loses nothing |
| `Grep.ParseShown` | src/grep.c:72-106 | Exactly the patterns whose printing is unambiguous come back from it: `.`, `*` behind a single character, a leading ^ and a final $ are special, and nothing else |
| `Grep.StartsStar` | src/grep.c:98-106 | A star stands for any number of characters, none included |
| `Grep.FindsText` | src/grep.c:72-96 | Text without special characters is found exactly where it stands, at the ends the anchors ask for |
| `Grep.FindsAny` | src/grep.c:92-93 | A dot is found wherever there is a character |
| `Grep.FindsAll` | src/grep.c:72-106 | ^.*$ matches every text |
| `Shell.Scanner.Peek` | src/sh.c:310-320 | Skips white space only, and tells whether the next token starts with one of the characters |
| `Shell.Scanner.Gettoken` | src/sh.c:265-308 | Reads exactly the next token; a word is returned as a span of whole words of the line |
| `Shell.Scanner.Parseredirs` | src/sh.c:374-397 | Accepts exactly the redirections of the grammar |
| `Shell.Scanner.Parseargs` | src/sh.c:429-445 | Accepts words and redirections as the grammar does, at most nine words |
| `Shell.Scanner.Parseexec` | src/sh.c:415-446 | The answer is the grammar's for a simple command or a block |
| `Shell.Scanner.Parseblock` | src/sh.c:399-413 | The answer is the grammar's for a parenthesised line with redirections |
| `Shell.Scanner.Parsepipe` | src/sh.c:361-372 | The answer is the grammar's for a pipeline |
| `Shell.Scanner.Parseline` | src/sh.c:344-359 | The answer is the grammar's for a line; terminates on every input |
| `Shell.Nulterminate` | src/sh.c:448-493 | Writes a terminator right behind every word of the command and nowhere else |
| `Shell.WordKept` | src/sh.c:448-493 | No terminator falls inside a word, so every argument and file name is its own token |
| `Shell.Parsecmd` | src/sh.c:327-342 | Panics exactly on lines outside the grammar and leaves the buffer alone; otherwise returns the grammar's tree, with every argument and file name terminated in the buffer as its own token |
| `Shell.TextOfBare` | src/sh.c:327-342 | The tree of spans and the tree of words differ in nothing else |
| `ShellGrammar.LexSpelled` | src/sh.c:265-308 | Tokens written out come back as they were |
| `ShellGrammar.LineParsed` | src/sh.c:344-446 | A printed tree, read as a line, is that tree and leaves what follows |
| `ShellGrammar.RoundTrip` | src/sh.c:327-446 | Every command tree with legal words and at most nine arguments per command comes back from its parenthesised printing |
| `ShellGrammar.CommandLegal` | src/sh.c:327-446 | Every line the grammar accepts gives a tree of legal words that its own printing gives back: the accepted trees are exactly the legal ones |
| `ShellSyntax.Accepts` | src/sh.c:327-446 | A line is accepted exactly if its tokens are those of a syntax tree (arguments and redirections in any order, groups, pipelines, & and ; without needless parentheses), and the command is what that tree means, redirections wrapped in the order they stand: no word or operator is lost or invented |
| `ShellSyntax.ScriptRead` | src/sh.c:344-446 | What is written from a syntax tree is read back as what the tree means, and what follows is left |
| `ShellSyntax.LineWritten` | src/sh.c:344-446 | What is read was written from a syntax tree |
| `ShellSyntax.LexLaid` | src/sh.c:262-308 | Tokens laid out with any white space are read back, as long as no two run together |
| `ShellSyntax.LexLayout` | src/sh.c:262-308 | Every line is such a layout of its tokens: only white space is dropped |
| `ShellSyntax.LineRead` | src/sh.c:327-446 | In whatever layout, a line written from a syntax tree parses to what it means |

## Left out

- Umalloc.Heap.Malloc: sbrk is a parameter that returns a region above everything granted so far or nothing; when the request wraps to 0 bytes the model stops at the outcome `wild`, where the code would write a header into memory it was not granted.
- The address range panic of kfree: frames come from the free list only.
- Umalloc.Heap.Free: freeing an address that malloc did not return is excluded, as in the source.
- Vm.Machine.Mappages: ranges that wrap past the end of the address space are excluded; no caller makes one.
- Vm.Machine.Setupkvm: on failure the partly built directory is not returned to the free list by the source, so frames are only accounted for on success.
- Vm.Machine.Copyuvm: on failure the page whose mapping failed is not freed by the source, so frames are only accounted for on success; the panics for an absent parent page are excluded by requiring `Full`, which Growproc keeps in all cases but one.
- Vm.Machine.Lifecycle: it stands for one address space at a time.
- FileSystems.FileSystem.Readi: files without holes; device inodes are not modelled.
- FileSystems.FileSystem.Writei: files without holes; device inodes and the copy of the inode to disk by iupdate are not modelled.
- FileSystems.FileSystem.Filewrite: the file offset is at most the file size; the log protocol assumes operations within MAXOPBLOCKS, which a chunk can exceed.
- Mkfs.Image.Iappend: the blocks the range lacks are still to be had; the source does not check the size of the image.
- BufferCache.Bcache.Fill: device and block number are valid, the panics of iderw; reference counts do not overflow.
- Sysfile.FileTree.SysLink: one device only; link counts do not overflow.
- Sysfile.FileTree.Dirlink: the directory has room, a write beyond the largest file would panic.
- Sysfile.FileTree.Iput: an inode that was never locked is treated like one that was, although the source frees only after a lock has read it; the fixed size of the inode cache, whose exhaustion is a panic of iget, is not modelled.
- ProcTable.Ptable.Wait: kernel stacks and page tables of the reaped process, and pid overflow, are not modelled.
- LogProtocol.RunRefines: each operation makes at most MAXOPBLOCKS log writes of home blocks; that a waiting begin_op is scheduled in the end is not stated, only that it can go on once the others have ended.
- Sleeplock.EveryRun: only holders release; fairness is not stated.
- Shell.Scanner.Parseargs: the node that parseredirs wraps before all words are read is modelled by collecting the redirections and wrapping at the end; the tree is the same.
- Grep: the line buffering of the grep driver, which drops a line longer than its buffer.
- Spin lock internals, memory ordering and interrupts: each section under a spin lock is one step, except in Sleeplock, where each access is.
- Hardware and boot code, the IDE driver, console, traps, system call argument fetching, ELF loading and the small user programs: device registers, plumbing, or repetitions of what is covered.
- runcmd of the shell: it only forks and executes the tree the parser returns.
