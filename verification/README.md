# Verified model of an xv6 kernel with a compare-and-swap process table

A Dafny model of the hard parts of this xv6 fork, with proofs. `dafny verify dfyconfig.toml` checks
all of it.

## What is modelled

**Storage.** `Sectors`, `RedoLog` and `LogDriver` are log.c: the sector writes that recovery
and commit issue, as values and as code. `LogProtocol` is the whole protocol as a state machine:
any number of operations interleave with the sector writes of a commit, crashes may come between any
two writes and throw memory away, and recovery may itself crash. The main theorem is crash atomicity
over all such runs, stated over the labels of their steps; `LogRefinement` shows that the code takes these
steps. `BufferList`, `BufferState` and `BufferCache` are bio.c: a doubly linked list of
buffer objects, whose methods are the regions that run under one lock, so an interleaving of callers
is a sequence of calls. `FsLayout`, `FsGrowth`, `FsInode`, `FsBlocks`, `FsMap`, `FsTrunc`, `FsIalloc` and
`FsFile` are the block and inode layers of fs.c on 512-byte blocks, refined to flat files with exact
ownership of blocks, and with the exact number of blocks a growth takes and logs; `FileWrite` is
filewrite; `Mkfs` is the fresh image; `TightBudget` reaches the bound on a transaction by calls from
there; `WriteCrash` puts filewrite on top of the log protocol. `CStrings`, `Directories` and `Paths` are
names, directories as finite maps, and path resolution as a fold. Sizes are parameters throughout.

**Memory.** `PageTables`, `Kalloc`, `Vm`, `VmUser` and `VmSpaces` are kalloc.c and vm.c on pages of
words: the free list linked through the free pages, two-level tables in memory refined to a flat page
map, and the owner of every physical page. Addresses are handled by page number. `VmMachine` is all
address spaces together, with growproc and fork's part of memory, from boot on. `FreeList` and
`Umalloc` are the user-level first-fit allocator as a ring of headers.

**Processes.** `ProcTable` is the process table as a machine of activations, with one step for each
compare-and-swap, each read of nextpid, and each page taken or given back; writes to fields that only
the owner of a slot touches are part of the neighbouring step. Activations are not tied to
processors and the tests of parent, chan and killed are dropped, so the machine has at least all the
runs of the kernel, provided an activation's own variables are private to it. `ProcRuns` has the
theorems about whole runs. `ProcStacks` puts processors on kernel stacks, and `ProcLink` shows that they
take the steps of the process table's scheduler.

**Parsers and queues.** `ShellSyntax` is the command language by itself: tokens and what they derive.
`ShellGrammar`, `ShellPrinter` and `Shell` are the parser of sh.c as functions, its inverse, and the code
with its cursor and its in-place termination of words. `Grep` is the matcher
of grep.c against a declarative meaning. `Pipe` is the ring buffer with wrapping counters.

## Where the code does less than one would expect

- The panic "too big a transaction" is reachable in the image mkfs makes (`nlog == LOGSIZE`, mkfs.c:25):
  one block of the log is the header, while begin_op reserves against LOGSIZE. `FreshWritesSafeIff`
  gives the exact condition for new blocks and `WritesSafeIff` the one for all; `RewriteCanPanic` shows
  that even rewriting a logged block can meet it.
- growproc takes deallocuvm's result 0 for a failure (proc.c:203-204), so a process that shrinks to
  exactly 0 bytes loses its pages and keeps its size. `Growproc` has the exact condition, `Forgets` a run.
- malloc wraps for huge requests; `RequestSoundIff` and `EnoughIff` give the exact bounds.
- Pids repeat once the counter has gone round, and not before: `PidsDistinctIff` and `PidsRunOut`.
- The three compare-and-swaps after a switch (proc.c:408-410) are not conditional on one another.
  `StrayRunShares` is a run in which two processors end on one kernel stack. Call one of them stray if
  it succeeds after an earlier one of the same visit did. `OneProcessorPerStack` holds for every run
  without a stray one, `ExclusiveIff` shows that every stray one lets exclusion be lost, and
  `TogetherApart` that runs which execute the three together are safe.
- Comments in proc.c still speak of ptable.lock; there is none, and the model follows the code.
- `>>` opens its file exactly like `>` (sh.c:388-393), so both give the same tree.
- bmap's comment promises a block on demand; with too few free blocks balloc panics, and so does the model.

## Model

| member | source | states |
|---|---|---|
| RedoLog.HeaderRoundTrip | log.c:98-113 | The header block that write_head encodes decodes, by read_head, to the same list of block numbers, and the words of the sector after the list are kept. |
| RedoLog.CleanMeansItself | log.c:68-82 | With an empty header every home block means its own contents. |
| RedoLog.RecoverPrefix | log.c:68-122 | After any prefix of recovery's sector writes the disk still means the same: each home block will be what the committed header says. |
| RedoLog.RecoverComplete | log.c:115-122 | A complete recovery leaves an empty header and every home block equal to what was committed. |
| RedoLog.CrashesKeepMeaning | log.c:68-122 | Any number of crashes inside recovery, each followed by recovery from the start, keep the meaning of the disk. |
| RedoLog.RecoveryIdempotent | log.c:68-122 | Any number of interrupted recoveries followed by a complete one leave the same home blocks as one uninterrupted recovery. |
| RedoLog.CommitUndone | log.c:176-202 | A commit cut off before its header write leaves every home block as it was before the commit. |
| RedoLog.CommitDone | log.c:192-202 | A commit cut off anywhere after its header write will, after recovery, show the new contents of every block. |
| RedoLog.CommitComplete | log.c:192-202 | An uninterrupted commit leaves an empty header and every home block with its new contents. |
| RedoLog.CommitSplit | log.c:192-202 | The writes of a commit are those of write_log and the header followed by exactly those of a recovery. |
| Sectors.InstallRedo | log.c:68-82 | Starting installation again after any prefix of it ends in the same disk: the log area is apart from the home blocks and entries are distinct. |
| Sectors.AppendRedo | log.c:176-190 | Once every pinned buffer and the header are in the log area, redoing the list gives each listed block its pinned contents and leaves every other home block. |
| LogDriver.Log.Bread | bio.c:93-103 | The log sees the pinned buffer of a block if there is one, else the disk. |
| LogDriver.Log.Bwrite | bio.c:105-112 | One sector write; the buffer is no longer pinned. |
| LogDriver.Log.InstallTrans | log.c:68-82 | The loop issues exactly the install writes in order and unpins the installed buffers. |
| LogDriver.Log.ReadHead | log.c:84-96 | The in-memory header becomes the list on disk. |
| LogDriver.Log.WriteHead | log.c:98-113 | One sector write of the encoded header; this is the commit point. |
| LogDriver.Log.RecoverFromLog | log.c:115-122 | Issues exactly the recovery writes, and leaves an empty header in memory and on disk. |
| LogDriver.Log.BeginOp | log.c:124-141 | Admits an operation exactly when no commit runs and the reservation fits LOGSIZE. |
| LogDriver.Log.EndOp | log.c:143-174 | Panics exactly while committing; the last operation commits the batch, others only step down. |
| LogDriver.Log.WriteLog | log.c:176-190 | The loop copies the pinned buffers to the log blocks in order. |
| LogDriver.Log.Commit | log.c:192-202 | Issues exactly the commit writes, so the crash lemmas apply to every point of it; afterwards home blocks have the pinned contents. |
| LogDriver.Log.LogWrite | log.c:204-233 | Panics exactly on the two limit tests or outside an operation; otherwise records the block once (absorption) and pins it. |
| LogProtocol.StepKeepsInv | log.c:124-202 | Every step of every interleaving of operations, sector writes, crashes and recoveries keeps the protocol invariant. |
| LogProtocol.CrashAtomicity | log.c:115-202 | At any moment of any run, a crash and recovery leave the home blocks equal to replaying the events of the steps taken so far, each log_write with its own data, up to the last header write; no operation is open there, so each is wholly in or wholly out. The events are read off the step labels, not off the state. |
| LogProtocol.HistoryIsAccount | log.c:115-233 | In every run the history and the durable part that a state carries are those that the labels of the steps so far add up to, with a crash dropping what no header write covered. |
| LogProtocol.DurableGrows | log.c:192-202 | What a crash would spare after some steps is a prefix of what it spares after more, through every later step and crash. |
| LogProtocol.GroupCommit | log.c:126-174 | In every run the panic on committing is unreachable and header entries are distinct; while operations keep to MAXOPBLOCKS distinct blocks each, logged blocks plus unspent reservations never exceed LOGSIZE. |
| LogProtocol.WritesSafeIff | log.c:218-230 | For an operation that has logged m distinct blocks, every log_write, of a new or a logged block, is safe from the "too big a transaction" panic in all budgeted runs if and only if two other operations cannot fill what its m blocks leave of the log. |
| LogProtocol.BigLogSafeIff | log.c:218-230 | With more than LOGSIZE log blocks, that is if and only if m < MAXOPBLOCKS or the device has fewer than LOGSIZE other blocks. |
| LogProtocol.FreshWritesSafeIff | log.c:218-219 | Logging a block not yet logged, within budget, is safe in all budgeted runs if and only if the log has more than LOGSIZE blocks or the rest of the device cannot fill it. |
| LogProtocol.RewriteCanPanic | log.c:218-230 | For every larger log there is a budgeted run in which an operation that has logged MAXOPBLOCKS blocks meets the panic when it logs one of them again, because the limit is tested before absorption. |
| LogRefinement.CommittedWrite | log.c:192-233 | In every run, data logged for a block and committed without a crash in between is on the disk right after the commit, and after every later crash and recovery until something else is logged for that block. |
| LogRefinement.UnwrittenKept | log.c:115-233 | A block that no step logged has its first contents after a crash and recovery at any moment. |
| LogRefinement.BeginOp | log.c:124-141 | The code of begin_op admits exactly when the protocol lets an operation begin, and then takes that step. |
| LogRefinement.LogWrite | log.c:204-233 | The code of log_write panics exactly when the log is full, and otherwise takes the protocol's step with the same block and data. |
| LogRefinement.EndOp | log.c:143-202 | The code of end_op never meets its panic; it takes one step, or for the last operation the step, one step for every sector the commit writes, and the return. |
| LogRefinement.Initlog | log.c:52-122 | Recovery on the disk a crash left takes the boot step, one step for every sector it writes, and the return. |
| BufferList.PushFront | bio.c:48-54 | The list stays a circular doubly linked list with the buffer in front. |
| BufferList.Unlink | bio.c:127-128 | Taking a buffer out keeps the rest linked in order. |
| BufferList.MoveToFront | bio.c:125-133 | The list becomes the same list with the buffer moved to the front. |
| BufferState.FirstIsTheOne | bio.c:67-74 | If a buffer for the block has been handed out, the first scan stops at that one, also for the label (0,0) all buffers are born with. |
| BufferState.HitKeeps | bio.c:67-74 | Sharing a cached buffer keeps the cache coherent. |
| BufferState.RecycleKeeps | bio.c:79-89 | Recycling keeps the cache coherent: one handed-out buffer per block, valid clean buffers equal to the disk, nothing pinned is lost. |
| BufferState.GetKeeps | bio.c:60-91 | Both outcomes of bget keep coherence and leave the pinned blocks as they are. |
| BufferState.LeastRecentlyReleased | bio.c:79-89 | The recycled buffer is unused and clean, and every other such buffer was released later (or neither was ever released). |
| BufferState.PinnedSurvives | bio.c:76-80 | A pinned (B_DIRTY) block keeps its buffer and contents whatever block is requested. |
| BufferState.TargetReady | bio.c:60-91 | The buffer returned carries the requested label and a reference, and is locked only if it was found locked. |
| BufferState.WriteKeeps | bio.c:105-112 | Writing a buffer to disk makes disk and buffer agree and unpins it, without touching any other block. |
| BufferState.PinKeeps | log.c:228-231 | Setting B_DIRTY makes the buffer's contents the block's contents for every later reader. |
| BufferState.ReleaseKeeps | bio.c:114-136 | The last release moves the buffer to the front and keeps the list ordered by last release. |
| BufferCache.Cache.constructor | bio.c:38-55 | binit links all buffers; none has been handed out. |
| BufferCache.Cache.Bget | bio.c:60-91 | The two loops compute the specified buffer and state and give the buffer one more user; null exactly when every buffer is in use or pinned and none is the block's. The count of every buffer is the number of its users. |
| BufferCache.CountsGet | bio.c:66-89 | Shared or recycled, the buffer that bget returns has one user more than before and every other as many as before. |
| BufferCache.Cache.NoTargetIff | bio.c:66-90 | Both scans fail exactly when every buffer has a user or is pinned and none carries the label. |
| BufferCache.Cache.FindCached | bio.c:67-74 | The scan along next stops at the first buffer with the label. |
| BufferCache.Cache.FindUnused | bio.c:79-89 | The scan along prev stops at the last unused clean buffer. |
| BufferCache.Cache.Fill | bio.c:95-103 | The holder sees the last pinned contents of the block, else the disk's. |
| BufferCache.Cache.Bread | bio.c:93-103 | Returns the locked buffer of the block with exactly that view and one more user; null exactly when every buffer is in use or pinned and none is the block's; disk and pinned blocks unchanged. |
| BufferCache.Cache.Bwrite | bio.c:105-112 | Panics exactly when the buffer is not locked; otherwise disk and pins change at this block only. |
| BufferCache.Cache.Pin | log.c:231-231 | The pinned view changes at this block only. |
| BufferCache.Cache.Unref | bio.c:123-134 | One user less, and the count says so; at zero the buffer is the most recently released and first. |
| BufferCache.Cache.Brelse | bio.c:114-136 | Panics exactly when not locked; otherwise unlocks, takes one user away and reorders. A buffer released as often as it was got, and not pinned, can be recycled. |
| FsLayout.OwnershipExact | fs.c:56-94 | A bitmap bit is set exactly for metadata blocks and blocks named by some slot of some inode, and no block is named twice. |
| FsLayout.MarkUsed | fs.c:56-78 | Setting a bit adds one block to those in use and changes no other. |
| FsLayout.MarkFree | fs.c:80-94 | Clearing a bit removes one block from those in use and changes no other. |
| FsLayout.AttachKeepsBytes | fs.c:360-389 | Attaching a zeroed block to an empty slot changes no byte of any file. |
| FsLayout.DataWrite | fs.c:464-496 | Writing a data block of one file changes bytes of that file only. |
| FsInode.LoadStore | fs.c:213-232 | Storing a dinode in its slot of an inode block and loading it back gives the same dinode. |
| FsInode.InodeStored | fs.c:213-232 | iupdate's block write stores that inode and no other. |
| FsGrowth.GrewSize | fs.c:56-78 | Growing a file takes exactly one free block for every slot of the range that named none, the indirect block included. |
| FsGrowth.StuckLater | fs.c:360-389 | Whether the blocks run out does not depend on where one looks: too few are left for the rest of a range exactly when there were too few for the whole. |
| FsGrowth.LogsTwice | fs.c:478-488 | What two writes in a row log is together what one write of both ranges logs: data, new blocks, their free-map blocks and the indirect block. |
| FsGrowth.WriteCost | file.c:122-127 | A write logs at most two blocks per data block, one less for a partial first block, and two for the indirect block. |
| FsBlocks.FileSys.Balloc | fs.c:56-78 | Returns the lowest free data block, marked and zeroed, or None (panic) exactly when all are used. |
| FsBlocks.FileSys.Bfree | fs.c:80-94 | Panics exactly when the block is free already; otherwise frees that block only. |
| FsBlocks.FileSys.Bzero | fs.c:43-52 | The block becomes zero and is logged. |
| FsMap.Bmap | fs.c:360-389 | Returns the mapped block; panics exactly when the block is out of range or fewer blocks are free than its missing slots need; otherwise exactly these are filled with the lowest free blocks and exactly they, their free-map blocks and the indirect block are logged; no file byte changes and ownership stays exact. |
| FsMap.BmapDirect | fs.c:367-371 | The direct case of bmap, with the same exact condition. |
| FsMap.BmapIndirect | fs.c:372-386 | The indirect case of bmap, including a fresh indirect block, with the same exact condition. |
| FsTrunc.Iupdate | fs.c:213-232 | The on-disk inode equals the in-memory one; other inodes and all file bytes are kept; exactly the inode block is logged. |
| FsTrunc.Itrunc | fs.c:391-423 | Gives back exactly the blocks of the inode, never meets "freeing free block", empties the inode, and keeps every other file. |
| FsTrunc.EmptyTable | fs.c:391-423 | After truncation ownership is exact for the remaining slots. |
| FsIalloc.Ialloc | fs.c:188-211 | The lowest inode of type 0 gets the type and nothing else changes; panics exactly when there is none. |
| Mkfs.Balloc | mkfs.c:237-251 | Exactly the first `used` bits of the free-map block are set. |
| Mkfs.Format | mkfs.c:23-111 | Any device whose metadata fits in front of some data and in one free-map block becomes a consistent file system: no block owned, exactly the metadata marked, every inode free. |
| FsFile.Readi | fs.c:436-462 | Returns exactly the clipped slice of the flat file, or None exactly on the range test; allocates nothing and changes nothing. |
| FsFile.Writei | fs.c:464-496 | Rejected exactly on the range tests with nothing changed; panics exactly when fewer blocks are free than the range lacks; otherwise splices exactly the bytes, changes no other file, takes exactly the missing blocks, leaves the disk inode equal to the in-memory one, and logs exactly the data, the blocks of the growth and, if the size grew, the inode block. |
| FsFile.WriteRange | fs.c:478-488 | The loop over direct and indirect blocks stops short exactly when fewer blocks are free than the range lacks, and otherwise has exactly the effect and the log of one write. |
| FsFile.OverwriteEnough | fs.c:478-488 | A write inside the file lacks no block, so it never panics. |
| FsFile.SpliceTwice | fs.c:478-488 | Two adjacent splices are one splice. |
| FsFile.ContentSpliced | fs.c:464-496 | Splicing bytes and growing the size is overwriting the contents. |
| FileWrite.ChunkFits | file.c:127-146 | A chunk of filewrite never logs more than MAXOPBLOCKS distinct blocks, for any alignment and file system size. |
| TightBudget.FullChunk | file.c:127-146 | The bound is tight: from a fresh image, calls of ialloc, filewrite and itrunc reach a consistent file system on which one chunk, written by writei in one transaction, logs exactly MAXOPBLOCKS distinct blocks. |
| TightBudget.GrewPacked | fs.c:56-78 | If exactly the blocks below m are taken, a growth takes the next ones in order. |
| FileWrite.Filewrite | file.c:115-156 | Writes all bytes, or exactly the whole chunks that fit the largest file, or nothing past the end; panics exactly when fewer blocks are free than that lacks; every transaction fits the log, starts where the last one ended and leaves a consistent file system; together they are one overwrite of the flat file, and no other file changes. |
| FileWrite.AcceptsChunk | file.c:134-151 | After k full chunks the next chunk is accepted, or nothing more is. |
| FileWrite.OverwriteTwice | file.c:135-149 | Consecutive overwrites of adjacent chunks are one overwrite. |
| WriteCrash.CrashDuringWrite | file.c:127-151 | Cut the power at any sector write of any run that executes filewrite's transactions, with crashes and recoveries before, and recover: the disk is a consistent file system in which the file holds its old contents overwritten by the first k chunks, and every other file is as it was. |
| WriteCrash.Boundary | log.c:143-174 | A history of these transactions in which no operation is open is the first few of them, whole. |
| WriteCrash.ScriptReplays | log.c:204-233 | Replaying the first k transactions gives the blocks the file system had after them. |
| CStrings.Memmove | string.c:31-49 | Overlapping or not, the destination gets the old source bytes and nothing else changes. |
| CStrings.Strncmp | string.c:58-66 | Zero exactly when the two names agree as C strings within n bytes. |
| CStrings.Strncpy | string.c:68-79 | The destination holds the string padded with NULs, or its first n bytes. |
| CStrings.CStrPad | string.c:68-79 | Reading a padded name back gives the name cut to n bytes. |
| Directories.Dirlookup | fs.c:506-531 | Returns the inode and the offset of the first entry in use for the name, exactly when the name is bound; otherwise nothing, or the panic exactly when the file ends in part of an entry; panics on a non-directory. |
| Directories.Dirlink | fs.c:533-560 | Refuses exactly a bound name with nothing changed; panics exactly on a non-directory, or for an unbound name if the directory ends in part of an entry, is at its largest without a free entry, or lacks a block that is not to be had; otherwise the new contents are the old ones with the entry written over the first free place or at the end, which adds exactly that binding, and no other file changes. |
| Directories.DirMapAdds | fs.c:546-557 | Filling a free slot adds one binding and keeps all others. |
| Directories.Appended | fs.c:546-557 | Appending an entry with an unbound name to the file adds that binding and keeps all others. |
| Directories.Relinked | fs.c:546-557 | Overwriting one entry changes one element of the table. |
| Directories.LinkThenLookup | fs.c:506-560 | After dirlink, dirlookup of the name gives the inode number cut to sixteen bits and the place written, and dirlookup of every other name gives what it gave before. |
| Directories.BoundFirst | fs.c:514-528 | The binding of a name is that of its first entry in use. |
| Paths.Skipelem | fs.c:565-599 | Takes the first path element, truncated to DIRSIZ, and leaves the rest; none exactly when no element is left. |
| Paths.ElementsLaid | fs.c:564-598 | For words without slashes, separated by one or more slashes and with any number at both ends, the elements are the words in order, cut to DIRSIZ bytes. |
| Paths.EveryPathLaid | fs.c:564-598 | Every path is such words and slashes. |
| Paths.Namex | fs.c:601-637 | Returns inode n exactly when a sequence of inodes leads from the root or the working directory to n, each but the last a directory that binds the next path element to the next inode; for the parent, along all elements but the last and ending in a directory. The panic is exactly a free inode on the way. |
| Paths.ResolveLeads | fs.c:601-637 | Following the elements one at a time gives the inode where such a sequence leads, and nothing or the panic exactly when there is none. |
| Paths.Descend | fs.c:614-631 | One lookup gives inode n exactly when the directory binds the name to n. |
| FreeList.InsertOrdered | umalloc.c:24-44 | Inserting a block keeps the list in address order, apart and fully coalesced. |
| FreeList.InsertSum | umalloc.c:24-44 | Insertion and merging conserve the number of free units. |
| FreeList.InsertApart | umalloc.c:24-44 | Insertion keeps free blocks apart from every live block. |
| FreeList.RestSum | umalloc.c:75-84 | Carving a block from the list conserves units. |
| FreeList.CarveApart | umalloc.c:75-84 | The carved block is apart from the rest of the list and from every live block. |
| Umalloc.RequestSoundIff | umalloc.c:46-71 | The block is large enough and sbrk gets the size asked for if and only if nbytes is at most 0x7FFFFFF0; beyond that unsigned and signed arithmetic wrap. |
| Umalloc.EnoughIff | umalloc.c:69-69 | The unit count covers the request if and only if nbytes is at most 0xFFFFFFF8, and never exceeds it by a whole unit. |
| Umalloc.Heap.FindPlace | umalloc.c:30-32 | The search loop of free ends, at the two neighbours of the block in the ring. |
| Umalloc.Heap.Splice | umalloc.c:33-43 | The pointer updates join or link on both sides and keep one ring in address order; freep is the last header below the block. |
| Umalloc.Heap.Free | umalloc.c:24-44 | The block leaves the live set and is inserted; the ring stays circular, ordered, coalesced and apart from live blocks; units are conserved; freep is the last header below the block. |
| Umalloc.Heap.Morecore | umalloc.c:46-61 | Fails exactly when sbrk does, with nothing changed; otherwise all the units asked of sbrk are obtained and inserted in the list, and freep is their predecessor. |
| Umalloc.ArgIs | umalloc.c:52-54 | sbrk is asked for as many units as are then freed: 4096, or more if the request is larger. |
| Umalloc.Heap.FindFit | umalloc.c:74-88 | The loop ends after at most one lap with the first fitting block after freep, or after sbrk with the first fitting block after the predecessor of the units obtained; the ring is unchanged unless sbrk was called. |
| Umalloc.Heap.Malloc | umalloc.c:63-90 | Returns a new live block of the requested units, apart from all others; None exactly when nothing fits and sbrk fails. The block is the tail of the first fit after freep, on the ring as it was, or on the ring with the units from sbrk inserted if nothing fitted; the rest of the ring is left and the next search starts there. |
| Umalloc.FirstMalloc | umalloc.c:46-90 | On a fresh heap malloc of up to 32760 bytes takes 4096 units at the address sbrk gives and returns the tail of them. |
| PageTables.LookupIsFlat | vm.c:32-55 | The two-level walk finds exactly what the flat page map says. |
| PageTables.TableAdded | vm.c:42-53 | Hanging a cleared table under an absent directory entry changes no mapping. |
| PageTables.EntryAdded | vm.c:68-72 | Setting an absent entry adds exactly that mapping and that page to the space. |
| PageTables.EntryRemoved | vm.c:269-275 | Clearing a present entry removes exactly that mapping and releases that page. |
| Kalloc.Kmem.constructor | kalloc.c:22-26 | Before kinit1 no page is free. |
| Kalloc.Kmem.Kalloc | kalloc.c:79-95 | Takes the head of the free list, null exactly when it is empty; memory is unchanged. |
| Kalloc.Kmem.Kfree | kalloc.c:55-77 | Panics exactly outside the managed pages; otherwise the junk-filled page becomes the head of the list. |
| Kalloc.Kmem.Freerange | kalloc.c:46-53 | The whole pages of the range become free, last first. |
| Kalloc.Kinit | kalloc.c:28-53 | After kinit1 and kinit2 exactly the pages from the end of the kernel to PHYSTOP are free. |
| Vm.Walkpgdir | vm.c:32-55 | Returns the table of the address; creates it only if asked, from the free list; null exactly when it is absent and not asked for or no page is free; no mapping changes. |
| Vm.Mappages | vm.c:57-80 | Adds exactly the consecutive mappings and the absent tables for them; out of memory exactly when fewer pages are free than tables are absent, with a prefix mapped; remap exactly at a mapped page. |
| Vm.Deallocuvm | vm.c:251-279 | Unmaps exactly the pages of the range and frees exactly their pages, jumping over absent directory entries; never meets the kfree panic. |
| Vm.NoTable | vm.c:265-268 | No page is mapped under an absent directory entry, so the jump skips nothing. |
| VmUser.Allocuvm | vm.c:219-249 | Fails exactly when the new size reaches the kernel or fewer pages are free than the new range and its absent tables need; then the mapping is as it was; otherwise exactly the new range is mapped, to zeroed pages; pages are conserved either way. |
| VmUser.GrownUndone | vm.c:229-245 | Unmapping the range just grown restores the flat map. |
| VmUser.RolesAre | vm.c:117-136 | The pages of a space are exactly its directory, its tables and its user pages. |
| VmSpaces.RowsApart | vm.c:105-115 | The rows of kmap do not overlap, so setupkvm never meets "remap". |
| VmSpaces.RowsDone | vm.c:105-136 | After the last row the kernel half is exactly the documented layout and the user half is empty. |
| VmSpaces.RowTabsSize | vm.c:105-115 | The kernel half takes 64 tables wherever the kernel's data begins. |
| VmSpaces.Setupkvm | vm.c:117-136 | A new space with exactly the kernel mapped; None, with every page back on the free list, exactly when fewer than 65 pages are free. |
| VmSpaces.Freevm | vm.c:281-298 | Everything the space owned becomes free, and nothing else changes. |
| VmSpaces.Copyuvm | vm.c:313-345 | The child has the same pages, flags and bytes below sz on pages of its own, and the kernel half; the parent is untouched; None, with every page back, exactly when fewer pages are free than a bare space, the copies and their tables take. |
| VmSpaces.Bystander | vm.c:219-345 | An address space is not affected by work on pages that are not its own. |
| VmMachine.WorldKept | vm.c:219-345 | A change confined to the free pages and one space keeps every page of memory free, held by the kernel or in exactly one space, and keeps every space sound, and changes no word of another space. |
| VmMachine.Machine.constructor | kalloc.c:28-53 | At boot every page is free and there is no space. |
| VmMachine.Machine.NewSpace | proc.c:149-168 | setupkvm for a process keeps that order of the whole memory; fails exactly below 65 free pages. |
| VmMachine.Machine.Fork | proc.c:214-236 | copyuvm for a child keeps that order; the child is a copy on new pages; fails exactly below the pages it takes. |
| VmMachine.Machine.Grow | vm.c:219-249 | allocuvm for a process keeps that order and changes no word of any other space. |
| VmMachine.Machine.Shrink | vm.c:251-279 | deallocuvm for a process keeps that order and changes no word of any other space. |
| VmMachine.Machine.Growproc | proc.c:191-209 | growproc keeps that order of the whole memory and says exactly when it fails; every page below the recorded size stays mapped if and only if the call does not decrease the size to exactly 0. |
| VmMachine.Forgets | proc.c:191-209 | A process that grows by a page and gives it back ends with a recorded size of one page and no page. |
| VmMachine.Machine.Free | proc.c:330-345 | freevm gives exactly the pages of the process back and changes no word of any other space. |
| VmMachine.Machine.Take | kalloc.c:79-95 | kalloc for a stack or pipe keeps the order of the whole memory. |
| VmMachine.Machine.Give | kalloc.c:55-77 | kfree of such a page keeps that order and never panics. |
| ProcTable.StepKeeps | proc.c:77-460 | Every step of every activation keeps the ownership of slots, incarnations and stacks, and no guarded compare-and-swap fails. |
| ProcTable.StepFollowsDiagram | proc.c:77-460 | Every step moves at most one slot, along the arrow of the state diagram that belongs to it, if the slot is in the state where the arrow starts. |
| ProcTable.NumberKeeps | proc.c:77-86 | Winning the compare-and-swap on nextpid gives the slot a new incarnation. |
| ProcTable.DropKeeps | proc.c:119-123 | The unguarded compare-and-swap that gives a slot up always succeeds. |
| ProcTable.PublishKeeps | proc.c:255-259 | The guarded compare-and-swap of fork and userinit always succeeds. |
| ProcTable.ClaimedKeeps | proc.c:332-334 | Taking a zombie makes the caller its only owner. |
| ProcTable.UnlockKeeps | proc.c:342-344 | The guarded compare-and-swap of wait always succeeds. |
| ProcTable.WonKeeps | proc.c:398-400 | The guarded compare-and-swap of the scheduler always succeeds. |
| ProcTable.ExitKeeps | proc.c:295-295 | An exit marks the incarnation in the slot, once. |
| ProcRuns.ReadsAgree | proc.c:77-86 | A successful compare-and-swap means that all three reads of nextpid agreed. |
| ProcRuns.NeverPanics | proc.c:184-400 | In every run of any number of activations no guarded compare-and-swap fails. |
| ProcRuns.OneOwner | proc.c:88-146 | In every run a slot in EMBRYO, NEG_UNUSED or NEG_RUNNING belongs to exactly one activation, and a slot in another state to none. |
| ProcRuns.ReclaimedOnce | proc.c:270-360 | In every run each exited process is a zombie in its slot, or in the hands of one wait, or has been returned by exactly one wait; wait returns only what fork returned. |
| ProcRuns.PidsDistinctIff | proc.c:77-86 | In every run the pids issued are distinct if and only if at most 2^32 were issued. |
| ProcRuns.PidsRunOut | proc.c:77-123 | For every n there is a run, of forks that fail in copyuvm, that issues n pids; beyond 2^32 some pid is issued twice. |
| ProcRuns.PidsTellApart | proc.c:214-360 | Until the counter wraps no two forks and no two waits return the same pid, and every pid wait returns was returned by fork. |
| ProcRuns.StacksConserved | proc.c:118-345 | In every run each page is free, in use elsewhere or the kernel stack of exactly one slot: no stack is lost, shared or freed twice. |
| ProcStacks.OneProcessorPerStack | proc.c:376-416 | In every run without a stray settling compare-and-swap at most one processor is on a kernel stack, and no stack is freed under one. |
| ProcStacks.ExclusiveIff | proc.c:408-410 | After any run without a stray settling compare-and-swap, the next event is not stray if and only if every continuation without a stray one keeps at most one processor on each stack and frees none under a processor. |
| ProcStacks.TogetherApart | proc.c:408-410 | In every run in which the three settling compare-and-swaps of each visit follow each other, none is stray, at most one processor is on a kernel stack and none is freed under one. |
| ProcStacks.StrayRunShares | proc.c:408-410 | As the code has them they can be: a run that ends with two processors on one kernel stack. |
| ProcLink.RunSimulated | proc.c:376-416 | Every run of the processors without a stray compare-and-swap is a run of the process table's scheduler activations, with the same states of slots. |
| ProcLink.EventSimulated | proc.c:376-416 | One event of a processor or process is one to three steps of the process table. |
| ShellPrinter.PrintParse | sh.c:327-446 | Parsing the minimally parenthesised printing of any legal tree gives back the tree. |
| ShellPrinter.ParsesIff | sh.c:327-446 | The trees the parser can return are exactly the legal ones (at most nine arguments, words of word characters). |
| ShellPrinter.ExecReadsBack | sh.c:415-446 | Printed simple and parenthesised commands are read back whatever delimiter follows. |
| ShellPrinter.PipeReadsBack | sh.c:361-372 | Printed pipelines are read back. |
| ShellPrinter.LineReadsBack | sh.c:344-359 | Printed lines with ; and & are read back. |
| ShellPrinter.ReadRedirs | sh.c:374-397 | Printed redirections are read back in order. |
| ShellSyntax.ParseIff | sh.c:265-446 | On any text, the parser returns a command if and only if the tokens of the text derive it, with `<`, `>` and `>>` as separate rules, redirections before and among the arguments, blocks, pipes, `&` and `;`. |
| ShellSyntax.LineDerived | sh.c:327-446 | Whatever line is derived by the tokens, the parser takes exactly these tokens and returns its command. |
| ShellSyntax.LineSound | sh.c:327-446 | Whatever the parser takes from a text is derived by the tokens taken. |
| ShellSyntax.DerivesOne | sh.c:327-446 | A line derives at most one command. |
| ShellSyntax.TokenFirst | sh.c:265-308 | gettoken takes the first token of the text and leaves the others. |
| ShellSyntax.TokensWritten | sh.c:265-308 | Tokens written with any spacing, with a space where two would run together, are read back. |
| ShellSyntax.AddAllSimple | sh.c:374-446 | Collecting arguments and redirections is the same as adding them one by one, each argument to the innermost command and each redirection around what is there. |
| Shell.Parser.GetToken | sh.c:265-308 | The loops compute the token; a word is reported as a maximal stretch of word characters of the line. |
| Shell.Parser.Peek | sh.c:310-320 | Skips spaces and tests the next character. |
| Shell.Parser.ParseRedirs | sh.c:374-397 | The loop reads all redirections as the grammar does, or panics exactly where a file name is missing. |
| Shell.Parser.ParseArgs | sh.c:429-445 | The loop reads the arguments and the redirections among them; panics exactly on a stray symbol or the tenth argument. |
| Shell.Parser.ParseExec | sh.c:415-446 | Agrees with the grammar on tree, cursor and panics. |
| Shell.Parser.ParseBlock | sh.c:399-413 | Agrees with the grammar, including the missing parenthesis. |
| Shell.Parser.ParsePipe | sh.c:361-372 | Agrees with the grammar. |
| Shell.Parser.ParseLine | sh.c:344-359 | Agrees with the grammar. |
| Shell.Nulterminate | sh.c:448-493 | Writes a NUL at the recorded end of every word and nowhere else. |
| Shell.EndsOutside | sh.c:448-493 | No terminator falls on a character of any word. |
| Shell.TreeReads | sh.c:448-493 | After termination the C strings at the recorded starts are exactly the words. |
| Shell.ParseCmd | sh.c:327-342 | Panics exactly when the tokens of the line derive no command; otherwise the tree read back out of the overwritten buffer is the command they derive. |
| Grep.Match | grep.c:72-82 | True exactly when some substring, anchored as ^ and $ require, belongs to the declarative language of the pattern. |
| Grep.MatchHere | grep.c:84-96 | True exactly when the text starts with a word of the pattern. |
| Grep.MatchStar | grep.c:98-106 | True exactly when some repetitions of the character are followed by the rest of the pattern. |
| Grep.ItemsIff | grep.c:84-96 | A pattern means the one list of items that spells it and can be told from its spelling: no star after a single character, and `$` as the end only at the end. |
| Grep.AcceptSound | grep.c:84-106 | Matching one item at a time finds a decomposition into pieces. |
| Grep.AcceptComplete | grep.c:84-106 | Every decomposition is found by matching one item at a time. |
| Pipe.TestsExact | pipe.c:85-114 | The full and empty tests on wrapping 32-bit counters are exact. |
| Pipe.PushHolds | pipe.c:93-93 | Writing a byte appends it to the contents. |
| Pipe.PopHolds | pipe.c:116-116 | Reading a byte removes the oldest one. |
| Pipe.Fifo | pipe.c:77-121 | In every interleaving of readers and writers, suspended mid-write or not, bytes read are a prefix of bytes written and at most PIPESIZE are in between. |
| Pipe.PipeBuffer.Write | pipe.c:77-98 | The loop appends a prefix of the bytes until the buffer is full. |
| Pipe.PipeBuffer.Read | pipe.c:100-121 | The loop removes up to n of the oldest bytes in order. |
| Pipe.PipeBuffer.Close | pipe.c:59-75 | Closing one end; the pipe is freed exactly when both are closed. |

## Left out

- LogProtocol.StepKeepsInv: log_write is one step, although its limit test comes before it takes the lock.
- Umalloc.Heap.Malloc: takes requests for which sbrk is asked for at least the units needed; RequestSoundIff says exactly which those are, and the result of sbrk is a parameter.
- Umalloc.Heap.Morecore: takes unit counts for which sbrk is asked for at least the units needed, like Malloc.
- Vm.Mappages: takes ranges of at least one byte that do not wrap, with physical pages new to the space at user addresses, as every caller passes.
- VmUser.Allocuvm: takes a range that is not mapped yet, as its callers do; a mapped page there is the "remap" panic.
- VmSpaces.Copyuvm: takes a parent whose pages below sz are all present; a missing one is a panic.
- BufferCache.Cache.Bread: states the uncontended case in one call; AcquireSleep is where a second caller waits.
- ProcStacks.OneProcessorPerStack: assumes that no settling compare-and-swap is stray; ExclusiveIff shows the assumption is exact.
- Shell.Parser.ParseExec: command nodes are values, so the exec node that the code fills after wrapping it is built once its arguments are known.
- WriteCrash.CrashDuringWrite: one process writes at a time; interleaving with other operations is covered by CrashAtomicity.
- VmMachine.Machine.Fork: takes a process whose pages below its size are all mapped; a missing one is a panic of copyuvm.
- ProcLink.RunSimulated: leaves out the events that stand for a whole wait and a whole fork.
- Mkfs.Format: the contents of the superblock, the root directory and the initial files are not written.
- Device files in readi and writei, iget and iput reference counts, and link counts.
- Concurrency between file system calls: each call runs on locked inodes, one at a time; interleaving is covered at the level of the log.
- Lost wakeups, liveness and fairness: sleep publishes chan after releasing its lock, and no such claim holds.
- Signals: pending bits are updated without atomicity, and the single backup frame admits no clean statement.
- copyout, uva2ka, loaduvm, inituvm, clearpteu and switchuvm: byte copies and hardware registers over the mappings proved here.
- Spin locks, sleep locks, interrupts and context switching are taken as given.
- Disk drivers: one atomic write per sector, no disk errors.
- exec, trap dispatch, system call arguments, consoles, boot code, user utilities and the read loop of grep.
- Memory of the shell's tree nodes: malloc is taken to succeed.
