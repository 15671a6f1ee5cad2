# A model of xv6 with demand paging

This project models the parts of the kernel and of its user programs whose correctness is
hard to see from the code, and proves what they promise. Everything is in Dafny 4.11;
`dafny verify dfyconfig.toml` checks the whole project.

Code that changes things step by step is a class with the same fields and loops, proved
against a function or relation on values; the same values carry the invariants and the
claims about whole runs. Panics and error returns are results, not preconditions.
Concurrency is a state machine: a step is one disk write, one lock operation or one store,
and a run is any sequence of steps.

| part | files | source |
|---|---|---|
| write-ahead log over the buffer cache | LogSpec, LogRuns, BufferCache, Log, CacheRuns, CacheInv, CacheWork, CacheTheorems, CacheProgress, CacheLiveness | kernel/log.c, kernel/bio.c |
| swapping and its three policies | SwapSpec, SwapPolicy, SecondChance, SwapRuns, SwapProgress, SwapHistory, SwapVictims, QueueRuns, Process | kernel/vm.c, kernel/fs.c |
| blocks and file contents | FsSpec, FsFiles, FileSystem, FsTruncate | kernel/fs.c, kernel/file.c |
| three-level page table | PageTableSpec, PageTableFree, PageTable, Unmapping | kernel/vm.c |
| sleep, wakeup, wait, exit and the scheduler | Scheduling, SchedulingInv, SleepWakeup, SleepLocks, Families, Undisturbed | kernel/proc.c, kernel/sleeplock.c |
| virtio disk driver and device | VirtioSpec, VirtioRuns, VirtioDisk | kernel/virtio_disk.c |
| pipe | Pipe | kernel/pipe.c |
| malloc and free | HeapSpec, HeapAlloc, Umalloc | user/umalloc.c |
| shell parser | ShellSpec, ShellLex, ShellLayout, ShellGrammar, ShellWords, Shell | user/sh.c |
| grep | Grep | user/grep.c |
| what they share | Basics | kernel/riscv.h |

What the model leaves to its environment: reads and writes of one disk block are atomic; the
virtio device may take and complete requests in any order, does what their descriptors let it
do, and then reports status 0; sbrk grants memory up to a limit; a read returns any positive number of the bytes asked for; copies
between user and kernel memory succeed; users of the buffer cache change only blocks that they
hold, inside an operation, and log what they have changed before they release it or end the
operation, as writei and itrunc are shown to do; a sleep lock is released by its holder.

Where the code does less than it seems to promise, the code is modelled as it is, and the
exact condition is proved:

- log_write can panic although every operation keeps to its limit, exactly if the log region
  has no more than LOGSIZE blocks, as mkfs/mkfs.c:25 makes it (LogRuns.PanicIffSmallLog). A
  larger region does not cure it all: a full log also refuses writes that would only be
  absorbed (LogRuns.FullLogRefusesAbsorption), and 30 pinned blocks leave commit without a
  buffer (Log.PinsInUse). A commit finds its next buffer exactly if the log block it turns to is
  cached or fewer than NBUF blocks are in use (CacheProgress.WorkGoesOn).
- NFUA returns -1, and its callers use it as an index, exactly if every page in memory is
  about to have the largest count (SwapProgress.GrowPossibleIff, SwapProgress.FaultPossibleIff);
  any full process can get there (SwapProgress.NfuaGetsStuck).
- Under LAPA a page brought back starts with access count 0 and not with the 0xFFFFFFFF that
  kernel/vm.c:519-538 stores, because the file entry is then copied over it
  (SwapProgress.PageInCountIsZero).
- Swapping keeps contents, but not permissions: a page has those that exec gave it as long as it
  has not been brought back from the file, and all of them from then on, also a page whose user
  bit exec had cleared (SwapHistory.PermIsLost).
- SCFIFO is second-chance FIFO as long as page_order_counter has given out no more than 2^32
  numbers (QueueRuns.EvictionsAreSecondChance). With other pages in memory, a page that takes
  the next number joins the queue at its end exactly up to there (QueueRuns.JoinsAtBackIff,
  QueueRuns.RequeuesLastIff); the one after that is at once taken for the oldest, unless a later
  entry still has number 0 (QueueRuns.WrapMakesYoungestOldest).
- itrunc logs the bitmap block of each block that it frees. That fits into MAXOPBLOCKS blocks for
  every file exactly on disks whose data area has its bits in at most nine bitmap blocks
  (FsTruncate.TruncateFitsIff); filewrite always fits (FileSystem.ChunkFits).
- The int parameter of sbrk holds morecore's size exactly below 2^27 units (Umalloc.SbrkArgFits),
  so a heap that has grown is all memory exactly below that (Umalloc.GrowKeepsInvIff);
  malloc(0xFFFFFFFF) adds a block of 2^28 + 1 units over one new one (Umalloc.LargestRequest).
- virtio_disk_rw computes the sector of a block in 32 bits, which is right exactly for block
  numbers below 2^31 (VirtioDisk.Driver.RwStart).
- uvmunmap with do_free set frees the frames that invalid PTEs name, not those of valid ones
  (kernel/vm.c:194), as PageTable.FreedAreInvalid says exactly; paging out leaves no frame number
  behind, so in a process that swaps it frees nothing (Unmapping.UnmapFreesNothing).
- grep stops at the first line that does not fit into its buffer or that holds a NUL. It prints
  all matching lines exactly if none of them comes there or later (Grep.AllPrintedIff).

## Model

| member | source | states |
|---|---|---|
| LogRuns.CrashAtomicity | kernel/log.c:68-123 | at every moment of every run, however many crashes came before and however often recovery was cut short, recovering the disk gives exactly the committed log_writes replayed over the initial disk, and no operation is only partly among them |
| LogRuns.CommittedIsForever | kernel/log.c:178-203 | what is committed at one moment of a run is committed, in the same order, at every later one |
| LogRuns.HistIsTheWrites | kernel/log.c:214-235 | over every run, what these theorems call the log_writes are those of the run's events, absorbed ones included, less those that a crash found uncommitted |
| LogRuns.QuietMeansCommitted | kernel/log.c:146-175 | over every run, whenever no operation is open and no commit or recovery is under way, every log_write so far is committed and in its home block on disk, and nothing is logged |
| LogRuns.OpsAreOpen | kernel/log.c:126-175 | over every run the operations counted as outstanding are exactly those begun and not ended since the last crash |
| LogRuns.LastEndOpCommits | kernel/log.c:146-175 | on every run, when the last open operation ends, the commit's own steps lead to a state in which every log_write so far is committed and on disk |
| LogRuns.EndedIsForever | kernel/log.c:146-175 | once such a moment has come, the log_writes before it are committed at every later moment of the run, whatever crashes come |
| LogRuns.NoSteal | kernel/log.c:214-235 | of the log machine, in which only commit and recovery write blocks: while operations run, home blocks on disk are those of the last commit and the current version of every block is that of the last log_write (CacheTheorems.NoSteal and CacheTheorems.EvictedIsClean are the same of the buffers) |
| LogRuns.NeverStuck | kernel/log.c:178-203 | of the log machine, in which bread never fails: a commit or recovery under way always has a next step (CacheProgress.WorkGoesOn says when, with the buffers) |
| LogRuns.ReservationHolds | kernel/log.c:126-175 | logged blocks plus unused reservations never exceed LOGSIZE; logged blocks are distinct home blocks and their slots lie in the log region |
| LogRuns.LargeLogNeverPanics | kernel/log.c:214-235 | with more than LOGSIZE blocks in the region, no log_write of a block that is new within its operation's limit panics, on any run |
| LogRuns.SmallLogPanics | kernel/log.c:220 | with LOGSIZE or fewer, a run within the limits reaches the panic |
| LogRuns.PanicIffSmallLog | kernel/log.c:220 | the panic is reachable if and only if the region has at most LOGSIZE blocks |
| LogRuns.FullLogRefusesAbsorption | kernel/log.c:220-230 | on every layout with room for one block in the log, a run reaches a state in which a block already logged is refused |
| LogRuns.DiskRecovers | kernel/log.c:116-123 | in every state that meets the invariant, a disk that loses power recovers to exactly the committed updates |
| LogSpec.CommitCrash | kernel/log.c:178-203 | a commit cut short after any k writes recovers to the old home blocks up to the last log slot and to the whole transaction from the header write on |
| LogSpec.RecoveryCrash | kernel/log.c:116-123 | recovery cut short after any number of writes and started again gives the same home blocks |
| LogSpec.RecoveredContents | kernel/log.c:68-123 | what a completed recovery leaves: home blocks named by the header have their slot's contents, others are unchanged, the log is empty |
| LogSpec.RedoCompletes | kernel/log.c:68-83 | with log and header written and j home blocks installed, recovery completes the transaction |
| LogSpec.HeaderOnDisk | kernel/log.c:103-114 | word 0 of the header block is the count, the words after it the block numbers, and the rest stays |
| LogSpec.CommitDone | kernel/log.c:193-203 | home blocks after a completed commit are exactly the cached ones |
| LogSpec.CommitAddsUp | kernel/log.c:193-203 | the four phases of commit, run on disk or cache, are the list of commit writes |
| BufferCache.UnlinkKeepsRest | kernel/bio.c:117-137 | unlinking a node leaves the rest of the LRU list in order, both ways round |
| BufferCache.InsertGoesFirst | kernel/bio.c:117-137 | inserting after the head puts a node first and keeps the order of the rest |
| BufferCache.UsedGoesFirst | kernel/bio.c:117-137 | moving a buffer to the front keeps the list sorted by when buffers were let go of |
| BufferCache.LastFreeIsOldest | kernel/bio.c:71-85 | of the free buffers, the last on the list was let go of longest ago |
| BufferCache.FreeIffNotAllBusy | kernel/bio.c:59-89 | a buffer can be recycled exactly when fewer than NBUF blocks are in use |
| BufferCache.Bcache.constructor | kernel/bio.c:37-53 | the list holds every buffer once, the last of the array first, and nothing is held |
| BufferCache.Bcache.Bget | kernel/bio.c:59-89 | the buffer caching the block, or else, of the free ones, the one let go of longest ago; none exactly if the block is not cached and every buffer is in use |
| BufferCache.Bcache.Bread | kernel/bio.c:93-103 | the one buffer of the block, held, with its latest contents; none exactly if NBUF other blocks are in use |
| BufferCache.Bcache.Bwrite | kernel/bio.c:107-112 | the block on disk gets the buffer's contents, nothing else changes |
| BufferCache.Bcache.Brelse | kernel/bio.c:117-137 | the buffer is released and, if nobody is left, is the one let go of last; nothing is exposed to recycling exactly if others hold it or the disk has its contents |
| BufferCache.Bcache.Bpin | kernel/bio.c:140-144 | one more reference, contents and order unchanged |
| BufferCache.Bcache.Bunpin | kernel/bio.c:147-151 | one reference fewer, contents and order unchanged; nothing is exposed to recycling exactly if references are left or the disk has the contents |
| CacheWork.Refines | kernel/log.c:147-235 | every run of readers, writers, commits, crashes and recoveries over the 30 buffers, with bread and brelse of others between any two steps of a commit, is the run of the log machine with the same log operations and block writes |
| CacheTheorems.CountsAddUp | kernel/bio.c:59-151 | in every state of every run a buffer's refcnt is the number of its holders plus its pin, and its contents are the latest version of its block |
| CacheTheorems.LoggedIsPinned | kernel/log.c:214-235 | in every state of every run each block of the transaction has exactly one buffer, counted once more than it has holders, until install_trans drops that pin |
| CacheTheorems.UnreferencedIsClean | kernel/bio.c:117-151 | in every state of every run a buffer with refcnt 0 is as the disk |
| CacheTheorems.EvictedIsClean | kernel/bio.c:74-85 | whatever step recycles a buffer, nobody held it and the disk has what it held |
| CacheTheorems.ReleasesAreSafe | kernel/bio.c:117-151 | on every run, whatever brelse, bunpin or step of the log gives up a reference leaves the buffer with the latest version of its block, and either referred to or as the disk |
| CacheProgress.WorkGoesOn | kernel/log.c:69-191 | on every run a recovery under way has a next step, and a commit has one exactly unless it turns to a block of the log region that is not cached while NBUF blocks are in use; home blocks are never what it waits for |
| CacheProgress.TakeIff | kernel/bio.c:59-89 | bget finds a buffer exactly if one caches the block or fewer than NBUF blocks are in use |
| CacheTheorems.BreadIsLatest | kernel/bio.c:93-103 | bread returns the latest version of the block, in memory or from the disk |
| CacheTheorems.NoSteal | kernel/log.c:178-235 | on every run, until the commit's header write, home blocks on disk are those of the last commit, and the latest versions but for blocks changed and not yet logged are every log_write so far |
| CacheTheorems.QuietMeansCommitted | kernel/log.c:146-175 | LogRuns.QuietMeansCommitted for the disk under the buffer cache; no block is changed and not yet logged then |
| CacheTheorems.HoldersAreCounted | kernel/bio.c:93-137 | over every run, as many threads hold a block as have read and not released it since the last crash, with the log's own |
| CacheLiveness.BeginWaitsIff | kernel/log.c:126-142 | on every run begin_op waits exactly while 10 blocks for each open operation and this one do not fit beside those logged, and never if none is open |
| CacheLiveness.BreadIff | kernel/bio.c:59-103 | on every run, also during a commit, a home block can be read exactly if it is cached or fewer than NBUF blocks are in use |
| CacheLiveness.HolderWrites | kernel/log.c:205-235 | on every run, who holds a block inside an operation can change it, cannot release it or end the operation before logging it, can log it exactly if log and reservation have room, and can release it then |
| CacheLiveness.CommitFinishes | kernel/log.c:146-203 | on every run a commit comes to its end by its own steps, as long as others use fewer than NBUF blocks |
| CacheTheorems.CommitDropsThePins | kernel/log.c:69-83 | after a commit nothing is logged and every buffer is counted for its holders alone |
| CacheTheorems.CrashAtomicity | kernel/log.c:68-123 | LogRuns.CrashAtomicity for the disk under the buffer cache, with readers and writers of buffers at work |
| Log.LogManager.TryBeginOp | kernel/log.c:127-142 | an operation starts exactly if no commit runs and its reservation fits |
| Log.LogManager.LogWrite | kernel/log.c:215-235 | the block is in the transaction once, pinned once, with its new contents visible; false exactly at the two panics |
| Log.LogManager.WriteLog | kernel/log.c:179-191 | slots get the cached blocks, by exactly the log phase of the commit writes |
| Log.LogManager.WriteHead | kernel/log.c:103-114 | the header block gets the in-memory header, the words after it stay |
| Log.LogManager.ReadHead | kernel/log.c:87-97 | the in-memory header is the one on disk |
| Log.LogManager.InstallTrans | kernel/log.c:69-83 | every home block gets its slot, and outside recovery each pin is dropped once |
| Log.LogManager.Commit | kernel/log.c:194-203 | block writes are exactly the commit writes in order, and exactly the pins taken by log_write are dropped; false is the panic for want of a buffer |
| Log.LogManager.RecoverFromLog | kernel/log.c:117-123 | block writes are exactly the recovery writes |
| Log.LogManager.EndOp | kernel/log.c:147-175 | the operation leaves, and the last one out commits the transaction |
| Log.PinsInUse | kernel/log.c:69-83 | with only log_write's pins held, as many blocks are in use as are logged, so commit finds a buffer exactly while fewer than NBUF are logged |
| SwapRuns.SwappingIsTransparent | kernel/vm.c:245-304 | after any run of growing, touching, faulting and ticks, every page holds what it would hold in a memory that never swaps, and is in exactly one of the two tables with the PTE flags that go with it |
| SwapRuns.InExactlyOnePlace | kernel/vm.c:509-538 | one page is in memory_pages with V set and PG clear, or in file_pages with PG set and V clear, never both |
| SwapSpec.PageOutInv | kernel/vm.c:509-517 | paging out keeps counters, tables, PTEs and frames consistent |
| SwapSpec.PageOutShows | kernel/fs.c:815-831 | paging out changes no page's contents |
| SwapSpec.PageInInv | kernel/vm.c:519-538 | paging in keeps counters, tables, PTEs and frames consistent |
| SwapSpec.PageInShows | kernel/fs.c:833-854 | paging in changes no page's contents |
| SwapSpec.SlotInReach | kernel/fs.c:804-831 | page-out never starts past the end of the swap file, because the lowest free slot is used first |
| SwapSpec.SearchHitsLive | kernel/fs.c:833-854 | the state-blind search finds the live entry of every page that is in the file |
| SwapSpec.FreeIffNotFull | kernel/vm.c:497-506 | a table whose counter is below its size has a free entry |
| SwapPolicy.NumOfOnes | kernel/vm.c:646-654 | the number of one bits of the count |
| SwapPolicy.NfuaAlgorithm | kernel/vm.c:680-695 | the used page with the least count, the lowest index on ties, or -1 exactly if every used count is 0xFFFFFFFF |
| SwapPolicy.LapaAlgorithm | kernel/vm.c:698-714 | the used page least by number of ones, then count, then index; never -1 while a page is used |
| SwapPolicy.OnesOfHistory | kernel/vm.c:646-654 | the ones of a history read as a number are the samples at which the page had been accessed |
| SwapPolicy.HistoryOrder | kernel/vm.c:680-695 | of two histories of one length the smaller number is the one whose page was idle at the latest sample at which they differ |
| SwapPolicy.TicksAreWindow | kernel/vm.c:540-553 | the start value 0xFFFFFFFF stands for 32 samples with an access, 0 for 32 without: a count is always the last 32 samples |
| SwapVictims.LapaEvictsLeastAccessed | kernel/vm.c:698-714 | over every run of LAPA, no page in memory was accessed at fewer of its last 32 samples than the page that leaves, and if one at as many, it was accessed at the latest sample at which they differ; a page that is new counts as accessed at the samples it has not had, one brought back as not |
| SwapVictims.NfuaEvictsLongestIdle | kernel/vm.c:680-695 | over every run of NFUA, at the latest sample at which the page that leaves and any other page in memory differ, the other was accessed; the lower index leaves if they never differ |
| SwapVictims.EvictedIsVictim | kernel/vm.c:245-258 | whatever page goes from memory to the file is the one that the policy in force chose |
| SwapPolicy.AgingHistory | kernel/vm.c:630-642 | after n ticks a count is, up to 32, the start value shifted by n below the sampled accessed bits in order, and from 32 on the last 32 samples |
| SwapHistory.CountIsHistory | kernel/vm.c:630-642 | over every run, while a page stays in its entry its count is the one it came with, ticked by the accessed bits sampled since |
| SwapHistory.CountFromEntry | kernel/vm.c:630-642 | over every run a page's count is read off the samples since it came in: its start count shifted below them, and from the 32nd on the last 32 of them |
| SwapHistory.BitIsTouched | kernel/vm.c:630-642 | over every run the accessed bit that a tick samples is set exactly if the page has been touched since the last sample, or had it set when it came and no sample was taken |
| SwapHistory.BitSinceEntry | kernel/vm.c:509-538 | over every run a page comes in as not accessed: its bit tells exactly whether it has been touched since it came or since the last sample |
| SwapHistory.PermIsLost | kernel/vm.c:519-527 | over every run a page has the permissions that exec gave it until it is first brought in, and all of them from then on |
| SwapPolicy.AlwaysAccessedSaturates | kernel/vm.c:630-642 | 32 ticks with the accessed bit set give 0xFFFFFFFF whatever the start |
| SwapPolicy.AgesKeepInv | kernel/vm.c:630-642 | a tick keeps the swapping invariant |
| SecondChance.ScfifoIsSecondChance | kernel/vm.c:657-677 | from a state whose page orders are a queue SCFIFO evicts the first unaccessed page of it, or the oldest if all were accessed; skipped pages lose their bit and keep their order at the back |
| QueueRuns.EvictionsAreSecondChance | kernel/vm.c:657-677 | over every run of SCFIFO from distinct page orders, as exec enters them, and as long as the counter has given out at most 2^32 numbers, every state has a queue of the pages in memory: a page that grows or faults in joins it at the end; if it has to evict, accessed pages at the head go to the end, the page then at the head leaves and the new one takes its entry at the end; nothing else moves the queue |
| QueueRuns.OneQueue | kernel/vm.c:657-677 | a state has one such queue |
| QueueRuns.JoinsAtBackIff | kernel/vm.c:540-553 | an entry that takes the next number joins the queue at its end, exactly until the counter wraps; into an empty queue, always |
| QueueRuns.RequeuesLastIff | kernel/vm.c:671-675 | a page given its second chance goes to the end of the queue, exactly until the counter wraps; alone, always |
| QueueRuns.QueueExists | kernel/vm.c:657-677 | distinct page orders below the counter list the used entries oldest first |
| QueueRuns.AddMetaNumbered | kernel/vm.c:540-553 | entering a page, as exec does from a cleared table, keeps the orders distinct and below the counter |
| QueueRuns.WrapMakesYoungestOldest | kernel/vm.c:540-553 | the page that takes number 0 is the one SCFIFO looks at first, exactly if no used entry after its own has number 0 |
| SecondChance.RequeueRotates | kernel/vm.c:657-677 | one second chance moves the head of the queue to its end and keeps the order of the rest |
| SecondChance.ScfifoTurn | kernel/vm.c:657-677 | one turn of the loop: an unaccessed oldest page is chosen; an accessed one is requeued and the choice stays the same |
| SwapProgress.GrowPossibleIff | kernel/vm.c:263-304 | a process below MAX_TOTAL_PAGES can grow by a page, under NFUA exactly if there is room or some page is not about to saturate |
| SwapProgress.FaultPossibleIff | kernel/vm.c:555-588 | a touched page in the file can be brought back, under NFUA exactly under the same condition |
| SwapProgress.NfuaGetsStuck | kernel/vm.c:680-695 | from any state with a full table a run of touches and ticks reaches one in which NFUA finds no page |
| SwapProgress.PageInCountIsZero | kernel/vm.c:519-538 | a page brought back has access count 0, which is not the count LAPA starts a page with |
| SwapProgress.RunCounts | kernel/vm.c:630-642 | over every run counts stay below 2^32 and those of the file entries stay 0 |
| Process.Proc.GetFreeFileIndex | kernel/fs.c:804-811 | the lowest unused slot, or -1 exactly if all are used |
| Process.Proc.GetFreeMemoryPageIndex | kernel/vm.c:497-506 | the lowest unused entry, or -1 exactly if all are used |
| Process.Proc.WritePageToFile | kernel/fs.c:815-831 | the page goes to the lowest free slot; no effect if there is none or it lies past the end of the file |
| Process.Proc.UpdatePageOutPte | kernel/vm.c:509-517 | PG set, V and the frame cleared, for that page only |
| Process.Proc.BringIn | kernel/vm.c:519-538 | the page's contents and PTE in its new frame, and its slot released |
| Process.Proc.AddToMemoryPageMetadata | kernel/vm.c:540-553 | the lowest unused entry names the new page with the next order |
| Process.Proc.UpdateAccessCounter | kernel/vm.c:630-642 | every used count is ticked with its page's accessed bit, which is cleared |
| Process.Proc.ScfifoAlgorithm | kernel/vm.c:657-677 | the loop terminates and computes the second-chance choice and its effect |
| Process.Proc.GetSwapOutPageIndex | kernel/vm.c:721-739 | the entry chosen by the policy in force |
| Process.Proc.Swap | kernel/vm.c:245-258 | the chosen page is in the file, the new page has its entry, contents unchanged |
| Process.Proc.GrowOne | kernel/vm.c:263-304 | one page of growth is one growth step of the run model |
| Process.Proc.Uvmalloc | kernel/vm.c:263-304 | growth from oldsz to newsz is a path of single-page growth steps, stopped only by the policy or by MAX_TOTAL_PAGES |
| Process.Proc.GetPageFromFile | kernel/vm.c:555-588 | a touched page comes back by exactly the fault step of the run model, and the next call finds what it needs; no page comes back exactly if NFUA finds none to evict |
| FsSpec.TakeInv | kernel/fs.c:63-83 | allocating keeps: a bit is set iff the block is metadata or owned by one position of one inode |
| FsSpec.GiveBackInv | kernel/fs.c:87-99 | a block taken off its inode has its bit set, so "freeing free block" is out of reach, and afterwards belongs to nobody |
| FsFiles.MapDirect | kernel/fs.c:363-389 | a free block at a direct position keeps ownership and every file's contents |
| FsFiles.MapEntry | kernel/fs.c:363-389 | the same for an entry of the indirect block |
| FsFiles.TruncationReturnsItsBlocks | kernel/fs.c:394-420 | a bit is cleared by itrunc exactly if the block belonged to that inode |
| FsFiles.TruncationKeepsOthers | kernel/fs.c:394-420 | every other inode's contents and pointers are unchanged by itrunc |
| FileSystem.FileSys.Balloc | kernel/fs.c:63-83 | the lowest free block, marked and zeroed, or the panic exactly if all are used |
| FileSystem.FileSys.Bfree | kernel/fs.c:87-99 | the bit is cleared; panics exactly if it was clear |
| FileSystem.FileSys.Bmap | kernel/fs.c:363-389 | the address of block bn, allocated if missing with all files' contents kept; every block that it changes is logged; the panics are out of range and no free block |
| FileSystem.FileSys.Readi | kernel/fs.c:438-458 | exactly the stored slice, clipped at the end; nothing is allocated or changed |
| FileSystem.FileSys.Writei | kernel/fs.c:468-497 | exactly bytes off..off+n are replaced, other inodes unchanged, disk inode updated; every block that it changes is logged, and the inode's block; -1 without effect on a bad range |
| FileSystem.FileSys.Itrunc | kernel/fs.c:394-420 | the inode is empty, exactly its blocks are free, no bfree panics, and what is logged is exactly the bitmap blocks of those blocks and the inode's block, with every block that has changed among them |
| FsTruncate.TruncateBound | kernel/fs.c:394-420 | itrunc logs at most one block for each bitmap block of the data area, and the inode's |
| FsTruncate.TruncateFitsIff | kernel/fs.c:394-420 | truncating any file without holes on a disk logs at most MAXOPBLOCKS blocks, if and only if the bits of its data area lie in fewer than MAXOPBLOCKS bitmap blocks |
| FileSystem.FileSys.FileWrite | kernel/file.c:155-175 | data in place at off, or the chunks that fit, also if off and length add up to more than 32 bits; it is a sequence of transactions, each of which logs every block it changes and the inode's, and at most MAXOPBLOCKS distinct blocks, on a disk of any size |
| FileSystem.FileSys.IBlock | kernel/fs.h:42-45 | the block of an inode on disk: inodes lie one after the other from inodestart on, and none across two blocks |
| FileSystem.ChunkFits | kernel/file.c:155-175 | a write of three blocks' length at or before the end of a file without holes logs at most MAXOPBLOCKS distinct blocks, bitmap blocks of its allocations, indirect block and inode included |
| PageTableSpec.AddTableInv | kernel/vm.c:81-97 | hanging in a new table keeps the tree: no page in two places, none lost |
| PageTableSpec.AddTableLookups | kernel/vm.c:81-97 | a new table changes no translation |
| PageTableSpec.SetLeafInv | kernel/vm.c:137-154 | storing one PTE changes the map at that page and nowhere else |
| PageTableSpec.Sv39IsLookup | kernel/vm.c:81-97 | the flat map that the other rows speak of is what the MMU computes by the Sv39 scheme: nine address bits on each level, twelve of offset |
| PageTable.PageTables.Walk | kernel/vm.c:81-97 | all translations kept; null exactly if tables are missing and may not or cannot be added; panic exactly above MAXVA |
| PageTable.PageTables.Mappages | kernel/vm.c:137-154 | on success the MMU takes each byte of va..va+size to its place in the frames from pa on, with the permissions passed; in any case exactly the requested pages have new PTEs, or a prefix of them with the reason: remap, MAXVA or no memory; with the last page before the first, as for size 0 at a page boundary, it never succeeds |
| PageTable.PageTables.Uvmunmap | kernel/vm.c:180-209 | exactly its range is cleared; gets through iff every page is mapped or paged out and not a table pointer; the frames passed to kfree are those of the invalid PTEs |
| PageTable.FreedAreInvalid | kernel/vm.c:193-198 | a frame is passed to kfree exactly if an invalid PTE of the range names it, and none is exactly if no invalid PTE has a frame number |
| Unmapping.UnmapFreesNothing | kernel/vm.c:193-198 | in every state of every run of a swapping process, uvmunmap of any range passes no frame to kfree, while each page in memory there has one |
| PageTable.PageTables.Freewalk | kernel/vm.c:327-341 | gets through iff no leaf is left; then exactly the pages of the tree go to the free list, each once |
| PageTable.PageTables.Uvmfree | kernel/vm.c:346-350 | after it no table page is in use and each is on the free list once more than before; gets through iff the pages below sz are the only valid ones |
| PageTableFree.TreePages | kernel/vm.c:327-341 | a well-formed tree reaches every table page exactly once |
| PageTableFree.ReadyToFree | kernel/vm.c:324-341 | a well-formed tree meets freewalk's needs, and has a leaf left iff some page is valid |
| SchedulingInv.StepKeepsBasic | kernel/proc.c:450-518 | every step of every CPU keeps: lock owners, one CPU per process, state follows from the thread's place, one maker per child |
| SchedulingInv.FreeMeansRunning | kernel/proc.c:493-508 | a thread that runs while its process lock is free is RUNNING |
| SchedulingInv.RunnableIsOff | kernel/proc.c:450-483 | a RUNNABLE process with a free lock is on no CPU |
| SleepWakeup.NoLostWakeup | kernel/proc.c:542-585 | after any run of n processes on m CPUs: with the inner spinlock free nobody sleeps on a free sleep lock, and with wait_lock free nobody sleeps in wait with a ZOMBIE child |
| SleepWakeup.RunningOnOneCpu | kernel/proc.c:450-483 | after any run a RUNNING process is on exactly one CPU, and a process on a CPU with a free lock is RUNNING |
| SleepWakeup.SchedNeverPanics | kernel/proc.c:493-508 | after any run a thread about to switch holds exactly its process lock and is not RUNNING, and no zombie runs again |
| SleepLocks.OneSleepLockHolder | kernel/sleeplock.c:22-41 | after any run in which sleep locks are released by their holders, a sleep lock has at most one holder, and is marked locked exactly if it has one |
| Families.ParentsLive | kernel/proc.c:336-392 | after any run a process has no parent or one that is in use, is not a ZOMBIE and is not past reparenting: nobody is orphaned |
| Families.WaitSleepsIff | kernel/proc.c:397-440 | after any run, at the end of its scan wait returns exactly if the caller has no child or is killed, and otherwise goes to sleep, with no ZOMBIE among its children |
| Families.ForkMakesChild | kernel/proc.c:270-332 | after any run, what fork makes RUNNABLE is an entry in use whose parent is the caller |
| Families.ReachableFamilies | kernel/proc.c:270-440 | the invariant behind these holds after every run: what wait has seen of its children, what exit has given away, whose child fork is making |
| Families.KillWakes | kernel/proc.c:590-608 | kill marks the process and makes it RUNNABLE exactly if it sleeps; nobody else changes |
| Undisturbed.AcquireOpen | kernel/sleeplock.c:22-31 | on a CPU that nobody gets in the way of, acquiresleep of an open lock takes it and changes nothing else |
| Undisturbed.AcquireClosed | kernel/sleeplock.c:22-31 | of a closed lock: the caller sleeps on it with all locks but its own given up, and nothing else changes |
| Undisturbed.Sleeps | kernel/proc.c:542-568 | sleep gives up exactly the caller's lock and the CPU, and sets state and channel |
| Undisturbed.WakesAll | kernel/proc.c:573-585 | wakeup makes exactly the other processes that sleep on the channel RUNNABLE |
| Undisturbed.ReleaseWakes | kernel/sleeplock.c:33-41 | releasesleep opens the lock and wakes exactly its sleepers |
| Undisturbed.WaitReapsFirst | kernel/proc.c:397-440 | wait frees the first ZOMBIE child and changes nothing else |
| Undisturbed.WaitWithoutZombie | kernel/proc.c:397-440 | without one it returns with nothing changed if the caller has no child or is killed, and otherwise goes to sleep |
| Undisturbed.ExitLeavesZombie | kernel/proc.c:351-392 | exit gives the children to init, wakes init if there are any and the parent, and leaves a ZOMBIE; nothing else changes |
| Undisturbed.ForkMakesRunnable | kernel/proc.c:270-332 | fork makes an UNUSED entry a RUNNABLE child and changes nothing else |
| Undisturbed.PreemptYields | kernel/proc.c:511-518 | a preempted thread is RUNNABLE and gives up the CPU |
| Undisturbed.BackToScan | kernel/proc.c:450-483 | the scheduler gets the lock of a thread that gave up the CPU, frees it and scans on |
| Undisturbed.RunsOn | kernel/proc.c:450-568 | a RUNNABLE process that the scan comes to runs on where it gave up the CPU |
| Undisturbed.LooksAgain | kernel/sleeplock.c:22-31 | a woken sleeper tests its lock again, or scans for children from the start, under the lock it slept on |
| Undisturbed.IdleCpuFindsWork | kernel/proc.c:450-483 | with all process locks free an idle CPU runs a RUNNABLE process, if there is one, within one round of the table |
| SleepWakeup.ReachableInv | kernel/proc.c:397-440 | the invariant behind these holds after every run from boot |
| SleepWakeup.PassedIsAwake | kernel/proc.c:573-585 | a wakeup that passes a process leaves it awake on that channel, even one that is between releasing lk and switching |
| SleepWakeup.KeepsSleepOk | kernel/sleeplock.c:22-41 | every step keeps: whoever sleeps on a free sleep lock is about to be woken by the holder of its spinlock |
| SleepWakeup.KeepsWaitOk | kernel/proc.c:374-390 | every step keeps: whoever sleeps in wait with a ZOMBIE child is about to be woken, though exit wakes its parent before it becomes one |
| VirtioSpec.PushItems | kernel/virtio_disk.c:259-265 | adding to a ring that is not full appends one entry, across 16-bit wrap |
| VirtioSpec.PopItems | kernel/virtio_disk.c:299-312 | taking from a ring that is not empty removes the oldest entry, across 16-bit wrap |
| VirtioSpec.RingsNeverFull | kernel/virtio_disk.c:190-201 | at most two requests are in flight, so neither ring is ever full |
| VirtioSpec.CompleteMoves | kernel/virtio_disk.c:225-248 | following the descriptors and their flags the device finds exactly the request: its sector, its buffer, its own status byte |
| VirtioSpec.HandleInv | kernel/virtio_disk.c:299-312 | the handler always finds a buffer and a good status, and keeps the invariant |
| VirtioSpec.FinishInv | kernel/virtio_disk.c:269-280 | when b's wait is over its request is finished and nowhere else; freeing its chain keeps the invariant |
| VirtioRuns.ProtocolHolds | kernel/virtio_disk.c:204-315 | no run of enabled steps panics, and after each, in any completion order: free descriptors plus three per request are NUM, chains are disjoint, no ring is overrun, the handler cannot panic, and a status byte says 0 exactly from the request's completion on |
| VirtioRuns.CallCompletes | kernel/virtio_disk.c:204-280 | between start and return the device carries out the request exactly once, at some step; a read returns what the sector held there, and a write leaves exactly that sector with the caller's data |
| VirtioRuns.StepInv | kernel/virtio_disk.c:204-315 | no step of driver or device panics and each keeps the invariant |
| VirtioDisk.Driver.AllocDesc | kernel/virtio_disk.c:145-154 | the lowest free descriptor, marked, or -1 exactly if none is free |
| VirtioDisk.Driver.FreeDesc | kernel/virtio_disk.c:158-170 | blank and free; panics exactly on a bad or free index |
| VirtioDisk.Driver.FreeChain | kernel/virtio_disk.c:174-185 | frees exactly the three descriptors of the chain, without panic |
| VirtioDisk.Driver.Alloc3Desc | kernel/virtio_disk.c:190-201 | three different free descriptors, or nothing changed exactly if fewer are free |
| VirtioDisk.Driver.RwStart | kernel/virtio_disk.c:204-263 | the start step of the protocol at the sector where the block starts, exactly for block numbers below 2^31, or nothing changed exactly if fewer than three descriptors are free |
| VirtioDisk.Driver.RwFinish | kernel/virtio_disk.c:265-280 | the finish step of the protocol, without panic |
| VirtioDisk.Driver.Intr | kernel/virtio_disk.c:283-315 | handles every entry of the used ring: no panic, exactly their buffers are no longer busy |
| Pipe.FullAndEmpty | kernel/pipe.c:77-130 | the comparisons of the wrapping counters mean full and empty |
| Pipe.Fifo | kernel/pipe.c:77-130 | for any interleaving of writes and reads, held and accepted bytes come out in order and the rest is held, at most PIPESIZE |
| Pipe.ConsumedIsPrefix | kernel/pipe.c:77-130 | from an empty pipe the bytes consumed are a prefix of the bytes accepted |
| Pipe.PipeObject.Pipewrite | kernel/pipe.c:77-103 | appends what fits, by a run of single writes; sleeps only when full, refuses exactly if no reader is left or the caller is killed |
| Pipe.PipeObject.Piperead | kernel/pipe.c:106-130 | removes the oldest bytes, up to n, by a run of single reads; sleeps or refuses exactly on an empty pipe with a writer |
| HeapSpec.LinkInv | user/umalloc.c:25-44 | linking a live block in at its place keeps ring, order and the partition of the heap |
| HeapSpec.MergeInv | user/umalloc.c:33-42 | merging two adjacent nodes keeps them and leaves one adjacency fewer |
| HeapAlloc.TakeAllInv | user/umalloc.c:76-77 | handing out a whole block keeps the invariant |
| HeapAlloc.TakeTailInv | user/umalloc.c:78-82 | handing out the tail of a block keeps the invariant |
| HeapAlloc.GrowInv | user/umalloc.c:47-61 | memory from sbrk as a live block keeps the invariant |
| Umalloc.FreedInv | user/umalloc.c:25-44 | freeing gives back exactly the block: sorted, circular, fully coalesced, every unit free or live and not both |
| Umalloc.SbrkArgFits | user/umalloc.c:54 | the size passed to sbrk survives the int parameter, and the break moves by it, exactly below 2^27 units |
| Umalloc.GrowKeepsInvIff | user/umalloc.c:47-61 | the heap that morecore leaves, with the break where sbrk puts it, is well formed exactly if the block has fewer than 2^27 units |
| Umalloc.LargestRequest | user/umalloc.c:64-90 | malloc(0xFFFFFFFF) asks for 2^28 + 1 units and moves the break by one |
| Umalloc.Allocator.FindPlace | user/umalloc.c:30-32 | the search of free terminates at the node after which the block belongs |
| Umalloc.Allocator.Free | user/umalloc.c:25-44 | the block is no longer live, all other live blocks are as before, and the free list is well formed |
| Umalloc.Allocator.Morecore | user/umalloc.c:47-61 | null exactly if sbrk refuses; otherwise max(nu, 4096) units in one piece are free at the old break, with memory behind them exactly if they are fewer than 2^27 |
| Umalloc.Allocator.Malloc | user/umalloc.c:64-90 | for every size: terminates; null exactly if nothing fits and sbrk refuses; otherwise one new live block, apart from all others, with room for the bytes asked for and less than a header's length more, and growth only if nothing fitted; all blocks have memory behind them exactly unless it grew by 2^27 units or more |
| Umalloc.PayloadIsApart | user/umalloc.c:64-90 | a byte of a live block's payload is in no header, in no free block and in no other live block, and lies in the heap |
| ShellSpec.LineBack | user/sh.c:345-446 | the tokens of any printed tree parse back to that tree and are all used up |
| ShellSpec.ExecBack | user/sh.c:375-446 | the same for a command with redirections still to come |
| ShellLex.LexShow | user/sh.c:266-308 | printed tokens, cut up again, are the same tokens |
| ShellLayout.LexIsLayout | user/sh.c:266-308 | the lexer gives the tokens ts exactly if the line is white space, then ts with white space between any two that would run into each other |
| ShellLex.TextPLine | user/sh.c:345-446 | the parser does not depend on where words lie, only on what they are |
| ShellGrammar.ParserDecides | user/sh.c:345-446 | tokens parse to a tree with nothing left over if and only if the grammar derives that tree from them; so no line has two readings |
| ShellGrammar.ParseIsGrammar | user/sh.c:328-342 | parsecmd returns the tree that the grammar gives to the line, and panics exactly on a line that it does not derive |
| ShellLex.RoundTrip | user/sh.c:328-446 | printing any tree with at most nine arguments per command and parsing the text gives the same tree |
| ShellWords.WordsReadBack | user/sh.c:450-493 | after nulterminate every word of the tree reads as its own token; no end mark falls on a character of another |
| ShellWords.LineGood | user/sh.c:266-308 | every word of a parsed tree is a maximal run of word characters of the line |
| ShellWords.NulTerminate | user/sh.c:450-493 | writes a NUL at the end of exactly the words of the tree |
| Shell.Parser.GetToken | user/sh.c:266-308 | takes exactly the next token off the line, with its position |
| Shell.Parser.Peek | user/sh.c:311-320 | skips white space only, and tells whether the next token is one of toks |
| Shell.Parser.ParseRedirs | user/sh.c:375-397 | the redirections at the cursor, or the panic exactly if a file is missing |
| Shell.Parser.ParseExec | user/sh.c:416-446 | agrees with the grammar: tree, rest of the tokens, panics for syntax and too many arguments |
| Shell.Parser.ParseBlock | user/sh.c:400-413 | agrees with the grammar |
| Shell.Parser.ParsePipe | user/sh.c:362-372 | agrees with the grammar |
| Shell.Parser.ParseLine | user/sh.c:345-359 | agrees with the grammar |
| Shell.Parser.ParseCmd | user/sh.c:328-342 | always terminates with the tree of the whole line, or a panic exactly if it is no command |
| Shell.ParseCommand | user/sh.c:328-342 | the tree, with every word terminated in the buffer and reading as what the line says |
| Grep.MatchHere | user/grep.c:83-94 | true iff a prefix of the text, or all of it under a final $, is in the pattern's language |
| Grep.MatchStar | user/grep.c:97-104 | true iff some number of c and then the pattern match |
| Grep.Match | user/grep.c:71-80 | true iff some part of the text, from its start under ^, is in the pattern's language |
| Grep.SimplePatterns | user/grep.c:71-104 | a pattern of ordinary characters and dots matches exactly the texts that have it somewhere, at the start after ^, at the end before $, alone between both |
| Grep.StarPatterns | user/grep.c:97-104 | between ^ and $ a starred character matches exactly the texts of that character alone, a starred dot every text |
| Grep.GrepFile | user/grep.c:11-34 | for every input and every cutting of it into reads, the output is the matching lines up to the first that is too long or holds a NUL |
| Grep.PrintLines | user/grep.c:20-28 | the matching lines in the buffer, leaving an unfinished line for the next read |
| Grep.OutputIsMatchingLines | user/grep.c:11-34 | for every text the output is the matching ones among the lines before the first that has a NUL in it or does not fit into the buffer |
| Grep.AllPrintedIff | user/grep.c:11-34 | every matching line is printed if and only if none comes at or after that line |
| Grep.NulHidesTheRest | user/grep.c:19-28 | of a text whose first line holds a NUL nothing is printed |

## Left out

- PageTable.PageTables.Uvmunmap: conservation of frames is not promised, because kernel/vm.c:194 tests the valid bit the wrong way round (PageTable.FreedAreInvalid); the process's page metadata is not part of this class.
- Process.Proc.Uvmalloc: kalloc always finds a frame; the clean-up after a failure and shrinking are not modelled, because unmapping leaves file entries behind (kernel/vm.c:203-206).
- SwapRuns.SwappingIsTransparent: contents only; permissions are not preserved (SwapHistory.PermIsLost), and frames left behind by kernel/vm.c:580-585 are not counted.
- Log.LogManager.Commit: one thread from start to end; other users of the cache between its steps, and crashes, are modelled in CacheRuns.
- Log.LogManager.EndOp: the same.
- CacheTheorems.NoSteal: the panic of bget for want of a buffer ends a run, and sleeping for a buffer's lock is a step that is not enabled.
- FileSystem.FileSys.Writei: either_copyin succeeds for the whole range.
- Umalloc.Allocator.Malloc: what happens after a call that leaves blocks without memory behind them is not modelled, nor is memory that the program itself takes with sbrk.
- Pipe.PipeObject.Pipewrite: copies of single bytes succeed; `killed` is sampled once per stretch under the lock.
- Shell.Parser.ParseExec: argument and redirection lists are put together at the end instead of through a pointer into the tree.
- SleepWakeup.NoLostWakeup: the clients are sleep locks and wait; wakeups from interrupt handlers and the pipe's and log's own channels are not modelled.
- exec and fork of a process with pages in the file: page-out during exec uses the old page table (kernel/vm.c:249) and the copy of the swap file can run past its end (kernel/fs.c:788-799).
- Directories, path names, link counts and the inode cache: iget, iput, dirlookup, dirlink and namex.
- kalloc and kfree beyond the free list of table pages; the kernel page table; copyin and copyout.
- Boot, traps, interrupt controllers, the console and the UART, printf and string helpers.
- runcmd and the rest of the shell; the other user programs.
