# Verified model of xv6 with paging

This project models the core of xv6 (x86), extended with per-process paging to a swap file, five
page-replacement policies and copy-on-write fork, and proves properties of that model in Dafny.
`dafny verify dfyconfig.toml` checks all of it.

Code that changes state in place is modelled by classes and methods that keep the source's loops,
branches and error cases. Each method is proved against functions over plain values, and what the
system is for is then proved about those functions: over every input, every interleaving or every
run. A kernel panic is a result value of the method that raises it. Where a property fails for the
code as it is, the failing case is given and the property is proved under its exact condition.

| file | models |
|---|---|
| Log.dfy | redo log: commit, installation, recovery, crashes between any two block writes |
| GroupCommit.dfy | begin_op, log_write, end_op and commit by many processes; crash atomicity of whole operations |
| Bio.dfy, BufferClients.dfy | buffer cache as a ring of buffers; runs of its users against a plain array of blocks |
| Paging.dfy | growth and paged-out faults of one process, swap file and free-offset list |
| Kalloc.dfy, Cow.dfy | frames with reference counts; copy-on-write fork, write faults, teardown |
| CowRace.dfy | the same on several processors, with faults, releases and forks split into their steps |
| Scfifo.dfy, Aging.dfy, Aq.dfy | the replacement policies SCFIFO, NFUA and LAPA, AQ |
| DiskFormat.dfy, Ownership.dfy, FileData.dfy, Space.dfy, Fs.dfy | bitmap, block map, file contents, free space, inode operations |
| OpenFile.dfy, SwapFile.dfy, TightBudget.dfy | open files and log budget; the swap file as pages; a write that uses the whole budget |
| SleepWakeup.dfy, SleepLock.dfy | sleep and wakeup for any conditions under one lock; sleep locks |
| Pipe.dfy, PipeProtocol.dfy, PipeCalls.dfy | the pipe ring with wrapping counters; readers, writers and closers; whole calls |
| Umalloc.dfy | the allocator of user programs (section 8.7 of The C Programming Language, 2nd edition) |
| Common.dfy, PageData.dfy, Sets.dfy | constants and types that several parts share; page contents; sizes of finite sets |
| Grep.dfy | the matcher of grep (chapter 9 of The Practice of Programming) |

Results that differ from what a reader might expect of the code:

- The size test in log_write uses the size of the log area minus one. With the area that mkfs makes
  it refuses an operation that still has reserved blocks; it never does so exactly when the area has
  more than LOGSIZE blocks (`GroupCommit.RefusalExactlyWhenLogSmall`). Even then it refuses a write
  exactly when the log is full, although the write would only have been absorbed
  (`GroupCommit.RefusedExactlyWhenFull`).
- The tests of log_write come before its lock. Two operations can pass them together and fill the log
  area to its last block, whose copy then falls outside the area; this is impossible exactly when the
  area has one block or more than LOGSIZE (`GroupCommit.AreaExactlyWhenLarge`). Whole operations are
  atomic under crashes for every group that fits the area (`GroupCommit.OperationsAtomic`).
- pipewrite returns without its wakeup when a killed writer finds the pipe full. A sleeping reader
  then stays asleep on a full pipe (`PipeProtocol.KilledWriterStrands`). The return is harmless exactly
  when no wakeup is due or no reader waits (`PipeProtocol.FailingReturn`).
- Reference counts are read without the lock and decremented later. Two write faults can both take a
  frame for shared, and it is then lost (`CowRace.OverlapLoses`). Isolation holds for every
  interleaving (`CowRace.Isolated`); no frame is lost exactly when every refDec finds a count above 1
  (`CowRace.ConservedExactly`), and so whenever faults and releases of one frame do not overlap
  (`CowRace.NoOverlapNoLoss`).
- lapa counts ties from zero. It misses the smallest counter exactly when page 0 ties with one other
  page and loses (`Aging.Lapa`).

## Model

| member | source | states |
|---|---|---|
| `RedoLog.HeaderRoundTrip` | log.c:86-112 | what write_head puts into the header block is what read_head takes out, for every transaction that fits |
| `RedoLog.InstallKeepsLog` | log.c:69-82 | installing home blocks never changes the log area |
| `RedoLog.InstallTwice` | log.c:69-82 | installation is idempotent: installing again after a partial installation gives the same disk |
| `RedoLog.CrashedRecovery` | log.c:115-122 | recovery stopped after any number of its block writes can be run again and ends with the same home data |
| `RedoLog.RecoverySurvivesCrashes` | log.c:115-122 | the same for any number of crashes and restarts of recovery |
| `RedoLog.RecoverCommitted` | log.c:115-122 | a disk whose header names a logged transaction recovers to all of the new home data |
| `RedoLog.CommitIsRecovery` | log.c:194-204 | past its first write_head, a stopped commit leaves exactly the image of a stopped recovery |
| `RedoLog.CommitImageRecovers` | log.c:178-204 | a commit stopped after k block writes recovers to the old home data for k up to the first write_head, to the new ones after it |
| `RedoLog.CrashAtomicity` | log.c:68-122 | crash atomicity: for every transaction of distinct home blocks, every stopping point in commit and any sequence of crashed recoveries, home blocks end all old or all new, and all new exactly when the first write_head reached the disk |
| `RedoLog.CommitTraceAt` | log.c:194-204 | the disk images that the commit code passes through are those over which crash atomicity is stated |
| `RedoLog.RecoveryTraceAt` | log.c:115-122 | the same for the recovery code |
| `RedoLog.LogDevice.Boot` | log.c:53-66 | the log of a machine started on a given image |
| `RedoLog.LogDevice.WriteHead` | log.c:101-113 | the header block on disk names exactly the pending blocks |
| `RedoLog.LogDevice.ReadHead` | log.c:85-96 | lh is what the header block says |
| `RedoLog.LogDevice.WriteLog` | log.c:179-192 | block by block the log area receives the cached contents; every intermediate image is recorded |
| `RedoLog.LogDevice.InstallTrans` | log.c:69-82 | block by block home locations receive the log; every intermediate image is recorded |
| `RedoLog.LogDevice.Commit` | log.c:194-204 | afterwards the home data are the updated ones, cache and disk agree, the log is empty, and the images passed are those of the commit trace |
| `RedoLog.LogDevice.RecoverFromLog` | log.c:115-122 | the disk becomes the recovered image through the recovery trace |
| `RedoLog.LogDevice.LogWrite` | log.c:215-235 | both panics exactly when the tests say so; otherwise the block is recorded once (absorption) and reads as the new data |
| `GroupCommit.StepExclusion` | log.c:125-176 | every step keeps: outstanding counts the running operations and a commit excludes them all |
| `GroupCommit.StepReserved` | log.c:125-144 | every disciplined step keeps log blocks plus unspent reservations within LOGSIZE |
| `GroupCommit.StepWhole` | log.c:147-176 | every step keeps: no operation is split over two groups, and a committed group holds only ended operations |
| `GroupCommit.GroupCommitSafe` | log.c:124-176 | in every interleaving the log.committing and outside-of-transaction panics are unreachable and every committed group holds whole operations |
| `GroupCommit.WritesConserved` | log.c:125-204 | in every run the committed groups in order, followed by the pending writes, are exactly the log_write calls that got through, in order, each with its operation and block: none is lost, none invented |
| `GroupCommit.LastEndCommits` | log.c:147-176 | when the last running operation ends, no step but the commit by its process changes anything; that one commits all pending writes as one group with its header, and then the log is empty and open |
| `GroupCommit.ReservationHolds` | log.c:125-144 | in every interleaving in which no operation logs more than MAXOPBLOCKS new blocks, lh.n plus unspent reservations never exceeds LOGSIZE |
| `GroupCommit.RefusalExactlyWhenLogSmall` | log.c:206-235 | log_write can refuse an operation that still has reserved blocks if and only if the log area has at most LOGSIZE blocks, as the one mkfs makes has |
| `GroupCommit.RefusedExactlyWhenFull` | log.c:215-235 | with a log area of more than LOGSIZE blocks, in every disciplined run a log_write that keeps to the rule is refused if and only if the log holds LOGSIZE blocks; then its block is already one of them and every running operation has used its whole reservation |
| `GroupCommit.AbsorbedWriteRefused` | log.c:220-232 | such a refusal does happen, for every such log size |
| `GroupCommit.AreaExactlyWhenLarge` | log.c:220-234 | since the tests of log_write precede its lock, the pending blocks stay below the size of the log area in every disciplined run if and only if the area has one block or more than LOGSIZE |
| `GroupCommit.Overrun` | log.c:220-234 | a run in which two operations pass the tests together and the log holds as many blocks as its area, for every size from 2 to LOGSIZE |
| `GroupCommit.GroupsAreTransactions` | log.c:178-204 | every header committed by a disciplined run over home blocks is a transaction for which crash atomicity is proved if and only if it fits the log area; in an area of more than LOGSIZE blocks it always does |
| `GroupCommit.OperationsAtomic` | log.c:68-204 | whole operations are atomic: for every interleaving, every committed group that fits the log area, every stopping point of its commit and any crashed recoveries, either all writes of all its operations are on the disk or none, and no operation has writes in two groups |
| `Bio.Unlink` | bio.c:132-133 | taking a buffer out leaves a two-way ring of the others |
| `Bio.PushFront` | bio.c:134-137 | putting it in at the front leaves a two-way ring with it first |
| `Bio.HitCounted` | bio.c:69-76 | a hit adds one claim and one reference |
| `Bio.RecycleCounted` | bio.c:79-92 | recycling takes a buffer that nobody has a claim on |
| `Bio.RecycleCoherent` | bio.c:79-92 | recycling a clean unused buffer loses no contents and keeps one buffer per block |
| `Bio.WriteCoherent` | log.c:215-235 | logging or writing a buffer makes its contents the contents of the block |
| `Bio.RecencyFront` | bio.c:121-139 | moving a released buffer to the front keeps the list in order of release |
| `Bio.Bcache.constructor` | bio.c:38-56 | all buffers on the ring, none assigned |
| `Bio.Bcache.Bget` | bio.c:61-93 | hit exactly if the block is cached; else the least recently released buffer that is unused and clean is recycled; panic exactly if there is none |
| `Bio.Bcache.Lookup` | bio.c:68-77 | finds the buffer of a block exactly if there is one |
| `Bio.Bcache.Victim` | bio.c:79-91 | finds the least recently released buffer among those unused and clean |
| `Bio.Bcache.FinishBread` | bio.c:96-106 | the locked buffer shows what was last logged or written to the block |
| `Bio.Bcache.Modify` | bio.c:96-118 | a holder may change the data of its buffer; nobody else is affected |
| `Bio.Bcache.LogWrite` | log.c:215-235 | the block now reads as the buffer, and the buffer is pinned by B_DIRTY |
| `Bio.Bcache.Bwrite` | bio.c:109-116 | the disk has the buffer's contents and the buffer is clean; panic exactly if the lock is not held |
| `Bio.Bcache.Unlock` | bio.c:123-126 | the lock is free, the claim stays; panic exactly if the lock is not held |
| `Bio.Bcache.Drop` | bio.c:128-140 | one claim less; the last one moves the buffer to the front |
| `Bio.Bcache.MoveToFront` | bio.c:130-138 | the relinking moves one buffer to the front and keeps all others in order |
| `BufferClients.TiedStep` | bio.c:96-118 | a step on a locked buffer is a step on that block alone of a plain array of blocks |
| `BufferClients.TiedAsk` | bio.c:61-93 | a new claim, with or without recycling, is invisible to all other users |
| `BufferClients.TiedDrop` | bio.c:128-140 | claim and buffer pointer go together, whoever holds the lock by then |
| `BufferClients.FlatMeaning` | bio.c:61-141 | the plain array of blocks, from the events alone: who owns, waits for and leaves a block, and that its contents are the data of the last edit before the last log_write or bwrite, or what the disk held |
| `BufferClients.FlatAnswers` | bio.c:96-106 | bread returns exactly to a process that waits for a block nobody has locked, with the data last logged or written |
| `BufferClients.Clients.AskFor` | bio.c:61-93 | bget refines asking for a block; it fails only when every buffer is in use or dirty |
| `BufferClients.Clients.FinishRead` | bio.c:96-106 | bread returns the contents last logged or written to the block |
| `BufferClients.Clients.StoreBlock` | log.c:215-235 | log_write and bwrite make the draft the contents of the block |
| `BufferClients.Clients.UnlockBlock` | bio.c:123-126 | the first half of brelse gives up the lock of the block and nothing else |
| `BufferClients.Clients.DropBlock` | bio.c:128-140 | the second half, with any steps of others in between, gives up the request and nothing else |
| `BufferClients.Clients.Run` | bio.c:38-141 | cache transparency: over every interleaving of bread, modify, log_write, bwrite and the two lock sections of brelse the results are those of a plain array of blocks: each bread shows the owner's last edit before the last log_write or bwrite, or the disk; it stops only when bget finds every buffer in use or dirty |
| `Paging.FindsFirst` | vm.c:628-639 | the search for a swapped page finds the first slot that names it |
| `Paging.SlotsExchange` | vm.c:731-844 | exchanging a RAM page with a swapped one keeps every page in exactly one table, with PTE_P and PTE_PG to match |
| `Paging.OffsetsTake` | vm.c:351-422 | the head of the free list is at most the file size, and taking it keeps free and used offsets a partition |
| `Paging.OffsetsRecycle` | vm.c:731-844 | giving back the offset of a swap slot and taking the head for the evicted page keeps the partition and the order of first uses |
| `Paging.ExchangeView` | vm.c:351-422 | an exchange through the swap file changes what the process sees at the new page only |
| `Paging.FaultGood` | vm.c:731-844 | a paged-out fault keeps all invariants, makes the page present and is invisible to the process |
| `Paging.OverflowGood` | vm.c:351-422 | growth past RAM keeps all invariants and adds one zero page |
| `Paging.AddedGood` | vm.c:307-326 | one page of growth, with or without eviction, adds a zero page |
| `Paging.Process.constructor` | proc.c:142-158 | a new process owns all 16 offsets in increasing order |
| `Paging.Process.GetSwappedPageIndex` | vm.c:628-639 | the index found is the first slot that names the page |
| `Paging.Process.WriteToSwapFile` | fs.c:793-801 | accepted exactly up to the end of the file and within the size limit; a refused write leaves the whole chunks of the page that fit |
| `Paging.Process.SwapOut` | vm.c:351-422 | the evicted page is in the file at the offset its slot records, and its frame is free |
| `Paging.Process.AllocuvmNoswap` | vm.c:328-348 | the page takes the first free RAM slot |
| `Paging.Process.AllocuvmWithswap` | vm.c:351-422 | the page takes the victim's RAM slot; page limit exactly when the swap table is full |
| `Paging.Process.AllocuvmPage` | vm.c:261-326 | one round of the growth loop, with its error cases |
| `Paging.Process.Allocuvm` | vm.c:261-304 | afterwards page v is mapped exactly if v * PGSIZE is below the new size, old pages are as before and new ones zero; the page limit is hit only beyond twice MAX_PSYC_PAGES pages of bytes |
| `Paging.Process.HandlePagedout` | vm.c:731-844 | the faulting page is exchanged with the victim through the head offset |
| `Paging.Process.Pagefault` | vm.c:641-675 | a fault on a swapped page brings it in and leaves memory as the process sees it unchanged |
| `Paging.Process.Growproc` | proc.c:215-233 | the size grows by n and the pages are exactly those that start below it, the new ones zero; too large a size leaves everything alone |
| `Paging.PagesBelow` | vm.c:277-279 | the pages of a process are those that start below its size |
| `Paging.FlatMeaning` | vm.c:261-304 | the flat memory is an array of bytes: its size is what growth gave it, it has exactly the pages that start below that size, each of PGSIZE bytes, and each address holds the last byte stored there or zero |
| `Paging.ShownMeaning` | vm.c:261-304 | from the operations alone: growth is refused exactly at KERNBASE, an access exactly outside the pages that start below the size, and a load shows the last byte stored |
| `Paging.Process.Run` | vm.c:261-422 | transparent paging: over every run of growth, loads and stores, for every choice of victims and frames, every answer is the one the operations before call for: a load shows the last byte stored at its address, an access outside the memory is refused; the pages are those that start below the size |
| `Kalloc.AddressIndexInverse` | kalloc.c:64-140 | page addresses and run indices are inverse to each other |
| `Kalloc.ChainUnique` | kalloc.c:123-140 | the free list is determined by the memory: acyclic and without duplicates |
| `Kalloc.PushSound` | kalloc.c:79-117 | putting a frame on the list keeps: the list holds exactly the managed frames with count 0 |
| `Kalloc.PopSound` | kalloc.c:123-140 | so does taking one off |
| `Kalloc.FramesConserved` | kalloc.c:176-184 | free frames plus live frames are all managed frames |
| `Kalloc.Kmem.Freerange` | kalloc.c:49-56 | exactly the whole pages of the range become managed and free |
| `Kalloc.ChainCycle` | kalloc.c:95-117 | putting a frame on the free list that is already on it leaves no finite list at all |
| `Kalloc.Kmem.KfreeNocheck` | kalloc.c:95-117 | the frame is on the list with count 0, and the list is well formed exactly if it was not on it before; bad addresses are refused |
| `Kalloc.Kmem.KallocPage` | kalloc.c:122-140 | a free frame with count 1, or NULL exactly when none is free |
| `Kalloc.Kmem.Kfree` | kalloc.c:63-93 | frees a frame with count 1; panics exactly for a bad address or another count |
| `Kalloc.Kmem.RefInc` | kalloc.c:154-165 | one reference more; the accounting holds afterwards exactly if the frame was live |
| `Kalloc.Kmem.RefDec` | kalloc.c:142-152 | one reference less; the accounting holds afterwards exactly if another reference is left |
| `Kalloc.Kmem.Release` | vm.c:495-502 | free if held once, else decrement, with nothing in between: exactly one reference goes |
| `Kalloc.Kmem.GetNumOfFreePages` | kalloc.c:176-184 | counts the free list |
| `Cow.SoleMapper` | vm.c:677-729 | a frame with count 1 is mapped by one entry only |
| `Cow.CountsDetermined` | vm.c:576-626 | the counts are determined by which entry maps which frame |
| `Cow.Share` | vm.c:586-613 | sharing an entry adds one reference and shows the child the parent's page |
| `Cow.Copy` | vm.c:704-714 | a write fault on a shared frame gives a private copy and changes no contents |
| `Cow.Unshare` | vm.c:715-720 | a write fault on a frame held once makes it writable in place |
| `Cow.StoreIsolated` | vm.c:677-729 | a store through a writable entry is seen at that page of that process only |
| `Cow.ForkUndone` | vm.c:621-626 | taking a half-made child apart leaves the parent's memory |
| `Cow.FlatMeaning` | vm.c:576-729 | address spaces that share nothing, from the operations alone: each place holds the last byte stored there in its space; a forked page starts as the parent's was at the fork, a new one as zero, and exit takes all away |
| `Cow.Machine.AllocPage` | vm.c:261-304 | a new zero page on a frame of its own |
| `Cow.Machine.FreePage` | vm.c:467-531 | one page goes and its frame loses one reference |
| `Cow.Machine.Freevm` | vm.c:535-557 | all pages of one address space go, every other stays |
| `Cow.Machine.Cowuvm` | vm.c:576-626 | the child is a copy of the parent; if mappages fails midway memory and every reference count are as before |
| `Cow.Machine.HandleCowPagefault` | vm.c:677-729 | a write to a copy-on-write page becomes possible without changing any contents; anything else kills the process |
| `Cow.Machine.StoreByte` | vm.c:641-729 | a store, with the fault it may cause, lands: that byte of that page of that address space has the value and nothing else has changed |
| `Cow.Machine.Run` | vm.c:576-729 | copy-on-write isolation: over any tree of forks and any interleaving of whole loads, stores, faults and exits every load shows the last byte stored at that place of its own space, or what the place held at the fork |
| `CowRace.StepInv` | vm.c:677-729 | every step of a write fault, a release or the sharing of a page keeps: a count is the number of entries and steps under way that hold the frame, and a writable frame has one holder; kfree never finds a shared page |
| `CowRace.StepView` | vm.c:677-729 | every such step changes only the memory of the process it belongs to, and most change none |
| `CowRace.Isolated` | vm.c:576-729 | copy-on-write isolation for every interleaving of the steps between lock operations, with counts read without the lock |
| `CowRace.LastStored` | vm.c:576-729 | over every interleaving each place holds the last byte stored there, zero in a new page, and in a shared page what the parent's held when it was shared |
| `CowRace.SoleFault` | vm.c:716-721 | a write fault of the only holder, run to its end, makes the entry writable in place |
| `CowRace.SharedFault` | vm.c:704-714 | any other write fault ends with the entry on a writable copy, one reference less on the old frame, and memory as it was |
| `CowRace.ReleaseRuns` | vm.c:495-502 | a release run to its end takes the page away and its frame loses one holder, or is free if that was the last |
| `CowRace.FramesAccounted` | kalloc.c:122-174 | in every such state each frame is free, live or lost |
| `CowRace.StepLost` | vm.c:702-713 | a step loses a frame exactly when it is a refDec that finds count 1; a lost frame stays lost |
| `CowRace.ConservedExactly` | vm.c:495-502 | over every run no frame is lost if and only if every refDec finds a count above 1 |
| `CowRace.NoOverlapNoLoss` | vm.c:495-502 | and that is so whenever no two processes give up the same frame at the same time |
| `CowRace.OverlapLoses` | vm.c:702-713 | a run of two overlapping write faults after a fork, in which both drop the shared frame and it ends with count 0 on no list |
| `Scfifo.Clock.Scfifo` | vm.c:1171-1218 | returns the first unaccessed page in circular order from the hand, or the hand's own, switches off the bits of exactly the pages passed, and the hand stays at most n with n acting as 0 |
| `Scfifo.StopHere` | vm.c:1179-1195 | the page at which the scan stops is the victim of the specification |
| `Scfifo.AllPassed` | vm.c:1176-1214 | if all pages were accessed the second turn takes the hand's own page |
| `Scfifo.OneLifeLess` | vm.c:1171-1218 | each eviction of another page brings a page closer to its own |
| `Scfifo.SecondChance` | vm.c:1171-1217 | a page accessed or touched since the last eviction is not the next one evicted while some page was not |
| `Scfifo.EvictedInTime` | vm.c:1171-1218 | a page not touched again is evicted within as many calls as its distance and second chance allow |
| `Scfifo.WithinTwoTurns` | vm.c:1171-1218 | over any run a page never touched again is evicted within twice as many calls as there are pages |
| `Scfifo.Clock.Run` | vm.c:1171-1218 | runs of the code are the runs of the specification |
| `Aging.CounterIsWindow` | vm.c:1011-1060 | after any tick sequence a counter is the 32-bit window of the page's history, newest bit highest, after an all-ones start |
| `Aging.NumericIsLexicographic` | vm.c:1150-1169 | comparing counters is comparing histories from the newest tick on |
| `Aging.OnesAreAccesses` | vm.c:1220-1228 | the set bits of a counter are the accesses in its window |
| `Aging.CountSetBits` | vm.c:1220-1228 | the loop counts the ones of the binary representation |
| `Aging.Nfua` | vm.c:1150-1169 | the first page with the smallest counter |
| `Aging.Lapa` | vm.c:1110-1148 | always a page with fewest set bits, and the one with the smallest counter among those if and only if page 0 does not lose a tie with exactly one other page |
| `Aging.LoneTieExists` | vm.c:1118-1133 | a concrete tie in which the smaller counter is not chosen, for any number of pages |
| `Aging.EveryCounterArises` | vm.c:1036-1060 | every 32-bit counter value is reached by some history |
| `Aging.AgingPages.Load` | vm.c:425-434 | a page just loaded has an empty history and no page counts as used more recently or more often |
| `Aging.AgingPages.Update` | vm.c:1011-1060 | a tick records for every used page whether it was accessed and clears the bit; unused pages are left alone |
| `Aging.AgingPages.EvictNfua` | vm.c:1150-1169 | no page was used less recently than the evicted one, by the last 32 ticks |
| `Aging.AgingPages.EvictLapa` | vm.c:1110-1148 | no page has fewer accesses in its window and, outside the lone tie, none of those with as few was used less recently |
| `Aq.ExchangedLinked` | vm.c:1287-1324 | the links after the exchange of two neighbours form a well-formed list |
| `Aq.Queue.InsertHead` | vm.c:436-456 | the new slot is at the head and the rest follows in order |
| `Aq.Queue.EvictTail` | vm.c:1082-1108 | the tail leaves and its slot is returned; panic exactly on an empty queue |
| `Aq.Queue.Relink` | vm.c:1287-1324 | the pointer assignments produce the links of the exchange, at head, tail or in the middle |
| `Aq.Queue.SwapAQ` | vm.c:1287-1324 | exactly the node and the one before it change places |
| `Aq.Pass` | vm.c:1250-1279 | the turns of one pass permute the queue and only clear accessed bits |
| `Aq.NoneAccessed` | vm.c:1231-1279 | with no page accessed a pass changes nothing |
| `Aq.TailAdvances` | vm.c:1231-1279 | with only the tail page accessed it moves ahead by one and its bit is cleared |
| `Aq.AllAccessed` | vm.c:1231-1279 | with every page accessed the order stays and every bit but the head's is cleared |
| `Aq.Queue.Advance` | vm.c:1250-1268 | one turn of the loop: the node moves ahead by one exactly if the page looked at was accessed and the one before was not, and the bit is cleared |
| `Aq.Queue.UpdateAQ` | vm.c:1231-1279 | terminates; the order and the accessed bits are those of the specified pass, which permutes the queue and only clears bits |
| `Aq.Queue.Run` | vm.c:425-459 | over every run of growth, eviction and ticks the queue is a well-formed doubly linked list that names each used RAM slot exactly once |
| `Aq.CopyRest` | proc.c:345-355 | the rest of the parent's queue is copied in order onto fresh nodes, whatever those pages held |
| `Aq.CopyAQ` | proc.c:328-361 | the child's queue is an equal sequence on nodes of its own |
| `DiskFormat.SetMarks` | fs.c:68-72 | setting a bit marks that block and no other |
| `DiskFormat.ClearMarks` | fs.c:88-93 | clearing a bit frees that block and no other |
| `DiskFormat.ClearUndoesSet` | fs.c:83-96 | freeing a block just allocated restores the bitmap |
| `DiskFormat.WordStored` | fs.c:389-396 | an address stored in an indirect block reads back and leaves the others alone |
| `Ownership.HeldOnce` | fs.c:374-402 | no nonzero block address is held by two slots |
| `Ownership.GiveDirect` | fs.c:380-384 | allocating a direct block keeps: each address in one slot, its bit set, every address readable |
| `Ownership.GiveIndirect` | fs.c:388-390 | so does allocating the indirect block |
| `Ownership.GiveWord` | fs.c:391-396 | so does allocating a block named in the indirect block |
| `Ownership.TakeInverse` | fs.c:416-433 | taking a block from its slot keeps owners and slots inverse |
| `FileData.ExtendHoleFree` | fs.c:374-402 | writing at or before the end of a hole-free file keeps it hole-free |
| `FileData.WriteStep` | fs.c:501-507 | one block of a write changes exactly those bytes of the file |
| `FileData.OthersKeep` | fs.c:501-507 | and no byte of another file |
| `FileData.ReadBack` | fs.c:793-808 | what was written is read back and bytes outside are unchanged |
| `FileData.ChunkBudget` | fs.c:483-513 | a write of at most three blocks' worth of bytes up to the end of a hole-free file logs at most ten distinct blocks, nine if aligned |
| `FileData.CutStep` | fs.c:416-433 | truncation frees only blocks still marked: no double free |
| `FileData.CutOwner` | fs.c:409-437 | after truncation exactly that inode's blocks have no owner |
| `Fs.FirstMarked` | mkfs.c:237-252 | the first blocks, and only those, are marked |
| `Fs.FileSystem.constructor` | mkfs.c:87-110 | an empty disk satisfies every invariant and all files are empty |
| `Fs.FileSystem.Balloc` | fs.c:58-80 | sets exactly the first clear bit and zeroes that block; panic exactly if every bit is set |
| `Fs.FileSystem.Bfree` | fs.c:83-97 | clears exactly that bit; panic exactly if it was clear |
| `Fs.FileSystem.BmapDirect` | fs.c:380-384 | a direct block has an address, new ones are zeroed and owned |
| `Fs.FileSystem.BmapIndirect` | fs.c:388-390 | the inode has an indirect block |
| `Fs.FileSystem.BmapWord` | fs.c:391-398 | a block named in the indirect block has an address |
| `Fs.FileSystem.Bmap` | fs.c:374-402 | maps block bn, touching nothing else; allocates only if it was missing; panics exactly out of range or out of blocks |
| `Fs.FileSystem.WriteBlock` | fs.c:501-507 | one turn of the copy loop |
| `Space.EnoughBlocks` | fs.c:58-80 | a write that got through had a free block for every slot it filled |
| `Space.TooFewBlocks` | fs.c:58-80 | a write stopped by balloc had fewer free blocks than slots to fill |
| `Space.MissingCount` | fs.c:374-402 | the slots to fill are as many as the blocks, with the indirect one, by which the file grows |
| `Space.BlocksConserved` | fs.c:58-97 | free blocks and the blocks that the file sizes call for are together all the data blocks of the disk |
| `Fs.Capacity` | fs.c:58-97 | in every consistent state the number of free blocks is a function of the file sizes |
| `Fs.FlatMeaning` | fs.c:454-513 | files as byte sequences, from the operations alone: sizes follow from writes and truncations, and each byte is the last one written there |
| `Fs.AnswerMeaning` | fs.c:454-513 | and so does what every operation returns |
| `Fs.FileSystem.Writei` | fs.c:483-513 | refines an update of one byte sequence for every offset and length: refusals change nothing, otherwise the bytes are written over, other files untouched, files hole-free, the inode on disk equal to the one in memory, and the logged blocks are exactly those listed; it panics exactly when the file grows by more blocks than are free, and then ownership and bitmap still agree |
| `Fs.FileSystem.Readi` | fs.c:454-478 | returns the bytes of the file up to its end and changes nothing, so bmap never allocates for a read |
| `Fs.FileSystem.FreeDirect` | fs.c:416-421 | the direct blocks are freed, none twice |
| `Fs.FileSystem.FreeIndirect` | fs.c:423-433 | the blocks listed in the indirect block and that block are freed, none twice |
| `Fs.FileSystem.Itrunc` | fs.c:409-437 | frees exactly the inode's blocks and empties its file; every other file and bit is unchanged |
| `Fs.FileSystem.Run` | fs.c:374-513 | over every run of writei, readi and itrunc every result is the one the operations before call for, each byte read being the last one written there, and it panics if and only if the files would at some point need more blocks than the disk has |
| `OpenFile.ChunkRefused` | file.c:134-151 | a chunk is refused exactly where the largest file size would be passed |
| `OpenFile.OperationBudget` | file.c:127-151 | what one chunk of filewrite logs fits the reservation of MAXOPBLOCKS blocks |
| `TightBudget.TightWrite` | file.c:127-151 | ten blocks are reached: on any consistent disk with four free blocks in four bitmap blocks, extending a file from just inside its last direct block by a full chunk succeeds and logs exactly MAXOPBLOCKS blocks |
| `TightBudget.TightDisk` | file.c:127-151 | there is such a consistent disk |
| `OpenFile.File.Fileread` | file.c:96-113 | the bytes at the offset, which advances by their number |
| `OpenFile.File.WriteChunk` | file.c:139-144 | one chunk in one operation, within the budget |
| `OpenFile.File.Filewrite` | file.c:117-155 | all bytes, or whole chunks up to the size limit, are written at the offset, each chunk within the budget; returns n exactly if all were written, as they always are within the largest file size |
| `OpenFile.File.WriteToSwapFile` | fs.c:793-801 | the buffer is written over the file at that place: all of it, or whole chunks up to the size limit; nothing past the end of the file |
| `OpenFile.File.ReadFromSwapFile` | fs.c:804-808 | the bytes at that place up to the end of the file; -1 past the end |
| `SwapFile.LandingContents` | fs.c:793-801 | bytes written at a page's place change that page of the file and no other |
| `SwapFile.WritePage` | fs.c:793-801 | through the open file, the swap file as a sequence of pages: the page is in its place, or the part of it that fits |
| `SwapFile.ReadPage` | fs.c:804-808 | the page written there is read back |
| `SleepWakeup.StepInv` | proc.c:577-634 | every step of sleep, wakeup or kill keeps: a process past its test is covered by a false condition or by a wakeup still to come |
| `SleepWakeup.NeverLost` | proc.c:577-634 | no lost wakeup: in every interleaving, when the lock is free nobody sleeps on a channel whose condition is true |
| `SleepWakeup.WakeupWakes` | proc.c:617-634 | wakeup run to its end wakes exactly the processes asleep on its channel |
| `SleepWakeup.SleepSleeps` | proc.c:577-602 | sleep run to its end leaves the process asleep and both locks free |
| `SleepWakeup.WokenReturns` | proc.c:604-611 | a woken process gets the lock back as soon as it is free |
| `SleepWakeup.KillWakes` | proc.c:639-657 | kill wakes a sleeper whatever it waits for |
| `SleepLock.StepOwned` | sleeplock.c:22-42 | every step keeps the lock word naming the process in its critical section |
| `SleepLock.MutualExclusion` | sleeplock.c:22-53 | in every interleaving at most one process is in its critical section, holdingsleep is true for exactly that one, and an unlocked lock strands no waiter |
| `SleepLock.AcquireSleep` | sleeplock.c:22-31 | in every reachable state acquiresleep on a free lock ends with the process holding it |
| `SleepLock.ClearFrees` | sleeplock.c:34-41 | clearing the lock word inside the spin lock leaves it free and the process done |
| `SleepLock.ReleaseSleep` | sleeplock.c:34-41 | in every reachable state releasesleep ends with the lock free and everybody who slept on it awake |
| `PipeRing.Tests` | pipe.c:84-118 | the full and empty tests are right for counters that have wrapped around |
| `PipeRing.PutFifo` | pipe.c:93 | storing a byte keeps the ring equal to the bytes accepted and not delivered |
| `PipeRing.GetFifo` | pipe.c:114-118 | the byte read is the oldest one not delivered |
| `PipeRing.PipeBuffer.WriteUntilFull` | pipe.c:83-94 | a prefix of the bytes is accepted in order; it sleeps or fails only on a full pipe |
| `PipeRing.PipeBuffer.ReadAvailable` | pipe.c:106-121 | delivers the oldest bytes in order, as many as asked for and present; sleeps exactly on an empty open pipe |
| `PipeProtocol.StepQueued` | pipe.c:78-121 | every step keeps the bytes in order |
| `PipeProtocol.StepCovered` | pipe.c:59-121 | a step leaves every sleeper covered if and only if it is not a failing return that skips the wakeup of a waiting reader |
| `PipeProtocol.FailExact` | pipe.c:85-89 | a return of -1 keeps the invariant of sleep and wakeup if and only if it skips no wakeup or no reader waits |
| `PipeProtocol.FailingReturn` | pipe.c:85-89 | the same in every reachable state, with the exact condition under which a reader is stranded at once; only a killed writer can skip a wakeup |
| `PipeProtocol.PipeSafe` | pipe.c:59-121 | in every interleaving of readers, writers, closers and kills the bytes delivered are a prefix of those accepted and the 32-bit counters differ by the bytes in between; nobody sleeps in vain unless a killed writer has returned without the wakeup of a waiting reader |
| `PipeProtocol.ReturnsComplete` | pipe.c:78-121 | in every run a write that returns has put all the bytes it was called with into the pipe, in order; a read that returns hands over what was delivered to it, stops short only on an empty pipe, and returns nothing only at the end or when asked for nothing |
| `PipeCalls.WriteCall` | pipe.c:78-98 | in every reachable state a write that finds room returns with exactly its bytes added, sleeping readers awake and nothing else changed |
| `PipeCalls.ReadCall` | pipe.c:100-121 | in every reachable state a read of a pipe with bytes, or of a closed one, returns with the oldest bytes, as many as asked for and there are, and sleeping writers awake |
| `PipeCalls.CloseCall` | pipe.c:59-75 | closing an end that nobody uses closes it and wakes everybody asleep at the other |
| `PipeProtocol.KilledWriterStrands` | pipe.c:85-89 | a run in which a killed writer returns without its wakeup and leaves a reader asleep on a full pipe |
| `Umalloc.PutOrdered` | umalloc.c:24-44 | freeing keeps the list in address order, disjoint and fully coalesced |
| `Umalloc.PutUnits` | umalloc.c:24-44 | the list then holds its old units and those of the freed block, no others |
| `Umalloc.PutLinked` | umalloc.c:33-43 | the pointer stores of free link the new list |
| `Umalloc.SearchStep` | umalloc.c:30-32 | the search of free stops exactly at the gap the block belongs in |
| `Umalloc.FreeSound` | umalloc.c:24-44 | free keeps the links, the live blocks and the partition of all units |
| `Umalloc.TakeWhole` | umalloc.c:76-77 | an exact fit leaves the list and becomes live |
| `Umalloc.TakeTail` | umalloc.c:78-82 | otherwise the tail of the block becomes live |
| `Umalloc.MoreSound` | umalloc.c:46-61 | new space above everything owned is disjoint from all blocks |
| `Umalloc.Heap.FindPlace` | umalloc.c:30-32 | the search terminates at the block below the freed one |
| `Umalloc.Heap.Free` | umalloc.c:24-44 | the block joins the list, merged with the neighbours it meets; the list stays circular, ordered and coalesced |
| `Umalloc.Heap.Morecore` | umalloc.c:46-61 | at least 4096 more units, merged into the list, and then a block is large enough; NULL exactly if sbrk fails |
| `Umalloc.Heap.TakeBlock` | umalloc.c:75-85 | hands out nunits units that were free |
| `Umalloc.Heap.Scan` | umalloc.c:74-89 | one turn round the list finds the first block that is large enough, and one exactly if there is one |
| `Umalloc.Heap.Malloc` | umalloc.c:63-90 | if some block on the list is large enough, the first such from freep gives up its last units and sbrk is not asked; else sbrk is asked exactly once and NULL is returned exactly if it fails; a block returned is disjoint from every free and live one |
| `Grep.HereStar` | grep.c:98-106 | a starred item matches some run of accepted characters followed by the rest |
| `Grep.HereSingle` | grep.c:94-95 | a single item matches one accepted character followed by the rest |
| `Grep.ParseProper` | grep.c:84-97 | the items show as the pattern; every star follows the character it stars, and the anchor is an unstarred $ at the end and nothing else |
| `Grep.ProperUnique` | grep.c:84-97 | no other items do |
| `Grep.PlainSearch` | grep.c:72-82 | a pattern without special characters matches exactly the texts that contain it |
| `Grep.DotMatches` | grep.c:94-95 | a dot matches exactly the texts with a character |
| `Grep.MatchHere` | grep.c:84-97 | true exactly when some prefix of the text is in the language of the pattern |
| `Grep.MatchStar` | grep.c:98-106 | true exactly when a run of the starred character and then the rest match |
| `Grep.Match` | grep.c:72-82 | true exactly when some substring, or a prefix for a pattern that starts with ^, is in the language of the pattern |

## Left out

- Slot bookkeeping of deallocuvm: it zeroes local copies of the page records, so the paging invariants cover growth and faults only.
- Copy-on-write together with swapping: eviction keeps PTE_COW and pagefault then routes such a page away from handle_pagedout, so the two are separate machines.
- fork's copying of page slots and swap file, and exec: they mark every slot used or build pages in a page directory that is not current.
- SELECTION NONE: RAM slots are then not bounded by the table.
- RedoLog.LogDevice.ReadHead: a header block that names more than LOGSIZE blocks is not modelled; the source copies it past the end of its array, and no write_head produces one.
- RedoLog.LogDevice.LogWrite: one caller at a time; the interleaving of log_write's tests with its lock is in GroupCommit.
- Paging.Process.HandlePagedout: the source goes on with a null frame when kalloc fails; the model stops there.
- Paging.Process.AllocuvmPage: page-table frames are not modelled, so mappages does not fail.
- Paging.Process.Allocuvm: the removal of pages already added when memory runs out goes through deallocuvm and is not modelled; the contract then only says that no frame is left.
- Paging.Process.Growproc: negative n shrinks through deallocuvm and is not modelled.
- Paging.Process.IndexToEvict: the policy is left open there, so that the paging theorem holds for all of them; the policies are separate modules.
- Kalloc.Kmem.RefInc: counts do not wrap around upwards; a machine cannot have 2^32 mappings of one frame.
- Kalloc.Kmem.Kfree: the filling of a freed page with junk is not modelled.
- Kalloc.Kmem.Release: the count is read and used without a step of another process in between; CowRace splits the two.
- Cow.Machine.AllocPage: page-table frames are not modelled, so mappages does not fail.
- Cow.Machine.Freevm: the frames of the page tables themselves are not modelled.
- Cow.Machine.Cowuvm: page-table frames, the failure of setupkvm and swapped-out entries are not modelled; the failure of mappages is a parameter.
- Cow.Machine.HandleCowPagefault: the source copies to a null frame when kalloc fails; the model stops there. The fault is one step; CowRace splits it.
- Cow.Machine.Run: processes interleave between whole operations; CowRace splits write faults, releases and the sharing of a page into the steps between lock operations, for pages of one address space at a time.
- CowRace.StepInv: a copy step that finds no free frame is not enabled, and processors are assumed to see page-table entries in the order they are written.
- Guard pages, kernel-mode copy-on-write faults, TLB flushes, segments and the bit packing of page-table entries.
- Bio.Bcache.Bget: one device, blocks on the disk, and no process asks twice for a block it holds (it would wait for itself).
- PipeProtocol.PipeSafe: the end of a pipe is closed only when no process is inside a call on it, as file reference counts ensure; freeing the pipe when both ends are closed is not modelled.
- GroupCommit.GroupCommitSafe: the wait loops of begin_op are steps that are not enabled; fairness is not modelled.
- GroupCommit.OperationsAtomic: what the operations write into their blocks is the cached contents at the commit; that the cache holds them is stated in Bio and Log, not joined with the interleaving.
- Fs.FileSystem.constructor: the root directory and the files that mkfs puts on the disk are not modelled.
- Fs.FileSystem.Writei: device inodes are not modelled, and bitmap, inode and data blocks are separate fields instead of regions of one disk, so the packing of inodes into blocks is not modelled; operations on one file system run one at a time.
- Fs.FileSystem.Readi: device inodes are not modelled.
- Inode cache, directories and path names, link counts.
- Umalloc.Heap.Malloc: sizes do not overflow, and sbrk grants space above everything granted before.
- Aging.AgingPages.EvictNfua: eviction is asked for when every RAM slot is used, as allocuvm and handle_pagedout do.
- Aq.Queue.EvictTail: the read through a null tail before the test is not modelled.
- Aq.Queue.UpdateAQ: the read through the null tail of an empty queue before the test is not modelled.
- Allocation of queue nodes, free-list nodes and pipes through kalloc.
- Device, boot and assembly code, system call plumbing, trap dispatch, the shell, printf and string helpers.
- grep's input loop and output.
