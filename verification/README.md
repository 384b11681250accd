# Verified models of xv6 and RedBase

This project models the state-changing cores of two systems and proves what they are for. From the xv6 kernel: the buffer
cache and write-ahead log, inodes and blocks, page tables and the frame pool, the user-level allocator, the pattern matcher
of grep, pipes and the stride scheduler. From the RedBase database: the paged file buffer pool and its files, record files,
and query execution with its join-order optimizer.

`dafny verify dfyconfig.toml` checks everything. Each component has its own files:

| files | models |
|---|---|
| `Options`, `Seqs`, `Blocks` | optional values; sequences without duplicates, recency lists; bytes, little-endian words and bits of a disk block |
| `Bio`, `LogDisk`, `Log` | `bio.c`, `memide.c` and `log.c`, one call at a time |
| `GroupCommit`, `GroupReserve`, `GroupRuns`, `GroupProgress`, `GroupRaces` | `log.c` and `bio.c` run by any number of processes |
| `Fs`, `FsSpace`, `FsFiles`, `GroupFiles` | the block and content layers of `fs.c`, `filewrite` of `file.c`, and what a crash leaves of files |
| `Vm`, `VmCount`, `VmMachine` | `vm.c` and `kalloc.c` |
| `Umalloc`, `UmallocRuns` | `umalloc.c`, after section 8.7 of "The C Programming Language", 2nd edition |
| `PfHash`, `PfPool`, `PfRuns`, `PfPins`, `PfCodes`, `PfBufferMgr`, `PfFile` | `pf_hashtable.cc`, `pf_buffermgr.cc`, `pf_filehandle.cc` |
| `Rm`, `RmFile`, `RmScan` | `rm_filehandle.cc`, the layout part of `rm_manager.cc` and `rm_filescan.cc` |
| `QlPlan`, `QlQuery`, `QlManager`, `QlNodes`, `QoManager`, `QlSelect` | `ql_manager.cc`, the query nodes and `qo_manager.cc` |
| `Grep`, `Pipe`, `Stride` | the matcher of `grep.c`, `pipe.c`, the scheduler of `proc.c` when nobody has tickets |

Where the source changes things in place there is a class with the source's fields, arrays and links, and its methods are
proved against functions on the values those structures stand for; the main results are then about those values. Panics,
error returns and out-of-memory paths are outcomes of the model, not preconditions; in the step machine of `GroupCommit`,
where a panic ends the run, they are states of which it is proved exactly when they can be reached. Failing disk and file
operations are parameters (`os`, `fault`, `grant`), so every result holds whatever fails.

## How the main results fit together

**The log.** `LogDisk` says what a disk with a log stands for: every home block's last logged contents if the header names
it, its own otherwise. Each single write of `commit` and of recovery preserves that or, for the first header write alone,
switches it (`CommitSwitches`, `RecoveryPreserves`), which gives `CrashAtomicity`. The classes `BufferCache` and `Log` are
proved to make exactly those writes, one by one (the disk history `trace`). `GroupCommit` then runs any number of processes,
the committing one and crashes in every interleaving. `log_write` is two steps there, since it tests for room before it takes
`log.lock`. The invariant yields unreachable panics, unsplit operations and durability for every run that writes neither past
the log area nor past `log.lh.block`, which `Contained` says, however much its operations log. `GroupRuns.SafeContained` gives
conditions on the parameters alone under which every run is one; xv6's meet the first of them. Log geometry, LOGSIZE,
MAXOPBLOCKS and NBUF are parameters. Processes follow one discipline of the source's own callers: a buffer is modified only
inside an operation while it is held, and logged after its last change. `GroupReserve` is about operations that log at most
MAXOPBLOCKS blocks, each as often as they like: what `begin_op` reserves for them they find. `GroupRuns` says exactly when
`bread` and `log_write` panic and builds runs in which they do; `GroupProgress` shows that a commit that fits the log area and
has a buffer to spare runs to its end, on the disk that the `commit` of class `Log` writes; `GroupRaces` says exactly when
two calls of `log_write` at a time overfill the log area, and when that loses a committed block; `GroupFiles` says that files
survive a crash as the last group left them.

**The buffer pool.** `PfPool` gives each operation on the pool as a value and proves that none of them changes the plain map
from (file, page) to bytes that the clients see; `PfCodes` says exactly when each succeeds; `PfRuns` does so for every run
with LRU stamps; `PfBufferMgr` proves the lists threaded through the descriptor array, the free list and the chained index
to be that pool. Clients write only pinned pages, call `MarkDirty` after their last write, and use non-negative keys, as
`PfFile` does, which is proved as such a client.

**Files and blocks.** `FsOk` says that a bitmap bit is set exactly for metadata, for blocks referenced once from an inode or
an indirect block, and for the blocks an operation has in hand; every operation keeps it, so `freeing free block` cannot be
reached, and `readi` and `writei` are the slice and the splice of a byte sequence. Every operation also says what it logs:
all that it changes, and how many blocks at least and at most. `FsSpace` counts what a write wants and what is free, which
decides exactly when the disk fills up.

**Address spaces.** `Holds` says that frames are, each in one way, free, in hand, or owned once by the address space, so
conservation is an equation between sets: what `freevm` frees is exactly what `copyuvm` took. `VmCount` counts them, which
decides exactly when there are enough.

**Queries.** `PlanExact` characterises the rows of a tree without mentioning trees: one per choice of a row of every
relation that meets every condition. Two trees for the same query therefore agree as bags. `PushedDown` says the same of
every subtree, with the conditions over its relations, so no test is made later than it can be. `Select` ties parsing,
optimizing, building and iterating together.

## What the proofs found

- `log_write` tests for room before it takes `log.lock`, and does not test again. Two operations within MAXOPBLOCKS that pass the
  test together can log one block more than the log area holds, with no panic, if and only if two operations fit LOGSIZE side
  by side and the area has from 2 to LOGSIZE blocks, as it has with xv6's constants (`GroupRaces.OverfullIff`, for at least two
  processes and as many buffers and home blocks as log blocks). With more buffers than log blocks the commit then writes over
  the home block behind the log area; with no more it panics in `bget` (`GroupRaces.OverfullHalts`). So in all runs of such
  operations every committed group survives every crash if and only if the race cannot happen or NBUF is at most `log.size`, as
  it is in xv6 (`GroupRaces.DurableIff`).
- `log_write` makes the same test for a block that is logged already. Operations that log at most MAXOPBLOCKS blocks each, some
  of them twice, can reach its panic if and only if two of them fit LOGSIZE side by side, or one takes all of it, or one can fill
  the log area (`GroupRuns.OverrunIff`, for at least two processes and as many buffers and home blocks as log blocks). An
  operation that has logged fewer gets it exactly when the area is full (`GroupReserve.RunReserved`).
- `filewrite` sizes its transactions by LOGSIZE, while `begin_op` reserves MAXOPBLOCKS for each. A full one writes 6656 bytes and
  logs at least 13 blocks, more than the 10 reserved (`FsFiles.FileSystem.Filewrite`, `FsFiles.ChunkTooBig`); up to 3072 bytes
  it would be sure to keep within them where the bitmap is one block (`FsFiles.SmallEnough`). The blocks of open operations
  together never exceed LOGSIZE (`GroupReserve.OpenOpsFit`), so three full ones on three files, which `begin_op` lets in
  together, cannot all be logged while all are open: the `log_write` that finds no place panics. Durability does not suffer,
  since with xv6's constants it holds whatever the operations log (`GroupRuns.SafeContained`).
- Processes that read hold buffers while others commit. In any state of any run a `bread` panics for want of a buffer if and
  only if its block is not cached and the pinned and the clean used buffers are NBUF (`GroupRuns.BreadHaltsIff`). So a commit of
  n blocks, during which the buffers that others hold stay as they are and are neither of the log area nor of a logged
  block, panics if and only if n and those buffers are together at least NBUF (`Log.Log.Commit`, `Log.NoRoom`). Transactions
  as small as one block get there (`GroupRuns.CommitPanicRun`); fewer logged blocks and references than NBUF never do
  (`GroupRuns.EnoughBuffers`).
- `malloc` hands `sbrk` a 32-bit byte count that is read as an `int`. For requests above 2^31 - 16 bytes it is not positive,
  `sbrk` reports success and gives nothing, and `malloc` takes units nobody gave; above 2^32 - 8 rounding up wraps around. The
  heap stays in order if and only if no request claims such units (`Umalloc.UnitsHold`, `UmallocRuns.RunHeapIff`), and a first
  request of any such size up to 2^32 - 8 bytes does claim them (`UmallocRuns.OverclaimRun`).
- When `mappages` fails inside `copyuvm` the page just filled is lost. That happens if and only if the number of free frames is
  66 + 1025 j for some j with 1024 j pages or fewer already copied, as long as nobody else takes or frees a frame during the
  copy; every other failure gives all frames back
  (`VmMachine.Machine.Copyuvm`, `VmMachine.StrandedAt`).
- The bit tests of record pages accept the slot just past the last one. That slot looks used if and only if the bitmap has no
  spare bit and the first record's first byte is odd, as 500-byte records allow; `DeleteRec` then spoils the page's count, and
  `GetRec` and `UpdateRec` reach past the page (`Rm.PhantomIff`, `Rm.PhantomNew`, `RmFile.FileHandle.DeleteRec`).
- `header_modified` is never set, so a reopened record file has forgotten its free pages; the list is in order again if and
  only if no page has room (`RmFile.FileHandle.Reopen`, `RmFile.ReopenLoses`).
- Once every runnable process has a stride of MAXSTRIDE or more, the stride scheduler never runs anybody again
  (`Stride.Stuck`), and with positive passes it always gets there (`Stride.GetsStuck`).
- The 65536th pin of a page makes it look unpinned (`PfPins.PinWraps`).
- A `select *` run with the optimizer gives its columns in the optimizer's order (`QlSelect.Select`).

## Model

| member | source | states |
|---|---|---|
| Bio.GetBufSafe | CS202_Operating System/xv6-public/bio.c:61-93 | for a device other than 0, bget keeps the cache in order: the buffer found is the only one for its block, a recycled one was unreferenced and clean and of all such ones the longest out of use, every other buffer and the ring are untouched |
| Bio.GetBufHaltsIff | CS202_Operating System/xv6-public/bio.c:78-92 | bget panics exactly when the block is not cached and every buffer is referenced or dirty |
| Bio.MoveToFrontOk | CS202_Operating System/xv6-public/bio.c:128-138 | moving a buffer to the front keeps the MRU ring holding every buffer once |
| Bio.DropRefSafe | CS202_Operating System/xv6-public/bio.c:120-141 | giving up a reference keeps the cache in order, and the last one makes the buffer most recently used |
| Bio.LockAndFillSafe | CS202_Operating System/xv6-public/bio.c:95-106 | bread of a referenced buffer never reaches an iderw panic and leaves it valid with the cached or the disk contents |
| Bio.ReadBufSafe | CS202_Operating System/xv6-public/bio.c:95-106 | bread as a whole: it halts exactly when bget does, and otherwise the buffer holds the block and nothing else changed |
| Bio.WriteBufSafe | CS202_Operating System/xv6-public/bio.c:108-116 | bwrite of a locked buffer writes exactly its block and leaves it clean and valid |
| Bio.ReleaseBufSafe | CS202_Operating System/xv6-public/bio.c:118-141 | brelse of a locked buffer keeps the cache in order and changes only that buffer's lock and reference count |
| Bio.LinkedRemove | CS202_Operating System/xv6-public/bio.c:132-133 | unhooking a buffer from prev and next leaves the ring without it, linked both ways |
| Bio.LinkedPush | CS202_Operating System/xv6-public/bio.c:134-137 | hooking a buffer in behind the head puts it first, linked both ways |
| Bio.BufferCache.constructor | CS202_Operating System/xv6-public/bio.c:38-56 | binit links all buffers, each keyed (0,0), invalid and unreferenced |
| Bio.BufferCache.FindCached | CS202_Operating System/xv6-public/bio.c:68-76 | the forward scan finds the first buffer of the ring with the key, if any |
| Bio.BufferCache.FindVictim | CS202_Operating System/xv6-public/bio.c:81-91 | the backward scan finds the least recently used buffer that is unreferenced and clean, if any |
| Bio.BufferCache.Bget | CS202_Operating System/xv6-public/bio.c:61-93 | bget on the buffers and links is GetBuf on the cache they stand for, whole new state included |
| Bio.BufferCache.Iderw | CS202_Operating System/xv6-public/memide.c:38-60 | one block is transferred, or one of the panics is reached and nothing changes; a write is one entry of the disk's history |
| Bio.BufferCache.Bread | CS202_Operating System/xv6-public/bio.c:95-106 | bread ends in the panic exactly when bget does, asleep with a reference on a buffer somebody has locked, or with the block's buffer as ReadBuf gives it; it writes nothing to the disk |
| Bio.BufferCache.Filled | CS202_Operating System/xv6-public/bio.c:99-105 | woken up, the caller has the buffer locked and filled as LockAndFill says |
| Bio.BufferCache.Bwrite | CS202_Operating System/xv6-public/bio.c:108-116 | bwrite is WriteBuf; the disk history grows by exactly the new disk |
| Bio.BufferCache.Touch | CS202_Operating System/xv6-public/bio.c:132-137 | relinking at the head is a move to the front of the ring |
| Bio.BufferCache.Brelse | CS202_Operating System/xv6-public/bio.c:118-141 | brelse is ReleaseBuf on the cache the links stand for |
| LogDisk.HeadRoundTrip | CS202_Operating System/xv6-public/log.c:84-113 | the header that write_head stores in a block reads back as the same block numbers |
| LogDisk.InstalledPreserves | CS202_Operating System/xv6-public/log.c:68-82 | after any number of installed blocks recovery would still yield the same contents for every block outside the log |
| LogDisk.RecoverInstalls | CS202_Operating System/xv6-public/log.c:115-122 | recovery empties the log and leaves each home block with its last logged contents, or its own |
| LogDisk.RecoveryPreserves | CS202_Operating System/xv6-public/log.c:115-122 | a recovery stopped after any prefix of its writes loses nothing: recovery from there yields the same home blocks |
| LogDisk.CommitSwitches | CS202_Operating System/xv6-public/log.c:192-202 | after any prefix of commit's disk writes the disk stands for the old contents before the first header write and for the new ones from it on |
| LogDisk.CommitTailIsRecovery | CS202_Operating System/xv6-public/log.c:192-202 | the writes of commit after the first header are those of a recovery from that disk |
| LogDisk.CrashThenRecover | CS202_Operating System/xv6-public/log.c:115-122 | any number of interrupted recoveries followed by a complete one gives the home blocks the disk stood for |
| LogDisk.CrashAtomicity | CS202_Operating System/xv6-public/log.c:68-122 | commit stopped anywhere, then crashes anywhere in any number of recoveries, then one recovery: all old or all new home blocks, new exactly when the first header write reached the disk |
| LogDisk.CommitTraceAt | CS202_Operating System/xv6-public/log.c:192-202 | the k-th disk of commit's history is the disk after k writes, so stopping between two writes is stopping at one of them |
| Log.NoRoom | CS202_Operating System/xv6-public/log.c:178-190 | reading a block of the log area panics exactly when the logged blocks and the buffers in use together are all the buffers |
| Log.SpareIff | CS202_Operating System/xv6-public/log.c:178-190 | between commits some buffer can be recycled exactly if the logged blocks and the buffers in use are fewer than the buffers |
| Log.Log.BeginOp | CS202_Operating System/xv6-public/log.c:124-141 | begin_op admits exactly when no commit runs and the reservation fits LOGSIZE |
| Log.Log.LogWrite | CS202_Operating System/xv6-public/log.c:213-233 | log_write absorbs or appends the block and pins its buffer; it panics exactly on a full header or outside an operation |
| Log.Log.EndOp | CS202_Operating System/xv6-public/log.c:143-174 | end_op panics exactly if a commit runs or the commit it starts finds no buffer; the last one commits, the others change only the count; buffers others hold stay as they are |
| Log.Log.WriteLog | CS202_Operating System/xv6-public/log.c:176-190 | write_log copies the pinned buffers' contents to the log area in order, one disk write each, and halts exactly when no buffer is to spare |
| Log.Log.WriteHead | CS202_Operating System/xv6-public/log.c:98-113 | write_head changes the disk by one write, of the header |
| Log.Log.InstallTrans | CS202_Operating System/xv6-public/log.c:68-82 | install_trans copies log blocks home one write at a time and leaves their buffers clean |
| Log.Log.Commit | CS202_Operating System/xv6-public/log.c:192-202 | commit's disk writes are, one by one, those of CommitDisk; it fails exactly when n and the buffers others hold are together at least the number of buffers, before any header write; what others hold is untouched |
| Log.Log.ReadHead | CS202_Operating System/xv6-public/log.c:84-96 | read_head yields the header on disk and writes nothing |
| Log.Log.RecoverFromLog | CS202_Operating System/xv6-public/log.c:115-122 | recover_from_log's disk writes are, one by one, those of RecoverDisk, and it ends with an empty log |
| Log.BootFresh | CS202_Operating System/xv6-public/bio.c:38-56 | the cache that binit makes is one recovery can start from, although all its buffers have the same key |
| GroupCommit.Step | CS202_Operating System/xv6-public/log.c:124-233 | every step of every process, of the committing one and every crash keeps the invariant of cache, header, disk and history, but one that copies past the log area or stores past log.lh.block |
| GroupCommit.RunInv | CS202_Operating System/xv6-public/log.c:124-233 | the invariant holds in every state of every run up to the first such step |
| GroupCommit.RunSafe | CS202_Operating System/xv6-public/log.c:124-233 | in every reachable state: committing implies no operation outstanding, lh.n is at most LOGSIZE, the log.committing panic is unreachable, and log_write inside an operation panics exactly when lh.n is LOGSIZE or has reached log.size - 1 |
| GroupCommit.ReadsLatest | CS202_Operating System/xv6-public/bio.c:61-106 | whoever holds a buffer for reading sees the last contents logged for its block, or the last committed ones |
| GroupCommit.NotSplit | CS202_Operating System/xv6-public/log.c:143-174 | while an operation is open no commit happens and what it logged stays in the group: no operation is split across two commits |
| GroupCommit.RunDurable | CS202_Operating System/xv6-public/log.c:115-174 | from every reachable state, crashes and recoveries give exactly the file system of the last commit group, whatever the operations log, as long as nothing was written where the log has no room |
| GroupCommit.GroupsGrow | CS202_Operating System/xv6-public/log.c:192-202 | the commit groups of a state are a prefix of those of every later one, one more for each header write |
| GroupCommit.GroupAdded | CS202_Operating System/xv6-public/log.c:192-202 | a group is added exactly by the header write and is the previous one with every logged block replaced |
| GroupCommit.CopyOutStep | CS202_Operating System/xv6-public/log.c:176-190 | write_log copies, for each block, exactly the last contents logged for it |
| GroupCommit.AcquireStep | CS202_Operating System/xv6-public/bio.c:95-106 | locking and filling a buffer keeps the invariant and never reaches an iderw panic |
| GroupCommit.GetStep | CS202_Operating System/xv6-public/bio.c:61-93 | bget by any process keeps the invariant: no referenced, waited-for or logged buffer is recycled |
| GroupCommit.TestStep | CS202_Operating System/xv6-public/log.c:216-221 | log_write's test for room, made before log.lock is taken, and the wait for the lock |
| GroupCommit.WriteStep | CS202_Operating System/xv6-public/log.c:223-233 | log_write's append, made under log.lock with no second look for room, keeps the invariant even when it overfills the log area, absorption included |
| GroupCommit.HeadSwitches | CS202_Operating System/xv6-public/log.c:98-113 | the header write turns a disk that stands for the old file system into one that stands for the new |
| GroupCommit.InstallHolds | CS202_Operating System/xv6-public/log.c:68-82 | each installed block leaves what the disk stands for unchanged |
| GroupCommit.ClearHolds | CS202_Operating System/xv6-public/log.c:198-200 | once every block is installed, erasing the header leaves what the disk stands for unchanged |
| GroupCommit.CrashStep | CS202_Operating System/xv6-public/log.c:115-122 | a crash in any state, followed by interrupted recoveries and one complete one, is a fresh start with the same file system |
| GroupCommit.CrashAnywhere | CS202_Operating System/xv6-public/log.c:115-122 | no state of a run is safe from a crash, nor any recovery after it |
| GroupCommit.MkfsBoots | CS202_Operating System/xv6-public/mkfs.c:110-111 | a disk whose log area was zeroed boots with an empty cache: runs exist for every geometry and number of buffers and processes |
| GroupCommit.BootInv | CS202_Operating System/xv6-public/log.c:53-66 | a freshly booted machine satisfies the invariant |
| GroupReserve.ReservingStep | CS202_Operating System/xv6-public/log.c:125-141 | where operations log at most MAXOPBLOCKS blocks each, every step keeps lh.n plus the blocks open operations may still log within LOGSIZE |
| GroupReserve.BeginReserving | CS202_Operating System/xv6-public/log.c:129-139 | begin_op's test makes room for all that the new operation may log |
| GroupReserve.WriteReserving | CS202_Operating System/xv6-public/log.c:223-233 | a block an operation logs for the first time takes one of its reserved places, however often it logs it, and log.lh.block has a place for it |
| GroupReserve.RunReserved | CS202_Operating System/xv6-public/log.c:213-221 | in every state of every such run: log_write by an operation that may log another block panics exactly when lh.n has reached log.size - 1, never if log.size is above LOGSIZE |
| GroupReserve.OpenOpsFit | CS202_Operating System/xv6-public/log.c:213-233 | however many blocks operations log, those of all that are open number at most lh.n, and that at most LOGSIZE |
| GroupRuns.BreadHaltsIff | CS202_Operating System/xv6-public/bio.c:61-93 | in every reachable state, in or out of a commit, a bread by anybody panics for want of a buffer exactly if the block is not cached and the pinned buffers together with the clean ones in use number NBUF |
| GroupRuns.EnoughBuffers | CS202_Operating System/xv6-public/bio.c:78-92 | as long as the logged blocks and the references processes have number fewer than NBUF, no bread panics |
| GroupRuns.HomeNeverHalts | CS202_Operating System/xv6-public/log.c:176-190 | the committing process never lacks a buffer for a home block: only its reads of log blocks and of the header can panic |
| GroupRuns.CommitPanicRun | CS202_Operating System/xv6-public/log.c:176-190 | for every n from 1 to MAXOPBLOCKS and NBUF, a run in which a commit of n blocks panics on its first log block because other processes hold all other buffers, one each |
| GroupRuns.OverrunRun | CS202_Operating System/xv6-public/log.c:213-219 | under the condition of OverrunIff, a run to a log_write, within MAXOPBLOCKS, that panics |
| GroupRuns.NoOverrun | CS202_Operating System/xv6-public/log.c:213-219 | otherwise no run of operations within MAXOPBLOCKS reaches it |
| GroupRuns.RoomyRun | CS202_Operating System/xv6-public/log.c:213-233 | where one operation at most fits LOGSIZE, or the log area is larger, operations within MAXOPBLOCKS never log more than the area holds, in spite of the test outside the lock |
| GroupRuns.FewBuffers | CS202_Operating System/xv6-public/log.c:176-190 | with no more buffers than log blocks no commit ever writes past the log area, and with no more than LOGSIZE none stores past log.lh.block, whatever the operations log |
| GroupRuns.SafeContained | CS202_Operating System/xv6-public/log.c:176-233 | conditions on the parameters under which no run writes where the log has no room |
| GroupRuns.OverrunIff | CS202_Operating System/xv6-public/log.c:125-141 | with two processes, and as many buffers and home blocks as log blocks: too big a transaction is reachable by operations within MAXOPBLOCKS exactly if two of them fit LOGSIZE side by side, or one takes all of it, or one can fill the log area |
| GroupRuns.FillAll | CS202_Operating System/xv6-public/log.c:125-141 | with one operation kept open, the log can be filled with any number of blocks up to LOGSIZE if two operations fit it, and up to MAXOPBLOCKS if one does |
| GroupProgress.CommitCompletes | CS202_Operating System/xv6-public/log.c:192-202 | from every reachable start of a commit that fits the log area, with a buffer to spare, a run of the machine ends it, with the disk, the empty log and the held buffers that commit of the class gives |
| GroupProgress.CopyRound | CS202_Operating System/xv6-public/log.c:181-189 | one round of write_log inside the log area as seven steps of the machine: the log block takes the pinned contents and nothing that others hold changes |
| GroupProgress.InstallRound | CS202_Operating System/xv6-public/log.c:73-81 | one round of install_trans as seven steps: the home block takes the log block's contents |
| GroupRaces.OverfullIff | CS202_Operating System/xv6-public/log.c:213-233 | with two processes, and as many buffers and home blocks as log blocks: a run of operations within MAXOPBLOCKS in which nobody panics and the log holds more than its area exists exactly if two operations fit LOGSIZE side by side and the area has from 2 to LOGSIZE blocks |
| GroupRaces.Race | CS202_Operating System/xv6-public/log.c:218-231 | two processes pass the test for the last place and both append |
| GroupRaces.OverfullHalts | CS202_Operating System/xv6-public/log.c:181-184 | the commit of such a log panics at its first bread if there are no more buffers than log blocks |
| GroupRaces.LosingRun | CS202_Operating System/xv6-public/log.c:181-190 | with more, a run in which write_log overwrites the block behind the log area, and the last committed group is lost |
| GroupRaces.DurableIff | CS202_Operating System/xv6-public/log.c:115-233 | with two processes, and as many home blocks as log blocks: from every state that operations within MAXOPBLOCKS reach, crashes and recoveries give the last committed group, exactly if the log area cannot be overfilled or there are no more buffers than log blocks |
| GroupFiles.SameFs | CS202_Operating System/xv6-public/fs.c:373-401 | whether the file system is in order, and what its files hold, does not depend on any block below the bitmap, such as the log |
| GroupFiles.FilesSurvive | CS202_Operating System/xv6-public/log.c:115-122 | after crashes and recoveries from any state of a run that wrote nothing where the log has no room, the file system is in order and every file holds what it held at the last committed group |
| PfHash.HashTable.Find | CS236_Database Management/redbase-spatial/src/pf_hashtable.cc:63-85 | Find returns the slot of the key if it is in the table and reports it missing exactly otherwise |
| PfHash.HashTable.Insert | CS236_Database Management/redbase-spatial/src/pf_hashtable.cc:96-126 | Insert adds one key to the map the table stands for, or refuses exactly a key that is there |
| PfHash.HashTable.Delete | CS236_Database Management/redbase-spatial/src/pf_hashtable.cc:136-165 | Delete removes one key from the map, or reports it missing exactly when it is |
| PfHash.HashTable.Bypass | CS236_Database Management/redbase-spatial/src/pf_hashtable.cc:155-161 | unlinking an entry from its doubly linked bucket leaves the bucket without it and every other bucket alone |
| PfHash.HashTable.LinkFirst | CS236_Database Management/redbase-spatial/src/pf_hashtable.cc:111-122 | linking an entry in front of its bucket adds it to the map |
| PfPool.NoBufIff | CS236_Database Management/redbase-spatial/src/pf_buffermgr.cc:775-817 | PF_NOBUF comes back exactly when no slot is free and every used one is pinned |
| PfPool.AllocOk | CS236_Database Management/redbase-spatial/src/pf_buffermgr.cc:775-817 | the slot handed out is no longer used, the others keep their order, and used and free slots still split the table |
| PfPool.GetTransparent | CS236_Database Management/redbase-spatial/src/pf_buffermgr.cc:178-257 | a successful GetPage returns the bytes a plain map would hold, whatever was evicted for it; a failed one loses nothing |
| PfPool.AllocateTransparent | CS236_Database Management/redbase-spatial/src/pf_buffermgr.cc:267-310 | AllocatePage pins a page whose contents count once they are written and dirtied; no other page changes |
| PfPool.MarkTransparent | CS236_Database Management/redbase-spatial/src/pf_buffermgr.cc:319-352 | MarkDirty makes the written bytes of a pinned page count |
| PfPool.UnpinTransparent | CS236_Database Management/redbase-spatial/src/pf_buffermgr.cc:361-396 | UnpinPage of a page whose writes are marked loses nothing |
| PfPool.FlushTransparent | CS236_Database Management/redbase-spatial/src/pf_buffermgr.cc:405-464 | FlushPages, whatever write fails in it, loses nothing and removes only unpinned pages of the file, all of them unless a write fails |
| PfPool.FlushWarns | CS236_Database Management/redbase-spatial/src/pf_buffermgr.cc:405-464 | FlushPages warns of pinned pages exactly when the file has one |
| PfPool.FlushedIsOnFile | CS236_Database Management/redbase-spatial/src/pf_buffermgr.cc:405-464 | after a clean FlushPages every page of the file is on disk with its latest bytes and out of the pool |
| PfPool.ForceTransparent | CS236_Database Management/redbase-spatial/src/pf_buffermgr.cc:476-516 | ForcePages changes no page, no recency and no pin; it only writes and clears dirty bits |
| PfPool.ForcedIsOnFile | CS236_Database Management/redbase-spatial/src/pf_buffermgr.cc:476-516 | after a clean ForcePages the chosen pages are on disk with their latest bytes |
| PfPool.PokeTransparent | CS236_Database Management/redbase-spatial/src/pf_filehandle.cc:291-298 | a client's write to a pinned page changes that page of the map and no other |
| PfPool.WriteTouches | CS236_Database Management/redbase-spatial/src/pf_buffermgr.cc:868-896 | a write, complete or torn, leaves every other page of every file as it was |
| PfRuns.Step | CS236_Database Management/redbase-spatial/src/pf_buffermgr.cc:178-516 | every call by disciplined clients, with any read and write failures, keeps the pool, the plain map and the recency stamps in agreement |
| PfRuns.RunInv | CS236_Database Management/redbase-spatial/src/pf_buffermgr.cc:178-516 | and so in every state of every run |
| PfRuns.RunTransparent | CS236_Database Management/redbase-spatial/src/pf_buffermgr.cc:178-257 | in every run, every successful GetPage returns the bytes of the plain map |
| PfRuns.ModelIsPlain | CS236_Database Management/redbase-spatial/src/pf_buffermgr.cc:178-516 | an entry of the plain map changes only by a write or a new allocation of that page: no eviction, flush or failure alters it |
| PfRuns.EvictsLeastRecent | CS236_Database Management/redbase-spatial/src/pf_buffermgr.cc:786-790 | in every reachable state the evicted page is the one unpinned page used longest ago |
| PfPins.GetCounts | CS236_Database Management/redbase-spatial/src/pf_buffermgr.cc:178-257 | GetPage pins its page once more and no other; failing, none |
| PfPins.AllocateCounts | CS236_Database Management/redbase-spatial/src/pf_buffermgr.cc:267-310 | AllocatePage pins its page once and no other; failing, none |
| PfPins.UnpinCounts | CS236_Database Management/redbase-spatial/src/pf_buffermgr.cc:361-396 | UnpinPage takes one pin off a pinned page, is refused exactly for one that is not, and touches no other |
| PfPins.PinWraps | CS236_Database Management/redbase-spatial/src/pf_buffermgr.cc:238 | GetPage leaves its page looking unpinned exactly when it was pinned 65535 times |
| PfCodes.AllocCode | CS236_Database Management/redbase-spatial/src/pf_buffermgr.cc:775-817 | a slot can be had exactly if one is free or the least recently used unpinned page is clean or can be written back; PF_NOBUF exactly if all are used and pinned |
| PfCodes.GetCode | CS236_Database Management/redbase-spatial/src/pf_buffermgr.cc:178-257 | GetPage answers PF_PAGEPINNED exactly for a page in the pool that is pinned where bMultiplePins is off, and hands out every other page in the pool; one that is not there exactly if a slot can be had and the read succeeds |
| PfCodes.GetKnown | CS236_Database Management/redbase-spatial/src/pf_buffermgr.cc:178-257 | for a page its clients know of: success exactly if it is in the pool, or a slot can be had and its read does not fail, and it is not a pinned page asked for without bMultiplePins |
| PfCodes.EasyGettable | CS236_Database Management/redbase-spatial/src/pf_buffermgr.cc:775-817 | with a free slot or an unpinned page, open files and no failing transfer every page can be had |
| PfCodes.AllocateCode | CS236_Database Management/redbase-spatial/src/pf_buffermgr.cc:267-308 | AllocatePage succeeds exactly for a page that is not in the pool when a slot can be had |
| PfCodes.MarkCode | CS236_Database Management/redbase-spatial/src/pf_buffermgr.cc:319-393 | MarkDirty and UnpinPage succeed exactly for a pinned page of the pool, and say of any other whether it is missing or unpinned |
| PfCodes.FlushCode | CS236_Database Management/redbase-spatial/src/pf_buffermgr.cc:405-464 | a flush stops with an error exactly if a dirty unpinned page of the file cannot be written back |
| PfCodes.ForceCode | CS236_Database Management/redbase-spatial/src/pf_buffermgr.cc:476-516 | a force stops with an error exactly if a dirty page it is to write cannot be written |
| PfBufferMgr.BufferMgr.constructor | CS236_Database Management/redbase-spatial/src/pf_buffermgr.cc:97-138 | a new pool has every slot free, in order, and an empty index |
| PfBufferMgr.BufferMgr.InsertFree | CS236_Database Management/redbase-spatial/src/pf_buffermgr.cc:692-699 | a slot on neither list becomes the first free one |
| PfBufferMgr.BufferMgr.LinkHead | CS236_Database Management/redbase-spatial/src/pf_buffermgr.cc:709-730 | a slot on neither list becomes the most recently used |
| PfBufferMgr.BufferMgr.Unlink | CS236_Database Management/redbase-spatial/src/pf_buffermgr.cc:739-762 | a used slot leaves the doubly linked list and the others keep their order |
| PfBufferMgr.BufferMgr.FindVictim | CS236_Database Management/redbase-spatial/src/pf_buffermgr.cc:786-790 | the walk from last finds the least recently used unpinned slot, if any |
| PfBufferMgr.BufferMgr.InternalAlloc | CS236_Database Management/redbase-spatial/src/pf_buffermgr.cc:775-817 | on the linked array and the hash table InternalAlloc is PfPool.InternalAlloc, eviction and write-back included |
| PfBufferMgr.BufferMgr.Evict | CS236_Database Management/redbase-spatial/src/pf_buffermgr.cc:792-816 | the branch without a free slot: write back if dirty, drop the key from the index, unlink |
| PfBufferMgr.BufferMgr.GetPage | CS236_Database Management/redbase-spatial/src/pf_buffermgr.cc:178-257 | GetPage on the structures is PfPool.GetPage: code, slot and whole new state; PfCodes.GetCode says which code |
| PfBufferMgr.BufferMgr.AllocatePage | CS236_Database Management/redbase-spatial/src/pf_buffermgr.cc:267-310 | AllocatePage on the structures is PfPool.AllocatePage; PfCodes.AllocateCode says which code |
| PfBufferMgr.BufferMgr.MarkDirty | CS236_Database Management/redbase-spatial/src/pf_buffermgr.cc:319-352 | MarkDirty on the structures is PfPool.MarkDirty, including the move to the front |
| PfBufferMgr.BufferMgr.UnpinPage | CS236_Database Management/redbase-spatial/src/pf_buffermgr.cc:361-396 | UnpinPage on the structures is PfPool.UnpinPage, including the move to the front at pin count 0 |
| PfBufferMgr.BufferMgr.FlushPages | CS236_Database Management/redbase-spatial/src/pf_buffermgr.cc:405-464 | FlushPages on the structures is PfPool.FlushPages, for a walk of a list it is taking apart |
| PfBufferMgr.BufferMgr.ForcePages | CS236_Database Management/redbase-spatial/src/pf_buffermgr.cc:476-516 | ForcePages on the structures is PfPool.ForcePages |
| PfBufferMgr.BufferMgr.FlushSlot | CS236_Database Management/redbase-spatial/src/pf_buffermgr.cc:433-453 | one page flushed: written if dirty, then out of the index and on the free list |
| PfFile.FileHandle.GetThisPage | CS236_Database Management/redbase-spatial/src/pf_filehandle.cc:204-237 | a page in use is returned exactly if the pool can get it, in its slot and pinned once more; the invalid-page error comes back exactly for a number out of range or a page that can be got and is not in use; otherwise every page is pinned as often as before |
| PfFile.FileHandle.GetNextPage | CS236_Database Management/redbase-spatial/src/pf_filehandle.cc:126-153 | a page returned is the next one in use after the current, pinned once more; end of file comes back only when there is none; where no transfer fails and a slot can be had there is no other answer for a valid position; no other pin count changes |
| PfFile.FileHandle.AllocatePage | CS236_Database Management/redbase-spatial/src/pf_filehandle.cc:249-306 | takes the first free page, or appends one when there is none, and succeeds exactly if the pool can get the one or has a slot for the other; the page is zeroed, in use, marked dirty and pinned once, and no other page or pin count changes |
| PfFile.FileHandle.TakeFree | CS236_Database Management/redbase-spatial/src/pf_filehandle.cc:260-271 | the free-page branch of AllocatePage takes the head of the free list, exactly if the pool can get it |
| PfFile.FileHandle.Append | CS236_Database Management/redbase-spatial/src/pf_filehandle.cc:272-285 | the other branch extends the file by one page, exactly if a slot can be had |
| PfFile.FileHandle.InitPage | CS236_Database Management/redbase-spatial/src/pf_filehandle.cc:291-298 | marking the page used, zeroing it and dirtying it makes its bytes count |
| PfFile.FileHandle.DisposePage | CS236_Database Management/redbase-spatial/src/pf_filehandle.cc:318-364 | an allocated page becomes the first of the free list; exactly a pinned page is refused as pinned, and exactly an unpinned free one as free; it succeeds exactly for an unpinned page in use that the pool can get; failures change nothing; every page is pinned as often as before |
| PfFile.FileHandle.Retire | CS236_Database Management/redbase-spatial/src/pf_filehandle.cc:350-356 | linking the page into the free list |
| PfFile.TakeFirst | CS236_Database Management/redbase-spatial/src/pf_filehandle.cc:260-270 | taking the head keeps the list exactly the free pages of the file, each once |
| PfFile.PushFree | CS236_Database Management/redbase-spatial/src/pf_filehandle.cc:350-352 | a disposed page in front keeps the list exactly the free pages |
| Umalloc.UnitsHold | CS202_Operating System/xv6-public/umalloc.c:54-69 | the block malloc hands out holds nbytes exactly up to 2^32 - 8, and sbrk is asked for all of it exactly up to 2^31 - 16 bytes; above 2^32 - 8 the units wrap around to 1 |
| Umalloc.AskedIff | CS202_Operating System/xv6-public/umalloc.c:54 | sbrk gets the bytes of all units asked for, and 32 kilobytes at least, exactly if they make a positive int; otherwise it gets 0 or a negative count |
| Umalloc.HugeRequests | CS202_Operating System/xv6-public/umalloc.c:54 | malloc(2^32 - 8) asks sbrk for 0 bytes and malloc(2^31) for a negative count |
| Umalloc.InsertOrdered | CS202_Operating System/xv6-public/umalloc.c:24-44 | freeing a block leaves the list address-ordered, disjoint and with no two adjacent blocks, merging on either side, both or none |
| Umalloc.InsertCovers | CS202_Operating System/xv6-public/umalloc.c:33-42 | free makes exactly the units of the block free |
| Umalloc.StopsBelow | CS202_Operating System/xv6-public/umalloc.c:30-32 | free's two stopping conditions hold together exactly at the block's lower neighbour, the wrap at the ends of the arena included |
| Umalloc.FreeChain | CS202_Operating System/xv6-public/umalloc.c:33-42 | the pointers and sizes free writes are those of the new list |
| Umalloc.TakeOrdered | CS202_Operating System/xv6-public/umalloc.c:75-83 | taking a block or its tail keeps the list ordered and coalesced |
| Umalloc.TakeCovers | CS202_Operating System/xv6-public/umalloc.c:75-83 | malloc takes exactly the units of the block it returns, which are the last ones of the block it found |
| Umalloc.TakeChain | CS202_Operating System/xv6-public/umalloc.c:76-82 | the pointers and sizes malloc writes are those of the new list |
| Umalloc.FreeOk | CS202_Operating System/xv6-public/umalloc.c:24-44 | free keeps the whole heap in order: live blocks apart from each other and from free space, units conserved |
| Umalloc.TakeOk | CS202_Operating System/xv6-public/umalloc.c:75-84 | malloc from a large enough block keeps the whole heap in order |
| Umalloc.GrowOk | CS202_Operating System/xv6-public/umalloc.c:54-59 | memory from sbrk that overlaps nothing owned keeps the heap in order |
| Umalloc.ServedIff | CS202_Operating System/xv6-public/umalloc.c:63-90 | unless it claims what sbrk has not given, malloc returns 0 exactly when no block is large enough and sbrk refuses; otherwise one new live block of the units asked for |
| Umalloc.NextFit | CS202_Operating System/xv6-public/umalloc.c:73-88 | the block the search ends with is large enough and, going around from the rover, the nearest that is, and it ends with every such block |
| Umalloc.GrownFinds | CS202_Operating System/xv6-public/umalloc.c:86-88 | after morecore the search cannot fail again, so malloc's loop ends |
| Umalloc.PayloadApart | CS202_Operating System/xv6-public/umalloc.c:84 | the bytes of a live block hold no header the allocator reads |
| Umalloc.Allocator.FindBelow | CS202_Operating System/xv6-public/umalloc.c:30-32 | free's search ends, at the last block below the one freed |
| Umalloc.Allocator.Free | CS202_Operating System/xv6-public/umalloc.c:24-44 | free on the headers in memory is Insert on the list they form; the block is no longer live |
| Umalloc.Allocator.Join | CS202_Operating System/xv6-public/umalloc.c:33-42 | the two coalescing branches on the headers |
| Umalloc.Allocator.Morecore | CS202_Operating System/xv6-public/umalloc.c:46-61 | morecore adds at least 4096 units from sbrk to the list, or nothing; exactly for byte counts from 2^31 on it takes units that sbrk, reporting success, has not given |
| Umalloc.Allocator.Carve | CS202_Operating System/xv6-public/umalloc.c:75-84 | the exact-fit and the splitting branch on the headers, with the tail handed out; the next search starts from the predecessor of the block |
| Umalloc.Allocator.Malloc | CS202_Operating System/xv6-public/umalloc.c:63-90 | malloc on the headers: the first large enough block from the rover on, or one sbrk and the same search, or 0; the search ends, and the rover is left before the block that served or, if none did, where it was; it claims units nobody gave exactly when no block is large enough, the count for sbrk is not positive and sbrk reports success |
| Umalloc.Allocator.Store | CS202_Operating System/xv6-public/umalloc.c:84 | a program may write anything in the blocks it holds without disturbing the heap |
| UmallocRuns.RunHeap | CS202_Operating System/xv6-public/umalloc.c:24-90 | after any sequence of malloc and free, while no malloc has claimed units nobody gave, the list is address-ordered, disjoint and coalesced, live blocks overlap neither each other nor free space, and every unit from sbrk is in exactly one of them |
| UmallocRuns.OverclaimBreaks | CS202_Operating System/xv6-public/umalloc.c:54-59 | a malloc that claims units sbrk has not given leaves the heap out of order |
| UmallocRuns.OverclaimRun | CS202_Operating System/xv6-public/umalloc.c:54-59 | for every request from 2^31 - 15 to 2^32 - 8 bytes a run whose first malloc claims units nobody gave and answers with a block of them |
| UmallocRuns.RunHeapIff | CS202_Operating System/xv6-public/umalloc.c:24-90 | the heap is in order all along a run exactly if no malloc of the run claims units nobody gave |
| UmallocRuns.SmallSound | CS202_Operating System/xv6-public/umalloc.c:54-69 | requests of at most 2^31 - 16 bytes never do |
| UmallocRuns.StaysApart | CS202_Operating System/xv6-public/umalloc.c:63-90 | in any run, what malloc returns overlaps no block that is live, and live blocks stay as they are |
| UmallocRuns.NothingLost | CS202_Operating System/xv6-public/umalloc.c:24-90 | in any run, when nothing is live every unit from sbrk is free |
| UmallocRuns.Decided | CS202_Operating System/xv6-public/umalloc.c:63-90 | what sbrk answers decides what malloc answers, the list, the rover and the live blocks |
| QlPlan.FieldJoin | CS236_Database Management/redbase-spatial/src/ql_node.cc:85-95 | in a joined tuple every attribute is found at its offset, with the value it had on its side |
| QlPlan.CompileChecks | CS236_Database Management/redbase-spatial/src/ql_node.cc:97-221 | a condition added to a node compares, on the tuple's bytes, exactly the fields it names; it is refused exactly when one is missing |
| QlQuery.NodeCondsCheck | CS236_Database Management/redbase-spatial/src/ql_manager.cc:429-516 | the conditions of a node hold of a joined tuple exactly when the conditions placed there hold of the rows chosen |
| QlQuery.OuterLoop | CS236_Database Management/redbase-spatial/src/ql_nodejoin.cc:117-174 | the nested loop over both inputs yields exactly the extensions that meet the node's conditions, in order |
| QlQuery.ChoicesAll | CS236_Database Management/redbase-spatial/src/ql_nodejoin.cc:117-174 | the enumeration reaches every choice of one row per relation |
| QlQuery.ChoicesOnce | CS236_Database Management/redbase-spatial/src/ql_nodejoin.cc:117-174 | and reaches none twice |
| QlQuery.PlanYields | CS236_Database Management/redbase-spatial/src/ql_manager.cc:326-341 | the left-deep tree over the first k relations yields the joined tuples of the choices that meet every condition placed so far |
| QlQuery.PlanExact | CS236_Database Management/redbase-spatial/src/ql_manager.cc:326-341 | the whole tree yields exactly the product rows that meet every condition, each once |
| QlQuery.PlansAgree | CS236_Database Management/redbase-spatial/src/ql_manager.cc:326-390 | for any two orders of the relations and any valid placing of the conditions, the projected trees yield the same bag of rows |
| QlManager.Manager.ParseConditions | CS236_Database Management/redbase-spatial/src/ql_manager.cc:832-874 | each condition is placed at the later of its relations, the first in the order of the query at which every attribute it reads is there |
| QlManager.Manager.RecalcCondToRel | CS236_Database Management/redbase-spatial/src/ql_manager.cc:521-545 | for any permutation, each condition moves to the first relation of the order at which every attribute it reads is there |
| QlManager.PushedDown | CS236_Database Management/redbase-spatial/src/ql_manager.cc:326-390 | with the conditions placed so, the subtree over the first k relations yields exactly the joined rows that meet every condition over those relations, whatever k: no node leaves a test to one above it that it could make |
| QlManager.Manager.CountNumConditions | CS236_Database Management/redbase-spatial/src/ql_manager.cc:756-764 | the number of conditions placed at a relation |
| QlManager.Manager.AddCondition | CS236_Database Management/redbase-spatial/src/ql_node.cc:97-144 | refused exactly when an attribute is not in the node's tuples; otherwise the node's conditions test, on every tuple and for all comparators, what they tested before and what the condition says |
| QlManager.Manager.IndexToOffset | CS236_Database Management/redbase-spatial/src/ql_node.cc:85-95 | the running sum ends at the attribute's offset and length, or finds that it is not there |
| QlManager.Manager.SetUpFirstNode | CS236_Database Management/redbase-spatial/src/ql_manager.cc:629-702 | the first relation, under a selection exactly when a condition is placed there |
| QlManager.Manager.SetUpFirstNodeWithQO | CS236_Database Management/redbase-spatial/src/ql_manager.cc:704-750 | the same for the first relation of the optimizer's order |
| QlManager.Manager.JoinRelation | CS236_Database Management/redbase-spatial/src/ql_manager.cc:397-519 | one more join carrying exactly the conditions placed at its relation, none of which can fail to compile |
| QlManager.Manager.SetUpNodes | CS236_Database Management/redbase-spatial/src/ql_manager.cc:326-358 | the tree for the order of the query |
| QlManager.Manager.SetUpNodesWithQO | CS236_Database Management/redbase-spatial/src/ql_manager.cc:360-390 | the tree for the optimizer's order |
| QlManager.Manager.Project | CS236_Database Management/redbase-spatial/src/ql_nodeproj.cc:100-107 | the projection node with the attributes asked for, in order |
| QlManager.OptimizerKeepsRows | CS236_Database Management/redbase-spatial/src/ql_manager.cc:521-623 | the optimizer's order, whatever it is, yields the same bag of projected rows as the order of the query |
| QlNodes.Node.OpenIt | CS236_Database Management/redbase-spatial/src/ql_nodejoin.cc:99-112 | after OpenIt an iterator whose scans were closed stands before all rows of its plan |
| QlNodes.Node.CloseIt | CS236_Database Management/redbase-spatial/src/ql_nodejoin.cc:186-192 | CloseIt closes every scan below the node |
| QlNodes.Node.GetNext | CS236_Database Management/redbase-spatial/src/ql_nodejoin.cc:117-174 | GetNext returns the next row of the plan, or end of input exactly after the last |
| QlNodes.Node.GetNextSel | CS236_Database Management/redbase-spatial/src/ql_nodesel.cc:93-105 | the filter loop returns the next row that meets the conditions |
| QlNodes.Node.GetNextProj | CS236_Database Management/redbase-spatial/src/ql_nodeproj.cc:78-87 | the next row with only the attributes to keep |
| QlNodes.Node.GetNextJoin | CS236_Database Management/redbase-spatial/src/ql_nodejoin.cc:117-174 | the join's state, its buffer and its two inputs together return the next joined row that meets the conditions |
| QlNodes.Node.Advance | CS236_Database Management/redbase-spatial/src/ql_nodejoin.cc:133-147 | one turn of the join's loop moves exactly one pair on |
| QlNodes.Node.Restart | CS236_Database Management/redbase-spatial/src/ql_nodejoin.cc:134-142 | when the inner input is exhausted the outer moves on and the inner starts again, over inner inputs that are empty too |
| QlNodes.ReconstructRec | CS236_Database Management/redbase-spatial/src/ql_nodeproj.cc:114-139 | the running offsets copy exactly the fields to keep |
| QlNodes.RunSelect | CS236_Database Management/redbase-spatial/src/ql_manager.cc:235-275 | opening a tree, reading it to the end and closing it gives the rows of its plan and leaves every scan closed |
| QlSelect.Select | CS236_Database Management/redbase-spatial/src/ql_manager.cc:70-228 | a select, with or without the optimizer, prints the selected values, or all values in join order, of every choice of one row per relation that meets all conditions, each choice once and no other; with the optimizer the join order is that of its answer |
| QlSelect.OneOrder | CS236_Database Management/redbase-spatial/src/ql_manager.cc:152-163 | the costs determine that order |
| QlSelect.SameAnswer | CS236_Database Management/redbase-spatial/src/ql_manager.cc:152-185 | with a select list the bag of rows does not depend on the optimizer |
| QoManager.BitmapOps | CS236_Database Management/redbase-spatial/src/qo_manager.cc:342-356 | adding and removing a relation of a bitmap adds and removes it from the set it stands for |
| QoManager.ConvertBitmapToVec | CS236_Database Management/redbase-spatial/src/qo_manager.cc:375-383 | the relations of a bitmap, each once, in increasing order |
| QoManager.Manager.InitializeBaseCases | CS236_Database Management/redbase-spatial/src/qo_manager.cc:399-461 | one entry for every single relation |
| QoManager.Manager.CalculateOptJoin | CS236_Database Management/redbase-spatial/src/qo_manager.cc:177-220 | the entry of a set is a cheapest choice of the relation joined last, given the smaller entries |
| QoManager.Manager.NextSize | CS236_Database Management/redbase-spatial/src/qo_manager.cc:121-149 | from all sets of one size every set of the next size is computed, each once |
| QoManager.Manager.Backtrace | CS236_Database Management/redbase-spatial/src/qo_manager.cc:151-170 | the order read back from the table, and the estimates of the whole set |
| QoManager.Manager.Compute | CS236_Database Management/redbase-spatial/src/qo_manager.cc:105-173 | every subset of every size has its minimal entry, and the order read back from the table is the only one these costs admit |
| QoManager.OneAnswer | CS236_Database Management/redbase-spatial/src/qo_manager.cc:105-173 | order, access paths and estimates follow from the costs: of equally cheap ways the one with the smallest relation joined last is taken, at every entry |
| QoManager.PlannedIsPermutation | CS236_Database Management/redbase-spatial/src/qo_manager.cc:163-170 | the order is a permutation of all relations |
| QoManager.NoOrderIsCheaper | CS236_Database Management/redbase-spatial/src/qo_manager.cc:177-220 | the table's entry for a set is the estimate of some order, and no left-deep order is estimated cheaper, when between prefixes of equal size the cheaper one never makes a join dearer and sizes do not depend on the order |
| QoManager.SourceOptimal | CS236_Database Management/redbase-spatial/src/qo_manager.cc:277-299 | the same for the cost CalculateJoin computes, wherever its tuple estimates and statistics do not depend on the order |
| QoManager.SourceMonotone | CS236_Database Management/redbase-spatial/src/qo_manager.cc:277-299 | CalculateJoin's cost, with or without an index, meets the first of these hypotheses |
| QoManager.ProductOrderFree | CS236_Database Management/redbase-spatial/src/qo_manager.cc:248 | for queries without conditions it meets the second |
| QoManager.EntryAttained | CS236_Database Management/redbase-spatial/src/qo_manager.cc:177-220 | every table entry is the estimate of an order of its set |
| Fs.MarkBits | CS202_Operating System/xv6-public/fs.c:66-71 | setting or clearing a block's bitmap bit decides that block and no other, across bitmap blocks |
| Fs.EmptyOk | CS202_Operating System/xv6-public/mkfs.c:94-111 | an empty file system, whose bitmap covers exactly the metadata and whose inodes are empty, is in order |
| Fs.SmallFs | CS202_Operating System/xv6-public/mkfs.c:94-111 | such a file system exists: the conditions on a file system in order can be met |
| Fs.AllocLoose | CS202_Operating System/xv6-public/fs.c:55-78 | a block balloc takes was a data block nobody referenced; afterwards it is marked, zeroed and still nobody's, and no file changes |
| Fs.FreeLoose | CS202_Operating System/xv6-public/fs.c:80-96 | freeing a block nobody references finds its bit set and clears it; no file changes |
| Fs.AttachAddr | CS202_Operating System/xv6-public/fs.c:379-389 | a direct block or a zeroed indirect block in an inode is referenced once and by it alone |
| Fs.AttachEntry | CS202_Operating System/xv6-public/fs.c:390-395 | a new entry of an indirect block is referenced once and by it alone |
| Fs.Detach | CS202_Operating System/xv6-public/fs.c:415-432 | clearing an address leaves exactly the blocks it led to, the entries of an indirect block included, referenced by nobody |
| Fs.WriteData | CS202_Operating System/xv6-public/fs.c:499-505 | writing a data block of a file changes no address of any inode, no bitmap bit and no byte of another file |
| Fs.SameFileContent | CS202_Operating System/xv6-public/fs.c:453-477 | a file whose blocks are untouched has the same bytes |
| FsFiles.FileSystem.Balloc | CS202_Operating System/xv6-public/fs.c:55-78 | the first free block, marked and zeroed; the panic is reached exactly when every block is in use; the bitmap block and the block are logged; one free block fewer is left |
| FsFiles.FileSystem.Bfree | CS202_Operating System/xv6-public/fs.c:80-96 | exactly that bit is cleared, and its block logged; the freeing free block panic is not reached |
| FsFiles.FileSystem.AllocAddr | CS202_Operating System/xv6-public/fs.c:379-389 | an address of the inode, allocated only if it was 0, and then exactly if a block is free; other files are untouched |
| FsFiles.FileSystem.AllocEntry | CS202_Operating System/xv6-public/fs.c:390-396 | an entry of the indirect block, allocated only if it was 0, and then exactly if a block is free; other files are untouched |
| FsFiles.FileSystem.Bmap | CS202_Operating System/xv6-public/fs.c:373-401 | the block of a file, allocating nothing if it is there and otherwise only it, zeroed, and its indirect block; the balloc panic is reached exactly if these are more than there are free blocks; what changes is logged, and only the bitmap, the indirect block and the block are; the out of range panic is reached exactly from MAXFILE on |
| FsSpace.AllocRoom | CS202_Operating System/xv6-public/fs.c:60-73 | balloc leaves one free block fewer, in the bitmap as a whole |
| FsSpace.FillStep | CS202_Operating System/xv6-public/fs.c:373-401 | what a write wants is what bmap takes for its first block, the indirect block included if it is the first to need it, and what the rest of the write then wants |
| FsFiles.FileSystem.Readi | CS202_Operating System/xv6-public/fs.c:453-477 | the slice of the file's bytes, never allocating or logging; -1 exactly for an offset past the end or a range that wraps around |
| FsFiles.FileSystem.WriteChunk | CS202_Operating System/xv6-public/fs.c:499-505 | one turn of writei's loop writes the bytes that fall in one block, exactly if there is room for what that block takes |
| FsFiles.FileSystem.Writei | CS202_Operating System/xv6-public/fs.c:482-512 | the file becomes the splice of its bytes with the new ones, other files are unchanged, the disk's inode follows; all that changes is logged, every block written to is, and besides only the bitmap, the indirect block and the inode's block; -1 exactly in the three refused cases; the disk fills up exactly if the blocks the file lacks in the range, and the indirect block if it lacks that, are more than there are free |
| FsSpace.AccountsFill | CS202_Operating System/xv6-public/fs.c:499-505 | turn by turn of writei, and whether the last one ended inside a block or not, the free blocks and what is still wanted make up the same balance |
| FsFiles.FileSystem.FreeDirect | CS202_Operating System/xv6-public/fs.c:415-420 | a direct block is freed and its address cleared |
| FsFiles.FileSystem.FreeIndirect | CS202_Operating System/xv6-public/fs.c:422-432 | every entry of the indirect block and the block itself are freed |
| FsFiles.FileSystem.Itrunc | CS202_Operating System/xv6-public/fs.c:408-436 | the file is empty, exactly its blocks are freed, its indirect block included, and no other file changes; all that changes is logged, and only bitmap blocks and the inode's block are |
| FsFiles.FreedExactly | CS202_Operating System/xv6-public/fs.c:408-436 | the bitmap bits cleared by itrunc are those of the blocks the inode referenced |
| FsFiles.FileSystem.WriteTransaction | CS202_Operating System/xv6-public/file.c:136-143 | one transaction of filewrite: the file gains the next bytes or is as before; it is refused exactly for an offset past the end or a range past the largest file, and the disk fills up exactly if it wants more blocks than there are; the blocks logged are counted |
| FsFiles.FileSystem.Filewrite | CS202_Operating System/xv6-public/file.c:133-153 | the file becomes the splice with the bytes written, all of them exactly if n is returned; -1 exactly for an offset past the end, or a range past the largest file whose transactions that fit find room; the balloc panic exactly if those want more blocks than are free, and after as many of them as there is room for; each transaction logs at least the blocks it touches and at most the bitmap and two blocks more |
| FsFiles.FitStep | CS202_Operating System/xv6-public/file.c:135-149 | a transaction is the first to be refused exactly if the whole transactions before it are all that fit the largest file |
| FsFiles.CountLogs | CS202_Operating System/xv6-public/fs.c:499-510 | the blocks a writei logs are as many as those it touches, and at most the bitmap and two more |
| FsFiles.ChunkTooBig | CS202_Operating System/xv6-public/file.c:127-133 | a full transaction of filewrite logs at least 13 blocks, more than MAXOPBLOCKS |
| FsFiles.SmallEnough | CS202_Operating System/xv6-public/file.c:127-133 | one of up to six blocks' bytes logs at most MAXOPBLOCKS where the bitmap is one block |
| Vm.HoldsTable | CS202_Operating System/xv6-public/vm.c:44-53 | a frame that becomes a page table is owned once |
| Vm.HoldsMap | CS202_Operating System/xv6-public/vm.c:60-80 | a frame that becomes a user page is owned once; a kernel page owns nothing |
| Vm.HoldsUnmap | CS202_Operating System/xv6-public/vm.c:269-275 | a page that loses its entry gives its frame back |
| VmMachine.Machine.Kfree | CS202_Operating System/xv6-public/kalloc.c:59-78 | the frame becomes the first of the free list, filled with junk; the panic is reached exactly for frames outside the allocator's range |
| VmMachine.Machine.Kalloc | CS202_Operating System/xv6-public/kalloc.c:82-95 | the first free frame, or 0 exactly when none is free |
| VmMachine.Machine.Freerange | CS202_Operating System/xv6-public/kalloc.c:46-53 | exactly the frames wholly inside the stretch become free |
| VmMachine.Machine.Walkpgdir | CS202_Operating System/xv6-public/vm.c:35-55 | the table of an address, made empty if asked for; 0 exactly when it is absent and may not or cannot be made; no mapping changes |
| VmMachine.Machine.MapPage | CS202_Operating System/xv6-public/vm.c:68-78 | one page gets its entry; the remap panic is reached exactly for a page that is mapped |
| VmMachine.Machine.Mappages | CS202_Operating System/xv6-public/vm.c:60-80 | the pages of the range map consecutive frames with the given flags and no other mapping changes, up to a missing table or a mapped page |
| VmMachine.Machine.AddPage | CS202_Operating System/xv6-public/vm.c:233-247 | one new user page in a frame of its own with given bytes, or nothing mapped |
| VmMachine.Machine.Allocuvm | CS202_Operating System/xv6-public/vm.c:221-250 | growing adds exactly the pages of the range, zeroed, writable and the user's; without memory they are gone again; all other pages keep mapping and bytes, and no frame is lost; memory runs out exactly if the free frames are fewer than the pages of the range and the tables it lacks, and the remap panic comes exactly at the first page of the range that is mapped, if the frames last so long |
| VmMachine.NeedsNext | CS202_Operating System/xv6-public/vm.c:233-249 | adding a page takes one frame, and a second one exactly if its table is not there |
| VmMachine.UpLeast | CS202_Operating System/xv6-public/mmu.h:131-131 | PGROUNDUP gives the least number of pages that hold so many bytes |
| VmMachine.Machine.Deallocuvm | CS202_Operating System/xv6-public/vm.c:255-280 | exactly the pages of the range are unmapped and their frames freed, the jump over absent tables included; the kfree panic is not reached |
| VmMachine.Machine.DropPage | CS202_Operating System/xv6-public/vm.c:269-275 | one turn of deallocuvm's loop: a mapped page is unmapped and its frame freed |
| VmMachine.Machine.FreeTables | CS202_Operating System/xv6-public/vm.c:290-297 | every table and the directory are freed, each once |
| VmMachine.Machine.Freevm | CS202_Operating System/xv6-public/vm.c:283-298 | afterwards exactly the frames that were free or the address space's are free |
| VmMachine.Machine.MapRange | CS202_Operating System/xv6-public/vm.c:129-134 | one range of the kernel's table is mapped |
| VmMachine.Machine.Setupkvm | CS202_Operating System/xv6-public/vm.c:117-136 | a directory with exactly the kernel's mappings, built of 65 frames that were free, without a remap panic; or, exactly when fewer are free, the free frames as before |
| VmMachine.Machine.Copyuvm | CS202_Operating System/xv6-public/vm.c:315-343 | the copy maps the same pages with the same flags and bytes, and the kernel, in frames that were free; the parent and all other memory are untouched; it succeeds exactly with 65 + pages + tables free frames, and loses one exactly with 66 + 1025 j of them for a j with 1024 j pages or fewer copied; where a page is missing the panic comes exactly at the first such page, if the frames last so long; the numbers are for a copy during which nobody else takes or frees a frame |
| VmMachine.Machine.CopyThenFree | CS202_Operating System/xv6-public/vm.c:283-343 | copyuvm, and freevm if it succeeds, puts the free frames back exactly as they were, but for the one frame lost with exactly those numbers of free frames |
| VmMachine.CopiedPage | CS202_Operating System/xv6-public/vm.c:328-336 | each page of the copy has the parent's flags and bytes in a frame that is no other page's and is no longer free |
| VmCount.FrameCount | CS202_Operating System/xv6-public/vm.c:315-343 | the frames free, in hand and referenced add up to all frames |
| VmCount.SlotCount | CS202_Operating System/xv6-public/vm.c:117-136 | a space with the kernel's mappings and v user pages takes 65 frames, v more, and one for every 1024 of them |
| VmMachine.CopyShort | CS202_Operating System/xv6-public/vm.c:328-336 | a copy that stops does so for want of a page or, exactly with these numbers of frames, of a table for a page it has already taken |
| VmMachine.StrandedAt | CS202_Operating System/xv6-public/vm.c:328-336 | 66, 1091, 2116, ... free frames are such numbers |
| VmMachine.ParentView | CS202_Operating System/xv6-public/vm.c:315-343 | while a copy is built the parent's mapping and its frames stay as they are |
| Rm.CreateFile | CS236_Database Management/redbase-spatial/src/rm_manager.cc:24-88 | CreateFile accepts exactly the record sizes 1 to 4083 and writes a header whose layout fits the page and passes isValidFileHeader; the bitmap has the fewest bytes with a bit for each of the records of CalcNumRecPerPage, and there are as many slots as fit behind it |
| Rm.CalcBounds | CS236_Database Management/redbase-spatial/src/rm_filehandle.cc:539-541 | the rounded-down quotient is the largest record count that fits with one bit each |
| Rm.Fits | CS236_Database Management/redbase-spatial/src/rm_manager.cc:32-77 | for every accepted size the bitmap has a bit for every slot, and bitmap and slots fit the page with no room for one more |
| Rm.SlotRange | CS236_Database Management/redbase-spatial/src/rm_filehandle.cc:147-148 | the slots lie inside the page, behind the bitmap and apart from each other |
| Rm.CountChange | CS236_Database Management/redbase-spatial/src/rm_filehandle.cc:451-471 | setting a clear bit raises the number of set bits by one and clearing a set one lowers it by one |
| Rm.StoredOk | CS236_Database Management/redbase-spatial/src/rm_filehandle.cc:195-206 | storing a record keeps the page in order: one more bit and record count, these bytes in the slot, every other slot as it was |
| Rm.RemovedOk | CS236_Database Management/redbase-spatial/src/rm_filehandle.cc:259-262 | removing a record keeps the page in order and every other slot as it was |
| Rm.ReplacedOk | CS236_Database Management/redbase-spatial/src/rm_filehandle.cc:316-321 | replacing a record changes the bytes of its slot and nothing else |
| Rm.PhantomIff | CS236_Database Management/redbase-spatial/src/rm_filehandle.cc:478-488 | CheckBitSet's bound lets the slot past the last one look used exactly when the bitmap has no spare bit and the first record's first byte is odd |
| Rm.PhantomStored | CS236_Database Management/redbase-spatial/src/rm_filehandle.cc:195-206 | in such a layout every record stored in slot 0 whose first byte is odd makes the phantom appear |
| Rm.PhantomNew | CS236_Database Management/redbase-spatial/src/rm_filehandle.cc:195-206 | and so on a new page |
| Rm.PhantomSize | CS236_Database Management/redbase-spatial/src/rm_manager.cc:32-33 | records of 500 bytes are such a layout |
| RmFile.FileHandle.constructor | CS236_Database Management/redbase-spatial/src/rm_manager.cc:107-120 | a new file holds no record and its free-page list is empty |
| RmFile.FileHandle.GetFirstZeroBit | CS236_Database Management/redbase-spatial/src/rm_filehandle.cc:495-505 | the first clear bit, or page full exactly when all are set |
| RmFile.FileHandle.GetRec | CS236_Database Management/redbase-spatial/src/rm_filehandle.cc:114-157 | the bytes the map holds for the identifier, found exactly when it is there; which of the five errors comes back otherwise; reads past the page exactly for a phantom slot |
| RmFile.FileHandle.AllocateNewPage | CS236_Database Management/redbase-spatial/src/rm_filehandle.cc:51-76 | a new page with room heads the list and no record changes |
| RmFile.FileHandle.InsertRec | CS236_Database Management/redbase-spatial/src/rm_filehandle.cc:164-222 | a new identifier maps to the bytes and all others are as they were; it is the first unused slot of the page at the head of the list, or of a new one, and the page leaves the list exactly if it is full now; without a failing page file there is no error |
| RmFile.FileHandle.DeleteRec | CS236_Database Management/redbase-spatial/src/rm_filehandle.cc:229-276 | exactly that identifier leaves the map, a page that was full heads the list, and the file stays in order exactly when the identifier is not a phantom; for a phantom the resulting pages and header are given; which error comes back otherwise |
| RmFile.FileHandle.UpdateRec | CS236_Database Management/redbase-spatial/src/rm_filehandle.cc:283-329 | exactly that identifier maps to the new bytes; which error comes back otherwise |
| RmFile.FileHandle.Reopen | CS236_Database Management/redbase-spatial/src/rm_manager.cc:184-215 | closing and opening keeps every record, and the free-page list is in order exactly if no page has room, since header_modified is never set |
| RmFile.ReopenLoses | CS236_Database Management/redbase-spatial/src/rm_manager.cc:184-215 | a file of one page with room, whose list is in order in the open handle and for which no list is once it is reopened |
| RmFile.ListPop | CS236_Database Management/redbase-spatial/src/rm_filehandle.cc:209-212 | a page that fills up leaves the list, which stays exactly the pages with room |
| RmFile.ListPush | CS236_Database Management/redbase-spatial/src/rm_filehandle.cc:263-267 | a full page that loses a record becomes the first of the list, which stays exactly the pages with room |
| RmFile.PhantomRemoved | CS236_Database Management/redbase-spatial/src/rm_filehandle.cc:250-267 | deleting a phantom makes the page's record count wrong |
| RmScan.ScanOrder | CS236_Database Management/redbase-spatial/src/rm_filescan.cc:201-269 | the records in the order of a scan are exactly those of the file, each once, by page and slot |
| RmScan.PageCount | CS236_Database Management/redbase-spatial/src/rm_filescan.cc:223-242 | a page's record count tells how many records are left after some were seen |
| RmScan.FileScan.constructor | CS236_Database Management/redbase-spatial/src/rm_filescan.cc:169-181 | an opened scan has every record of the file before it |
| RmScan.FileScan.GetNextOneBit | CS236_Database Management/redbase-spatial/src/rm_filehandle.cc:513-523 | the first set bit from a position on, if there is one |
| RmScan.FileScan.NextPageRecord | CS236_Database Management/redbase-spatial/src/rm_filehandle.cc:361-382 | the first record of the following pages, with only its page pinned, or end of file exactly when there is none |
| RmScan.FileScan.SamePageRecord | CS236_Database Management/redbase-spatial/src/rm_filehandle.cc:383-389 | the next record of the page |
| RmScan.FileScan.NextRecord | CS236_Database Management/redbase-spatial/src/rm_filescan.cc:211-248 | one record on: the counters find the end of a page, and the page unpinned is always the pinned one |
| RmScan.FileScan.GetNextRec | CS236_Database Management/redbase-spatial/src/rm_filescan.cc:201-269 | the next record that satisfies the condition, passing over only records that do not, and end of file exactly when none is left; a closed scan is refused |
| RmScan.FileScan.CloseScan | CS236_Database Management/redbase-spatial/src/rm_filescan.cc:277-293 | wherever an open scan has stopped no page of it stays pinned; a closed one is refused |
| Grep.StarSplit | CS202_Operating System/xv6-public/grep.c:98-106 | a starred character and a rest match at the beginning of a text exactly when some run of the character is followed by a match of the rest |
| Grep.CharHere | CS202_Operating System/xv6-public/grep.c:93-94 | a character and a rest match exactly when the text starts with it and the rest matches after |
| Grep.Match | CS202_Operating System/xv6-public/grep.c:72-82 | 1 exactly when some substring is in the language of the pattern: a prefix after ^, a suffix before $ |
| Grep.MatchHere | CS202_Operating System/xv6-public/grep.c:84-96 | 1 exactly when a prefix of the text is in the language, all of it before $ |
| Grep.MatchStar | CS202_Operating System/xv6-public/grep.c:98-106 | the shortest-first loop misses no way to split the text, and ends |
| Pipe.RunFifo | CS202_Operating System/xv6-public/pipe.c:78-121 | in every interleaving of byte steps, bytes delivered followed by bytes buffered are the bytes accepted, in order, and the counters stay 0 to PIPESIZE apart modulo 2^32 |
| Pipe.PutOk | CS202_Operating System/xv6-public/pipe.c:93 | a byte written goes behind the others wherever the counters are |
| Pipe.GetOk | CS202_Operating System/xv6-public/pipe.c:116 | a byte read is the oldest |
| Pipe.PipeBuf.Pipewrite | CS202_Operating System/xv6-public/pipe.c:78-98 | pipewrite while it holds the lock appends its bytes in order until done or full, where it sleeps or gives up |
| Pipe.PipeBuf.Piperead | CS202_Operating System/xv6-public/pipe.c:100-121 | piperead takes the oldest bytes, as many as asked for or all there are, and sleeps only on an empty pipe with a writer |
| Stride.Scheduler.RunOne | CS202_Operating System/xv6-public/proc.c:461-488 | the process with the smallest stride below MAXSTRIDE runs and moves on by its pass; nobody runs exactly when there is none |
| Stride.Scheduler.RunTurn | CS202_Operating System/xv6-public/proc.c:435-489 | a turn is a round of all runnable processes if their strides add up to 0, and otherwise a pick |
| Stride.NoRoundRobin | CS202_Operating System/xv6-public/proc.c:437-440 | strides that are not negative and not all 0 stay so: round robin never takes over from the stride branch |
| Stride.RunClose | CS202_Operating System/xv6-public/proc.c:462-488 | after any number of turns no runnable process is further ahead of another than at the start or than its own pass |
| Stride.Fair | CS202_Operating System/xv6-public/proc.c:462-488 | the turns two processes had, weighed by their passes, differ by no more than a constant |
| Stride.Stuck | CS202_Operating System/xv6-public/proc.c:463-475 | once every runnable process has reached MAXSTRIDE no turn chooses anybody again |
| Stride.GetsStuck | CS202_Operating System/xv6-public/proc.c:463-475 | from every table with positive passes and strides that add up to more than 0 a run leads to a table in which nobody is chosen any more |

## Left out

- GroupCommit.RunSafe: a safety result; that a waiting process is woken is not modelled. GroupProgress.CommitCompletes shows that a commit can go on, not that it is scheduled.
- GroupCommit.Step: a panic ends a run, so a step that panics is none; GroupRuns says exactly when one is reached. A step that writes where the log has no room is one of the model, but the invariant does not hold after it; what a store past log.lh.block does to memory is not modelled.
- GroupCommit.RunInv: holds up to the first such step, as do the other results about runs; GroupRuns.SafeContained and GroupRaces.DurableIff say when there is none.
- GroupProgress.CommitCompletes: for a commit that fits the log area; GroupRaces is about the others.
- Log.Log.Commit: for a commit that waits for nobody: what others hold is neither of the log area nor a logged block. Waiting for such a buffer is part of GroupCommit.
- Log.Log.EndOp: the same, for the last operation.
- Log.Log.WriteLog: the same.
- PfFile.FileHandle.GetThisPage: assumes that no page is pinned 65535 times at once, since the pin count has 16 bits and wraps around (PfPins.PinWraps).
- PfFile.FileHandle.GetNextPage: the same.
- PfFile.FileHandle.AllocatePage: the same.
- PfFile.FileHandle.TakeFree: the same.
- PfFile.FileHandle.DisposePage: the same.
- QoManager.NoOrderIsCheaper: estimates are real numbers; optimality over all orders is stated for estimates of size that do not depend on the order, since the table keeps only the cheapest way to a set; the minimum at each table entry needs no such assumption.
- QoManager.Manager.Compute: at most 32 relations, the bits of an `int`, and estimates below FLT_MAX. `AddRelToBitmap` (qo_manager.cc:343) also lets relation number 32 through, where the shift `1 << 32` is undefined; that is not modelled.
- QlSelect.Select: the same with the optimizer.
- QlManager.Manager.ParseConditions: attribute names are already resolved to indices and types already compared; only the placing of conditions is modelled.
- Umalloc.Allocator.Morecore: the model stops where the header of units that were not given would be written.
- Umalloc.Allocator.Malloc: what `sbrk` answers is a parameter. Where malloc claims units it was not given the model of the method stops, before the header is written to memory that may not be there; that a negative count takes memory away is not modelled.
- RmFile.FileHandle.InsertRec: when the page file cannot allocate a page, the source goes on with an undefined page number; the model stops with the error and leaves the file as it was.
- RmFile.FileHandle.UpdateRec: that the write for a phantom slot reaches past the page is an outcome; what it does to the memory behind is not modelled.
- FsFiles.FileSystem.Filewrite: for files; writes to pipes are those of `Pipe`, and negative counts, which write nothing, are left out.
- RmScan.FileScan.NextPageRecord: page file errors, which the source ignores during a scan, are left out.
- Stride.Fair: sums of stride and pass are mathematical integers; the 32-bit overflow of a pass close to 2^31 is not modelled.
- Pipe.RunFifo: sleeping and waking are not modelled, only which bytes pass.
- Inodes on disk: `iupdate` copies the in-memory inode to a separate array of disk inodes, not into the bytes of an inode block; device inodes, directories, paths and link counts are left out.
- The file system layer works on the blocks its operations see through the log. Its operations log all they change, and GroupFiles.FilesSurvive joins the two layers for any disk a group leaves, but an operation of `FsFiles` is not broken down into the events of `GroupCommit`. Record files likewise work on the pages `PfFile` gives them.
- The pages of a record file carry their header as two fields in front of the bytes; a scan's comparison is a parameter, the file does not change while it is scanned, and page file errors during a scan, which the source ignores, are left out.
- `GetPrevPage`, `GetLastPage` and the opening and closing of paged files: mirrors of what is modelled, or file system calls.
- `ClearBuffer`, `ResizeBuffer`, `AllocateBlock`, `DisposeBlock`: they discard dirty pages or use keys made from addresses, outside what the pool promises.
- Index scans and index joins, MBR conditions, string comparison, printing, catalog lookup, the update and delete statements, and the cost arithmetic of `qo_manager.cc`, whose results are parameters (their shape is that of SourceFormula); `CalcCondsForRel` and how conditions change the statistics are part of that parameter.
- `inituvm`, `loaduvm`, `copyout`, `clearpteu`, segment setup and the hardware's own bits in page table entries.
- Fork, exit, wait and the lottery branch of the scheduler; grep's line buffering; pipe allocation and closing.
- The R-tree index, the shell, device drivers, boot code and user programs.
