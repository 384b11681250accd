/** Group commit under concurrency: any number of processes run file system operations and plain reads
    over the shared buffer cache, interleaved step by step with commit() and with crashes. */
module GroupCommit {
  import opened Blocks
  import opened Bio
  import opened LogDisk
  import opened Options
  import opened Seqs
  import opened Log

  datatype Params = Params(g: Geometry, limit: nat, maxop: nat)     // log area, LOGSIZE, MAXOPBLOCKS

  /** One process: whether it is between begin_op and end_op and which blocks it has logged there,
      the buffer it has referenced and waits to lock, the buffers it has locked, those of them it has
      modified since its last log_write, the buffer it has unlocked but still references, and the buffer for
      which it has passed log_write's test for room and waits for log.lock. */
  datatype Thread = Thread(inOp: bool, mine: set<nat>, began: nat,
                           waiting: Option<nat>, held: set<nat>, touched: set<nat>, leaving: Option<nat>, passed: Option<nat>)

  /** How far the committing process is in commit(). */
  datatype Phase = Open | Copying(k: nat) | Installing(k: nat) | Closing

  /** groups and logged are history: the file system after each commit, and what the operations of the
      current group logged last for each block. pins lists the buffers of the logged blocks. */
  datatype Machine = Machine(
    disk: Disk, cache: Cache, lh: seq<Word>, outstanding: nat, committing: bool,
    phase: Phase, who: nat, threads: seq<Thread>,
    groups: seq<Disk>, logged: map<nat, Block>, pins: seq<nat>)

  const Idle: Thread := Thread(false, {}, 0, None, {}, {}, None, None)

  datatype Event =
    | Begin(t: nat)
    | Get(t: nat, blockno: nat)
    | Acquire(t: nat)
    | Modify(t: nat, i: nat, data: Block)
    | Test(t: nat, i: nat)
    | Write(t: nat, i: nat)
    | Release(t: nat, i: nat)
    | Drop(t: nat)
    | End(t: nat)
    | CopyOut(to: nat, from: nat)
    | CommitHead(i: nat)
    | Install(lbuf: nat, dbuf: nat)
    | ClearHead(i: nat)
    | Close
    | Crash(cuts: seq<nat>, boot: Cache)

  // ----- the steps

  /** Indices are in range and the ring is a ring: what it takes for the steps to be defined. */
  ghost predicate Shape(p: Params, m: Machine) {
    RingOk(m.cache.ring, |m.cache.bufs|) && DiskOk(p.g, m.disk) && |m.disk| <= U32 &&
    |m.lh| < WORDS && |m.groups| > 0 && m.who < |m.threads| &&
    (forall t :: 0 <= t < |m.threads| ==>
       (m.threads[t].waiting.Some? ==> m.threads[t].waiting.value < |m.cache.bufs|) &&
       (m.threads[t].leaving.Some? ==>
          (m.threads[t].leaving.value < |m.cache.bufs| && 0 < m.cache.bufs[m.threads[t].leaving.value].refcnt)) &&
       (m.threads[t].passed.Some? ==> m.threads[t].passed.value < |m.cache.bufs|) &&
       (forall i :: i in m.threads[t].held ==> i < |m.cache.bufs|))
  }

  /** The process is not in the middle of a log_write. */
  predicate Runs(m: Machine, t: nat) {
    t < |m.threads| && m.threads[t].passed == None
  }

  /** A home block whose buffer the thread holds in an operation: what a client may modify or log. */
  ghost predicate Writable(p: Params, m: Machine, t: nat, i: nat)
    requires Shape(p, m)
  {
    Runs(m, t) && m.threads[t].inOp && i in m.threads[t].held && !InLog(p.g, m.cache.bufs[i].blockno)
  }

  /** log_write would panic. */
  predicate LogWritePanics(p: Params, m: Machine) {
    |m.lh| >= p.limit || |m.lh| >= p.g.size - 1 || m.outstanding < 1
  }

  /** end_op would panic. */
  predicate EndOpPanics(m: Machine) {
    m.committing
  }

  /** The committing process holds the buffer of this block. */
  ghost predicate CommitterHolds(p: Params, m: Machine, i: nat, blockno: nat)
    requires Shape(p, m)
  {
    i in m.threads[m.who].held && Keyed(m.cache.bufs[i], 1, blockno)
  }

  ghost predicate Enabled(p: Params, m: Machine, e: Event)
    requires Shape(p, m)
  {
    match e
    case Begin(t) => Runs(m, t) && !m.threads[t].inOp && MayBegin(|m.lh|, m.outstanding, m.committing, p.maxop, p.limit)
    case Get(t, b) => Runs(m, t) && m.threads[t].waiting == None && b < |m.disk| && GetBuf(m.cache, 1, b).Got?
    case Acquire(t) => Runs(m, t) && m.threads[t].waiting.Some? && !m.cache.bufs[m.threads[t].waiting.value].locked
    case Modify(t, i, _) => Writable(p, m, t, i)
    case Test(t, i) => Writable(p, m, t, i) && !LogWritePanics(p, m)
    case Write(t, i) => t < |m.threads| && m.threads[t].passed == Some(i)
    case Release(t, i) => Runs(m, t) && i in m.threads[t].held && i !in m.threads[t].touched && m.threads[t].leaving == None
    case Drop(t) => Runs(m, t) && m.threads[t].leaving.Some?
    case End(t) => Runs(m, t) && m.threads[t].inOp && m.threads[t].touched == {} && !EndOpPanics(m) && 1 <= m.outstanding
    case CopyOut(to, from) =>
      m.phase.Copying? && m.phase.k < |m.lh| &&
      CommitterHolds(p, m, to, p.g.start + 1 + m.phase.k) && CommitterHolds(p, m, from, m.lh[m.phase.k])
    case CommitHead(i) => m.phase == Copying(|m.lh|) && CommitterHolds(p, m, i, p.g.start)
    case Install(lbuf, dbuf) =>
      m.phase.Installing? && m.phase.k < |m.lh| &&
      CommitterHolds(p, m, lbuf, p.g.start + 1 + m.phase.k) && CommitterHolds(p, m, dbuf, m.lh[m.phase.k])
    case ClearHead(i) => m.phase == Installing(|m.lh|) && CommitterHolds(p, m, i, p.g.start)
    case Close => m.phase == Closing
    case Crash(cuts, boot) =>
      |boot.bufs| == |m.cache.bufs| && Fresh(p.g, boot, Recover(p.g, CrashedRecoveries(p.g, m.disk, cuts)))
  }

  function SetThread(m: Machine, t: nat, th: Thread): Machine
    requires t < |m.threads|
  {
    m.(threads := m.threads[t := th])
  }

  function SetBuf(m: Machine, i: nat, b: Buf): Machine
    requires i < |m.cache.bufs|
  {
    m.(cache := m.cache.(bufs := m.cache.bufs[i := b]))
  }

  /** memmove into buffer i followed by bwrite: the block is on disk and the buffer clean. */
  function Store(m: Machine, i: nat, data: Block): Machine
    requires i < |m.cache.bufs| && m.cache.bufs[i].blockno < |m.disk|
  {
    SetBuf(m, i, m.cache.bufs[i].(data := data, dirty := false, valid := true))
      .(disk := m.disk[m.cache.bufs[i].blockno := data])
  }

  /** The file system after a group: the blocks it logged replace the old ones. */
  function Apply(d: Disk, logged: map<nat, Block>): (r: Disk)
    ensures |r| == |d|
  {
    seq(|d|, b requires 0 <= b < |d| => if b in logged then logged[b] else d[b])
  }

  function Last(m: Machine): Disk
    requires |m.groups| > 0
  {
    m.groups[|m.groups| - 1]
  }

  ghost function Next(p: Params, m: Machine, e: Event): Machine
    requires Shape(p, m) && Enabled(p, m, e)
  {
    match e
    case Begin(t) =>
      SetThread(m, t, m.threads[t].(inOp := true, mine := {}, began := |m.groups|)).(outstanding := m.outstanding + 1)
    case Get(t, b) =>
      var got := GetBuf(m.cache, 1, b);
      SetThread(m, t, m.threads[t].(waiting := Some(got.i))).(cache := got.c)
    case Acquire(t) =>
      var i := m.threads[t].waiting.value;
      var got := LockAndFill(m.cache, m.disk, i);
      if got.Halt? then m
      else SetThread(m, t, m.threads[t].(waiting := None, held := m.threads[t].held + {i})).(cache := got.c)
    case Modify(t, i, data) =>
      SetBuf(SetThread(m, t, m.threads[t].(touched := m.threads[t].touched + {i})), i, m.cache.bufs[i].(data := data))
    case Test(t, i) => SetThread(m, t, m.threads[t].(passed := Some(i)))
    case Write(t, i) =>
      var b := m.cache.bufs[i];
      var th := m.threads[t].(mine := m.threads[t].mine + {b.blockno}, touched := m.threads[t].touched - {i}, passed := None);
      if b.blockno >= U32 then m
      else
        SetBuf(SetThread(m, t, th), i, b.(dirty := true))
          .(lh := Absorb(m.lh, b.blockno), logged := m.logged[b.blockno := b.data],
            pins := if b.blockno in m.lh then m.pins else m.pins + [i])
    case Release(t, i) =>
      SetThread(m, t, m.threads[t].(held := m.threads[t].held - {i}, leaving := Some(i))).(cache := Unlock(m.cache, i))
    case Drop(t) =>
      SetThread(m, t, m.threads[t].(leaving := None)).(cache := DropRef(m.cache, m.threads[t].leaving.value))
    case End(t) =>
      var m1 := SetThread(m, t, m.threads[t].(inOp := false, mine := {})).(outstanding := m.outstanding - 1);
      if m.outstanding == 1
      then m1.(committing := true, who := t, phase := if m.lh == [] then Closing else Copying(0))
      else m1
    case CopyOut(to, from) =>
      if m.cache.bufs[to].blockno >= |m.disk| then m
      else Store(m, to, m.cache.bufs[from].data).(phase := Copying(m.phase.k + 1))
    case CommitHead(i) =>
      Store(m, i, EncodeHead(m.cache.bufs[i].data, m.lh))
        .(phase := Installing(0), groups := m.groups + [Apply(Last(m), m.logged)])
    case Install(lbuf, dbuf) =>
      if m.cache.bufs[dbuf].blockno >= |m.disk| then m
      else Store(m, dbuf, m.cache.bufs[lbuf].data).(phase := Installing(m.phase.k + 1))
    case ClearHead(i) =>
      Store(m, i, EncodeHead(m.cache.bufs[i].data, []))
        .(phase := Closing, lh := [], logged := map[], pins := [])
    case Close => m.(phase := Open, committing := false)
    case Crash(cuts, boot) =>
      m.(disk := Recover(p.g, CrashedRecoveries(p.g, m.disk, cuts)), cache := boot,
         lh := [], outstanding := 0, committing := false, phase := Open, who := 0,
         threads := seq(|m.threads|, _ => Idle), logged := map[], pins := [])
  }

  // ----- the invariant

  function Refs(th: Thread, i: nat): nat {
    (if th.waiting == Some(i) then 1 else 0) + (if i in th.held then 1 else 0) + (if th.leaving == Some(i) then 1 else 0)
  }

  function RefSum(ts: seq<Thread>, i: nat): nat {
    if ts == [] then 0 else Refs(ts[0], i) + RefSum(ts[1..], i)
  }

  function Active(ts: seq<Thread>): nat {
    if ts == [] then 0 else (if ts[0].inOp then 1 else 0) + Active(ts[1..])
  }

  /** The reference counts count the references. */
  ghost predicate RefsOk(bufs: seq<Buf>, ts: seq<Thread>) {
    forall i :: 0 <= i < |bufs| ==> bufs[i].refcnt == RefSum(ts, i)
  }

  /** A buffer that carries a block of the disk. */
  predicate OnDisk(b: Buf, size: nat) {
    b.dev == 1 && b.blockno < size
  }

  /** What a process holds is locked and carries a block; so does what it waits for. */
  ghost predicate HeldOk(bufs: seq<Buf>, th: Thread, size: nat) {
    (forall i :: i in th.held ==> i < |bufs| && bufs[i].locked && bufs[i].valid && OnDisk(bufs[i], size)) &&
    (th.waiting.Some? ==> th.waiting.value < |bufs| && OnDisk(bufs[th.waiting.value], size)) &&
    (th.leaving.Some? ==> th.leaving.value < |bufs|)
  }

  /** A locked buffer has exactly one holder. */
  ghost predicate LocksOk(bufs: seq<Buf>, ts: seq<Thread>, size: nat) {
    (forall t :: 0 <= t < |ts| ==> HeldOk(bufs, ts[t], size)) &&
    (forall t, u :: 0 <= t < u < |ts| ==> ts[t].held !! ts[u].held) &&
    (forall i :: 0 <= i < |bufs| && bufs[i].locked ==> HasHolder(ts, i))
  }

  ghost predicate HasHolder(ts: seq<Thread>, i: nat) {
    exists t :: 0 <= t < |ts| && i in ts[t].held
  }

  /** Only operations modify buffers, and only buffers they hold; an operation lies within one group. */
  ghost predicate OpsOk(ts: seq<Thread>, ngroups: nat) {
    forall t :: 0 <= t < |ts| ==>
      ts[t].touched <= ts[t].held &&
      (!ts[t].inOp ==> ts[t].touched == {}) && (ts[t].inOp ==> ts[t].began == ngroups)
  }

  /** Who has passed the test for room is in an operation, and holds the buffer of a home block. */
  ghost predicate PassedOk(g: Geometry, bufs: seq<Buf>, ts: seq<Thread>) {
    forall t :: 0 <= t < |ts| && ts[t].passed.Some? ==>
      (ts[t].inOp && ts[t].passed.value in ts[t].held && ts[t].passed.value < |bufs| &&
       !InLog(g, bufs[ts[t].passed.value].blockno))
  }

  ghost predicate CountsOk(p: Params, m: Machine) {
    m.outstanding == Active(m.threads) && |m.lh| <= p.limit &&
    (m.committing <==> m.phase != Open) && (m.committing ==> m.outstanding == 0) && m.who < |m.threads| &&
    (m.phase.Copying? ==> 0 < |m.lh| && m.phase.k <= |m.lh|) && (m.phase.Installing? ==> m.phase.k <= |m.lh|) &&
    (m.phase.Closing? ==> m.lh == [])
  }

  function Done(m: Machine): nat {
    if m.phase.Installing? then m.phase.k else 0
  }

  /** The log names home blocks. Whether so many fit the log area is another matter. */
  predicate LoggedOk(g: Geometry, lh: seq<Word>, size: nat) {
    |lh| < WORDS && forall i :: 0 <= i < |lh| ==> lh[i] < size && !InLog(g, lh[i])
  }

  /** The logged blocks not yet installed are pinned, and nothing else is. */
  ghost predicate PinsOk(g: Geometry, c: Cache, lh: seq<Word>, pins: seq<nat>, done: nat, logged: map<nat, Block>, size: nat) {
    LoggedOk(g, lh, size) && NoDup(lh) && Pinned(c, lh, pins, done) && (forall b :: b in logged <==> b in lh)
  }

  ghost predicate Touched(ts: seq<Thread>, i: nat) {
    exists t :: 0 <= t < |ts| && i in ts[t].touched
  }

  /** Buffer b holds what was last logged for its block, or what the disk holds. */
  ghost predicate Current(b: Buf, logged: map<nat, Block>, d: Disk) {
    if b.dirty then b.blockno in logged && b.data == logged[b.blockno]
    else b.blockno < |d| && b.data == d[b.blockno]
  }

  /** A valid buffer nobody is modifying is current. */
  ghost predicate DataOk(bufs: seq<Buf>, ts: seq<Thread>, logged: map<nat, Block>, d: Disk) {
    forall i :: 0 <= i < |bufs| && bufs[i].valid && bufs[i].dev == 1 && !Touched(ts, i) ==> Current(bufs[i], logged, d)
  }

  /** The first k log blocks on disk hold what was last logged. */
  ghost predicate Stored(g: Geometry, d: Disk, lh: seq<Word>, logged: map<nat, Block>, k: nat) {
    k <= |lh| && g.start + k < |d| &&
    forall j :: 0 <= j < k ==> lh[j] in logged && d[g.start + 1 + j] == logged[lh[j]]
  }

  /** The first k logged blocks are in their home locations. */
  ghost predicate Home(d: Disk, lh: seq<Word>, logged: map<nat, Block>, k: nat) {
    k <= |lh| && forall j :: 0 <= j < k ==> lh[j] < |d| && lh[j] in logged && d[lh[j]] == logged[lh[j]]
  }

  /** The disk carries the last group, whatever the phase of the commit. */
  ghost predicate DurableOk(g: Geometry, m: Machine) {
    |m.groups| > 0 && |m.disk| <= U32 && Holds(g, m.disk, Last(m)) &&
    Header(g, m.disk) == (if m.phase.Installing? then m.lh else []) &&
    (m.phase.Copying? ==> m.phase.k < g.size && Stored(g, m.disk, m.lh, m.logged, m.phase.k)) &&
    (m.phase.Installing? ==>
       |m.lh| < g.size && Stored(g, m.disk, m.lh, m.logged, |m.lh|) && Home(m.disk, m.lh, m.logged, m.phase.k))
  }

  ghost predicate Inv(p: Params, m: Machine) {
    CacheOk(m.cache) && RefsOk(m.cache.bufs, m.threads) && LocksOk(m.cache.bufs, m.threads, |m.disk|) &&
    OpsOk(m.threads, |m.groups|) && CountsOk(p, m) &&
    PinsOk(p.g, m.cache, m.lh, m.pins, Done(m), m.logged, |m.disk|) &&
    DataOk(m.cache.bufs, m.threads, m.logged, m.disk) && DurableOk(p.g, m) &&
    PassedOk(p.g, m.cache.bufs, m.threads)
  }

  /** The step writes where the log has no room: write_log copies a block past the end of the log area, or log_write
      stores a block number past the end of log.lh.block. log_write tests for room before it takes log.lock and does
      not test again, so that several processes may pass the test for the same room. */
  predicate Breaches(p: Params, m: Machine, e: Event) {
    (e.CopyOut? && m.phase.Copying? && m.phase.k + 1 >= p.g.size) ||
    (e.Write? && e.i < |m.cache.bufs| && m.cache.bufs[e.i].blockno !in m.lh && |m.lh| >= p.limit)
  }

  /** LOGSIZE block numbers fit the header block, as initlog checks. */
  predicate Fits(p: Params) {
    p.limit < WORDS
  }

  // ----- sums over processes

  lemma {:induction false} RefSumUpdate(ts: seq<Thread>, t: nat, th: Thread, i: nat)
    requires t < |ts|
    ensures RefSum(ts[t := th], i) == RefSum(ts, i) - Refs(ts[t], i) + Refs(th, i)
  {
    if t == 0 {
      assert ts[t := th][1..] == ts[1..];
    } else {
      assert ts[t := th][1..] == ts[1..][t - 1 := th];
      RefSumUpdate(ts[1..], t - 1, th, i);
    }
  }

  lemma {:induction false} RefSumAtLeast(ts: seq<Thread>, t: nat, i: nat)
    requires t < |ts|
    ensures Refs(ts[t], i) <= RefSum(ts, i)
  {
    if t > 0 { RefSumAtLeast(ts[1..], t - 1, i); }
  }

  lemma RefSumTwo(ts: seq<Thread>, t: nat, u: nat, i: nat)
    requires t < |ts| && u < |ts| && t != u
    ensures Refs(ts[t], i) + Refs(ts[u], i) <= RefSum(ts, i)
  {
    RefSumUpdate(ts, t, Idle, i);
    RefSumAtLeast(ts[t := Idle], u, i);
  }

  lemma {:induction false} ActiveUpdate(ts: seq<Thread>, t: nat, th: Thread)
    requires t < |ts|
    ensures Active(ts[t := th]) == Active(ts) - (if ts[t].inOp then 1 else 0) + (if th.inOp then 1 else 0)
  {
    if t == 0 {
      assert ts[t := th][1..] == ts[1..];
    } else {
      assert ts[t := th][1..] == ts[1..][t - 1 := th];
      ActiveUpdate(ts[1..], t - 1, th);
    }
  }

  lemma {:induction false} OneActive(ts: seq<Thread>, t: nat)
    requires t < |ts| && ts[t].inOp
    ensures 1 <= Active(ts)
  {
    if t > 0 { OneActive(ts[1..], t - 1); }
  }

  lemma {:induction false} NoneActive(ts: seq<Thread>)
    requires Active(ts) == 0
    ensures forall t :: 0 <= t < |ts| ==> !ts[t].inOp
  {
    if ts != [] {
      NoneActive(ts[1..]);
      assert forall t :: 0 < t < |ts| ==> ts[t] == ts[1..][t - 1];
    }
  }

  // ----- a process that references a buffer keeps it from being recycled

  lemma Referenced(bufs: seq<Buf>, ts: seq<Thread>, t: nat, i: nat)
    requires RefsOk(bufs, ts) && t < |ts| && i < |bufs| && 0 < Refs(ts[t], i)
    ensures 0 < bufs[i].refcnt
  {
    RefSumAtLeast(ts, t, i);
  }

  lemma Unreferenced(bufs: seq<Buf>, ts: seq<Thread>, size: nat, i: nat)
    requires RefsOk(bufs, ts) && LocksOk(bufs, ts, size) && i < |bufs| && bufs[i].refcnt == 0
    ensures forall t :: 0 <= t < |ts| ==> i !in ts[t].held && ts[t].waiting != Some(i) && ts[t].leaving != Some(i)
  {
    forall t | 0 <= t < |ts| ensures Refs(ts[t], i) == 0 {
      RefSumAtLeast(ts, t, i);
    }
  }

  lemma InvShape(p: Params, m: Machine)
    requires Inv(p, m)
    ensures Shape(p, m)
  {
    hide Pinned, Holds, LoggedOk, Header, DiskOk, Stored, Home, DataOk, OpsOk, PassedOk, RefsOk, LocksOk, CacheOk, RingOk;
    InvHeader(p, m);
    ThreadsShape(m.cache.bufs, m.threads, |m.disk|);
    PassedShape(p.g, m.cache.bufs, m.threads);
  }

  lemma PassedShape(g: Geometry, bufs: seq<Buf>, ts: seq<Thread>)
    requires PassedOk(g, bufs, ts)
    ensures forall t :: 0 <= t < |ts| && ts[t].passed.Some? ==> ts[t].passed.value < |bufs|
  {}

  lemma PassedThread(g: Geometry, bufs: seq<Buf>, ts: seq<Thread>, t: nat, th: Thread)
    requires PassedOk(g, bufs, ts) && t < |ts| && th.passed == None
    ensures PassedOk(g, bufs, ts[t := th])
  {}

  lemma PassedBuf(g: Geometry, bufs: seq<Buf>, ts: seq<Thread>, i: nat, b: Buf)
    requires PassedOk(g, bufs, ts) && i < |bufs| && b.blockno == bufs[i].blockno
    ensures PassedOk(g, bufs[i := b], ts)
  {}

  lemma PassedGet(g: Geometry, bufs: seq<Buf>, ts: seq<Thread>, size: nat, i: nat, b: Buf)
    requires PassedOk(g, bufs, ts) && RefsOk(bufs, ts) && LocksOk(bufs, ts, size) && i < |bufs|
    requires b.blockno == bufs[i].blockno || bufs[i].refcnt == 0
    ensures PassedOk(g, bufs[i := b], ts)
  {
    hide RefsOk, LocksOk;
    if bufs[i].refcnt == 0 { Unreferenced(bufs, ts, size, i); }
  }

  lemma PassedAt(g: Geometry, bufs: seq<Buf>, ts: seq<Thread>, t: nat)
    requires PassedOk(g, bufs, ts) && t < |ts| && ts[t].passed.Some?
    ensures ts[t].inOp && ts[t].passed.value in ts[t].held && ts[t].passed.value < |bufs|
    ensures !InLog(g, bufs[ts[t].passed.value].blockno)
  {}

  lemma InvHeader(p: Params, m: Machine)
    requires Inv(p, m)
    ensures |m.lh| < WORDS && 0 < p.g.size && p.g.start + p.g.size <= |m.disk|
    ensures m.phase.Copying? ==> m.phase.k < p.g.size
    ensures m.phase.Installing? ==> |m.lh| < p.g.size
    ensures DiskOk(p.g, m.disk) && RingOk(m.cache.ring, |m.cache.bufs|)
  {}

  lemma ThreadsShape(bufs: seq<Buf>, ts: seq<Thread>, size: nat)
    requires RefsOk(bufs, ts) && LocksOk(bufs, ts, size)
    ensures forall t :: 0 <= t < |ts| ==>
              (ts[t].waiting.Some? ==> ts[t].waiting.value < |bufs|) &&
              (ts[t].leaving.Some? ==> (ts[t].leaving.value < |bufs| && 0 < bufs[ts[t].leaving.value].refcnt)) &&
              (forall i :: i in ts[t].held ==> i < |bufs|)
  {
    forall t | 0 <= t < |ts|
      ensures ts[t].leaving.Some? ==> (ts[t].leaving.value < |bufs| && 0 < bufs[ts[t].leaving.value].refcnt)
      ensures HeldOk(bufs, ts[t], size)
    {
      if ts[t].leaving.Some? {
        Referenced(bufs, ts, t, ts[t].leaving.value);
      }
    }
  }

  // ----- one component at a time: what a change of one process or one buffer keeps

  lemma RefsUpdate(bufs: seq<Buf>, ts: seq<Thread>, t: nat, th: Thread, i: nat, b: Buf)
    requires RefsOk(bufs, ts) && t < |ts| && i < |bufs|
    requires b.refcnt == bufs[i].refcnt - Refs(ts[t], i) + Refs(th, i)
    requires forall j: nat :: j != i ==> Refs(th, j) == Refs(ts[t], j)
    ensures RefsOk(bufs[i := b], ts[t := th])
  {
    var bs := bufs[i := b];
    forall j | 0 <= j < |bs| ensures bs[j].refcnt == RefSum(ts[t := th], j) {
      RefSumUpdate(ts, t, th, j);
    }
  }

  lemma RefsThread(bufs: seq<Buf>, ts: seq<Thread>, t: nat, th: Thread)
    requires RefsOk(bufs, ts) && t < |ts|
    requires th.waiting == ts[t].waiting && th.held == ts[t].held && th.leaving == ts[t].leaving
    ensures RefsOk(bufs, ts[t := th])
  {
    forall j | 0 <= j < |bufs| ensures bufs[j].refcnt == RefSum(ts[t := th], j) {
      RefSumUpdate(ts, t, th, j);
    }
  }

  lemma LocksThread(bufs: seq<Buf>, ts: seq<Thread>, size: nat, t: nat, th: Thread)
    requires LocksOk(bufs, ts, size) && t < |ts|
    requires th.waiting == ts[t].waiting && th.held == ts[t].held && th.leaving == ts[t].leaving
    ensures LocksOk(bufs, ts[t := th], size)
  {
    var us := ts[t := th];
    forall u | 0 <= u < |us| ensures HeldOk(bufs, us[u], size) {
      assert HeldOk(bufs, ts[u], size);
    }
    forall i | 0 <= i < |bufs| && bufs[i].locked ensures HasHolder(ts[t := th], i) {
      assert HasHolder(ts, i);
      var u :| 0 <= u < |ts| && i in ts[u].held;
      assert i in ts[t := th][u].held;
    }
  }

  /** A buffer may change its contents and dirty bit under the holders' feet. */
  lemma LocksBuf(bufs: seq<Buf>, ts: seq<Thread>, size: nat, i: nat, b: Buf)
    requires LocksOk(bufs, ts, size) && i < |bufs|
    requires b.locked == bufs[i].locked && (bufs[i].valid ==> b.valid) && b.dev == bufs[i].dev && b.blockno == bufs[i].blockno
    ensures LocksOk(bufs[i := b], ts, size)
  {
    forall t | 0 <= t < |ts| ensures HeldOk(bufs[i := b], ts[t], size) {
      assert HeldOk(bufs, ts[t], size);
    }
    forall j | 0 <= j < |bufs| && bufs[i := b][j].locked ensures HasHolder(ts, j) {
      assert bufs[j].locked;
    }
  }

  lemma DataThread(bufs: seq<Buf>, ts: seq<Thread>, logged: map<nat, Block>, d: Disk, t: nat, th: Thread)
    requires DataOk(bufs, ts, logged, d) && t < |ts| && ts[t].touched <= th.touched
    ensures DataOk(bufs, ts[t := th], logged, d)
  {
    forall i: nat | i < |bufs| && Touched(ts, i) ensures Touched(ts[t := th], i) {
      var u :| 0 <= u < |ts| && i in ts[u].touched;
      assert i in ts[t := th][u].touched;
    }
  }

  lemma OpsThread(ts: seq<Thread>, ngroups: nat, t: nat, th: Thread)
    requires OpsOk(ts, ngroups) && t < |ts| && th.touched <= th.held
    requires (!th.inOp ==> th.touched == {}) && (th.inOp ==> th.began == ngroups)
    ensures OpsOk(ts[t := th], ngroups)
  {}

  lemma DataBuf(bufs: seq<Buf>, ts: seq<Thread>, logged: map<nat, Block>, d: Disk, i: nat, b: Buf)
    requires DataOk(bufs, ts, logged, d) && i < |bufs|
    requires b.valid && b.dev == 1 && !Touched(ts, i) ==> Current(b, logged, d)
    ensures DataOk(bufs[i := b], ts, logged, d)
  {}

  lemma PinsBuf(c: Cache, lh: seq<Word>, pins: seq<nat>, done: nat, i: nat, b: Buf, ring: seq<nat>)
    requires Pinned(c, lh, pins, done) && i < |c.bufs| && (b.dirty <==> c.bufs[i].dirty)
    requires b.dirty ==> b.valid && Keyed(b, c.bufs[i].dev, c.bufs[i].blockno)
    ensures Pinned(Cache(c.bufs[i := b], ring), lh, pins, done)
  {}

  lemma CountsSame(p: Params, m: Machine, n: Machine, t: nat, th: Thread)
    requires CountsOk(p, m) && t < |m.threads| && n.threads == m.threads[t := th]
    requires th.inOp == m.threads[t].inOp
    requires n.outstanding == m.outstanding && n.lh == m.lh && n.committing == m.committing && n.phase == m.phase && n.who == m.who
    ensures CountsOk(p, n)
  {
    ActiveUpdate(m.threads, t, th);
  }

  lemma SameDurable(g: Geometry, m: Machine, n: Machine)
    requires DurableOk(g, m) && n.disk == m.disk && n.groups == m.groups && n.phase == m.phase && n.lh == m.lh && n.logged == m.logged
    ensures DurableOk(g, n)
  {
    hide Holds, Header, Stored, Home, DiskOk;
  }

  lemma NoTouch(ts: seq<Thread>, ngroups: nat, t: nat)
    requires OpsOk(ts, ngroups) && t < |ts|
    ensures ts[t].touched <= ts[t].held
    ensures !ts[t].inOp ==> ts[t].touched == {}
    ensures ts[t].inOp ==> ts[t].began == ngroups
  {}

  // ----- begin_op

  lemma BeginStep(p: Params, m: Machine, t: nat)
    requires Inv(p, m) && Shape(p, m) && Enabled(p, m, Begin(t))
    ensures Inv(p, Next(p, m, Begin(t)))
  {
    hide CacheOk, RefsOk, LocksOk, OpsOk, PassedOk, PinsOk, DataOk, DurableOk, CountsOk, DiskOk, RingOk;
    var th := m.threads[t].(inOp := true, mine := {}, began := |m.groups|);
    NoTouch(m.threads, |m.groups|, t);
    RefsThread(m.cache.bufs, m.threads, t, th);
    LocksThread(m.cache.bufs, m.threads, |m.disk|, t, th);
    OpsThread(m.threads, |m.groups|, t, th);
    DataThread(m.cache.bufs, m.threads, m.logged, m.disk, t, th);
    PassedThread(p.g, m.cache.bufs, m.threads, t, th);
    BeginCounts(p, m, t);
    SameDurable(p.g, m, Next(p, m, Begin(t)));
  }

  lemma BeginCounts(p: Params, m: Machine, t: nat)
    requires CountsOk(p, m) && Shape(p, m) && Enabled(p, m, Begin(t))
    ensures CountsOk(p, Next(p, m, Begin(t)))
  {
    hide DiskOk, RingOk;
    ActiveUpdate(m.threads, t, Next(p, m, Begin(t)).threads[t]);
  }

  // ----- bread and brelse

  lemma GetStep(p: Params, m: Machine, t: nat, blockno: nat)
    requires Inv(p, m) && Shape(p, m) && Enabled(p, m, Get(t, blockno))
    ensures Inv(p, Next(p, m, Get(t, blockno)))
  {
    hide CacheOk, RefsOk, LocksOk, OpsOk, PassedOk, Pinned, LoggedOk, DataOk, DurableOk, CountsOk, DiskOk, RingOk, GetBuf;
    GetBufSafe(m.cache, 1, blockno);
    var got := GetBuf(m.cache, 1, blockno);
    var i, b := got.i, got.c.bufs[got.i];
    var th := m.threads[t].(waiting := Some(i));
    assert got.c.bufs == m.cache.bufs[i := b];
    NoTouch(m.threads, |m.groups|, t);
    RefsUpdate(m.cache.bufs, m.threads, t, th, i, b);
    LocksGet(m.cache.bufs, m.threads, |m.disk|, t, i, b);
    OpsThread(m.threads, |m.groups|, t, th);
    PinsBuf(m.cache, m.lh, m.pins, Done(m), i, b, m.cache.ring);
    DataGet(m.cache.bufs, m.threads, m.logged, m.disk, i, b);
    DataThread(got.c.bufs, m.threads, m.logged, m.disk, t, th);
    PassedGet(p.g, m.cache.bufs, m.threads, |m.disk|, i, b);
    PassedThread(p.g, got.c.bufs, m.threads, t, th);
    CountsSame(p, m, Next(p, m, Get(t, blockno)), t, th);
    SameDurable(p.g, m, Next(p, m, Get(t, blockno)));
  }

  lemma LocksGet(bufs: seq<Buf>, ts: seq<Thread>, size: nat, t: nat, i: nat, b: Buf)
    requires RefsOk(bufs, ts) && LocksOk(bufs, ts, size) && t < |ts| && i < |bufs| && OnDisk(b, size)
    requires b == bufs[i].(refcnt := b.refcnt) || (Recyclable(bufs[i]) && !b.locked)
    ensures LocksOk(bufs[i := b], ts[t := ts[t].(waiting := Some(i))], size)
  {
    var us := ts[t := ts[t].(waiting := Some(i))];
    forall u | 0 <= u < |us| ensures HeldOk(bufs[i := b], us[u], size) {
      assert HeldOk(bufs, ts[u], size);
      if bufs[i].refcnt == 0 { Unreferenced(bufs, ts, size, i); }
    }
    forall j | 0 <= j < |bufs| && bufs[i := b][j].locked ensures HasHolder(us, j) {
      assert bufs[j].locked && HasHolder(ts, j);
      var u :| 0 <= u < |ts| && j in ts[u].held;
      assert j in us[u].held;
    }
  }

  lemma DataGet(bufs: seq<Buf>, ts: seq<Thread>, logged: map<nat, Block>, d: Disk, i: nat, b: Buf)
    requires DataOk(bufs, ts, logged, d) && i < |bufs| && (b == bufs[i].(refcnt := b.refcnt) || !b.valid)
    ensures DataOk(bufs[i := b], ts, logged, d)
  {}

  lemma AcquireStep(p: Params, m: Machine, t: nat)
    requires Inv(p, m) && Shape(p, m) && Enabled(p, m, Acquire(t))
    ensures Inv(p, Next(p, m, Acquire(t)))
    ensures LockAndFill(m.cache, m.disk, m.threads[t].waiting.value).Got?
  {
    hide CacheOk, RefsOk, LocksOk, OpsOk, PassedOk, Pinned, LoggedOk, DataOk, DurableOk, CountsOk, DiskOk, RingOk, LockAndFill;
    var i := m.threads[t].waiting.value;
    var was := m.cache.bufs[i];
    LocksAt(m.cache.bufs, m.threads, |m.disk|, t, i);
    Referenced(m.cache.bufs, m.threads, t, i);
    LockAndFillSafe(m.cache, m.disk, i);
    var b := was.(valid := true, locked := true, data := if was.valid then was.data else m.disk[was.blockno]);
    var th := m.threads[t].(waiting := None, held := m.threads[t].held + {i});
    NoTouch(m.threads, |m.groups|, t);
    RefsUpdate(m.cache.bufs, m.threads, t, th, i, b);
    LocksAcquire(m.cache.bufs, m.threads, |m.disk|, t, i, b);
    OpsThread(m.threads, |m.groups|, t, th);
    DirtyValid(m.cache, i);
    PinsBuf(m.cache, m.lh, m.pins, Done(m), i, b, m.cache.ring);
    DataFill(m.cache.bufs, m.threads, m.logged, m.disk, i, b);
    DataThread(m.cache.bufs[i := b], m.threads, m.logged, m.disk, t, th);
    PassedBuf(p.g, m.cache.bufs, m.threads, i, b);
    PassedThread(p.g, m.cache.bufs[i := b], m.threads, t, th);
    CountsSame(p, m, Next(p, m, Acquire(t)), t, th);
    SameDurable(p.g, m, Next(p, m, Acquire(t)));
  }

  lemma DirtyValid(c: Cache, i: nat)
    requires CacheOk(c) && i < |c.bufs|
    ensures (c.bufs[i].dirty ==> c.bufs[i].valid) && (c.bufs[i].locked ==> 0 < c.bufs[i].refcnt)
  {}

  lemma LocksAt(bufs: seq<Buf>, ts: seq<Thread>, size: nat, t: nat, i: nat)
    requires LocksOk(bufs, ts, size) && t < |ts| && i < |bufs|
    ensures ts[t].waiting == Some(i) ==> OnDisk(bufs[i], size)
    ensures i in ts[t].held ==> bufs[i].locked && bufs[i].valid && OnDisk(bufs[i], size)
    ensures i in ts[t].held ==> forall u :: 0 <= u < |ts| && u != t ==> i !in ts[u].held
    ensures !bufs[i].locked ==> forall u :: 0 <= u < |ts| ==> i !in ts[u].held
  {
    forall u | 0 <= u < |ts| ensures HeldOk(bufs, ts[u], size) {}
  }

  lemma LocksAcquire(bufs: seq<Buf>, ts: seq<Thread>, size: nat, t: nat, i: nat, b: Buf)
    requires LocksOk(bufs, ts, size) && t < |ts| && i < |bufs| && ts[t].waiting == Some(i) && !bufs[i].locked
    requires b == bufs[i].(valid := true, locked := true, data := b.data)
    ensures LocksOk(bufs[i := b], ts[t := ts[t].(waiting := None, held := ts[t].held + {i})], size)
  {
    LocksAt(bufs, ts, size, t, i);
    var us := ts[t := ts[t].(waiting := None, held := ts[t].held + {i})];
    forall u | 0 <= u < |us| ensures HeldOk(bufs[i := b], us[u], size) {
      assert HeldOk(bufs, ts[u], size);
    }
    forall j | 0 <= j < |bufs| && bufs[i := b][j].locked ensures HasHolder(us, j) {
      if j == i {
        assert i in us[t].held;
      } else {
        assert bufs[j].locked && HasHolder(ts, j);
        var u :| 0 <= u < |ts| && j in ts[u].held;
        assert j in us[u].held;
      }
    }
  }

  lemma DataFill(bufs: seq<Buf>, ts: seq<Thread>, logged: map<nat, Block>, d: Disk, i: nat, b: Buf)
    requires DataOk(bufs, ts, logged, d) && i < |bufs| && OnDisk(bufs[i], |d|) && (bufs[i].dirty ==> bufs[i].valid)
    requires b == bufs[i].(valid := true, locked := true, data := if bufs[i].valid then bufs[i].data else d[bufs[i].blockno])
    ensures DataOk(bufs[i := b], ts, logged, d)
  {}

  lemma ReleaseStep(p: Params, m: Machine, t: nat, i: nat)
    requires Inv(p, m) && Shape(p, m) && Enabled(p, m, Release(t, i))
    ensures Inv(p, Next(p, m, Release(t, i)))
  {
    hide CacheOk, RefsOk, LocksOk, OpsOk, PassedOk, Pinned, LoggedOk, DataOk, DurableOk, CountsOk, DiskOk, RingOk;
    var b := m.cache.bufs[i].(locked := false);
    var th := m.threads[t].(held := m.threads[t].held - {i}, leaving := Some(i));
    DirtyValid(m.cache, i);
    SetBufOk(m.cache, i, b);
    NoTouch(m.threads, |m.groups|, t);
    RefsUpdate(m.cache.bufs, m.threads, t, th, i, b);
    LocksRelease(m.cache.bufs, m.threads, |m.disk|, t, i, b);
    OpsThread(m.threads, |m.groups|, t, th);
    PinsBuf(m.cache, m.lh, m.pins, Done(m), i, b, m.cache.ring);
    DataUnlock(m.cache.bufs, m.threads, m.logged, m.disk, i, b);
    DataThread(m.cache.bufs[i := b], m.threads, m.logged, m.disk, t, th);
    PassedBuf(p.g, m.cache.bufs, m.threads, i, b);
    PassedThread(p.g, m.cache.bufs[i := b], m.threads, t, th);
    CountsSame(p, m, Next(p, m, Release(t, i)), t, th);
    SameDurable(p.g, m, Next(p, m, Release(t, i)));
  }

  lemma LocksRelease(bufs: seq<Buf>, ts: seq<Thread>, size: nat, t: nat, i: nat, b: Buf)
    requires LocksOk(bufs, ts, size) && t < |ts| && i < |bufs| && i in ts[t].held
    requires b == bufs[i].(locked := false)
    ensures LocksOk(bufs[i := b], ts[t := ts[t].(held := ts[t].held - {i}, leaving := Some(i))], size)
  {
    LocksAt(bufs, ts, size, t, i);
    var us := ts[t := ts[t].(held := ts[t].held - {i}, leaving := Some(i))];
    forall u | 0 <= u < |us| ensures HeldOk(bufs[i := b], us[u], size) {
      assert HeldOk(bufs, ts[u], size);
    }
    forall j | 0 <= j < |bufs| && bufs[i := b][j].locked ensures HasHolder(us, j) {
      assert bufs[j].locked && HasHolder(ts, j);
      var u :| 0 <= u < |ts| && j in ts[u].held;
      assert j in us[u].held;
    }
  }

  lemma DataUnlock(bufs: seq<Buf>, ts: seq<Thread>, logged: map<nat, Block>, d: Disk, i: nat, b: Buf)
    requires DataOk(bufs, ts, logged, d) && i < |bufs| && b == bufs[i].(locked := b.locked, refcnt := b.refcnt)
    ensures DataOk(bufs[i := b], ts, logged, d)
  {}

  lemma DropStep(p: Params, m: Machine, t: nat)
    requires Inv(p, m) && Shape(p, m) && Enabled(p, m, Drop(t))
    ensures Inv(p, Next(p, m, Drop(t)))
  {
    hide CacheOk, RefsOk, LocksOk, OpsOk, PassedOk, Pinned, LoggedOk, DataOk, DurableOk, CountsOk, DiskOk, RingOk, MoveToFront;
    var i := m.threads[t].leaving.value;
    var b := m.cache.bufs[i].(refcnt := m.cache.bufs[i].refcnt - 1);
    var th := m.threads[t].(leaving := None);
    LastReference(m.cache.bufs, m.threads, |m.disk|, t, i);
    DropRefSafe(m.cache, i);
    NoTouch(m.threads, |m.groups|, t);
    RefsUpdate(m.cache.bufs, m.threads, t, th, i, b);
    LocksDrop(m.cache.bufs, m.threads, |m.disk|, t, i, b);
    OpsThread(m.threads, |m.groups|, t, th);
    DirtyValid(m.cache, i);
    PinsBuf(m.cache, m.lh, m.pins, Done(m), i, b, Next(p, m, Drop(t)).cache.ring);
    DataUnlock(m.cache.bufs, m.threads, m.logged, m.disk, i, b);
    DataThread(m.cache.bufs[i := b], m.threads, m.logged, m.disk, t, th);
    PassedBuf(p.g, m.cache.bufs, m.threads, i, b);
    PassedThread(p.g, m.cache.bufs[i := b], m.threads, t, th);
    CountsSame(p, m, Next(p, m, Drop(t)), t, th);
    SameDurable(p.g, m, Next(p, m, Drop(t)));
  }

  lemma LastReference(bufs: seq<Buf>, ts: seq<Thread>, size: nat, t: nat, i: nat)
    requires RefsOk(bufs, ts) && LocksOk(bufs, ts, size) && t < |ts| && i < |bufs| && ts[t].leaving == Some(i)
    ensures bufs[i].refcnt == 1 ==> !bufs[i].locked
  {
    if bufs[i].locked {
      assert HasHolder(ts, i);
      var u :| 0 <= u < |ts| && i in ts[u].held;
      if u == t {
        RefSumAtLeast(ts, t, i);
      } else {
        RefSumTwo(ts, t, u, i);
      }
    }
  }

  lemma LocksDrop(bufs: seq<Buf>, ts: seq<Thread>, size: nat, t: nat, i: nat, b: Buf)
    requires LocksOk(bufs, ts, size) && t < |ts| && i < |bufs| && b == bufs[i].(refcnt := b.refcnt)
    ensures LocksOk(bufs[i := b], ts[t := ts[t].(leaving := None)], size)
  {
    var us := ts[t := ts[t].(leaving := None)];
    forall u | 0 <= u < |us| ensures HeldOk(bufs[i := b], us[u], size) {
      assert HeldOk(bufs, ts[u], size);
    }
    forall j | 0 <= j < |bufs| && bufs[i := b][j].locked ensures HasHolder(us, j) {
      assert bufs[j].locked && HasHolder(ts, j);
      var u :| 0 <= u < |ts| && j in ts[u].held;
      assert j in us[u].held;
    }
  }

  // ----- operations: changing and logging blocks

  lemma ModifyStep(p: Params, m: Machine, t: nat, i: nat, data: Block)
    requires Inv(p, m) && Shape(p, m) && Enabled(p, m, Modify(t, i, data))
    ensures Inv(p, Next(p, m, Modify(t, i, data)))
  {
    hide CacheOk, RefsOk, LocksOk, OpsOk, PassedOk, Pinned, LoggedOk, DataOk, DurableOk, CountsOk, DiskOk, RingOk;
    var b := m.cache.bufs[i].(data := data);
    var th := m.threads[t].(touched := m.threads[t].touched + {i});
    var n := Next(p, m, Modify(t, i, data));
    DirtyValid(m.cache, i);
    SetBufOk(m.cache, i, b);
    NoTouch(m.threads, |m.groups|, t);
    RefsUpdate(m.cache.bufs, m.threads, t, th, i, b);
    LocksBuf(m.cache.bufs, m.threads, |m.disk|, i, b);
    LocksThread(n.cache.bufs, m.threads, |m.disk|, t, th);
    OpsThread(m.threads, |m.groups|, t, th);
    PinsBuf(m.cache, m.lh, m.pins, Done(m), i, b, m.cache.ring);
    DataThread(m.cache.bufs, m.threads, m.logged, m.disk, t, th);
    assert Touched(n.threads, i) by { assert i in n.threads[t].touched; }
    DataBuf(m.cache.bufs, n.threads, m.logged, m.disk, i, b);
    PassedBuf(p.g, m.cache.bufs, m.threads, i, b);
    PassedThread(p.g, n.cache.bufs, m.threads, t, th);
    CountsSame(p, m, n, t, th);
    SameDurable(p.g, m, n);
  }

  /** While an operation is open nobody commits. */
  lemma OpMeansOpen(p: Params, m: Machine, t: nat)
    requires CountsOk(p, m) && t < |m.threads| && m.threads[t].inOp
    ensures m.phase == Open && !m.committing && 1 <= m.outstanding
  {
    OneActive(m.threads, t);
  }

  /** log_write before it has log.lock. */
  lemma TestStep(p: Params, m: Machine, t: nat, i: nat)
    requires Inv(p, m) && Shape(p, m) && Enabled(p, m, Test(t, i))
    ensures Inv(p, Next(p, m, Test(t, i)))
  {
    hide CacheOk, RefsOk, LocksOk, OpsOk, PinsOk, DataOk, DurableOk, CountsOk, DiskOk, RingOk;
    var th := m.threads[t].(passed := Some(i));
    NoTouch(m.threads, |m.groups|, t);
    RefsThread(m.cache.bufs, m.threads, t, th);
    LocksThread(m.cache.bufs, m.threads, |m.disk|, t, th);
    OpsThread(m.threads, |m.groups|, t, th);
    DataThread(m.cache.bufs, m.threads, m.logged, m.disk, t, th);
    CountsSame(p, m, Next(p, m, Test(t, i)), t, th);
    SameDurable(p.g, m, Next(p, m, Test(t, i)));
  }

  /** log_write under log.lock, whether the log area still has room or not. */
  lemma WriteStep(p: Params, m: Machine, t: nat, i: nat)
    requires Fits(p) && Inv(p, m) && Shape(p, m) && Enabled(p, m, Write(t, i)) && !Breaches(p, m, Write(t, i))
    ensures Inv(p, Next(p, m, Write(t, i)))
  {
    hide CacheOk, RefsOk, LocksOk, OpsOk, PassedOk, Pinned, LoggedOk, DataOk, DurableOk, CountsOk, DiskOk, RingOk, Absorb, NoDup;
    PassedAt(p.g, m.cache.bufs, m.threads, t);
    OpMeansOpen(p, m, t);
    LocksAt(m.cache.bufs, m.threads, |m.disk|, t, i);
    var b := m.cache.bufs[i].(dirty := true);
    var n := Next(p, m, Write(t, i));
    var th := n.threads[t];
    DirtyValid(m.cache, i);
    SetBufOk(m.cache, i, b);
    NoTouch(m.threads, |m.groups|, t);
    RefsUpdate(m.cache.bufs, m.threads, t, th, i, b);
    LocksBuf(m.cache.bufs, m.threads, |m.disk|, i, b);
    LocksThread(n.cache.bufs, m.threads, |m.disk|, t, th);
    OpsThread(m.threads, |m.groups|, t, th);
    PassedBuf(p.g, m.cache.bufs, m.threads, i, b);
    PassedThread(p.g, n.cache.bufs, m.threads, t, th);
    PinsWrite(p.g, m.cache, m.lh, m.pins, m.logged, |m.disk|, i);
    DataWrite(m.cache, m.threads, m.logged, m.disk, t, i, th);
    WriteCounts(p, m, t, th, n, m.cache.bufs[i].blockno);
    OpenDurable(p.g, m, n);
  }

  lemma PinsWrite(g: Geometry, c: Cache, lh: seq<Word>, pins: seq<nat>, logged: map<nat, Block>, size: nat, i: nat)
    requires CacheOk(c) && PinsOk(g, c, lh, pins, 0, logged, size) && i < |c.bufs| && c.bufs[i].valid
    requires OnDisk(c.bufs[i], size) && size <= U32 && !InLog(g, c.bufs[i].blockno) && (c.bufs[i].blockno in lh || |lh| + 1 < WORDS)
    ensures var b := c.bufs[i];
            PinsOk(g, c.(bufs := c.bufs[i := b.(dirty := true)]), Absorb(lh, b.blockno),
                   if b.blockno in lh then pins else pins + [i], 0, logged[b.blockno := b.data], size)
  {
    hide CacheOk, Pinned;
    var b := c.bufs[i];
    var k := if b.blockno in lh then IndexOf(lh, b.blockno) else |lh|;
    PinnedAfterLogWrite(c, lh, pins, i, k);
  }

  function IndexOf(lh: seq<Word>, b: nat): (k: nat)
    requires b in lh
    ensures k < |lh| && lh[k] == b
  {
    if lh[0] == b then 0 else 1 + IndexOf(lh[1..], b)
  }

  lemma DataWrite(c: Cache, ts: seq<Thread>, logged: map<nat, Block>, d: Disk, t: nat, i: nat, th: Thread)
    requires CacheOk(c) && DataOk(c.bufs, ts, logged, d) && t < |ts| && i < |c.bufs|
    requires OnDisk(c.bufs[i], |d|) && th.touched == ts[t].touched - {i}
    ensures var b := c.bufs[i];
            DataOk(c.bufs[i := b.(dirty := true)], ts[t := th], logged[b.blockno := b.data], d)
  {
    var us := ts[t := th];
    forall j: nat | j != i && Touched(ts, j) ensures Touched(us, j) {
      var u :| 0 <= u < |ts| && j in ts[u].touched;
      assert j in us[u].touched;
    }
    var b := c.bufs[i];
    forall j | 0 <= j < |c.bufs| && j != i && c.bufs[j].dev == 1 ensures c.bufs[j].blockno != b.blockno {
      assert Keyed(c.bufs[j], 1, c.bufs[j].blockno) && Keyed(b, 1, b.blockno);
    }
  }

  lemma WriteCounts(p: Params, m: Machine, t: nat, th: Thread, n: Machine, b: Word)
    requires CountsOk(p, m) && t < |m.threads| && m.threads[t].inOp && m.phase == Open && n.threads == m.threads[t := th]
    requires th.inOp && n.lh == Absorb(m.lh, b) && (b in m.lh || |m.lh| < p.limit)
    requires n.outstanding == m.outstanding && n.committing == m.committing && n.phase == m.phase && n.who == m.who
    ensures CountsOk(p, n)
  {
    ActiveUpdate(m.threads, t, th);
  }

  /** Outside a commit, only the disk and the history matter for what is durable. */
  lemma OpenDurable(g: Geometry, m: Machine, n: Machine)
    requires DurableOk(g, m) && n.disk == m.disk && n.groups == m.groups
    requires !m.phase.Copying? && !m.phase.Installing? && !n.phase.Copying? && !n.phase.Installing?
    ensures DurableOk(g, n)
  {
    hide Holds, Header, Stored, Home, DiskOk;
  }

  lemma EndStep(p: Params, m: Machine, t: nat)
    requires Inv(p, m) && Shape(p, m) && Enabled(p, m, End(t))
    ensures Inv(p, Next(p, m, End(t)))
  {
    hide CacheOk, RefsOk, LocksOk, OpsOk, PassedOk, Pinned, LoggedOk, DataOk, DurableOk, CountsOk, DiskOk, RingOk;
    OpMeansOpen(p, m, t);
    var th := m.threads[t].(inOp := false, mine := {});
    var n := Next(p, m, End(t));
    RefsThread(m.cache.bufs, m.threads, t, th);
    LocksThread(m.cache.bufs, m.threads, |m.disk|, t, th);
    NoTouch(m.threads, |m.groups|, t);
    OpsThread(m.threads, |m.groups|, t, th);
    DataThread(m.cache.bufs, m.threads, m.logged, m.disk, t, th);
    PassedThread(p.g, m.cache.bufs, m.threads, t, th);
    EndCounts(p, m, t);
    if n.phase.Copying? {
      InvHeader(p, m);
      CopyingDurable(p.g, m, n);
    } else {
      OpenDurable(p.g, m, n);
    }
  }

  lemma EndCounts(p: Params, m: Machine, t: nat)
    requires CountsOk(p, m) && Shape(p, m) && Enabled(p, m, End(t)) && m.phase == Open
    ensures CountsOk(p, Next(p, m, End(t)))
  {
    hide DiskOk, RingOk;
    ActiveUpdate(m.threads, t, m.threads[t].(inOp := false, mine := {}));
  }

  lemma CopyingDurable(g: Geometry, m: Machine, n: Machine)
    requires DurableOk(g, m) && n.disk == m.disk && n.groups == m.groups && n.lh == m.lh
    requires m.phase == Open && n.phase == Copying(0) && 0 < g.size && g.start < |m.disk|
    ensures DurableOk(g, n)
  {
    hide Holds, Header, DiskOk;
  }

  // ----- commit

  /** What every step of a commit needs: no operation is open, so no buffer is being modified. */
  lemma Committing(p: Params, m: Machine, i: nat)
    requires CountsOk(p, m) && OpsOk(m.threads, |m.groups|) && m.phase != Open
    ensures !Touched(m.threads, i) && forall t :: 0 <= t < |m.threads| ==> !m.threads[t].inOp
  {
    NoneActive(m.threads);
  }

  /** A buffer of the log area is never pinned. */
  lemma LogBufferFree(g: Geometry, c: Cache, lh: seq<Word>, pins: seq<nat>, done: nat, logged: map<nat, Block>, size: nat, i: nat)
    requires PinsOk(g, c, lh, pins, done, logged, size) && i < |c.bufs| && InLog(g, c.bufs[i].blockno)
    ensures !c.bufs[i].dirty
  {}

  /** The one buffer of a logged block is the pinned one. */
  lemma PinnedBuffer(c: Cache, lh: seq<Word>, pins: seq<nat>, done: nat, k: nat, i: nat)
    requires CacheOk(c) && Pinned(c, lh, pins, done) && done <= k < |lh| && i < |c.bufs| && Keyed(c.bufs[i], 1, lh[k])
    ensures pins[k] == i && c.bufs[i].dirty && c.bufs[i].valid
  {
    assert Keyed(c.bufs[pins[k]], 1, lh[k]);
  }

  lemma HeldBy(p: Params, m: Machine, i: nat, blockno: nat)
    requires LocksOk(m.cache.bufs, m.threads, |m.disk|) && Shape(p, m) && CommitterHolds(p, m, i, blockno)
    ensures i < |m.cache.bufs| && m.cache.bufs[i].locked && m.cache.bufs[i].valid && OnDisk(m.cache.bufs[i], |m.disk|)
  {
    LocksAt(m.cache.bufs, m.threads, |m.disk|, m.who, i);
  }

  lemma DataAt(bufs: seq<Buf>, ts: seq<Thread>, logged: map<nat, Block>, d: Disk, i: nat)
    requires DataOk(bufs, ts, logged, d) && i < |bufs| && bufs[i].valid && bufs[i].dev == 1 && !Touched(ts, i)
    ensures Current(bufs[i], logged, d)
  {}

  /** Writing a buffer through to the disk keeps every valid buffer current. */
  lemma DataStore(c: Cache, ts: seq<Thread>, logged: map<nat, Block>, d: Disk, i: nat, data: Block)
    requires CacheOk(c) && DataOk(c.bufs, ts, logged, d) && i < |c.bufs| && OnDisk(c.bufs[i], |d|)
    ensures var b := c.bufs[i];
            DataOk(c.bufs[i := b.(data := data, dirty := false, valid := true)], ts, logged, d[b.blockno := data])
  {
    var b := c.bufs[i];
    forall j | 0 <= j < |c.bufs| && j != i && c.bufs[j].dev == 1 ensures c.bufs[j].blockno != b.blockno {
      assert Keyed(c.bufs[j], 1, c.bufs[j].blockno) && Keyed(b, 1, b.blockno);
    }
  }

  /** What a block write during a commit keeps, whichever block it is. */
  lemma StoreKeeps(p: Params, m: Machine, i: nat, blockno: nat, data: Block)
    requires Inv(p, m) && Shape(p, m) && m.phase != Open && CommitterHolds(p, m, i, blockno)
    ensures OnDisk(m.cache.bufs[i], |m.disk|)
    ensures var n := Store(m, i, data);
            CacheOk(n.cache) && RefsOk(n.cache.bufs, n.threads) && LocksOk(n.cache.bufs, n.threads, |n.disk|) &&
            DataOk(n.cache.bufs, n.threads, n.logged, n.disk) && PassedOk(p.g, n.cache.bufs, n.threads)
  {
    hide CacheOk, RefsOk, LocksOk, OpsOk, PassedOk, PinsOk, DataOk, DurableOk, CountsOk, DiskOk, RingOk;
    HeldBy(p, m, i, blockno);
    DirtyValid(m.cache, i);
    var b := m.cache.bufs[i].(data := data, dirty := false, valid := true);
    SetBufOk(m.cache, i, b);
    RefsBuf(m.cache.bufs, m.threads, i, b);
    LocksBuf(m.cache.bufs, m.threads, |m.disk|, i, b);
    DataStore(m.cache, m.threads, m.logged, m.disk, i, data);
    PassedBuf(p.g, m.cache.bufs, m.threads, i, b);
  }

  lemma RefsBuf(bufs: seq<Buf>, ts: seq<Thread>, i: nat, b: Buf)
    requires RefsOk(bufs, ts) && i < |bufs| && b.refcnt == bufs[i].refcnt
    ensures RefsOk(bufs[i := b], ts)
  {}

  /** Writing a log block that is not the header changes nothing that counts while the header is empty. */
  lemma LogBlockHolds(g: Geometry, d: Disk, e: Disk, b: nat, data: Block)
    requires Holds(g, d, e) && Header(g, d) == [] && g.start < b < g.start + g.size
    ensures b < |d| && Holds(g, d[b := data], e) && Header(g, d[b := data]) == []
  {
    hide GetWord, DecodeHead;
    assert InLog(g, b);
  }

  lemma CopyOutStep(p: Params, m: Machine, to: nat, from: nat)
    requires Inv(p, m) && Shape(p, m) && Enabled(p, m, CopyOut(to, from)) && !Breaches(p, m, CopyOut(to, from))
    ensures Inv(p, Next(p, m, CopyOut(to, from)))
    ensures m.lh[m.phase.k] in m.logged && m.cache.bufs[from].data == m.logged[m.lh[m.phase.k]]
  {
    hide CacheOk, RefsOk, LocksOk, OpsOk, PassedOk, Pinned, LoggedOk, DataOk, DurableOk, DiskOk, RingOk;
    var k := m.phase.k;
    var n := Next(p, m, CopyOut(to, from));
    InvHeader(p, m);
    Committing(p, m, from);
    HeldBy(p, m, from, m.lh[k]);
    PinnedBuffer(m.cache, m.lh, m.pins, 0, k, from);
    DataAt(m.cache.bufs, m.threads, m.logged, m.disk, from);
    StoreKeeps(p, m, to, p.g.start + 1 + k, m.cache.bufs[from].data);
    LogBufferFree(p.g, m.cache, m.lh, m.pins, 0, m.logged, |m.disk|, to);
    var b := m.cache.bufs[to];
    PinsBuf(m.cache, m.lh, m.pins, 0, to, b.(data := m.cache.bufs[from].data, dirty := false, valid := true), m.cache.ring);
    CopyOutDurable(p.g, m, n, m.cache.bufs[from].data);
  }

  lemma CopyOutDurable(g: Geometry, m: Machine, n: Machine, data: Block)
    requires DurableOk(g, m) && m.phase.Copying? && m.phase.k < |m.lh| && m.phase.k + 1 < g.size && g.start + g.size <= |m.disk|
    requires m.lh[m.phase.k] in m.logged && data == m.logged[m.lh[m.phase.k]]
    requires n.disk == m.disk[g.start + 1 + m.phase.k := data]
    requires n.groups == m.groups && n.lh == m.lh && n.logged == m.logged && n.phase == Copying(m.phase.k + 1)
    ensures DurableOk(g, n)
  {
    hide Holds, Header, DiskOk;
    HoldsDisk(g, m.disk, Last(m));
    LogBlockHolds(g, m.disk, Last(m), g.start + 1 + m.phase.k, data);
  }

  lemma HoldsDisk(g: Geometry, d: Disk, e: Disk)
    requires Holds(g, d, e)
    ensures DiskOk(g, d) && |d| == |e|
  {}

  lemma CommitHeadStep(p: Params, m: Machine, i: nat)
    requires Inv(p, m) && Shape(p, m) && Enabled(p, m, CommitHead(i))
    ensures Inv(p, Next(p, m, CommitHead(i)))
  {
    hide CacheOk, RefsOk, LocksOk, OpsOk, PassedOk, Pinned, DataOk, DurableOk, DiskOk, RingOk, EncodeHead, HeaderOk;
    var n := Next(p, m, CommitHead(i));
    InvHeader(p, m);
    Committing(p, m, i);
    NewGroup(m.threads, |m.groups|);
    var data := EncodeHead(m.cache.bufs[i].data, m.lh);
    StoreKeeps(p, m, i, p.g.start, data);
    assert InLog(p.g, p.g.start);
    LogBufferFree(p.g, m.cache, m.lh, m.pins, 0, m.logged, |m.disk|, i);
    PinsBuf(m.cache, m.lh, m.pins, 0, i, m.cache.bufs[i].(data := data, dirty := false, valid := true), m.cache.ring);
    CommitDurable(p.g, m, n, m.cache.bufs[i].data);
  }

  lemma NewGroup(ts: seq<Thread>, ngroups: nat)
    requires OpsOk(ts, ngroups) && forall t :: 0 <= t < |ts| ==> !ts[t].inOp
    ensures OpsOk(ts, ngroups + 1)
  {}

  lemma CommitDurable(g: Geometry, m: Machine, n: Machine, head: Block)
    requires DurableOk(g, m) && m.phase == Copying(|m.lh|) && LoggedOk(g, m.lh, |m.disk|) && g.start + g.size <= |m.disk|
    requires forall b :: b in m.logged <==> b in m.lh
    requires n.disk == m.disk[g.start := EncodeHead(head, m.lh)] && n.groups == m.groups + [Apply(Last(m), m.logged)]
    requires n.lh == m.lh && n.logged == m.logged && n.phase == Installing(0)
    ensures DurableOk(g, n)
  {
    hide Holds, Header, DiskOk, EncodeHead, HeaderOk;
    HeadSwitches(g, m.disk, Last(m), m.lh, m.logged, head);
  }

  /** Writing the header switches the committed contents of the disk to the logged ones. */
  lemma HeadSwitches(g: Geometry, d: Disk, e: Disk, lh: seq<Word>, logged: map<nat, Block>, head: Block)
    requires Holds(g, d, e) && Header(g, d) == [] && |lh| < g.size && LoggedOk(g, lh, |d|) && Stored(g, d, lh, logged, |lh|)
    requires forall b :: b in logged <==> b in lh
    ensures g.start < |d|
    ensures var r := d[g.start := EncodeHead(head, lh)];
            Holds(g, r, Apply(e, logged)) && Header(g, r) == lh && Stored(g, r, lh, logged, |lh|)
  {
    hide GetWord, DecodeHead, EncodeHead;
    HeadRoundTrip(head, lh);
    var r := d[g.start := EncodeHead(head, lh)];
    assert InLog(g, g.start);
    forall b | 0 <= b < |d| && !InLog(g, b) ensures Content(g, r, b) == Apply(e, logged)[b] {
      assert Content(g, d, b) == e[b];
      var s := LastSlot(lh, b);
      if s.Slot? {
        assert lh[s.at] in lh;
      }
    }
  }

  lemma InstallStep(p: Params, m: Machine, lbuf: nat, dbuf: nat)
    requires Inv(p, m) && Shape(p, m) && Enabled(p, m, Install(lbuf, dbuf))
    ensures Inv(p, Next(p, m, Install(lbuf, dbuf)))
  {
    hide CacheOk, RefsOk, LocksOk, OpsOk, PassedOk, Pinned, LoggedOk, DataOk, DurableOk, DiskOk, RingOk;
    var k := m.phase.k;
    var n := Next(p, m, Install(lbuf, dbuf));
    InvHeader(p, m);
    Committing(p, m, lbuf);
    HeldBy(p, m, lbuf, p.g.start + 1 + k);
    LogBufferFree(p.g, m.cache, m.lh, m.pins, k, m.logged, |m.disk|, lbuf);
    DataAt(m.cache.bufs, m.threads, m.logged, m.disk, lbuf);
    var data := m.cache.bufs[lbuf].data;
    StoreKeeps(p, m, dbuf, m.lh[k], data);
    PinnedBuffer(m.cache, m.lh, m.pins, k, k, dbuf);
    PinsInstall(m.cache, m.lh, m.pins, k, data);
    LogHeader(p.g, m.lh, |m.disk|, k);
    InstallDurable(p.g, m, n);
  }

  lemma LogHeader(g: Geometry, lh: seq<Word>, size: nat, k: nat)
    requires LoggedOk(g, lh, size) && k < |lh|
    ensures lh[k] < size && !InLog(g, lh[k])
  {}

  /** An installed block's buffer is clean, and the blocks still to be installed stay pinned. */
  lemma PinsInstall(c: Cache, lh: seq<Word>, pins: seq<nat>, k: nat, data: Block)
    requires Pinned(c, lh, pins, k) && NoDup(lh) && k < |lh|
    ensures pins[k] < |c.bufs|
    ensures Pinned(c.(bufs := c.bufs[pins[k] := c.bufs[pins[k]].(data := data, dirty := false, valid := true)]), lh, pins, k + 1)
  {
    var i := pins[k];
    var bs := c.bufs[i := c.bufs[i].(data := data, dirty := false, valid := true)];
    assert Keyed(c.bufs[pins[k]], 1, lh[k]);
    forall j | k + 1 <= j < |lh| ensures pins[j] != i {
      assert Keyed(c.bufs[pins[j]], 1, lh[j]);
    }
    forall j | 0 <= j < |bs| && bs[j].dirty ensures j in pins[k + 1..] {
      assert j in pins[k..];
      assert pins[k..] == [i] + pins[k + 1..];
    }
  }

  lemma InstallDurable(g: Geometry, m: Machine, n: Machine)
    requires DurableOk(g, m) && m.phase.Installing? && m.phase.k < |m.lh| < g.size && g.start + g.size <= |m.disk|
    requires m.lh[m.phase.k] < |m.disk| && !InLog(g, m.lh[m.phase.k])
    requires n.disk == m.disk[m.lh[m.phase.k] := m.disk[g.start + 1 + m.phase.k]]
    requires n.groups == m.groups && n.lh == m.lh && n.logged == m.logged && n.phase == Installing(m.phase.k + 1)
    ensures DurableOk(g, n)
  {
    hide Holds, Header, DiskOk;
    HoldsDisk(g, m.disk, Last(m));
    InstallHolds(g, m.disk, Last(m), m.phase.k);
  }

  /** Installing one block changes neither the header, nor the log, nor the committed contents. */
  lemma InstallHolds(g: Geometry, d: Disk, e: Disk, k: nat)
    requires Holds(g, d, e) && k < |Header(g, d)|
    ensures var lh := Header(g, d);
            g.start + 1 + k < |d| && lh[k] < |d| &&
            var r := d[lh[k] := d[g.start + 1 + k]];
            Holds(g, r, e) && Header(g, r) == lh
  {
    hide GetWord, DecodeHead;
    var lh := Header(g, d);
    var r := d[lh[k] := d[g.start + 1 + k]];
    assert InLog(g, g.start);
    forall b | 0 <= b < |d| && !InLog(g, b) ensures Content(g, r, b) == e[b] {
      assert Content(g, d, b) == e[b];
      var s := LastSlot(lh, b);
      if s.Slot? { assert InLog(g, g.start + 1 + s.at); }
    }
  }

  lemma ClearHeadStep(p: Params, m: Machine, i: nat)
    requires Inv(p, m) && Shape(p, m) && Enabled(p, m, ClearHead(i))
    ensures Inv(p, Next(p, m, ClearHead(i)))
  {
    hide CacheOk, RefsOk, LocksOk, OpsOk, PassedOk, Pinned, DataOk, DurableOk, DiskOk, RingOk, EncodeHead, HeaderOk;
    var n := Next(p, m, ClearHead(i));
    InvHeader(p, m);
    Committing(p, m, i);
    assert InLog(p.g, p.g.start);
    LogBufferFree(p.g, m.cache, m.lh, m.pins, |m.lh|, m.logged, |m.disk|, i);
    var data := EncodeHead(m.cache.bufs[i].data, []);
    StoreKeeps(p, m, i, p.g.start, data);
    NothingPinned(m.cache, m.lh, m.pins);
    DataCleared(n.cache, n.threads, m.logged, n.disk, m.cache, i);
    ClearDurable(p.g, m, n, m.cache.bufs[i].data);
  }

  lemma NothingPinned(c: Cache, lh: seq<Word>, pins: seq<nat>)
    requires Pinned(c, lh, pins, |lh|)
    ensures Clean(c)
  {
    assert pins[|lh|..] == [];
  }

  ghost predicate Clean(c: Cache) {
    forall i :: 0 <= i < |c.bufs| ==> !c.bufs[i].dirty
  }

  lemma DataCleared(c: Cache, ts: seq<Thread>, logged: map<nat, Block>, d: Disk, was: Cache, i: nat)
    requires DataOk(c.bufs, ts, logged, d) && Clean(was) && i < |was.bufs|
    requires |c.bufs| == |was.bufs| && c.bufs == was.bufs[i := c.bufs[i]] && !c.bufs[i].dirty
    ensures DataOk(c.bufs, ts, map[], d) && Pinned(c, [], [], 0)
  {}

  lemma ClearDurable(g: Geometry, m: Machine, n: Machine, head: Block)
    requires DurableOk(g, m) && m.phase == Installing(|m.lh|) && g.start + g.size <= |m.disk| && 0 < g.size
    requires n.disk == m.disk[g.start := EncodeHead(head, [])]
    requires n.groups == m.groups && n.lh == [] && n.phase == Closing
    ensures DurableOk(g, n)
  {
    hide DiskOk, EncodeHead, Header, Holds;
    HoldsDisk(g, m.disk, Last(m));
    ClearHolds(g, m.disk, Last(m), m.logged, head);
  }

  /** Once every logged block is home, emptying the header changes no committed contents. */
  lemma ClearHolds(g: Geometry, d: Disk, e: Disk, logged: map<nat, Block>, head: Block)
    requires Holds(g, d, e) && Stored(g, d, Header(g, d), logged, |Header(g, d)|)
    requires Home(d, Header(g, d), logged, |Header(g, d)|) && g.start < |d|
    ensures var r := d[g.start := EncodeHead(head, [])];
            Holds(g, r, e) && Header(g, r) == []
  {
    hide GetWord, DecodeHead, EncodeHead;
    HeadRoundTrip(head, []);
    var r := d[g.start := EncodeHead(head, [])];
    assert InLog(g, g.start);
    forall b | 0 <= b < |d| && !InLog(g, b) ensures Content(g, r, b) == e[b] {
      assert Content(g, d, b) == e[b];
      assert LastSlot([], b).NoSlot?;
    }
  }

  lemma CloseStep(p: Params, m: Machine)
    requires Inv(p, m) && Shape(p, m) && Enabled(p, m, Close)
    ensures Inv(p, Next(p, m, Close))
  {
    hide CacheOk, RefsOk, LocksOk, OpsOk, PassedOk, PinsOk, DataOk, DurableOk, DiskOk, RingOk;
    OpenDurable(p.g, m, Next(p, m, Close));
  }

  // ----- crash

  function AllIdle(n: nat): seq<Thread> {
    seq(n, _ => Idle)
  }

  lemma {:induction false} IdleSums(n: nat, i: nat)
    ensures RefSum(AllIdle(n), i) == 0 && Active(AllIdle(n)) == 0
  {
    if n > 0 {
      assert AllIdle(n)[1..] == AllIdle(n - 1);
      IdleSums(n - 1, i);
    }
  }

  /** A machine that has just booted: the log replayed and empty, nobody running, an empty cache. */
  ghost predicate Booted(p: Params, m: Machine) {
    DiskOk(p.g, m.disk) && |m.disk| <= U32 && Header(p.g, m.disk) == [] && Fresh(p.g, m.cache, m.disk) &&
    m.lh == [] && m.outstanding == 0 && !m.committing && m.phase == Open && m.who == 0 && 0 < |m.threads| &&
    m.threads == AllIdle(|m.threads|) && m.logged == map[] && m.pins == [] &&
    |m.groups| > 0 && Holds(p.g, m.disk, Last(m))
  }

  lemma BootInv(p: Params, m: Machine)
    requires Booted(p, m)
    ensures Inv(p, m)
  {
    hide Holds, DiskOk, Header;
    forall i | 0 <= i < |m.cache.bufs| ensures m.cache.bufs[i].refcnt == RefSum(m.threads, i) {
      IdleSums(|m.threads|, i);
    }
    IdleSums(|m.threads|, 0);
    FreshLocks(p.g, m.cache, m.disk, |m.threads|);
    BootHeader(p, m);
  }

  lemma FreshLocks(g: Geometry, c: Cache, d: Disk, n: nat)
    requires Fresh(g, c, d)
    ensures LocksOk(c.bufs, AllIdle(n), |d|) && DataOk(c.bufs, AllIdle(n), map[], d) && Pinned(c, [], [], 0)
  {}

  lemma BootHeader(p: Params, m: Machine)
    requires Booted(p, m)
    ensures LoggedOk(p.g, [], |m.disk|)
  {}

  lemma CrashStep(p: Params, m: Machine, cuts: seq<nat>, boot: Cache)
    requires Inv(p, m) && Shape(p, m) && Enabled(p, m, Crash(cuts, boot))
    ensures Booted(p, Next(p, m, Crash(cuts, boot)))
    ensures Inv(p, Next(p, m, Crash(cuts, boot)))
  {
    hide CacheOk, RefsOk, LocksOk, OpsOk, PassedOk, PinsOk, DataOk, CountsOk, DiskOk, RingOk, Recover, CrashedRecoveries, Header, Fresh, HeaderOk, Holds;
    CrashHolds(p.g, m.disk, Last(m), cuts);
    var n := Next(p, m, Crash(cuts, boot));
    assert n.threads == AllIdle(|m.threads|);
    BootInv(p, n);
  }

  /** A crash is possible in every state, with any number of recoveries that crash as well. */
  lemma CrashAnywhere(p: Params, m: Machine, cuts: seq<nat>)
    requires Inv(p, m) && Shape(p, m) && 2 <= |m.cache.bufs|
    ensures Enabled(p, m, Crash(cuts, EmptyCache(|m.cache.bufs|)))
  {
    hide CacheOk, RefsOk, LocksOk, OpsOk, PassedOk, PinsOk, DataOk, CountsOk, RingOk, Recover, CrashedRecoveries, Header, Fresh, HeaderOk, Holds,
      EmptyCache;
    CrashHolds(p.g, m.disk, Last(m), cuts);
    FreshBoot(p.g, Recover(p.g, CrashedRecoveries(p.g, m.disk, cuts)), |m.cache.bufs|);
  }

  lemma CrashHolds(g: Geometry, d: Disk, e: Disk, cuts: seq<nat>)
    requires Holds(g, d, e)
    ensures DiskOk(g, d)
    ensures var r := Recover(g, CrashedRecoveries(g, d, cuts));
            |r| == |d| && DiskOk(g, r) && Header(g, r) == [] && Holds(g, r, e)
  {
    hide Recover, CrashedRecoveries, DecodeHead, GetWord;
    CrashThenRecover(g, d, e, cuts);
  }

  // ----- every step

  /** No step of any process, and no crash, breaks the invariant, but one that writes where the log has no room. */
  lemma Step(p: Params, m: Machine, e: Event)
    requires Fits(p) && Inv(p, m) && Shape(p, m) && Enabled(p, m, e) && !Breaches(p, m, e)
    ensures Inv(p, Next(p, m, e))
  {
    hide Inv, Shape, Enabled, Next;
    match e
    case Begin(t) => BeginStep(p, m, t);
    case Get(t, b) => GetStep(p, m, t, b);
    case Acquire(t) => AcquireStep(p, m, t);
    case Modify(t, i, data) => ModifyStep(p, m, t, i, data);
    case Test(t, i) => TestStep(p, m, t, i);
    case Write(t, i) => WriteStep(p, m, t, i);
    case Release(t, i) => ReleaseStep(p, m, t, i);
    case Drop(t) => DropStep(p, m, t);
    case End(t) => EndStep(p, m, t);
    case CopyOut(to, from) => CopyOutStep(p, m, to, from);
    case CommitHead(i) => CommitHeadStep(p, m, i);
    case Install(lbuf, dbuf) => InstallStep(p, m, lbuf, dbuf);
    case ClearHead(i) => ClearHeadStep(p, m, i);
    case Close => CloseStep(p, m);
    case Crash(cuts, boot) => CrashStep(p, m, cuts, boot);
  }

  // ----- whole runs

  /** ms is a run: it starts from a boot and every state is a step of the one before. Steps are defined on
      well-shaped states, which by RunInv all states are up to the first step that writes where the log has no room. */
  ghost predicate Run(p: Params, ms: seq<Machine>, es: seq<Event>) {
    |ms| == |es| + 1 && Booted(p, ms[0]) &&
    forall i :: 0 <= i < |es| ==> Shape(p, ms[i]) && Enabled(p, ms[i], es[i]) && ms[i + 1] == Next(p, ms[i], es[i])
  }

  /** No step before state i writes where the log has no room. */
  ghost predicate Contained(p: Params, ms: seq<Machine>, es: seq<Event>, i: nat) {
    |ms| == |es| + 1 && forall k :: 0 <= k < i && k < |es| ==> !Breaches(p, ms[k], es[k])
  }

  /** A machine whose log was zeroed by mkfs boots, with any number of processes and buffers: runs exist. */
  lemma MkfsBoots(p: Params, d: Disk, nbuf: nat, nthreads: nat) returns (m: Machine)
    requires 0 < p.g.size && p.g.start + p.g.size <= |d| <= U32 && d[p.g.start] == ZeroBlock() && 2 <= nbuf && 0 < nthreads
    ensures Run(p, [m], []) && m.disk == d && |m.threads| == nthreads && |m.cache.bufs| == nbuf
  {
    hide EmptyCache, Fresh, Header, DiskOk, Holds, ZeroBlock;
    FreshBoot(p.g, d, nbuf);
    ZeroedLog(p.g, d);
    m := Machine(d, EmptyCache(nbuf), [], 0, false, Open, 0, AllIdle(nthreads), [d], map[], []);
    assert Booted(p, m);
  }

  lemma FreshBoot(g: Geometry, d: Disk, nbuf: nat)
    requires 2 <= nbuf && g.start < |d|
    ensures Fresh(g, EmptyCache(nbuf), d) && |EmptyCache(nbuf).bufs| == nbuf
  {
    hide ZeroBlock, Fresh, RingOk;
    CountRing(nbuf);
    BootFresh(g, EmptyCache(nbuf), d);
  }

  /** The buffer cache as binit leaves it. */
  function EmptyCache(nbuf: nat): Cache {
    Cache(seq(nbuf, _ => Buf(false, false, 0, 0, false, 0, ZeroBlock())), seq(nbuf, i => i))
  }

  lemma CountRing(n: nat)
    ensures RingOk(seq(n, i => i), n)
  {
    var ring: seq<nat> := seq(n, i => i);
    forall i | 0 <= i < n ensures i in ring { assert ring[i] == i; }
  }

  lemma ZeroedLog(g: Geometry, d: Disk)
    requires 0 < g.size && g.start + g.size <= |d| && d[g.start] == ZeroBlock()
    ensures DiskOk(g, d) && Header(g, d) == [] && Holds(g, d, d)
  {
    hide GetWord, ZeroBlock, DiskOk, Header, Holds;
    ZeroBlockWord(0);
    NoHeader(g, d);
  }

  lemma NoHeader(g: Geometry, d: Disk)
    requires 0 < g.size && g.start + g.size <= |d| && GetWord(d[g.start], 0) == 0
    ensures DiskOk(g, d) && Header(g, d) == [] && Holds(g, d, d)
  {
    hide GetWord;
  }

  lemma {:induction false} RunInv(p: Params, ms: seq<Machine>, es: seq<Event>, i: nat)
    requires Fits(p) && Run(p, ms, es) && i < |ms| && Contained(p, ms, es, i)
    ensures Inv(p, ms[i]) && Shape(p, ms[i])
  {
    hide Inv, Shape, Enabled, Next, Booted;
    if i == 0 {
      BootInv(p, ms[0]);
    } else {
      RunInv(p, ms, es, i - 1);
      Step(p, ms[i - 1], es[i - 1]);
    }
    InvShape(p, ms[i]);
  }

  /** In every state: while anyone commits no operation is open; the log holds at most LOGSIZE blocks; end_op never
      panics; and log_write panics exactly when the log is full. */
  lemma RunSafe(p: Params, ms: seq<Machine>, es: seq<Event>, i: nat, t: nat)
    requires Fits(p) && Run(p, ms, es) && i < |ms| && Contained(p, ms, es, i) && t < |ms[i].threads|
    ensures var m := ms[i];
            (m.committing ==> m.outstanding == 0 && !m.threads[t].inOp) && |m.lh| <= p.limit &&
            (m.threads[t].inOp ==>
               !EndOpPanics(m) && 1 <= m.outstanding && (LogWritePanics(p, m) <==> |m.lh| == p.limit || |m.lh| >= p.g.size - 1))
  {
    hide Next, Enabled, Shape, Booted, CacheOk, RefsOk, LocksOk, PinsOk, DataOk, DurableOk, OpsOk, PassedOk;
    RunInv(p, ms, es, i);
    var m := ms[i];
    if m.threads[t].inOp { OpMeansOpen(p, m, t); }
    if m.committing { Committing(p, m, 0); }
  }

  /** The file system as the operations see it: the blocks of the current group over the last commit. */
  ghost function View(m: Machine, b: nat): Block
    requires |m.groups| > 0 && b < |Last(m)|
  {
    if b in m.logged then m.logged[b] else Last(m)[b]
  }

  /** Thread t holds the buffer alone, and if it has not changed it since its last log_write and the
      buffer is of a home block, it holds the view of that block. */
  ghost predicate SeesLatest(p: Params, m: Machine, t: nat, buf: nat) {
    t < |m.threads| && buf < |m.cache.bufs| && |m.groups| > 0 &&
    (forall u :: 0 <= u < |m.threads| && u != t ==> buf !in m.threads[u].held) &&
    var b := m.cache.bufs[buf].blockno;
    b < |Last(m)| && (buf !in m.threads[t].touched && !InLog(p.g, b) ==> m.cache.bufs[buf].data == View(m, b))
  }

  /** Whoever holds the buffer of a home block, and has not changed it since its last log_write, sees
      what was last logged for the block, or what the last commit left there. */
  lemma ReadsLatest(p: Params, ms: seq<Machine>, es: seq<Event>, i: nat, t: nat, buf: nat)
    requires Fits(p) && Run(p, ms, es) && i < |ms| && Contained(p, ms, es, i) && t < |ms[i].threads| && buf in ms[i].threads[t].held
    ensures SeesLatest(p, ms[i], t, buf)
  {
    hide Inv, Run;
    RunInv(p, ms, es, i);
    HolderSees(p, ms[i], t, buf);
  }

  lemma HolderSees(p: Params, m: Machine, t: nat, buf: nat)
    requires Inv(p, m) && Shape(p, m) && t < |m.threads| && buf in m.threads[t].held
    ensures SeesLatest(p, m, t, buf)
  {
    hide CacheOk, RefsOk, LocksOk, PinsOk, DataOk, DurableOk, OpsOk, PassedOk, CountsOk, Current, View, DiskOk, RingOk;
    LocksAt(m.cache.bufs, m.threads, |m.disk|, t, buf);
    LastSize(p.g, m);
    if buf !in m.threads[t].touched && !InLog(p.g, m.cache.bufs[buf].blockno) {
      SoleToucher(m.cache.bufs, m.threads, |m.disk|, |m.groups|, t, buf);
      DataAt(m.cache.bufs, m.threads, m.logged, m.disk, buf);
      CurrentIsView(p, m, buf);
    }
  }

  lemma LastSize(g: Geometry, m: Machine)
    requires DurableOk(g, m)
    ensures |m.groups| > 0 && |Last(m)| == |m.disk|
  {}

  lemma SoleToucher(bufs: seq<Buf>, ts: seq<Thread>, size: nat, ngroups: nat, t: nat, i: nat)
    requires LocksOk(bufs, ts, size) && OpsOk(ts, ngroups) && t < |ts| && i in ts[t].held && i !in ts[t].touched
    ensures !Touched(ts, i)
  {}

  lemma CurrentIsView(p: Params, m: Machine, i: nat)
    requires CacheOk(m.cache) && PinsOk(p.g, m.cache, m.lh, m.pins, Done(m), m.logged, |m.disk|) && DurableOk(p.g, m)
    requires CountsOk(p, m) && i < |m.cache.bufs| && OnDisk(m.cache.bufs[i], |m.disk|) && !InLog(p.g, m.cache.bufs[i].blockno)
    requires Current(m.cache.bufs[i], m.logged, m.disk)
    ensures |m.disk| == |Last(m)| && m.cache.bufs[i].data == View(m, m.cache.bufs[i].blockno)
  {
    hide HeaderOk, DiskOk, DecodeHead, GetWord;
    var buf := m.cache.bufs[i];
    var b := buf.blockno;
    assert Content(p.g, m.disk, b) == Last(m)[b];
    if !buf.dirty && b in m.logged {
      var k := IndexOf(m.lh, b);
      if Done(m) <= k {
        PinnedBuffer(m.cache, m.lh, m.pins, Done(m), k, i);
      }
    }
  }

  /** An operation that stays open sees no commit: all its writes are in one group. */
  lemma {:induction false} NotSplit(p: Params, ms: seq<Machine>, es: seq<Event>, t: nat, i: nat, j: nat)
    requires Fits(p) && Run(p, ms, es) && i <= j < |ms| && Contained(p, ms, es, j)
    requires forall k :: i <= k <= j ==> t < |ms[k].threads| && ms[k].threads[t].inOp
    ensures ms[i].groups == ms[j].groups
    ensures ms[i].logged.Keys <= ms[j].logged.Keys
  {
    hide Inv, Shape, Enabled, Next, Booted;
    if i < j {
      NotSplit(p, ms, es, t, i, j - 1);
      RunInv(p, ms, es, j - 1);
      var m, e := ms[j - 1], es[j - 1];
      assert ms[j - 1 + 1] == Next(p, m, e) && m.threads[t].inOp && ms[j].threads[t].inOp;
      StaysInGroup(p, m, e, t);
    }
  }

  lemma StaysInGroup(p: Params, m: Machine, e: Event, t: nat)
    requires Fits(p) && Inv(p, m) && Shape(p, m) && Enabled(p, m, e)
    requires t < |m.threads| && m.threads[t].inOp && t < |Next(p, m, e).threads| && Next(p, m, e).threads[t].inOp
    ensures Next(p, m, e).groups == m.groups && m.logged.Keys <= Next(p, m, e).logged.Keys
  {
    hide CacheOk, RefsOk, LocksOk, PinsOk, DataOk, DurableOk, OpsOk, PassedOk, DiskOk, RingOk, CountsOk;
    OpMeansOpen(p, m, t);
  }

  /** Crash atomicity of groups: stop any run anywhere, crash any number of times inside recovery, and
      let one recovery finish: the home blocks are those of the last committed group. */
  lemma RunDurable(p: Params, ms: seq<Machine>, es: seq<Event>, i: nat, cuts: seq<nat>)
    requires Fits(p) && Run(p, ms, es) && i < |ms| && Contained(p, ms, es, i)
    ensures DiskOk(p.g, ms[i].disk) && |ms[i].groups| > 0
    ensures SameHome(p.g, Recover(p.g, CrashedRecoveries(p.g, ms[i].disk, cuts)), Last(ms[i]))
  {
    hide Next, Enabled, Booted, CacheOk, RefsOk, LocksOk, PinsOk, DataOk, OpsOk, PassedOk, CountsOk, Shape, Holds, SameHome;
    RunInv(p, ms, es, i);
    HoldsDisk(p.g, ms[i].disk, Last(ms[i]));
    CrashThenRecover(p.g, ms[i].disk, Last(ms[i]), cuts);
  }

  function Commits(es: seq<Event>): nat {
    if es == [] then 0 else Commits(es[..|es| - 1]) + if es[|es| - 1].CommitHead? then 1 else 0
  }

  /** A committed group is never lost, and every header write of a commit adds exactly one. */
  lemma {:induction false} GroupsGrow(p: Params, ms: seq<Machine>, es: seq<Event>, i: nat, j: nat)
    requires Fits(p) && Run(p, ms, es) && i <= j < |ms| && Contained(p, ms, es, j)
    ensures ms[i].groups <= ms[j].groups && |ms[j].groups| == |ms[i].groups| + Commits(es[i..j])
  {
    hide Inv, Shape, Enabled, Next, Booted;
    if i < j {
      GroupsGrow(p, ms, es, i, j - 1);
      var m, e := ms[j - 1], es[j - 1];
      RunInv(p, ms, es, j - 1);
      assert ms[j - 1 + 1] == Next(p, m, e);
      assert es[i..j][..j - i - 1] == es[i..j - 1] && es[i..j][j - i - 1] == e;
      GroupAdded(p, m, e);
    }
  }

  /** A group is added whole: by the header write of a commit, with every block its operations logged. */
  lemma GroupAdded(p: Params, m: Machine, e: Event)
    requires Shape(p, m) && Enabled(p, m, e)
    ensures Next(p, m, e).groups ==
            if e.CommitHead? then m.groups + [Apply(Last(m), m.logged)] else m.groups
  {
    hide DiskOk, RingOk, EncodeHead, GetBuf, LockAndFill, Apply, DropRef, Recover, CrashedRecoveries, Fresh, Unlock, Absorb;
  }
}
