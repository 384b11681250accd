/** When bread and log_write panic, and when the log area holds more than it has room for: the exact conditions over all
    runs of GroupCommit, and runs that get there. */
module GroupRuns {
  import opened Blocks
  import opened Bio
  import opened LogDisk
  import opened Options
  import opened Seqs
  import opened Log
  import opened GroupCommit
  import opened GroupReserve

  // ----- bread

  /** The buffers that somebody holds or waits for and no transaction has pinned. */
  ghost function CleanInUse(c: Cache): set<nat> {
    set i: nat | i < |c.bufs| && c.bufs[i].refcnt != 0 && !c.bufs[i].dirty
  }

  ghost predicate Cached(c: Cache, blockno: nat) {
    exists i :: 0 <= i < |c.bufs| && Keyed(c.bufs[i], 1, blockno)
  }

  /** Logged blocks whose buffers are still pinned. */
  function Waiting(m: Machine): int {
    |m.lh| - Done(m)
  }

  /** In every reachable state, in or out of a commit, bread of a block by anybody panics for want of a buffer exactly
      if the block is not cached and the pinned buffers together with the clean ones in use are all the buffers. */
  lemma BreadHaltsIff(p: Params, ms: seq<Machine>, es: seq<Event>, i: nat, blockno: nat)
    requires Fits(p) && Run(p, ms, es) && i < |ms| && Contained(p, ms, es, i)
    ensures var m := ms[i];
            RingOk(m.cache.ring, |m.cache.bufs|) &&
            (GetBuf(m.cache, 1, blockno).Halt? <==>
             !Cached(m.cache, blockno) && Waiting(m) + |CleanInUse(m.cache)| == |m.cache.bufs|)
  {
    hide Inv, Run, GetBuf;
    RunInv(p, ms, es, i);
    HaltsIff(p, ms[i], blockno);
  }

  lemma HaltsIff(p: Params, m: Machine, blockno: nat)
    requires Inv(p, m)
    ensures RingOk(m.cache.ring, |m.cache.bufs|)
    ensures GetBuf(m.cache, 1, blockno).Halt? <==>
            !Cached(m.cache, blockno) && Waiting(m) + |CleanInUse(m.cache)| == |m.cache.bufs|
  {
    hide GetBuf, RefsOk, LocksOk, OpsOk, PassedOk, DataOk, DurableOk, CountsOk, Keyed, LoggedOk;
    InvHeader(p, m);
    var c := m.cache;
    GetBufHaltsIff(c, 1, blockno);
    Busy(p, m);
  }

  /** Every buffer is pinned, in use and clean, or to spare. */
  lemma Busy(p: Params, m: Machine)
    requires Inv(p, m)
    ensures Waiting(m) + |CleanInUse(m.cache)| <= |m.cache.bufs|
    ensures Spare(m.cache) <==> Waiting(m) + |CleanInUse(m.cache)| < |m.cache.bufs|
  {
    hide RefsOk, LocksOk, OpsOk, DataOk, DurableOk, LoggedOk, Below, Elements, NoDup, RingOk;
    var c, from := m.cache, m.pins[Done(m)..];
    PinsLeft(p.g, c, m.lh, m.pins, Done(m), m.logged, |m.disk|);
    ElementsExact(from);
    var busy := Elements(from) + CleanInUse(c);
    assert Elements(from) !! CleanInUse(c) && busy <= Below(|c.bufs|);
    SubsetSize(busy, Below(|c.bufs|));
    forall i | 0 <= i < |c.bufs| ensures Recyclable(c.bufs[i]) <==> i !in busy {}
    if Spare(c) {
      var i :| 0 <= i < |c.bufs| && Recyclable(c.bufs[i]);
      assert i in Below(|c.bufs|);
    } else {
      forall i | i in Below(|c.bufs|) ensures i in busy { assert !Recyclable(c.bufs[i]); }
      assert busy == Below(|c.bufs|);
    }
  }

  lemma PinsLeft(g: Geometry, c: Cache, lh: seq<Word>, pins: seq<nat>, done: nat, logged: map<nat, Block>, size: nat)
    requires PinsOk(g, c, lh, pins, done, logged, size)
    ensures |pins| == |lh| && done <= |lh| && NoDup(pins[done..])
    ensures forall i: nat :: i in pins[done..] <==> i < |c.bufs| && c.bufs[i].dirty
  {
    hide LoggedOk;
    var from := pins[done..];
    forall j, k | 0 <= j < k < |from| ensures from[j] != from[k] {
      assert Keyed(c.bufs[pins[done + j]], 1, lh[done + j]) && Keyed(c.bufs[pins[done + k]], 1, lh[done + k]);
    }
    forall i: nat | i in from ensures i < |c.bufs| && c.bufs[i].dirty {
      var k :| 0 <= k < |from| && from[k] == i;
      assert i == pins[done + k];
    }
  }

  /** How many references the processes have to buffers. */
  function RefTotal(ts: seq<Thread>): nat {
    if ts == [] then 0
    else (if ts[0].waiting.Some? then 1 else 0) + |ts[0].held| + (if ts[0].leaving.Some? then 1 else 0) + RefTotal(ts[1..])
  }

  ghost function Named(th: Thread): (r: set<nat>)
    ensures |r| <= (if th.waiting.Some? then 1 else 0) + |th.held| + (if th.leaving.Some? then 1 else 0)
  {
    (if th.waiting.Some? then {th.waiting.value} else {}) + th.held + (if th.leaving.Some? then {th.leaving.value} else {})
  }

  ghost function AllNamed(ts: seq<Thread>): (r: set<nat>)
    ensures |r| <= RefTotal(ts)
  {
    if ts == [] then {} else Named(ts[0]) + AllNamed(ts[1..])
  }

  lemma {:induction false} ReferencedNamed(ts: seq<Thread>, i: nat)
    requires RefSum(ts, i) > 0
    ensures i in AllNamed(ts)
  {
    if Refs(ts[0], i) == 0 { ReferencedNamed(ts[1..], i); }
  }

  lemma InUseBound(bufs: seq<Buf>, ring: seq<nat>, ts: seq<Thread>)
    requires RefsOk(bufs, ts)
    ensures |CleanInUse(Cache(bufs, ring))| <= RefTotal(ts)
  {
    var used := CleanInUse(Cache(bufs, ring));
    forall i | i in used ensures i in AllNamed(ts) {
      ReferencedNamed(ts, i);
    }
    SubsetSize(used, AllNamed(ts));
  }

  /** While the blocks of a transaction and the references that processes have number fewer than the buffers, no
      bread panics for want of one. */
  lemma EnoughBuffers(p: Params, ms: seq<Machine>, es: seq<Event>, i: nat, blockno: nat)
    requires Fits(p) && Run(p, ms, es) && i < |ms| && Contained(p, ms, es, i) && |ms[i].lh| + RefTotal(ms[i].threads) < |ms[i].cache.bufs|
    ensures RingOk(ms[i].cache.ring, |ms[i].cache.bufs|) && GetBuf(ms[i].cache, 1, blockno).Got?
  {
    hide Inv, Run, GetBuf, RingOk;
    RunInv(p, ms, es, i);
    var m := ms[i];
    HaltsIff(p, m, blockno);
    InvRefs(p, m);
    InUseBound(m.cache.bufs, m.cache.ring, m.threads);
  }

  lemma InvRefs(p: Params, m: Machine)
    requires Inv(p, m)
    ensures RefsOk(m.cache.bufs, m.threads)
  {}

  /** The committing process never lacks a buffer for a home block: it finds the pinned one. */
  lemma HomeNeverHalts(p: Params, ms: seq<Machine>, es: seq<Event>, i: nat)
    requires Fits(p) && Run(p, ms, es) && i < |ms| && Contained(p, ms, es, i)
    requires var m := ms[i]; (m.phase.Copying? || m.phase.Installing?) && m.phase.k < |m.lh|
    ensures var m := ms[i]; RingOk(m.cache.ring, |m.cache.bufs|) && GetBuf(m.cache, 1, m.lh[m.phase.k]).Got?
  {
    hide Inv, Run, GetBuf, RingOk;
    RunInv(p, ms, es, i);
    var m := ms[i];
    HaltsIff(p, m, m.lh[m.phase.k]);
    HomeCached(p, m);
  }

  lemma HomeCached(p: Params, m: Machine)
    requires Inv(p, m) && (m.phase.Copying? || m.phase.Installing?) && m.phase.k < |m.lh|
    ensures Cached(m.cache, m.lh[m.phase.k])
  {
    hide CacheOk, RefsOk, LocksOk, OpsOk, DataOk, DurableOk, CountsOk, LoggedOk;
    var k := m.phase.k;
    assert Keyed(m.cache.bufs[m.pins[k]], 1, m.lh[k]);
  }

  // ----- reaching a state step by step

  /** A run from boot b ends in m; its operations keep within MAXOPBLOCKS, and it writes nothing where the log has no
      room. */
  ghost predicate From(p: Params, b: Machine, m: Machine) {
    exists ms: seq<Machine>, es: seq<Event> ::
      |ms| == |es| + 1 && Run(p, ms, es) && Contained(p, ms, es, |es|) && Modest(p, ms, es, |es|) && ms[0] == b && ms[|es|] == m
  }

  lemma FromInv(p: Params, b: Machine, m: Machine)
    requires Fits(p) && From(p, b, m)
    ensures Inv(p, m) && Shape(p, m) && Reserving(p, m)
  {
    hide Inv, Shape, Run, Reserving, Contained, Modest;
    var ms: seq<Machine>, es: seq<Event> :|
      |ms| == |es| + 1 && Run(p, ms, es) && Contained(p, ms, es, |es|) && Modest(p, ms, es, |es|) && ms[0] == b && ms[|es|] == m;
    RunInv(p, ms, es, |es|);
    RunReserving(p, ms, es, |es|);
  }

  lemma Extend(p: Params, b: Machine, m: Machine, e: Event)
    requires Fits(p) && From(p, b, m) && Shape(p, m) && Enabled(p, m, e) && !Breaches(p, m, e) && ModestEvent(p, m, e)
    ensures From(p, b, Next(p, m, e)) && Shape(p, Next(p, m, e)) && Inv(p, Next(p, m, e))
  {
    hide Inv, Shape, Enabled, Next, Booted, Breaches, ModestEvent, Reserving;
    var ms: seq<Machine>, es: seq<Event> :|
      |ms| == |es| + 1 && Run(p, ms, es) && Contained(p, ms, es, |es|) && Modest(p, ms, es, |es|) && ms[0] == b && ms[|es|] == m;
    var n := Next(p, m, e);
    var ns, fs := ms + [n], es + [e];
    assert Run(p, ns, fs) && Contained(p, ns, fs, |fs|) && Modest(p, ns, fs, |fs|) && ns[0] == b && ns[|fs|] == n;
    FromInv(p, b, n);
  }

  /** n is m but for its buffers and for process t. */
  ghost predicate Steps(m: Machine, n: Machine, t: nat, th: Thread) {
    t < |m.threads| && |n.cache.bufs| == |m.cache.bufs| && n == m.(cache := n.cache, threads := m.threads[t := th])
  }

  lemma DoGet(p: Params, b: Machine, m: Machine, t: nat, blockno: nat) returns (n: Machine, i: nat)
    requires Fits(p) && From(p, b, m) && Inv(p, m) && Shape(p, m) && Runs(m, t) && m.threads[t].waiting == None
    requires blockno < |m.disk| && GetBuf(m.cache, 1, blockno).Got?
    ensures From(p, b, n) && Inv(p, n) && Shape(p, n) && i < |m.cache.bufs|
    ensures Steps(m, n, t, m.threads[t].(waiting := Some(i)))
    ensures Keyed(n.cache.bufs[i], 1, blockno) && n.cache.bufs[i].refcnt > 0
    ensures (forall j :: 0 <= j < |m.cache.bufs| && j != i ==> n.cache.bufs[j] == m.cache.bufs[j])
    ensures if Keyed(m.cache.bufs[i], 1, blockno) then n.cache.bufs[i] == m.cache.bufs[i].(refcnt := m.cache.bufs[i].refcnt + 1)
            else Recyclable(m.cache.bufs[i]) && !n.cache.bufs[i].dirty && !n.cache.bufs[i].locked && n.cache.bufs[i].refcnt == 1
  {
    hide Inv, DiskOk, RingOk, From, GetBuf;
    Extend(p, b, m, Get(t, blockno));
    n := Next(p, m, Get(t, blockno));
    InvCache(p, m);
    GetBufSafe(m.cache, 1, blockno);
    i := GetBuf(m.cache, 1, blockno).i;
  }

  lemma InvCache(p: Params, m: Machine)
    requires Inv(p, m)
    ensures CacheOk(m.cache)
  {}

  lemma DoAcquire(p: Params, b: Machine, m: Machine, t: nat) returns (n: Machine)
    requires Fits(p) && From(p, b, m) && Inv(p, m) && Shape(p, m) && Runs(m, t)
    requires m.threads[t].waiting.Some? && !m.cache.bufs[m.threads[t].waiting.value].locked
    ensures From(p, b, n) && Inv(p, n) && Shape(p, n)
    ensures var i := m.threads[t].waiting.value;
            Steps(m, n, t, m.threads[t].(waiting := None, held := m.threads[t].held + {i})) &&
            var c := m.cache.bufs[i];
            n.cache.bufs == m.cache.bufs[i := n.cache.bufs[i]] &&
            n.cache.bufs[i] == c.(locked := true, valid := true, data := n.cache.bufs[i].data) &&
            (c.valid ==> n.cache.bufs[i].data == c.data)
  {
    hide Inv, DiskOk, RingOk, From, LockAndFill;
    Extend(p, b, m, Acquire(t));
    n := Next(p, m, Acquire(t));
    AcquireStep(p, m, t);
    var i := m.threads[t].waiting.value;
    WaitsFor(p, m, t);
    LockAndFillSafe(m.cache, m.disk, i);
  }

  lemma DoRelease(p: Params, b: Machine, m: Machine, t: nat, i: nat) returns (n: Machine)
    requires Fits(p) && From(p, b, m) && Inv(p, m) && Shape(p, m) && Runs(m, t) && i in m.threads[t].held
    requires m.threads[t].waiting == None && m.threads[t].leaving == None && i !in m.threads[t].touched
    ensures From(p, b, n) && Inv(p, n) && Shape(p, n)
    ensures Steps(m, n, t, m.threads[t].(held := m.threads[t].held - {i}))
    ensures i < |m.cache.bufs| && 0 < m.cache.bufs[i].refcnt
    ensures n.cache.bufs == m.cache.bufs[i := m.cache.bufs[i].(locked := false, refcnt := m.cache.bufs[i].refcnt - 1)]
  {
    hide Inv, DiskOk, RingOk, From, MoveToFront;
    Extend(p, b, m, Release(t, i));
    var m1 := Next(p, m, Release(t, i));
    Extend(p, b, m1, Drop(t));
    n := Next(p, m1, Drop(t));
  }

  /** log_write up to its wait for log.lock. */
  lemma DoTest(p: Params, b: Machine, m: Machine, t: nat, i: nat) returns (n: Machine)
    requires Fits(p) && From(p, b, m) && Inv(p, m) && Shape(p, m) && Writable(p, m, t, i) && MayLog(p, m, t, i) && !LogWritePanics(p, m)
    ensures From(p, b, n) && Inv(p, n) && Shape(p, n)
    ensures n == m.(threads := m.threads[t := m.threads[t].(passed := Some(i))])
  {
    hide Inv, DiskOk, RingOk, From;
    Extend(p, b, m, Test(t, i));
    n := Next(p, m, Test(t, i));
  }

  /** The process after log_write of a block. */
  function LoggedBy(th: Thread, i: nat, blockno: nat): Thread {
    th.(mine := th.mine + {blockno}, touched := th.touched - {i}, passed := None)
  }

  /** log_write from there on. */
  lemma DoAppend(p: Params, b: Machine, m: Machine, t: nat, i: nat) returns (n: Machine)
    requires Fits(p) && From(p, b, m) && Inv(p, m) && Shape(p, m) && t < |m.threads| && m.threads[t].passed == Some(i)
    ensures From(p, b, n) && Inv(p, n) && Shape(p, n)
    ensures i < |m.cache.bufs| && m.cache.bufs[i].blockno < U32
    ensures n.lh == Absorb(m.lh, m.cache.bufs[i].blockno)
    ensures n.threads == m.threads[t := LoggedBy(m.threads[t], i, m.cache.bufs[i].blockno)]
    ensures n.cache.bufs == m.cache.bufs[i := m.cache.bufs[i].(dirty := true)]
    ensures n.disk == m.disk && n.outstanding == m.outstanding && n.phase == m.phase && n.committing == m.committing && n.groups == m.groups
  {
    hide Inv, DiskOk, RingOk, From, Absorb, Reserving;
    FromInv(p, b, m);
    PassedHolds(p, m, t);
    HoldsBlock(p, m, t, i);
    WriteReserving(p, m, t, i);
    Extend(p, b, m, Write(t, i));
    n := Next(p, m, Write(t, i));
  }

  lemma PassedHolds(p: Params, m: Machine, t: nat)
    requires Inv(p, m) && t < |m.threads| && m.threads[t].passed.Some?
    ensures m.threads[t].passed.value in m.threads[t].held && m.threads[t].inOp
  {}

  /** log_write of a buffer the process holds, undisturbed. */
  lemma DoWrite(p: Params, b: Machine, m: Machine, t: nat, i: nat) returns (n: Machine)
    requires Fits(p) && From(p, b, m) && Inv(p, m) && Shape(p, m) && Writable(p, m, t, i) && MayLog(p, m, t, i) && !LogWritePanics(p, m)
    ensures From(p, b, n) && Inv(p, n) && Shape(p, n)
    ensures m.cache.bufs[i].blockno < U32
    ensures n.lh == Absorb(m.lh, m.cache.bufs[i].blockno)
    ensures n.threads == m.threads[t := LoggedBy(m.threads[t], i, m.cache.bufs[i].blockno)]
    ensures n.cache.bufs == m.cache.bufs[i := m.cache.bufs[i].(dirty := true)]
    ensures n.disk == m.disk && n.outstanding == m.outstanding && n.phase == m.phase && n.committing == m.committing && n.groups == m.groups
  {
    hide Inv, Shape, From, Absorb;
    var m1 := DoTest(p, b, m, t, i);
    n := DoAppend(p, b, m1, t, i);
    assert m.threads[t].passed == None;
  }

  lemma HoldsBlock(p: Params, m: Machine, t: nat, i: nat)
    requires Inv(p, m) && t < |m.threads| && i in m.threads[t].held
    ensures i < |m.cache.bufs| && m.cache.bufs[i].locked && OnDisk(m.cache.bufs[i], |m.disk|) && |m.disk| <= U32
  {
    hide CacheOk, PinsOk, DataOk, OpsOk, CountsOk, RefsOk;
    assert HeldOk(m.cache.bufs, m.threads[t], |m.disk|);
  }

  // ----- filling the log

  predicate Free(th: Thread) {
    th.waiting == None && th.held == {} && th.touched == {} && th.leaving == None && th.passed == None
  }

  /** Nobody holds a buffer and nobody commits. */
  ghost predicate Calm(m: Machine) {
    m.phase == Open && forall t :: 0 <= t < |m.threads| ==> Free(m.threads[t])
  }

  lemma {:induction false} FreeTotal(ts: seq<Thread>, i: nat)
    requires forall t :: 0 <= t < |ts| ==> Free(ts[t])
    ensures RefTotal(ts) == 0 && RefSum(ts, i) == 0
  {
    if ts != [] {
      assert Free(ts[0]);
      FreeTotal(ts[1..], i);
    }
  }

  /** In a calm state with a buffer to spare, anybody gets a buffer that nobody has locked. */
  lemma CalmGet(p: Params, m: Machine, blockno: nat)
    requires Inv(p, m) && Shape(p, m) && Calm(m) && |m.lh| < |m.cache.bufs|
    ensures GetBuf(m.cache, 1, blockno).Got?
    ensures forall i :: 0 <= i < |m.cache.bufs| ==> !m.cache.bufs[i].locked
  {
    hide GetBuf, RingOk, LocksOk, PinsOk, DataOk, DurableOk, OpsOk, CountsOk;
    HaltsIff(p, m, blockno);
    InUseBound(m.cache.bufs, m.cache.ring, m.threads);
    FreeTotal(m.threads, 0);
    forall i | 0 <= i < |m.cache.bufs| ensures !m.cache.bufs[i].locked {
      FreeTotal(m.threads, i);
      DirtyValid(m.cache, i);
    }
  }

  /** An operation reads a block, logs it and lets it go. */
  lemma LogOne(p: Params, b: Machine, m: Machine, t: nat, blockno: nat) returns (n: Machine)
    requires Fits(p) && From(p, b, m) && Inv(p, m) && Shape(p, m) && Calm(m) && t < |m.threads| && m.threads[t].inOp
    requires (blockno in m.threads[t].mine || |m.threads[t].mine| < p.maxop) && !LogWritePanics(p, m) && |m.lh| < |m.cache.bufs|
    requires blockno < |m.disk| && !InLog(p.g, blockno)
    ensures From(p, b, n) && Inv(p, n) && Shape(p, n) && Calm(n)
    ensures blockno < U32 && n.lh == Absorb(m.lh, blockno)
    ensures n.threads == m.threads[t := m.threads[t].(mine := m.threads[t].mine + {blockno})]
    ensures n.disk == m.disk && |n.cache.bufs| == |m.cache.bufs| && n.outstanding == m.outstanding && n.committing == m.committing
  {
    hide Inv, Shape, From, GetBuf, Absorb, InLog;
    CalmGet(p, m, blockno);
    assert Free(m.threads[t]);
    var m1, i := DoGet(p, b, m, t, blockno);
    var m2 := DoAcquire(p, b, m1, t);
    var m3 := DoWrite(p, b, m2, t, i);
    n := DoRelease(p, b, m3, t, i);
    assert n.threads[t] == m.threads[t].(mine := m.threads[t].mine + {blockno});
  }

  /** The first n blocks after the log area are logged. */
  ghost predicate LogIs(g: Geometry, lh: seq<Word>, n: nat) {
    |lh| == n && forall k :: 0 <= k < n ==> lh[k] == g.start + g.size + k
  }

  /** A reachable state between bread and brelse of everybody, with n blocks logged. */
  ghost predicate At(p: Params, b: Machine, m: Machine, n: nat) {
    From(p, b, m) && Inv(p, m) && Shape(p, m) && Calm(m) && LogIs(p.g, m.lh, n) &&
    |m.threads| == |b.threads| && |m.disk| == |b.disk| && |m.cache.bufs| == |b.cache.bufs|
  }

  /** The boot has room for n logged blocks in its log, its cache and on its disk. */
  ghost predicate Room(p: Params, b: Machine, n: nat) {
    n <= p.limit && n < p.g.size && n <= |b.cache.bufs| && p.g.start + p.g.size + n <= |b.disk|
  }

  /** Process t has logged k blocks more, and nothing else has happened to the processes. */
  ghost predicate Logs(m: Machine, r: Machine, t: nat, k: nat) {
    t < |m.threads| == |r.threads| && r.threads == m.threads[t := m.threads[t].(mine := r.threads[t].mine)] &&
    |r.threads[t].mine| == |m.threads[t].mine| + k
  }

  lemma NotMine(p: Params, b: Machine, m: Machine, t: nat, n: nat)
    requires Fits(p) && From(p, b, m) && LogIs(p.g, m.lh, n) && t < |m.threads| && m.threads[t].inOp
    ensures p.g.start + p.g.size + n !in m.threads[t].mine
  {
    hide Inv, Shape, From;
    FromInv(p, b, m);
    assert Keeps(p, m, t);
  }

  lemma LogNext(p: Params, b: Machine, m: Machine, t: nat, n: nat) returns (r: Machine)
    requires Fits(p) && At(p, b, m, n) && t < |m.threads| && m.threads[t].inOp && |m.threads[t].mine| < p.maxop
    requires Room(p, b, n + 1)
    ensures At(p, b, r, n + 1) && r.outstanding == m.outstanding && r.committing == m.committing && Logs(m, r, t, 1)
  {
    hide Inv, Shape, From, Calm;
    InOpRoom(p, m, t);
    NotMine(p, b, m, t, n);
    r := LogOne(p, b, m, t, p.g.start + p.g.size + n);
    assert |r.threads| == |m.threads|;
  }

  lemma InOpRoom(p: Params, m: Machine, t: nat)
    requires Inv(p, m) && t < |m.threads| && m.threads[t].inOp
    ensures 1 <= m.outstanding && !m.committing && m.phase == Open
  {
    hide CacheOk, PinsOk, DataOk, RefsOk, LocksOk, DurableOk;
    OpMeansOpen(p, m, t);
  }

  /** An operation logs k blocks more. */
  lemma {:induction false} Fill(p: Params, b: Machine, m: Machine, t: nat, n: nat, k: nat) returns (r: Machine)
    requires Fits(p) && At(p, b, m, n) && t < |m.threads| && m.threads[t].inOp && |m.threads[t].mine| + k <= p.maxop
    requires k == 0 || Room(p, b, n + k)
    ensures At(p, b, r, n + k) && r.outstanding == m.outstanding && r.committing == m.committing && Logs(m, r, t, k)
    decreases k
  {
    hide At;
    if k == 0 {
      r := m;
    } else {
      var m1 := LogNext(p, b, m, t, n);
      AtSize(p, b, m, n);
      AtSize(p, b, m1, n + 1);
      r := Fill(p, b, m1, t, n + 1, k - 1);
    }
  }

  lemma AtSize(p: Params, b: Machine, m: Machine, n: nat)
    requires At(p, b, m, n)
    ensures |m.threads| == |b.threads| && |m.lh| == n
  {}

  lemma DoBegin(p: Params, b: Machine, m: Machine, t: nat, n: nat) returns (r: Machine)
    requires Fits(p) && At(p, b, m, n) && t < |m.threads| && !m.threads[t].inOp
    requires !m.committing && n + (m.outstanding + 1) * p.maxop <= p.limit
    ensures At(p, b, r, n) && r.outstanding == m.outstanding + 1 && !r.committing
    ensures r.threads == m.threads[t := m.threads[t].(inOp := true, mine := {}, began := |m.groups|)]
  {
    hide Inv, DiskOk, RingOk, From;
    Extend(p, b, m, Begin(t));
    r := Next(p, m, Begin(t));
    assert forall u :: 0 <= u < |r.threads| && u != t ==> r.threads[u] == m.threads[u];
    assert Free(m.threads[t]);
  }

  /** end_op while other operations are open. */
  lemma DoEnd(p: Params, b: Machine, m: Machine, t: nat, n: nat) returns (r: Machine)
    requires Fits(p) && At(p, b, m, n) && t < |m.threads| && m.threads[t].inOp && m.outstanding > 1 && !m.committing
    ensures At(p, b, r, n) && r.outstanding == m.outstanding - 1 && !r.committing
    ensures r.cache == m.cache && r.groups == m.groups && r.lh == m.lh
    ensures r.threads == m.threads[t := m.threads[t].(inOp := false, mine := {})]
  {
    hide Inv, DiskOk, RingOk, From;
    assert Free(m.threads[t]);
    Extend(p, b, m, End(t));
    r := Next(p, m, End(t));
    assert forall u :: 0 <= u < |r.threads| && u != t ==> r.threads[u] == m.threads[u];
  }

  /** Process 0 is in an operation that has logged nothing, and no other is. */
  ghost predicate OneOpen(p: Params, m: Machine) {
    m.outstanding == 1 && !m.committing && 2 <= |m.threads| && m.threads[0].inOp && m.threads[0].mine == {} && !m.threads[1].inOp
  }

  /** With process 0's operation open, those of process 1 fill the log one block each, as long as there is room to begin. */
  lemma {:induction false} FillByOthers(p: Params, b: Machine, m: Machine, n: nat, k: nat) returns (r: Machine)
    requires Fits(p) && At(p, b, m, n) && OneOpen(p, m) && 1 <= p.maxop && n + k + 2 * p.maxop <= p.limit && (k == 0 || Room(p, b, n + k))
    ensures At(p, b, r, n + k) && OneOpen(p, r)
    decreases k
  {
    hide At;
    AtSize(p, b, m, n);
    if k == 0 {
      r := m;
    } else {
      var m1 := DoBegin(p, b, m, 1, n);
      var m2 := LogNext(p, b, m1, 1, n);
      var m3 := DoEnd(p, b, m2, 1, n + 1);
      r := FillByOthers(p, b, m3, n + 1, k - 1);
    }
  }

  /** How many blocks operations within MAXOPBLOCKS can log while one is open: all that LOGSIZE allows if two of them fit
      side by side, and otherwise those of one. */
  function Most(p: Params): nat {
    if 2 * p.maxop <= p.limit then p.limit else if p.maxop <= p.limit then p.maxop else 0
  }

  lemma OpenFirst(p: Params, b: Machine) returns (r: Machine)
    requires Fits(p) && Booted(p, b) && 2 <= |b.threads| && p.maxop <= p.limit
    ensures At(p, b, r, 0) && OneOpen(p, r)
  {
    hide At, Booted;
    BootAt(p, b);
    BootIdle(p, b);
    assert (b.outstanding + 1) * p.maxop == p.maxop;
    r := DoBegin(p, b, b, 0, 0);
    AtSize(p, b, r, 0);
    assert r.threads[1] == b.threads[1];
  }

  lemma BootIdle(p: Params, b: Machine)
    requires Booted(p, b)
    ensures b.outstanding == 0 && !b.committing && forall t :: 0 <= t < |b.threads| ==> b.threads[t] == Idle
  {
    hide DiskOk, Header, Fresh, Holds;
  }

  lemma BootAt(p: Params, b: Machine)
    requires Fits(p) && Booted(p, b)
    ensures At(p, b, b, 0)
  {
    hide Inv, Shape, DiskOk, Header, Fresh, Holds;
    assert Run(p, [b], []);
    FromInv(p, b, b);
  }

  /** Operations of both processes are open and have logged i and j blocks. */
  ghost predicate TwoOpen(m: Machine, i: nat, j: nat) {
    m.outstanding == 2 && !m.committing && 2 <= |m.threads| &&
    m.threads[0].inOp && |m.threads[0].mine| == i && m.threads[1].inOp && |m.threads[1].mine| == j
  }

  lemma FillTwo(p: Params, b: Machine, m: Machine, k: nat, i: nat, j: nat) returns (r: Machine)
    requires Fits(p) && At(p, b, m, k) && OneOpen(p, m) && i <= p.maxop && j <= p.maxop && k + 2 * p.maxop <= p.limit
    requires k + i + j == 0 || Room(p, b, k + i + j)
    ensures At(p, b, r, k + i + j) && TwoOpen(r, i, j)
  {
    hide At;
    AtSize(p, b, m, k);
    var m1 := DoBegin(p, b, m, 1, k);
    AtSize(p, b, m1, k);
    var m2 := Fill(p, b, m1, 1, k, j);
    AtSize(p, b, m2, k + j);
    r := Fill(p, b, m2, 0, k + j, i);
    AtSize(p, b, r, k + i + j);
  }

  /** The log can be filled with any number of blocks up to Most. */
  lemma FillAll(p: Params, b: Machine, n: nat) returns (r: Machine)
    requires Fits(p) && Booted(p, b) && 2 <= |b.threads| && 1 <= p.maxop <= p.limit && n <= Most(p) && (n == 0 || Room(p, b, n))
    ensures At(p, b, r, n) && r.threads[0].inOp
  {
    hide At, Booted;
    r := OpenFirst(p, b);
    AtSize(p, b, r, 0);
    if p.limit < 2 * p.maxop {
      r := Fill(p, b, r, 0, 0, n);
    } else {
      var k := if n <= p.limit - 2 * p.maxop then n else p.limit - 2 * p.maxop;
      r := FillByOthers(p, b, r, 0, k);
      var j := if n - k <= p.maxop then n - k else p.maxop;
      r := FillTwo(p, b, r, k, n - k - j, j);
    }
  }

  // ----- when log_write panics

  /** An operation holds the buffer of a home block that would be one of at most MAXOPBLOCKS it logs, and log_write of it
      panics. */
  ghost predicate Overruns(p: Params, m: Machine) {
    Shape(p, m) && LogWritePanics(p, m) && exists t: nat, i: nat :: Writable(p, m, t, i) && MayLog(p, m, t, i)
  }

  /** The log area has no room for another block when Most are logged, or log.lh.block has not. */
  predicate Overrunnable(p: Params) {
    1 <= p.maxop <= p.limit && (p.g.size <= Most(p) + 1 || Most(p) == p.limit)
  }

  /** From any boot with two processes, buffers and home blocks enough, a log_write panics. */
  lemma OverrunRun(p: Params, b: Machine) returns (m: Machine)
    requires Fits(p) && Booted(p, b) && 2 <= |b.threads| && Overrunnable(p) && 0 < p.g.size
    requires p.g.size <= |b.cache.bufs| && p.g.start + 2 * p.g.size <= |b.disk|
    ensures From(p, b, m) && Overruns(p, m)
  {
    hide Inv, From, GetBuf, Booted, RingOk, DiskOk;
    var n := if p.g.size - 1 <= Most(p) then p.g.size - 1 else Most(p);
    var m0 := FillAll(p, b, n);
    var home := NextBlock(p, b, m0, n);
    CalmGet(p, m0, home);
    assert Free(m0.threads[0]);
    var m1, i := DoGet(p, b, m0, 0, home);
    m := DoAcquire(p, b, m1, 0);
    assert Writable(p, m, 0, i) && MayLog(p, m, 0, i);
  }

  /** A block that process 0 may log: a new one, or one that it has logged. */
  lemma NextBlock(p: Params, b: Machine, m: Machine, n: nat) returns (home: nat)
    requires Fits(p) && At(p, b, m, n) && 0 < |m.threads| && m.threads[0].inOp && 1 <= p.maxop && n < p.g.size
    requires p.g.start + 2 * p.g.size <= |m.disk|
    ensures home < |m.disk| && !InLog(p.g, home) && (home in m.threads[0].mine || |m.threads[0].mine| < p.maxop)
  {
    hide Inv, Shape, From, Calm;
    if |m.threads[0].mine| < p.maxop {
      home := p.g.start + p.g.size + n;
    } else {
      FromInv(p, b, m);
      assert Keeps(p, m, 0);
      home :| home in m.threads[0].mine;
    }
  }

  function MineSum(ts: seq<Thread>): nat {
    if ts == [] then 0 else (if ts[0].inOp then |ts[0].mine| else 0) + MineSum(ts[1..])
  }

  lemma {:induction false} MineUpdate(ts: seq<Thread>, t: nat, th: Thread)
    requires t < |ts|
    ensures MineSum(ts[t := th]) == MineSum(ts) - (if ts[t].inOp then |ts[t].mine| else 0) + (if th.inOp then |th.mine| else 0)
  {
    if t == 0 {
      assert ts[t := th][1..] == ts[1..];
    } else {
      assert ts[t := th][1..] == ts[1..][t - 1 := th];
      MineUpdate(ts[1..], t - 1, th);
    }
  }

  /** With one operation open, all that is logged is its own; with none, nothing is. */
  lemma {:induction false} MineOfOne(ts: seq<Thread>, t: nat)
    requires Active(ts) <= 1 && t < |ts|
    ensures ts[t].inOp ==> MineSum(ts) == |ts[t].mine|
    ensures Active(ts) == 0 ==> MineSum(ts) == 0
  {
    if t == 0 {
      if Active(ts[1..]) == 0 { NoMine(ts[1..]); }
    } else {
      MineOfOne(ts[1..], t - 1);
      if ts[0].inOp {
        NoneActive(ts[1..]);
        assert ts[1..][t - 1] == ts[t];
      }
    }
  }

  lemma {:induction false} NoMine(ts: seq<Thread>)
    requires Active(ts) == 0
    ensures MineSum(ts) == 0
  {
    if ts != [] { NoMine(ts[1..]); }
  }

  /** Where two operations do not fit side by side, the log holds only what the one open operation logged. */
  ghost predicate Narrow(p: Params, m: Machine) {
    (m.outstanding > 0 ==> p.maxop <= p.limit) &&
    (p.limit < 2 * p.maxop ==> m.outstanding <= 1 && (m.phase == Open ==> |m.lh| <= MineSum(m.threads)))
  }

  lemma NarrowStep(p: Params, m: Machine, e: Event)
    requires Inv(p, m) && Reserving(p, m) && Narrow(p, m) && Shape(p, m) && Enabled(p, m, e)
    ensures Narrow(p, Next(p, m, e))
  {
    hide CacheOk, RefsOk, LocksOk, OpsOk, PassedOk, PinsOk, DataOk, DurableOk, DiskOk, RingOk, Reserving, GetBuf, LockAndFill, EncodeHead, Apply, DropRef,
         Recover, CrashedRecoveries, Fresh, Unlock, Absorb;
    match e
    case Begin(t) => NarrowBegin(p, m, t);
    case Write(t, i) =>
      NarrowWrite(p, m, t, i);
    case End(t) => MineUpdate(m.threads, t, m.threads[t].(inOp := false, mine := {}));
    case Get(_, _) => NarrowBuffer(p, m, e, e.t);
    case Acquire(t) => NarrowBuffer(p, m, e, t);
    case Modify(t, _, _) => NarrowBuffer(p, m, e, t);
    case Test(t, _) => NarrowBuffer(p, m, e, t);
    case Release(t, _) => NarrowBuffer(p, m, e, t);
    case Drop(t) => NarrowBuffer(p, m, e, t);
    case _ => NarrowCommit(p, m, e);
  }

  lemma NarrowWrite(p: Params, m: Machine, t: nat, i: nat)
    requires Inv(p, m) && Reserving(p, m) && Narrow(p, m) && Shape(p, m) && Enabled(p, m, Write(t, i))
    ensures Narrow(p, Next(p, m, Write(t, i)))
  {
    hide CacheOk, RefsOk, LocksOk, OpsOk, PassedOk, PinsOk, DataOk, DurableOk, DiskOk, RingOk, CountsOk;
    PassedHolds(p, m, t);
    assert Keeps(p, m, t);
    var b := m.cache.bufs[i].blockno;
    if b in m.threads[t].mine { assert m.threads[t].mine + {b} == m.threads[t].mine; }
    MineUpdate(m.threads, t, LoggedBy(m.threads[t], i, b));
  }

  lemma NarrowBuffer(p: Params, m: Machine, e: Event, t: nat)
    requires Narrow(p, m) && Shape(p, m) && Enabled(p, m, e)
    requires (e.Get? || e.Acquire? || e.Modify? || e.Test? || e.Release? || e.Drop?) && e.t == t
    ensures Narrow(p, Next(p, m, e))
  {
    hide DiskOk, RingOk, GetBuf, LockAndFill, DropRef, Unlock;
    var th := Next(p, m, e).threads[t];
    assert Next(p, m, e).threads == m.threads[t := th];
    MineUpdate(m.threads, t, th);
  }

  lemma NarrowCommit(p: Params, m: Machine, e: Event)
    requires Inv(p, m) && Narrow(p, m) && Shape(p, m) && Enabled(p, m, e)
    requires e.CopyOut? || e.CommitHead? || e.Install? || e.ClearHead? || e.Close? || e.Crash?
    ensures Narrow(p, Next(p, m, e))
  {
    hide CacheOk, RefsOk, LocksOk, OpsOk, PinsOk, DataOk, DurableOk, DiskOk, RingOk, EncodeHead, Apply, Recover, CrashedRecoveries, Fresh;
  }

  lemma NarrowBegin(p: Params, m: Machine, t: nat)
    requires Inv(p, m) && Narrow(p, m) && Shape(p, m) && Enabled(p, m, Begin(t))
    ensures Narrow(p, Next(p, m, Begin(t)))
  {
    hide CacheOk, RefsOk, LocksOk, OpsOk, PinsOk, DataOk, DurableOk, DiskOk, RingOk;
    MineUpdate(m.threads, t, m.threads[t].(inOp := true, mine := {}, began := |m.groups|));
    assert (m.outstanding + 1) * p.maxop == m.outstanding * p.maxop + p.maxop;
    if m.outstanding >= 1 { assert m.outstanding * p.maxop >= p.maxop by { AtLeastOne(m.outstanding, p.maxop); } }
  }

  lemma AtLeastOne(a: nat, b: nat)
    requires a >= 1
    ensures a * b >= b
  {
    assert a * b == (a - 1) * b + b;
  }

  lemma {:induction false} NarrowRun(p: Params, ms: seq<Machine>, es: seq<Event>, i: nat)
    requires Fits(p) && Run(p, ms, es) && i < |ms| && Contained(p, ms, es, i) && Modest(p, ms, es, i)
    ensures Narrow(p, ms[i])
  {
    hide Inv, Shape, Enabled, Next, Booted, Narrow, Reserving, Breaches, ModestEvent;
    if i == 0 {
      BootNarrow(p, ms[0]);
    } else {
      NarrowRun(p, ms, es, i - 1);
      RunInv(p, ms, es, i - 1);
      RunReserving(p, ms, es, i - 1);
      assert ms[i - 1 + 1] == Next(p, ms[i - 1], es[i - 1]);
      NarrowStep(p, ms[i - 1], es[i - 1]);
    }
  }

  lemma BootNarrow(p: Params, m: Machine)
    requires Booted(p, m)
    ensures Narrow(p, m)
  {
    hide DiskOk, Header, Fresh, Holds;
  }

  // ----- when the log area can hold more blocks than it has room for

  /** Two operations fit the log side by side, and the log area is not larger than LOGSIZE. */
  predicate Racy(p: Params) {
    1 <= p.maxop && 2 * p.maxop <= p.limit && 2 <= p.g.size <= p.limit
  }

  /** The log fits its area; where one operation at most is open, who has passed log_write's test finds room still. */
  ghost predicate Roomy(p: Params, m: Machine) {
    |m.lh| < p.g.size &&
    (p.limit < 2 * p.maxop || p.maxop == 0 || p.g.size <= 1 ==>
       forall t :: 0 <= t < |m.threads| && m.threads[t].passed.Some? ==> |m.lh| + 1 < p.g.size)
  }

  lemma RoomyStep(p: Params, m: Machine, e: Event)
    requires Fits(p) && !Racy(p) && Inv(p, m) && Reserving(p, m) && Narrow(p, m) && Roomy(p, m) && Shape(p, m) && Enabled(p, m, e)
    ensures !Breaches(p, m, e) && Roomy(p, Next(p, m, e))
  {
    hide Inv, DiskOk, RingOk, Reserving, Narrow, GetBuf, LockAndFill, EncodeHead, Apply, DropRef, Recover, CrashedRecoveries, Fresh, Unlock, Absorb;
    if e.Write? {
      WriteReserving(p, m, e.t, e.i);
      RoomyWrite(p, m, e.t, e.i);
    } else if e.ClearHead? || e.Crash? {
      RoomyEmpty(p, m, e);
    }
  }

  lemma RoomyEmpty(p: Params, m: Machine, e: Event)
    requires Inv(p, m) && Roomy(p, m) && Shape(p, m) && Enabled(p, m, e) && (e.ClearHead? || e.Crash?)
    ensures Roomy(p, Next(p, m, e))
  {
    hide CacheOk, RefsOk, LocksOk, PinsOk, DataOk, DurableOk, OpsOk, EncodeHead, Recover, CrashedRecoveries, Fresh, RingOk;
    if e.ClearHead? {
      Committing(p, m, 0);
    }
  }

  lemma RoomyWrite(p: Params, m: Machine, t: nat, i: nat)
    requires Fits(p) && !Racy(p) && Inv(p, m) && Reserving(p, m) && Narrow(p, m) && Roomy(p, m) && Shape(p, m) && Enabled(p, m, Write(t, i))
    ensures Roomy(p, Next(p, m, Write(t, i)))
  {
    hide CacheOk, RefsOk, LocksOk, PinsOk, DataOk, DurableOk, RingOk, DiskOk, Reserving;
    PassedHolds(p, m, t);
    OpMeansOpen(p, m, t);
    WriteReserving(p, m, t, i);
    if p.limit < 2 * p.maxop || p.maxop == 0 || p.g.size <= 1 {
      MayAppend(p, m, t, i);
      forall u | 0 <= u < |m.threads| && u != t && p.limit < 2 * p.maxop ensures m.threads[u].passed == None {
        if m.threads[u].passed.Some? {
          PassedHolds(p, m, u);
          TwoActive(m.threads, t, u);
        }
      }
    }
  }

  /** Where operations may log nothing, nobody is about to. */
  lemma MayAppend(p: Params, m: Machine, t: nat, i: nat)
    requires Reserving(p, m) && t < |m.threads| && m.threads[t].passed == Some(i)
    ensures 1 <= p.maxop
  {
    assert Keeps(p, m, t);
  }

  lemma TwoActive(ts: seq<Thread>, t: nat, u: nat)
    requires t < |ts| && u < |ts| && t != u && ts[t].inOp && ts[u].inOp
    ensures 2 <= Active(ts)
  {
    ActiveUpdate(ts, t, Idle);
    assert ts[t := Idle][u] == ts[u];
    if Active(ts[t := Idle]) == 0 { NoneActive(ts[t := Idle]); }
  }

  /** Unless two operations fit the log side by side in an area of at most LOGSIZE blocks, operations within MAXOPBLOCKS
      never log more than the area holds. */
  lemma {:induction false} RoomyRun(p: Params, ms: seq<Machine>, es: seq<Event>, i: nat)
    requires Fits(p) && Run(p, ms, es) && i < |ms| && Modest(p, ms, es, i) && !Racy(p)
    ensures Contained(p, ms, es, i) && |ms[i].lh| < p.g.size && Roomy(p, ms[i])
  {
    hide Inv, Shape, Next, Booted, Narrow, Roomy, Reserving, Breaches, ModestEvent;
    if i == 0 {
      BootRoomy(p, ms[0]);
    } else {
      RoomyRun(p, ms, es, i - 1);
      RunInv(p, ms, es, i - 1);
      RunReserving(p, ms, es, i - 1);
      NarrowRun(p, ms, es, i - 1);
      assert ms[i - 1 + 1] == Next(p, ms[i - 1], es[i - 1]);
      RoomyStep(p, ms[i - 1], es[i - 1]);
    }
    RoomyLength(p, ms[i]);
  }

  lemma RoomyLength(p: Params, m: Machine)
    requires Roomy(p, m)
    ensures |m.lh| < p.g.size
  {}

  lemma BootRoomy(p: Params, m: Machine)
    requires Booted(p, m)
    ensures Roomy(p, m)
  {
    hide Header, Fresh, Holds;
  }

  /** A commit under way has had a buffer for a log block, beside those that are pinned. */
  ghost predicate OneMore(m: Machine) {
    m.phase.Copying? && 1 <= m.phase.k ==> |m.lh| < |m.cache.bufs|
  }

  lemma OneMoreStep(p: Params, m: Machine, e: Event)
    requires Inv(p, m) && OneMore(m) && Shape(p, m) && Enabled(p, m, e) && !Breaches(p, m, e)
    ensures OneMore(Next(p, m, e)) && |Next(p, m, e).cache.bufs| == |m.cache.bufs|
  {
    hide Inv, DiskOk, RingOk, EncodeHead, Apply, GetBuf, LockAndFill, DropRef, Unlock, Recover, CrashedRecoveries, Fresh, Absorb;
    BufsKept(p, m, e);
    if e.Write? {
      PassedHolds(p, m, e.t);
      InOpRoom(p, m, e.t);
    } else if e.CopyOut? {
      CopyNeedsOne(p, m, e.to);
    }
  }

  lemma BufsKept(p: Params, m: Machine, e: Event)
    requires Inv(p, m) && Shape(p, m) && Enabled(p, m, e)
    ensures |Next(p, m, e).cache.bufs| == |m.cache.bufs|
  {
    hide Inv, DiskOk, EncodeHead, Apply, GetBuf, LockAndFill, Recover, CrashedRecoveries, Fresh, MoveToFront, Absorb;
    InvCache(p, m);
    if e.Get? {
      GetBufSafe(m.cache, 1, e.blockno);
    } else if e.Acquire? {
      WaitsFor(p, m, e.t);
      LockAndFillSafe(m.cache, m.disk, m.threads[e.t].waiting.value);
    }
  }

  lemma CopyNeedsOne(p: Params, m: Machine, to: nat)
    requires Inv(p, m) && Shape(p, m) && m.phase.Copying? && m.phase.k + 1 < p.g.size && CommitterHolds(p, m, to, p.g.start + 1 + m.phase.k)
    ensures |m.lh| < |m.cache.bufs|
  {
    hide CacheOk, RefsOk, LocksOk, Pinned, LoggedOk, DataOk, DurableOk, OpsOk, CountsOk, PassedOk, DiskOk, RingOk;
    LogBufferFree(p.g, m.cache, m.lh, m.pins, 0, m.logged, |m.disk|, to);
    HeldBy(p, m, to, p.g.start + 1 + m.phase.k);
    InvCache(p, m);
    DirtyValid(m.cache, to);
    assert to in CleanInUse(m.cache);
    Busy(p, m);
  }

  /** A block that is logged for the first time has a buffer beside those that are pinned. */
  lemma WriteNeedsOne(p: Params, m: Machine, t: nat, i: nat)
    requires Inv(p, m) && Shape(p, m) && Enabled(p, m, Write(t, i)) && m.cache.bufs[i].blockno !in m.lh
    ensures |m.lh| < |m.cache.bufs|
  {
    hide CacheOk, RefsOk, OpsOk, PassedOk, DataOk, DurableOk, DiskOk, RingOk, CountsOk, PinsOk;
    PassedHolds(p, m, t);
    OpMeansOpen(p, m, t);
    LocksAt(m.cache.bufs, m.threads, |m.disk|, t, i);
    DirtyValid(m.cache, i);
    if m.cache.bufs[i].dirty { DirtyInLog(p.g, m.cache, m.lh, m.pins, m.logged, |m.disk|, i); }
    assert i in CleanInUse(m.cache);
    Busy(p, m);
  }

  lemma DirtyInLog(g: Geometry, c: Cache, lh: seq<Word>, pins: seq<nat>, logged: map<nat, Block>, size: nat, i: nat)
    requires PinsOk(g, c, lh, pins, 0, logged, size) && i < |c.bufs| && c.bufs[i].dirty
    ensures c.bufs[i].blockno in lh
  {
    var k :| 0 <= k < |pins| && pins[k] == i;
    assert Keyed(c.bufs[pins[k]], 1, lh[k]);
  }

  /** With no more buffers than the log area has blocks, write_log of a log that does not fit the area never gets to a block
      past its end; with no more buffers than LOGSIZE, log.lh.block never overflows, however much an operation logs. */
  lemma {:induction false} FewBuffers(p: Params, ms: seq<Machine>, es: seq<Event>, i: nat)
    requires Fits(p) && Run(p, ms, es) && i < |ms| && 2 <= p.g.size && |ms[0].cache.bufs| <= p.g.size
    requires Modest(p, ms, es, i) || |ms[0].cache.bufs| <= p.limit
    ensures Contained(p, ms, es, i) && OneMore(ms[i]) && |ms[i].cache.bufs| == |ms[0].cache.bufs|
  {
    hide Inv, Shape, Next, Booted, Enabled, Reserving, ModestEvent;
    if i == 0 {
      BootOpen(p, ms[0]);
    } else {
      FewBuffers(p, ms, es, i - 1);
      RunInv(p, ms, es, i - 1);
      var m, e := ms[i - 1], es[i - 1];
      assert ms[i - 1 + 1] == Next(p, m, e);
      if Modest(p, ms, es, i) { RunReserving(p, ms, es, i - 1); }
      FewStep(p, m, e);
      OneMoreStep(p, m, e);
    }
  }

  lemma FewStep(p: Params, m: Machine, e: Event)
    requires Inv(p, m) && OneMore(m) && Shape(p, m) && Enabled(p, m, e) && 2 <= p.g.size && |m.cache.bufs| <= p.g.size
    requires Reserving(p, m) || |m.cache.bufs| <= p.limit
    ensures !Breaches(p, m, e)
  {
    hide Inv, DiskOk, RingOk, Reserving;
    if e.Write? {
      if Reserving(p, m) {
        WriteReserving(p, m, e.t, e.i);
      } else if m.cache.bufs[e.i].blockno !in m.lh {
        WriteNeedsOne(p, m, e.t, e.i);
      }
    }
  }

  lemma BootOpen(p: Params, m: Machine)
    requires Booted(p, m)
    ensures m.phase == Open
  {
    hide DiskOk, Header, Fresh, Holds;
  }

  /** Nothing is written where the log has no room, whatever the operations log: there are not the buffers for it. */
  predicate Safe(p: Params, nbuf: nat) {
    2 <= p.g.size && nbuf <= p.g.size && nbuf <= p.limit
  }

  /** The same for operations within MAXOPBLOCKS: for want of a second operation, of so many blocks, or of so many buffers. */
  predicate SafeModest(p: Params, nbuf: nat) {
    Racy(p) ==> nbuf <= p.g.size
  }

  /** Under conditions on the parameters alone, no run writes where the log has no room. */
  lemma SafeContained(p: Params, ms: seq<Machine>, es: seq<Event>, i: nat)
    requires Fits(p) && Run(p, ms, es) && i < |ms|
    requires Safe(p, |ms[0].cache.bufs|) || (Modest(p, ms, es, i) && SafeModest(p, |ms[0].cache.bufs|))
    ensures Contained(p, ms, es, i)
  {
    hide Run, Contained, Modest;
    if Safe(p, |ms[0].cache.bufs|) || Racy(p) {
      FewBuffers(p, ms, es, i);
    } else {
      RoomyRun(p, ms, es, i);
    }
  }

  // ----- exactly when log_write panics

  lemma NoOverrun(p: Params, ms: seq<Machine>, es: seq<Event>, i: nat)
    requires Fits(p) && Run(p, ms, es) && i < |ms| && Modest(p, ms, es, i) && !Overrunnable(p)
    ensures !Overruns(p, ms[i])
  {
    hide Run, Inv, DiskOk, RingOk, Contained, Modest, Narrow;
    RoomyRun(p, ms, es, i);
    RunInv(p, ms, es, i);
    var m := ms[i];
    RunReserving(p, ms, es, i);
    NarrowRun(p, ms, es, i);
    forall t: nat, j: nat | Writable(p, m, t, j) && MayLog(p, m, t, j) ensures !LogWritePanics(p, m) {
      RunSafe(p, ms, es, i, t);
      assert Keeps(p, m, t);
      OneAtMost(p, m, t);
    }
  }

  lemma OneAtMost(p: Params, m: Machine, t: nat)
    requires Inv(p, m) && Narrow(p, m) && t < |m.threads| && m.threads[t].inOp
    ensures p.maxop <= p.limit && (p.limit < 2 * p.maxop ==> |m.lh| <= |m.threads[t].mine|)
  {
    hide CacheOk, RefsOk, LocksOk, PinsOk, DataOk, DurableOk, OpsOk, PassedOk;
    OpMeansOpen(p, m, t);
    if m.outstanding <= 1 { MineOfOne(m.threads, t); }
  }

  ghost predicate BootOn(p: Params, b: Machine, d: Disk, nbuf: nat, nthreads: nat) {
    Booted(p, b) && b.disk == d && |b.cache.bufs| == nbuf && |b.threads| == nthreads
  }

  /** A run from mkfs's disk, of operations within MAXOPBLOCKS, ends in m. */
  ghost predicate Reaches(p: Params, d: Disk, nbuf: nat, nthreads: nat, m: Machine) {
    exists ms: seq<Machine>, es: seq<Event> ::
      |ms| == |es| + 1 && Run(p, ms, es) && Modest(p, ms, es, |es|) && BootOn(p, ms[0], d, nbuf, nthreads) && ms[|es|] == m
  }

  lemma FromReaches(p: Params, b: Machine, d: Disk, nbuf: nat, nthreads: nat, m: Machine)
    requires BootOn(p, b, d, nbuf, nthreads) && From(p, b, m)
    ensures Reaches(p, d, nbuf, nthreads, m)
  {
    hide Run, Contained, Modest, Booted;
  }

  /** Operations within MAXOPBLOCKS can make log_write panic. */
  ghost predicate CanOverrun(p: Params, d: Disk, nbuf: nat, nthreads: nat) {
    exists m: Machine :: Reaches(p, d, nbuf, nthreads, m) && Overruns(p, m)
  }

  /** With two processes or more, and buffers and home blocks for every log block, "too big a transaction" can be reached by
      operations that log at most MAXOPBLOCKS blocks each, some of them twice, exactly if two operations fit LOGSIZE side by
      side, or one takes all of it, or one fits it and can fill the log area. */
  lemma OverrunIff(p: Params, d: Disk, nbuf: nat, nthreads: nat)
    requires Fits(p) && 0 < p.g.size && p.g.start + 2 * p.g.size <= |d| <= U32 && d[p.g.start] == ZeroBlock()
    requires 2 <= nbuf && p.g.size <= nbuf && 2 <= nthreads
    ensures CanOverrun(p, d, nbuf, nthreads) <==>
            1 <= p.maxop <= p.limit && (2 * p.maxop <= p.limit || p.maxop == p.limit || p.g.size <= p.maxop + 1)
  {
    hide Run, From, Modest, Overruns, Booted, ZeroBlock;
    if CanOverrun(p, d, nbuf, nthreads) && !Overrunnable(p) {
      var m: Machine :| Reaches(p, d, nbuf, nthreads, m) && Overruns(p, m);
      var ms: seq<Machine>, es: seq<Event> :|
        |ms| == |es| + 1 && Run(p, ms, es) && Modest(p, ms, es, |es|) && BootOn(p, ms[0], d, nbuf, nthreads) && ms[|es|] == m;
      NoOverrun(p, ms, es, |es|);
    }
    if Overrunnable(p) {
      var b := MkfsBoots(p, d, nbuf, nthreads);
      RunBoots(p, b);
      var m := OverrunRun(p, b);
      FromReaches(p, b, d, nbuf, nthreads, m);
    }
  }

  lemma RunBoots(p: Params, b: Machine)
    requires Run(p, [b], [])
    ensures Booted(p, b)
  {
    hide Booted;
  }

  // ----- when commit panics

  /** Process 0 is in the only operation and holds nothing; processes 1 to j, outside of one, hold one buffer each, those of
      the set held, of the blocks that follow those logged. */
  ghost predicate Reading(p: Params, b: Machine, m: Machine, n: nat, j: nat, held: set<nat>) {
    From(p, b, m) && Inv(p, m) && Shape(p, m) && m.phase == Open && m.outstanding == 1 && !m.committing &&
    |m.threads| == |b.threads| && |m.disk| == |b.disk| && |m.cache.bufs| == |b.cache.bufs| && j < |m.threads| &&
    m.threads[0].inOp && Free(m.threads[0]) && (forall t :: 1 <= t <= j ==> |m.threads[t].held| == 1) &&
    (forall t :: j < t < |m.threads| ==> Free(m.threads[t])) && RefTotal(m.threads) == j &&
    LogIs(p.g, m.lh, n) && ReadersHold(p, m.cache.bufs, held, n, j)
  }

  ghost predicate ReadersHold(p: Params, bufs: seq<Buf>, held: set<nat>, n: nat, j: nat) {
    |held| == j && forall i :: i in held ==>
      i < |bufs| && bufs[i].refcnt != 0 && !bufs[i].dirty &&
      p.g.start + p.g.size + n <= bufs[i].blockno < p.g.start + p.g.size + n + j
  }

  lemma {:induction false} TotalUpdate(ts: seq<Thread>, t: nat, th: Thread)
    requires t < |ts| && Free(ts[t]) && th.waiting == None && th.leaving == None
    ensures RefTotal(ts[t := th]) == RefTotal(ts) + |th.held|
  {
    if t == 0 {
      assert ts[t := th][1..] == ts[1..];
    } else {
      assert ts[t := th][1..] == ts[1..][t - 1 := th];
      TotalUpdate(ts[1..], t - 1, th);
    }
  }

  /** The clean buffers in use are those the readers hold. */
  lemma ReadersUse(p: Params, b: Machine, m: Machine, n: nat, j: nat, held: set<nat>)
    requires Reading(p, b, m, n, j, held)
    ensures CleanInUse(m.cache) == held && Waiting(m) == n
    ensures forall i :: 0 <= i < |m.cache.bufs| && m.cache.bufs[i].locked && !m.cache.bufs[i].dirty ==> i in held
  {
    hide LocksOk, PinsOk, DataOk, DurableOk, OpsOk, CountsOk, From, RingOk, DiskOk, RefTotal;
    InUseBound(m.cache.bufs, m.cache.ring, m.threads);
    assert held <= CleanInUse(m.cache);
    SubsetSize(held, CleanInUse(m.cache));
    forall i | 0 <= i < |m.cache.bufs| && m.cache.bufs[i].locked && !m.cache.bufs[i].dirty ensures i in held {
      DirtyValid(m.cache, i);
    }
  }

  /** A dirty buffer is of a logged block. */
  lemma DirtyLogged(p: Params, m: Machine, n: nat, i: nat)
    requires Inv(p, m) && LogIs(p.g, m.lh, n) && i < |m.cache.bufs| && m.cache.bufs[i].dirty
    ensures p.g.start + p.g.size <= m.cache.bufs[i].blockno < p.g.start + p.g.size + n
  {
    hide CacheOk, RefsOk, LocksOk, DataOk, DurableOk, OpsOk, LoggedOk;
    var from := m.pins[Done(m)..];
    var k :| 0 <= k < |from| && from[k] == i;
    assert Keyed(m.cache.bufs[m.pins[Done(m) + k]], 1, m.lh[Done(m) + k]);
  }

  /** One more process reads a block. */
  lemma ReadNext(p: Params, b: Machine, m: Machine, n: nat, j: nat, held: set<nat>) returns (r: Machine, now: set<nat>)
    requires Fits(p) && Reading(p, b, m, n, j, held) && n + j < |b.cache.bufs| && p.g.start + p.g.size + n + j < |b.disk|
    requires j + 1 < |b.threads|
    ensures Reading(p, b, r, n, j + 1, now)
  {
    hide Inv, Shape, From, GetBuf, RingOk, ReadersHold, LogIs, CleanInUse, Cached, RefTotal;
    var home := p.g.start + p.g.size + n + j;
    ReadersUse(p, b, m, n, j, held);
    HoldSize(p, m.cache.bufs, held, n, j);
    HaltsIff(p, m, home);
    ShapeRing(p, m);
    assert Free(m.threads[j + 1]);
    var m1, i := DoGet(p, b, m, j + 1, home);
    if m.cache.bufs[i].dirty && Keyed(m.cache.bufs[i], 1, home) { DirtyLogged(p, m, n, i); }
    r := DoAcquire(p, b, m1, j + 1);
    now := held + {i};
    ReadersGrow(p, m.cache.bufs, r.cache.bufs, held, n, j, i);
    var th := m.threads[j + 1].(held := m.threads[j + 1].held + {i});
    assert th.held == {i};
    assert r.threads == m.threads[j + 1 := th];
    TotalUpdate(m.threads, j + 1, th);
  }

  lemma HoldSize(p: Params, bufs: seq<Buf>, held: set<nat>, n: nat, j: nat)
    requires ReadersHold(p, bufs, held, n, j)
    ensures |held| == j && forall i :: i in held ==>
              i < |bufs| && bufs[i].blockno < p.g.start + p.g.size + n + j && !Recyclable(bufs[i])
  {}

  lemma ReadersGrow(p: Params, bufs: seq<Buf>, now: seq<Buf>, held: set<nat>, n: nat, j: nat, i: nat)
    requires ReadersHold(p, bufs, held, n, j) && |now| == |bufs| && i < |bufs| && i !in held
    requires forall k :: 0 <= k < |bufs| && k != i ==> now[k] == bufs[k]
    requires now[i].refcnt != 0 && !now[i].dirty && now[i].blockno == p.g.start + p.g.size + n + j
    ensures ReadersHold(p, now, held + {i}, n, j + 1)
  {}

  lemma ShapeRing(p: Params, m: Machine)
    requires Shape(p, m)
    ensures RingOk(m.cache.ring, |m.cache.bufs|)
  {}

  lemma {:induction false} ReadMore(p: Params, b: Machine, m: Machine, n: nat, j: nat, held: set<nat>, k: nat)
    returns (r: Machine, now: set<nat>)
    requires Fits(p) && Reading(p, b, m, n, j, held) && n + j + k <= |b.cache.bufs| && p.g.start + p.g.size + n + j + k <= |b.disk|
    requires j + k < |b.threads|
    ensures Reading(p, b, r, n, j + k, now)
    decreases k
  {
    hide Reading;
    if k == 0 {
      r, now := m, held;
    } else {
      r, now := ReadNext(p, b, m, n, j, held);
      r, now := ReadMore(p, b, r, n, j + 1, now, k - 1);
    }
  }

  /** A commit of n blocks stands before its first read of a log block, no buffer is left, and so the read panics. */
  ghost predicate CommitPanics(p: Params, m: Machine, n: nat) {
    Shape(p, m) && m.phase == Copying(0) && |m.lh| == n && GetBuf(m.cache, 1, p.g.start + 1).Halt?
  }

  /** However few blocks a transaction logs, its commit can find no buffer: there is a run in which other processes read
      one block each until all buffers are taken. */
  lemma CommitPanicRun(p: Params, b: Machine, n: nat) returns (m: Machine)
    requires Fits(p) && Booted(p, b) && 1 <= n <= |b.cache.bufs| && n <= p.maxop <= p.limit
    requires 2 <= |b.threads| && |b.cache.bufs| - n < |b.threads|
    requires n < p.g.size && p.g.start + p.g.size + |b.cache.bufs| <= |b.disk|
    ensures From(p, b, m) && CommitPanics(p, m, n)
  {
    hide Booted, Inv, Shape, From, GetBuf, RingOk, DiskOk, RefTotal;
    var m0 := OpenFirst(p, b);
    m0 := Fill(p, b, m0, 0, 0, n);
    assert Free(m0.threads[0]);
    FreeTotal(m0.threads, 0);
    var m1, held := ReadMore(p, b, m0, n, 0, {}, |b.cache.bufs| - n);
    m := CommitStarts(p, b, m1, n, |b.cache.bufs| - n, held);
  }

  lemma CommitStarts(p: Params, b: Machine, m: Machine, n: nat, j: nat, held: set<nat>) returns (r: Machine)
    requires Fits(p) && Reading(p, b, m, n, j, held) && n + j == |m.cache.bufs| && 1 <= n < p.g.size
    ensures From(p, b, r) && CommitPanics(p, r, n)
  {
    hide Inv, DiskOk, RingOk, From, GetBuf, ReadersHold, LogIs, RefTotal;
    ReadersUse(p, b, m, n, j, held);
    HoldSize(p, m.cache.bufs, held, n, j);
    HaltsIff(p, m, p.g.start + 1);
    NotCached(p, b, m, n, j, held);
    assert Free(m.threads[0]);
    LogLength(p, m, n);
    Extend(p, b, m, End(0));
    r := Next(p, m, End(0));
    assert r.cache == m.cache;
  }

  lemma LogLength(p: Params, m: Machine, n: nat)
    requires LogIs(p.g, m.lh, n)
    ensures |m.lh| == n
  {}

  lemma NotCached(p: Params, b: Machine, m: Machine, n: nat, j: nat, held: set<nat>)
    requires Reading(p, b, m, n, j, held) && n + j == |m.cache.bufs| && n < p.g.size && 1 < p.g.size
    ensures !Cached(m.cache, p.g.start + 1)
  {
    hide Inv, From, DiskOk, RingOk, Shape, RefTotal;
    ReadersUse(p, b, m, n, j, held);
    Busy(p, m);
    forall i | 0 <= i < |m.cache.bufs| ensures !Keyed(m.cache.bufs[i], 1, p.g.start + 1) {
      if m.cache.bufs[i].dirty {
        DirtyLogged(p, m, n, i);
      } else {
        assert !Recyclable(m.cache.bufs[i]);
        assert i in CleanInUse(m.cache);
      }
    }
  }
}
