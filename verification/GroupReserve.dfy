/** Operations that log no more than MAXOPBLOCKS blocks each: what begin_op reserves for them, and what follows. */
module GroupReserve {
  import opened Blocks
  import opened Bio
  import opened LogDisk
  import opened Options
  import opened Seqs
  import opened Log
  import opened GroupCommit

  /** The block of buffer i would be one of at most MAXOPBLOCKS that the operation logs. */
  predicate MayLog(p: Params, m: Machine, t: nat, i: nat)
    requires t < |m.threads| && i < |m.cache.bufs|
  {
    m.cache.bufs[i].blockno in m.threads[t].mine || |m.threads[t].mine| < p.maxop
  }

  predicate ModestEvent(p: Params, m: Machine, e: Event) {
    e.Test? && e.t < |m.threads| && e.i < |m.cache.bufs| ==> MayLog(p, m, e.t, e.i)
  }

  /** No operation logs more than MAXOPBLOCKS blocks, each as often as it likes, before state i. */
  ghost predicate Modest(p: Params, ms: seq<Machine>, es: seq<Event>, i: nat) {
    |ms| == |es| + 1 && forall k :: 0 <= k < i && k < |es| ==> ModestEvent(p, ms[k], es[k])
  }

  /** The log_writes that open operations may still do. */
  function Reserve(th: Thread, maxop: nat): int {
    if th.inOp then maxop - |th.mine| else 0
  }

  function Reserved(ts: seq<Thread>, maxop: nat): int {
    if ts == [] then 0 else Reserve(ts[0], maxop) + Reserved(ts[1..], maxop)
  }

  /** What an open operation has logged is in the log, and it has passed the test for a block that it may log. */
  ghost predicate Keeps(p: Params, m: Machine, t: nat)
    requires t < |m.threads|
  {
    var th := m.threads[t];
    |th.mine| <= p.maxop && (th.inOp ==> forall b :: b in th.mine ==> b in m.lh) &&
    (th.passed.Some? ==> th.passed.value < |m.cache.bufs| && MayLog(p, m, t, th.passed.value))
  }

  /** The logged blocks and all those that open operations may log yet stay within LOGSIZE. */
  ghost predicate Reserving(p: Params, m: Machine) {
    (forall t :: 0 <= t < |m.threads| ==> Keeps(p, m, t)) && |m.lh| + Reserved(m.threads, p.maxop) <= p.limit
  }

  lemma {:induction false} ReservedUpdate(ts: seq<Thread>, t: nat, th: Thread, maxop: nat)
    requires t < |ts|
    ensures Reserved(ts[t := th], maxop) == Reserved(ts, maxop) - Reserve(ts[t], maxop) + Reserve(th, maxop)
  {
    if t == 0 {
      assert ts[t := th][1..] == ts[1..];
    } else {
      assert ts[t := th][1..] == ts[1..][t - 1 := th];
      ReservedUpdate(ts[1..], t - 1, th, maxop);
    }
  }

  /** The open operations together reserve at most maxop blocks each, and one of them at least its own share. */
  lemma {:induction false} ReservedBounds(ts: seq<Thread>, maxop: nat)
    requires forall t :: 0 <= t < |ts| ==> |ts[t].mine| <= maxop
    ensures 0 <= Reserved(ts, maxop) <= Active(ts) * maxop
  {
    if ts != [] { ReservedBounds(ts[1..], maxop); }
  }

  lemma {:induction false} ReservedShare(ts: seq<Thread>, t: nat, maxop: nat)
    requires t < |ts| && ts[t].inOp && forall u :: 0 <= u < |ts| ==> |ts[u].mine| <= maxop
    ensures maxop - |ts[t].mine| <= Reserved(ts, maxop)
  {
    ReservedBounds(ts[1..], maxop);
    if t > 0 { ReservedShare(ts[1..], t - 1, maxop); }
  }

  lemma {:induction false} NoneReserved(ts: seq<Thread>, maxop: nat)
    requires forall t :: 0 <= t < |ts| ==> !ts[t].inOp
    ensures Reserved(ts, maxop) == 0
  {
    if ts != [] { NoneReserved(ts[1..], maxop); }
  }

  // ----- every step keeps the reservation

  /** The buffers that log_write waits with keep their blocks. */
  ghost predicate SameBlocks(m: Machine, n: Machine) {
    |n.cache.bufs| == |m.cache.bufs| &&
    forall t :: 0 <= t < |m.threads| && m.threads[t].passed.Some? && m.threads[t].passed.value < |m.cache.bufs| ==>
      n.cache.bufs[m.threads[t].passed.value].blockno == m.cache.bufs[m.threads[t].passed.value].blockno
  }

  /** The reservation carries over to a state where one process has moved, and has logged nothing. */
  lemma ReservingThread(p: Params, m: Machine, n: Machine, t: nat)
    requires Reserving(p, m) && SameBlocks(m, n) && t < |m.threads| && |n.threads| == |m.threads|
    requires n.threads == m.threads[t := n.threads[t]] && n.lh == m.lh
    requires n.threads[t].mine == m.threads[t].mine && n.threads[t].inOp == m.threads[t].inOp
    requires n.threads[t].passed == m.threads[t].passed ||
             (n.threads[t].passed.Some? && n.threads[t].passed.value < |n.cache.bufs| && MayLog(p, n, t, n.threads[t].passed.value))
    ensures Reserving(p, n)
  {
    ReservedUpdate(m.threads, t, n.threads[t], p.maxop);
    forall u | 0 <= u < |n.threads| ensures Keeps(p, n, u) {
      assert Keeps(p, m, u);
    }
  }

  lemma GetBlocks(p: Params, m: Machine, t: nat, blockno: nat)
    requires Inv(p, m) && Shape(p, m) && Enabled(p, m, Get(t, blockno))
    ensures SameBlocks(m, Next(p, m, Get(t, blockno)))
  {
    hide CacheOk, RefsOk, LocksOk, OpsOk, PinsOk, DataOk, DurableOk, CountsOk, DiskOk, RingOk, GetBuf;
    GetBufSafe(m.cache, 1, blockno);
    var got := GetBuf(m.cache, 1, blockno);
    if m.cache.bufs[got.i].refcnt == 0 { Unreferenced(m.cache.bufs, m.threads, |m.disk|, got.i); }
  }

  lemma BufferReserving(p: Params, m: Machine, e: Event, t: nat)
    requires Inv(p, m) && Reserving(p, m) && Shape(p, m) && Enabled(p, m, e) && ModestEvent(p, m, e)
    requires (e.Get? || e.Acquire? || e.Modify? || e.Test? || e.Release? || e.Drop?) && e.t == t
    ensures Reserving(p, Next(p, m, e))
  {
    hide Inv, DiskOk, RingOk, GetBuf, LockAndFill, MoveToFront, Reserving;
    if e.Get? {
      GetBlocks(p, m, t, e.blockno);
    } else if e.Acquire? {
      WaitsFor(p, m, t);
      LockAndFillSafe(m.cache, m.disk, m.threads[t].waiting.value);
    }
    ReservingThread(p, m, Next(p, m, e), t);
  }

  lemma WaitsFor(p: Params, m: Machine, t: nat)
    requires Inv(p, m) && t < |m.threads| && m.threads[t].waiting.Some?
    ensures var i := m.threads[t].waiting.value;
            CacheOk(m.cache) && i < |m.cache.bufs| && OnDisk(m.cache.bufs[i], |m.disk|) && 0 < m.cache.bufs[i].refcnt
  {
    var i := m.threads[t].waiting.value;
    hide CacheOk, PinsOk, DataOk, DurableOk, OpsOk, PassedOk, CountsOk;
    assert HeldOk(m.cache.bufs, m.threads[t], |m.disk|);
    Referenced(m.cache.bufs, m.threads, t, i);
  }

  /** begin_op's test is what makes room for all that the new operation may log. */
  lemma BeginReserving(p: Params, m: Machine, t: nat)
    requires Inv(p, m) && Reserving(p, m) && Shape(p, m) && Enabled(p, m, Begin(t))
    ensures Reserving(p, Next(p, m, Begin(t)))
  {
    hide CacheOk, RefsOk, LocksOk, OpsOk, PassedOk, PinsOk, DataOk, DurableOk, DiskOk, RingOk;
    var n := Next(p, m, Begin(t));
    ReservedUpdate(m.threads, t, n.threads[t], p.maxop);
    forall u | 0 <= u < |m.threads| ensures |m.threads[u].mine| <= p.maxop && Keeps(p, n, u) {
      assert Keeps(p, m, u);
    }
    ReservedBounds(m.threads, p.maxop);
    assert (m.outstanding + 1) * p.maxop == m.outstanding * p.maxop + p.maxop;
  }

  /** A block that an operation logs for the first time takes one of its reserved places; log.lh.block has one. */
  lemma WriteReserving(p: Params, m: Machine, t: nat, i: nat)
    requires Inv(p, m) && Reserving(p, m) && Shape(p, m) && Enabled(p, m, Write(t, i))
    ensures i < |m.cache.bufs| && (m.cache.bufs[i].blockno in m.lh || |m.lh| < p.limit)
    ensures Reserving(p, Next(p, m, Write(t, i)))
  {
    hide CacheOk, RefsOk, LocksOk, OpsOk, PinsOk, DataOk, DurableOk, CountsOk, DiskOk, RingOk;
    var n, b := Next(p, m, Write(t, i)), m.cache.bufs[i].blockno;
    PassedAt(p.g, m.cache.bufs, m.threads, t);
    LocksAt(m.cache.bufs, m.threads, |m.disk|, t, i);
    DurableSize(p.g, m);
    assert Keeps(p, m, t);
    ReservedUpdate(m.threads, t, n.threads[t], p.maxop);
    if b in m.threads[t].mine { assert m.threads[t].mine + {b} == m.threads[t].mine; }
    forall u | 0 <= u < |m.threads| ensures |m.threads[u].mine| <= p.maxop && Keeps(p, n, u) {
      assert Keeps(p, m, u);
    }
    ReservedShare(m.threads, t, p.maxop);
  }

  lemma DurableSize(g: Geometry, m: Machine)
    requires DurableOk(g, m)
    ensures |m.disk| <= U32
  {}

  lemma EndReserving(p: Params, m: Machine, t: nat)
    requires Inv(p, m) && Reserving(p, m) && Shape(p, m) && Enabled(p, m, End(t))
    ensures Reserving(p, Next(p, m, End(t)))
  {
    hide Inv, DiskOk, RingOk;
    var n := Next(p, m, End(t));
    var th := m.threads[t].(inOp := false, mine := {});
    assert Keeps(p, m, t);
    ReservedUpdate(m.threads, t, th, p.maxop);
    assert n.threads == m.threads[t := th] && n.cache == m.cache && n.lh == m.lh;
    forall u | 0 <= u < |n.threads| ensures Keeps(p, n, u) {
      assert Keeps(p, m, u);
    }
  }

  lemma CommitReserving(p: Params, m: Machine, e: Event)
    requires Inv(p, m) && Reserving(p, m) && Shape(p, m) && Enabled(p, m, e)
    requires e.CopyOut? || e.CommitHead? || e.Install? || e.ClearHead? || e.Close?
    ensures Reserving(p, Next(p, m, e))
  {
    hide Inv, Reserving, DiskOk, RingOk, EncodeHead, Apply;
    var n := Next(p, m, e);
    assert n.threads == m.threads;
    if e.ClearHead? {
      NobodyReserves(p, m);
    }
    CommitKeeps(p, m, n, e.ClearHead?);
  }

  lemma NobodyReserves(p: Params, m: Machine)
    requires Inv(p, m) && m.phase != Open
    ensures Reserved(m.threads, p.maxop) == 0 && forall t :: 0 <= t < |m.threads| ==> !m.threads[t].inOp
  {
    hide CacheOk, RefsOk, LocksOk, OpsOk, PassedOk, PinsOk, DataOk, DurableOk;
    Committing(p, m, 0);
    NoneReserved(m.threads, p.maxop);
  }

  lemma CommitKeeps(p: Params, m: Machine, n: Machine, cleared: bool)
    requires Reserving(p, m) && n.threads == m.threads && |n.cache.bufs| == |m.cache.bufs|
    requires forall i :: 0 <= i < |m.cache.bufs| ==> n.cache.bufs[i].blockno == m.cache.bufs[i].blockno
    requires if cleared then n.lh == [] && Reserved(m.threads, p.maxop) == 0 && (forall t :: 0 <= t < |m.threads| ==> !m.threads[t].inOp)
             else n.lh == m.lh
    ensures Reserving(p, n)
  {
    forall u | 0 <= u < |m.threads| ensures Keeps(p, n, u) {
      assert Keeps(p, m, u);
    }
  }

  lemma IdleReserving(p: Params, m: Machine)
    requires m.lh == [] && m.threads == AllIdle(|m.threads|)
    ensures Reserving(p, m)
  {
    NoneReserved(m.threads, p.maxop);
  }

  lemma ReservingStep(p: Params, m: Machine, e: Event)
    requires Inv(p, m) && Reserving(p, m) && Shape(p, m) && Enabled(p, m, e) && ModestEvent(p, m, e)
    ensures Reserving(p, Next(p, m, e))
  {
    hide Inv, Shape, Enabled, Reserving;
    match e
    case Begin(t) => BeginReserving(p, m, t);
    case Write(t, i) => WriteReserving(p, m, t, i);
    case End(t) => EndReserving(p, m, t);
    case Get(_, _) => BufferReserving(p, m, e, e.t);
    case Acquire(t) => BufferReserving(p, m, e, t);
    case Modify(t, _, _) => BufferReserving(p, m, e, t);
    case Test(t, _) => BufferReserving(p, m, e, t);
    case Release(t, _) => BufferReserving(p, m, e, t);
    case Drop(t) => BufferReserving(p, m, e, t);
    case Crash(_, _) =>
      assert Next(p, m, e).threads == AllIdle(|m.threads|);
      IdleReserving(p, Next(p, m, e));
    case _ => CommitReserving(p, m, e);
  }

  lemma {:induction false} RunReserving(p: Params, ms: seq<Machine>, es: seq<Event>, i: nat)
    requires Fits(p) && Run(p, ms, es) && i < |ms| && Contained(p, ms, es, i) && Modest(p, ms, es, i)
    ensures Reserving(p, ms[i])
  {
    hide Inv, Shape, Enabled, Next, Booted, Reserving, ModestEvent, Breaches;
    if i == 0 {
      BootReserving(p, ms[0]);
    } else {
      RunReserving(p, ms, es, i - 1);
      RunInv(p, ms, es, i - 1);
      assert ms[i - 1 + 1] == Next(p, ms[i - 1], es[i - 1]);
      ReservingStep(p, ms[i - 1], es[i - 1]);
    }
  }

  lemma BootReserving(p: Params, m: Machine)
    requires Booted(p, m)
    ensures Reserving(p, m)
  {
    hide DiskOk, Header, Fresh, Holds, Reserving;
    IdleReserving(p, m);
  }

  /** Where operations log at most MAXOPBLOCKS blocks each, the log and all that open operations may log yet stay within
      LOGSIZE. So log_write of an operation that may log another block panics exactly when the log area is full, which
      cannot happen in an area larger than LOGSIZE. */
  lemma RunReserved(p: Params, ms: seq<Machine>, es: seq<Event>, i: nat, t: nat)
    requires Fits(p) && Run(p, ms, es) && i < |ms| && Contained(p, ms, es, i) && Modest(p, ms, es, i) && t < |ms[i].threads|
    ensures var m := ms[i];
            |m.lh| + Reserved(m.threads, p.maxop) <= p.limit &&
            (m.threads[t].inOp && |m.threads[t].mine| < p.maxop ==>
               (LogWritePanics(p, m) <==> |m.lh| >= p.g.size - 1) && (p.limit < p.g.size ==> !LogWritePanics(p, m)))
  {
    hide Run, Contained, Modest, Inv;
    RunReserving(p, ms, es, i);
    RunSafe(p, ms, es, i, t);
    var m := ms[i];
    forall u | 0 <= u < |m.threads| ensures |m.threads[u].mine| <= p.maxop { assert Keeps(p, m, u); }
    if m.threads[t].inOp { ReservedShare(m.threads, t, p.maxop); }
  }

  // ----- operations that log more

  /** What the open operations have logged. */
  ghost function AllMine(ts: seq<Thread>): (r: set<nat>)
    ensures forall t :: 0 <= t < |ts| && ts[t].inOp ==> ts[t].mine <= r
    ensures forall b :: b in r ==> exists t :: 0 <= t < |ts| && ts[t].inOp && b in ts[t].mine
  {
    if ts == [] then {} else
      assert forall t :: 0 < t < |ts| ==> ts[t] == ts[1..][t - 1];
      (if ts[0].inOp then ts[0].mine else {}) + AllMine(ts[1..])
  }

  ghost predicate MineLogged(m: Machine) {
    forall t, b :: 0 <= t < |m.threads| && m.threads[t].inOp && b in m.threads[t].mine ==> b in m.lh
  }

  lemma MineStep(p: Params, m: Machine, e: Event)
    requires Inv(p, m) && MineLogged(m) && Shape(p, m) && Enabled(p, m, e)
    ensures MineLogged(Next(p, m, e))
  {
    hide CacheOk, RefsOk, LocksOk, OpsOk, PassedOk, PinsOk, DataOk, DurableOk, DiskOk, RingOk, EncodeHead, Apply, GetBuf, LockAndFill, DropRef,
         Unlock, Recover, CrashedRecoveries, Fresh;
    if e.ClearHead? { Committing(p, m, 0); }
  }

  lemma {:induction false} MineRun(p: Params, ms: seq<Machine>, es: seq<Event>, i: nat)
    requires Fits(p) && Run(p, ms, es) && i < |ms| && Contained(p, ms, es, i)
    ensures MineLogged(ms[i])
  {
    hide Inv, Shape, Enabled, Next, Booted, MineLogged, Breaches;
    if i == 0 {
      BootMine(p, ms[0]);
    } else {
      MineRun(p, ms, es, i - 1);
      RunInv(p, ms, es, i - 1);
      assert ms[i - 1 + 1] == Next(p, ms[i - 1], es[i - 1]);
      MineStep(p, ms[i - 1], es[i - 1]);
    }
  }

  lemma BootMine(p: Params, m: Machine)
    requires Booted(p, m)
    ensures MineLogged(m)
  {
    hide DiskOk, Header, Fresh, Holds;
  }

  /** However many blocks operations log, those of all that are open number at most LOGSIZE: operations that between them
      want more cannot all get to their ends, though begin_op has let them all in. */
  lemma OpenOpsFit(p: Params, ms: seq<Machine>, es: seq<Event>, i: nat)
    requires Fits(p) && Run(p, ms, es) && i < |ms| && Contained(p, ms, es, i) && 0 < |ms[i].threads|
    ensures |AllMine(ms[i].threads)| <= |ms[i].lh| <= p.limit
  {
    hide Run, Contained;
    MineRun(p, ms, es, i);
    RunSafe(p, ms, es, i, 0);
    var all: set<nat> := AllMine(ms[i].threads);
    var lh: seq<nat> := ms[i].lh;
    forall b | b in all ensures b in Elements(lh) { assert b in ms[i].lh; }
    SubsetSize(all, Elements(lh));
  }
}
