/** Two processes in log_write at a time. Both may find room for one block more before either takes log.lock, and then the
    log holds more blocks than its area: exactly when, and exactly when a commit of such a log loses a committed block. */
module GroupRaces {
  import opened Blocks
  import opened Bio
  import opened LogDisk
  import opened Options
  import opened Seqs
  import opened Log
  import opened GroupCommit
  import opened GroupReserve
  import opened GroupRuns
  import opened GroupProgress

  // ----- two operations with log_writes left

  ghost predicate Pair(p: Params, m: Machine) {
    m.outstanding == 2 && !m.committing && 2 <= |m.threads| &&
    m.threads[0].inOp && |m.threads[0].mine| < p.maxop && m.threads[1].inOp && |m.threads[1].mine| < p.maxop
  }

  /** The boot has processes, buffers and home blocks enough to log as many blocks as the log area has. */
  ghost predicate Enough(p: Params, b: Machine) {
    Fits(p) && Racy(p) && Booted(p, b) && 2 <= |b.threads| && p.g.size <= |b.cache.bufs| && p.g.start + 2 * p.g.size <= |b.disk|
  }

  /** Two operations leave room for one block in the log area, and may both still log one. */
  lemma FillPair(p: Params, b: Machine) returns (m: Machine)
    requires Enough(p, b)
    ensures GroupRuns.At(p, b, m, p.g.size - 2) && Pair(p, m)
  {
    hide GroupRuns.At, Booted;
    var n := p.g.size - 2;
    m := OpenFirst(p, b);
    AtSize(p, b, m, 0);
    var k := if n <= p.limit - 2 * p.maxop then n else p.limit - 2 * p.maxop;
    m := FillByOthers(p, b, m, 0, k);
    var j := if n - k <= p.maxop - 1 then n - k else p.maxop - 1;
    m := FillTwo(p, b, m, k, n - k - j, j);
  }

  /** Both have read one block more, and the second has changed its block. */
  ghost predicate BothHold(p: Params, b: Machine, m: Machine, r: Machine, n: nat, i: nat, j: nat) {
    From(p, b, r) && Inv(p, r) && Shape(p, r) && 2 <= |m.threads| && i != j &&
    r == m.(cache := r.cache, threads := m.threads[0 := m.threads[0].(held := {i})][1 := m.threads[1].(held := {j}, touched := {j})]) &&
    i < |r.cache.bufs| == |m.cache.bufs| && j < |r.cache.bufs| &&
    Keyed(r.cache.bufs[i], 1, p.g.start + p.g.size + n) && Keyed(r.cache.bufs[j], 1, p.g.start + p.g.size + n + 1)
  }

  lemma ReadBoth(p: Params, b: Machine, m: Machine, n: nat, data: Block) returns (r: Machine, i: nat, j: nat)
    requires Fits(p) && GroupRuns.At(p, b, m, n) && Pair(p, m) && n + 2 <= |b.cache.bufs| && p.g.start + p.g.size + n + 2 <= |b.disk|
    ensures BothHold(p, b, m, r, n, i, j) && r.cache.bufs[j].data == data
  {
    hide Inv, From, GetBuf, RingOk, DiskOk, LogIs;
    var home := p.g.start + p.g.size + n;
    LogLength(p, m, n);
    CalmGet(p, m, home);
    assert Free(m.threads[0]) && Free(m.threads[1]);
    var m1;
    m1, i := DoGet(p, b, m, 0, home);
    var m2 := DoAcquire(p, b, m1, 0);
    assert m.threads[0].held + {i} == {i};
    assert m2.threads == m.threads[0 := m.threads[0].(held := {i})];
    SecondGet(p, m, m2, i, home + 1);
    var m3;
    m3, j := DoGet(p, b, m2, 1, home + 1);
    var m4 := DoAcquire(p, b, m3, 1);
    assert m4.threads[1] == m.threads[1].(held := {j});
    r := DoModify(p, b, m4, 1, j, data);
    assert r.threads[1] == m.threads[1].(held := {j}, touched := {j});
    assert r.threads == m.threads[0 := m.threads[0].(held := {i})][1 := m.threads[1].(held := {j}, touched := {j})];
  }

  lemma DoModify(p: Params, b: Machine, m: Machine, t: nat, i: nat, data: Block) returns (n: Machine)
    requires Fits(p) && From(p, b, m) && Inv(p, m) && Shape(p, m) && Writable(p, m, t, i)
    ensures From(p, b, n) && Inv(p, n) && Shape(p, n)
    ensures n == m.(cache := n.cache, threads := m.threads[t := m.threads[t].(touched := m.threads[t].touched + {i})])
    ensures n.cache.bufs == m.cache.bufs[i := m.cache.bufs[i].(data := data)]
  {
    hide Inv, DiskOk, RingOk, From;
    Extend(p, b, m, Modify(t, i, data));
    n := Next(p, m, Modify(t, i, data));
  }

  lemma SecondGet(p: Params, m: Machine, n: Machine, i: nat, blockno: nat)
    requires Calm(m) && 2 <= |m.threads| && Inv(p, n) && n.lh == m.lh && n.phase == Open && |m.lh| + 1 < |n.cache.bufs|
    requires n.threads == m.threads[0 := m.threads[0].(held := {i})]
    ensures RingOk(n.cache.ring, |n.cache.bufs|) && GetBuf(n.cache, 1, blockno).Got?
  {
    hide Inv, GetBuf, RingOk;
    HaltsIff(p, n, blockno);
    InvRefs(p, n);
    InUseBound(n.cache.bufs, n.cache.ring, n.threads);
    assert Free(m.threads[0]);
    FreeTotal(m.threads, 0);
    TotalUpdate(m.threads, 0, m.threads[0].(held := {i}));
  }

  // ----- the race

  lemma LogIsNext(g: Geometry, lh: seq<Word>, n: nat, b: Word)
    requires LogIs(g, lh, n) && b == g.start + g.size + n
    ensures LogIs(g, Absorb(lh, b), n + 1)
  {}

  /** Both processes have passed the test for room. */
  ghost predicate BothPassed(r: Machine, q: Machine, i: nat, j: nat) {
    2 <= |r.threads| &&
    q == r.(threads := r.threads[0 := r.threads[0].(passed := Some(i))][1 := r.threads[1].(passed := Some(j))])
  }

  lemma TestBoth(p: Params, b: Machine, m: Machine, r: Machine, n: nat, i: nat, j: nat) returns (q: Machine)
    requires Fits(p) && BothHold(p, b, m, r, n, i, j) && Pair(p, m) && Calm(m) && |m.lh| == n && n + 2 == p.g.size <= p.limit
    ensures From(p, b, q) && Inv(p, q) && Shape(p, q) && BothPassed(r, q, i, j)
  {
    hide Inv, Shape, From;
    assert Free(m.threads[0]) && Free(m.threads[1]);
    var m1 := DoTest(p, b, r, 0, i);
    q := DoTest(p, b, m1, 1, j);
  }

  /** Both have logged their blocks; the buffers keep their contents. */
  ghost predicate BothLogged(m: Machine, r: Machine, e: Machine, home: nat, i: nat, j: nat) {
    2 <= |m.threads| && i < |r.cache.bufs| && j < |r.cache.bufs| &&
    e.threads == m.threads[0 := m.threads[0].(held := {i}, mine := m.threads[0].mine + {home})]
                          [1 := m.threads[1].(held := {j}, mine := m.threads[1].mine + {home + 1})] &&
    e.cache.bufs == r.cache.bufs[i := r.cache.bufs[i].(dirty := true)][j := r.cache.bufs[j].(dirty := true)] &&
    e.disk == m.disk && e.outstanding == 2 && e.phase == Open && !e.committing && e.groups == m.groups
  }

  /** With room for one block, both processes test for it, and then both append. */
  lemma Race(p: Params, b: Machine, m: Machine, r: Machine, n: nat, i: nat, j: nat) returns (e: Machine)
    requires Fits(p) && BothHold(p, b, m, r, n, i, j) && Pair(p, m) && Calm(m) && LogIs(p.g, m.lh, n) && n + 2 == p.g.size <= p.limit
    ensures From(p, b, e) && Inv(p, e) && Shape(p, e) && LogIs(p.g, e.lh, n + 2)
    ensures BothLogged(m, r, e, p.g.start + p.g.size + n, i, j)
  {
    hide Inv, Shape, From, LogIs, Absorb, LoggedBy;
    LogLength(p, m, n);
    assert Free(m.threads[0]) && Free(m.threads[1]);
    var q := TestBoth(p, b, m, r, n, i, j);
    var m1 := DoAppend(p, b, q, 0, i);
    LogIsNext(p.g, m.lh, n, r.cache.bufs[i].blockno);
    e := DoAppend(p, b, m1, 1, j);
    LogIsNext(p.g, m1.lh, n + 1, r.cache.bufs[j].blockno);
    RaceThreads(m.threads, i, j, r.cache.bufs[i].blockno, r.cache.bufs[j].blockno);
  }

  lemma RaceThreads(ts: seq<Thread>, i: nat, j: nat, x: nat, y: nat)
    requires 2 <= |ts| && Free(ts[0]) && Free(ts[1])
    ensures var r := ts[0 := ts[0].(held := {i})][1 := ts[1].(held := {j}, touched := {j})];
            var q := r[0 := r[0].(passed := Some(i))][1 := r[1].(passed := Some(j))];
            var a := q[0 := LoggedBy(q[0], i, x)];
            a[1 := LoggedBy(a[1], j, y)] == ts[0 := ts[0].(held := {i}, mine := ts[0].mine + {x})]
                                              [1 := ts[1].(held := {j}, mine := ts[1].mine + {y})]
  {
    var th, u := ts[0].(held := {i}), ts[1].(held := {j}, touched := {j});
    assert LoggedBy(th.(passed := Some(i)), i, x) == ts[0].(held := {i}, mine := ts[0].mine + {x});
    assert LoggedBy(u.(passed := Some(j)), j, y) == ts[1].(held := {j}, mine := ts[1].mine + {y});
  }

  /** The log holds as many blocks as its area, header included, and a pinned buffer of the last one holds data. */
  ghost predicate Overfilled(p: Params, b: Machine, m: Machine, r: Machine, data: Block, j: nat) {
    GroupRuns.At(p, b, r, p.g.size) && r.outstanding == 2 && !r.committing && r.groups == m.groups && r.disk == m.disk &&
    2 <= |r.threads| && r.threads[0].inOp && r.threads[1].inOp &&
    j < |r.cache.bufs| && r.cache.bufs[j].dirty && Keyed(r.cache.bufs[j], 1, p.g.start + 2 * p.g.size - 1) && r.cache.bufs[j].data == data
  }

  lemma Overfill(p: Params, b: Machine, m: Machine, data: Block) returns (r: Machine, j: nat)
    requires Enough(p, b) && GroupRuns.At(p, b, m, p.g.size - 2) && Pair(p, m)
    ensures Overfilled(p, b, m, r, data, j)
  {
    hide Inv, Shape, From, LogIs, Booted;
    var n := p.g.size - 2;
    var m1, i;
    m1, i, j := ReadBoth(p, b, m, n, data);
    var m2 := Race(p, b, m, m1, n, i, j);
    assert Free(m.threads[0]) && Free(m.threads[1]);
    var m3 := DoRelease(p, b, m2, 0, i);
    r := DoRelease(p, b, m3, 1, j);
    assert r.threads[0] == m.threads[0].(mine := m.threads[0].mine + {p.g.start + p.g.size + n});
    assert r.threads[1] == m.threads[1].(mine := m.threads[1].mine + {p.g.start + p.g.size + n + 1});
    assert forall t :: 2 <= t < |m.threads| ==> r.threads[t] == m.threads[t];
  }

  // ----- the log area holds too many blocks

  /** The log, and the header block, do not fit the log area. */
  predicate Overfull(p: Params, m: Machine) {
    p.g.size <= |m.lh|
  }

  /** Operations within MAXOPBLOCKS, none of which panics, can log more than the log area has room for. */
  ghost predicate CanOverfill(p: Params, d: Disk, nbuf: nat, nthreads: nat) {
    exists m: Machine :: Reaches(p, d, nbuf, nthreads, m) && Overfull(p, m)
  }

  /** With two processes, and buffers and home blocks for every log block, the log area can silently be overfilled exactly
      if it has at least two blocks and at most LOGSIZE, and two operations fit the log side by side. */
  lemma OverfullIff(p: Params, d: Disk, nbuf: nat, nthreads: nat)
    requires Fits(p) && 0 < p.g.size && p.g.start + 2 * p.g.size <= |d| <= U32 && d[p.g.start] == ZeroBlock()
    requires 2 <= nbuf && p.g.size <= nbuf && 2 <= nthreads
    ensures CanOverfill(p, d, nbuf, nthreads) <==> Racy(p)
  {
    hide Run, From, Booted, ZeroBlock, Contained, Modest, Inv, Shape;
    if CanOverfill(p, d, nbuf, nthreads) && !Racy(p) {
      var m: Machine :| Reaches(p, d, nbuf, nthreads, m) && Overfull(p, m);
      var ms: seq<Machine>, es: seq<Event> :|
        |ms| == |es| + 1 && Run(p, ms, es) && Modest(p, ms, es, |es|) && BootOn(p, ms[0], d, nbuf, nthreads) && ms[|es|] == m;
      RoomyRun(p, ms, es, |es|);
    }
    if Racy(p) {
      var b := MkfsBoots(p, d, nbuf, nthreads);
      RunBoots(p, b);
      var m0 := FillPair(p, b);
      var m, j := Overfill(p, b, m0, ZeroBlock());
      AtSize(p, b, m, p.g.size);
      FromReaches(p, b, d, nbuf, nthreads, m);
    }
  }

  // ----- the commit of such a log

  /** With no more buffers than the log area has blocks, the commit panics at its first bread. */
  lemma OverfullHalts(p: Params, ms: seq<Machine>, es: seq<Event>, i: nat)
    requires Fits(p) && Run(p, ms, es) && i < |ms| && 2 <= p.g.size && |ms[0].cache.bufs| <= p.g.size
    requires Modest(p, ms, es, i) || |ms[0].cache.bufs| <= p.limit
    requires Overfull(p, ms[i]) && ms[i].phase == Copying(0)
    ensures var m := ms[i]; RingOk(m.cache.ring, |m.cache.bufs|) && GetBuf(m.cache, 1, p.g.start + 1).Halt?
  {
    hide Inv, Run, GetBuf, RingOk, InLog;
    FewBuffers(p, ms, es, i);
    RunInv(p, ms, es, i);
    var m := ms[i];
    Busy(p, m);
    HaltsIff(p, m, p.g.start + 1);
    LogBlock(p.g, p.g.start + 1);
    forall j | 0 <= j < |m.cache.bufs| ensures m.cache.bufs[j].dirty {
      assert !Recyclable(m.cache.bufs[j]) && j !in CleanInUse(m.cache);
    }
    forall j | 0 <= j < |m.cache.bufs| ensures !Keyed(m.cache.bufs[j], 1, p.g.start + 1) {
      if Keyed(m.cache.bufs[j], 1, p.g.start + 1) { HeldLog(p, m, j, p.g.start + 1); }
    }
  }

  lemma LogBlock(g: Geometry, b: nat)
    requires g.start <= b < g.start + g.size
    ensures InLog(g, b)
  {}

  /** The commit of the overfilled log begins, and nobody is in its way. */
  lemma CommitOverfull(p: Params, b: Machine, m: Machine, m1: Machine, data: Block, j: nat) returns (r: Machine)
    requires Enough(p, b) && p.g.size < |b.cache.bufs| && Overfilled(p, b, m, m1, data, j)
    ensures Ready(p, b, r, 0) && r.phase == Copying(0) && r.lh == m1.lh && r.groups == m.groups && r.cache == m1.cache && |r.disk| == |b.disk|
  {
    hide Inv, From, DiskOk, RingOk, LogIs, Booted, Apart, Spare;
    LogLength(p, m1, p.g.size);
    var m2 := DoEnd(p, b, m1, 1, p.g.size);
    LogLength(p, m2, p.g.size);
    assert Free(m2.threads[0]);
    Extend(p, b, m2, End(0));
    r := Next(p, m2, End(0));
    CalmSpare(p, m2, r);
  }

  lemma CalmSpare(p: Params, m: Machine, r: Machine)
    requires Calm(m) && Inv(p, m) && Inv(p, r) && r.cache == m.cache && r.lh == m.lh && Done(r) == 0 && |m.lh| < |m.cache.bufs|
    ensures Apart(p.g, r.cache, r.lh) && Spare(r.cache)
  {
    hide Inv, GetBuf, Spare, InLog;
    InvRefs(p, m);
    forall i | 0 <= i < |m.cache.bufs| ensures m.cache.bufs[i].refcnt == 0 {
      FreeTotal(m.threads, i);
    }
    assert CleanInUse(r.cache) == {};
    Busy(p, r);
  }

  lemma PinsAll(p: Params, m: Machine)
    requires Inv(p, m) && m.phase == Copying(0)
    ensures |m.pins| == |m.lh| && forall k :: 0 <= k < |m.lh| ==> m.pins[k] < |m.cache.bufs| && m.cache.bufs[m.pins[k]].dirty
  {
    hide CacheOk, RefsOk, LocksOk, OpsOk, PassedOk, DataOk, DurableOk, CountsOk;
  }

  /** write_log has copied all the log blocks there are, and the next one it reads is the first home block. */
  ghost predicate AtEnd(p: Params, b: Machine, q: Machine, data: Block) {
    var k := p.g.size - 1;
    2 <= p.g.size && Ready(p, b, q, k) && q.phase == Copying(k) && LogIs(p.g, q.lh, p.g.size) && |q.pins| == |q.lh| &&
    q.pins[k] < |q.cache.bufs| && q.cache.bufs[q.pins[k]].data == data && q.cache.bufs[q.pins[k]].dirty &&
    p.g.start + 2 * p.g.size <= |q.disk|
  }

  lemma CopyToEnd(p: Params, b: Machine, m: Machine, data: Block, j: nat) returns (q: Machine)
    requires Fits(p) && 2 <= p.g.size && Ready(p, b, m, 0) && m.phase == Copying(0) && LogIs(p.g, m.lh, p.g.size)
    requires p.g.start + 2 * p.g.size <= |m.disk|
    requires j < |m.cache.bufs| && m.cache.bufs[j].data == data && Keyed(m.cache.bufs[j], 1, p.g.start + 2 * p.g.size - 1)
    ensures AtEnd(p, b, q, data) && q.groups == m.groups
  {
    hide Inv, From, Shape, Apart, Spare, SameHeld;
    var k := p.g.size - 1;
    PinsAll(p, m);
    var vals := Logged(m.cache, m.pins);
    q := CopyRounds(p, b, m, vals, k);
    ThePin(p, m, k);
    OneBuffer(p, m, m.lh[k], m.pins[k], j);
    assert m.cache.bufs[m.pins[k]].dirty;
  }

  /** The buffers of that home block and of the last logged block, for the last copy. */
  ghost predicate AtSpill(p: Params, b: Machine, q: Machine, n: Machine, data: Block, x: nat, y: nat) {
    From(p, b, n) && Inv(p, n) && Shape(p, n) && n.phase == Copying(p.g.size - 1) && n.lh == q.lh && n.groups == q.groups && n.disk == q.disk &&
    CommitterHolds(p, n, x, p.g.start + p.g.size) && CommitterHolds(p, n, y, p.g.start + 2 * p.g.size - 1) &&
    y < |n.cache.bufs| && n.cache.bufs[y].data == data
  }

  lemma FetchSpill(p: Params, b: Machine, q: Machine, data: Block) returns (n: Machine, x: nat, y: nat)
    requires Fits(p) && AtEnd(p, b, q, data)
    ensures AtSpill(p, b, q, n, data, x, y)
  {
    hide Inv, Shape, From, GetBuf, Apart, Spare, InLog, NoRef, RingOk;
    var first, last := p.g.start + p.g.size, p.g.start + 2 * p.g.size - 1;
    var k, pin := p.g.size - 1, q.pins[p.g.size - 1];
    assert q.lh[0] == first && q.lh[k] == last;
    ThePin(p, q, k);
    ShapeRing(p, q);
    RoomForOne(q.cache, first);
    ApartNoRef(p.g, q.cache, q.lh, first);
    ApartNoRef(p.g, q.cache, q.lh, last);
    var n1;
    n1, x := DoFetch(p, b, q, q.who, first);
    assert n1.cache.bufs[pin] == q.cache.bufs[pin];
    HomeGot(p, n1, k);
    NoRefSame(q.cache.bufs, n1.cache.bufs, q.cache.ring, n1.cache.ring, x, first, last);
    n, y := DoFetch(p, b, n1, q.who, last);
    OneBuffer(p, n, last, y, pin);
    assert n.threads[q.who].held == q.threads[q.who].held + {x} + {y};
  }

  // ----- what is lost

  /** Crash now, crash any number of times in recovery, let one recovery finish: the home blocks are those of the last
      committed group. */
  ghost predicate Survives(p: Params, m: Machine, cuts: seq<nat>) {
    DiskOk(p.g, m.disk) && |m.groups| > 0 &&
    SameHome(p.g, Recover(p.g, CrashedRecoveries(p.g, m.disk, cuts)), Last(m))
  }

  lemma SpillLoses(p: Params, b: Machine, q: Machine, n: Machine, data: Block, x: nat, y: nat)
    requires Fits(p) && AtSpill(p, b, q, n, data, x, y) && 2 <= p.g.size && LogIs(p.g, n.lh, p.g.size)
    requires p.g.start + 2 * p.g.size <= |n.disk| == |Last(n)| && |n.groups| > 0 && data != Last(n)[p.g.start + p.g.size]
    ensures Enabled(p, n, CopyOut(x, y)) && !Survives(p, Next(p, n, CopyOut(x, y)), [])
  {
    hide Inv, RingOk, From, GetWord, DecodeHead, EncodeHead;
    EmptyLog(p, n);
    var r := Next(p, n, CopyOut(x, y));
    var home := p.g.start + p.g.size;
    assert r.disk[p.g.start] == n.disk[p.g.start];
    assert !InLog(p.g, home) && InLog(p.g, p.g.start);
    assert CrashedRecoveries(p.g, r.disk, []) == r.disk;
    RecoverInstalls(p.g, r.disk);
    assert LastSlot([], home).NoSlot?;
    assert Recover(p.g, r.disk)[home] == data;
  }

  lemma EmptyLog(p: Params, m: Machine)
    requires Inv(p, m) && m.phase.Copying?
    ensures DiskOk(p.g, m.disk) && Header(p.g, m.disk) == []
  {
    hide CacheOk, RefsOk, LocksOk, OpsOk, PassedOk, DataOk, PinsOk, CountsOk;
  }

  lemma ReachesNext(p: Params, b: Machine, d: Disk, nbuf: nat, nthreads: nat, m: Machine, e: Event)
    requires BootOn(p, b, d, nbuf, nthreads) && From(p, b, m) && Shape(p, m) && Enabled(p, m, e) && ModestEvent(p, m, e)
    ensures Reaches(p, d, nbuf, nthreads, Next(p, m, e))
  {
    hide Shape, Enabled, Next, Booted, Contained, ModestEvent;
    var ms: seq<Machine>, es: seq<Event> :|
      |ms| == |es| + 1 && Run(p, ms, es) && Contained(p, ms, es, |es|) && Modest(p, ms, es, |es|) && ms[0] == b && ms[|es|] == m;
    var ns, fs := ms + [Next(p, m, e)], es + [e];
    assert Run(p, ns, fs) && Modest(p, ns, fs, |fs|) && BootOn(p, ns[0], d, nbuf, nthreads) && ns[|fs|] == Next(p, m, e);
  }

  function Other(b: Block): (r: Block)
    ensures r != b
  {
    var r: Block := b[0 := if b[0] == 0 then 1 else 0];
    assert r[0] != b[0];
    r
  }

  /** From any boot, a run to a commit that has written past the log area and lost a committed block. */
  lemma LosingRun(p: Params, b: Machine, d: Disk, nbuf: nat, nthreads: nat) returns (m: Machine)
    requires Enough(p, b) && BootOn(p, b, d, nbuf, nthreads) && p.g.size < nbuf
    ensures Reaches(p, d, nbuf, nthreads, m) && !Survives(p, m, [])
  {
    hide Inv, Shape, From, Next, Enabled, Booted, Reaches, Survives, LogIs, Ready;
    var home := p.g.start + p.g.size;
    var m0 := FillPair(p, b);
    GroupsSize(p, m0);
    var data := Other(Last(m0)[home]);
    var m1, j := Overfill(p, b, m0, data);
    var m2 := CommitOverfull(p, b, m0, m1, data, j);
    var q := CopyToEnd(p, b, m2, data, j);
    ReadyInv(p, b, q, p.g.size - 1);
    GroupsSize(p, q);
    var n, x, y := FetchSpill(p, b, q, data);
    SpillLoses(p, b, q, n, data, x, y);
    ReachesNext(p, b, d, nbuf, nthreads, n, CopyOut(x, y));
    m := Next(p, n, CopyOut(x, y));
  }

  lemma GroupsSize(p: Params, m: Machine)
    requires Inv(p, m)
    ensures |m.groups| > 0 && |Last(m)| == |m.disk|
  {
    hide CacheOk, RefsOk, LocksOk, OpsOk, PassedOk, DataOk, PinsOk, CountsOk;
    LastSize(p.g, m);
  }

  lemma ReadyInv(p: Params, b: Machine, m: Machine, k: nat)
    requires Ready(p, b, m, k)
    ensures Inv(p, m)
  {}

  /** Whatever state operations within MAXOPBLOCKS reach from mkfs's disk, the last committed group survives. */
  ghost predicate AllSurvive(p: Params, d: Disk, nbuf: nat, nthreads: nat) {
    forall m: Machine, cuts: seq<nat> :: Reaches(p, d, nbuf, nthreads, m) ==> Survives(p, m, cuts)
  }

  /** With two processes, and home blocks for every log block, every committed group survives every crash exactly if the
      log area is larger than LOGSIZE, or two operations do not fit the log side by side, or the area has no block for
      data, or there are no more buffers than the area has blocks, for then a commit that does not fit the area panics. */
  lemma DurableIff(p: Params, d: Disk, nbuf: nat, nthreads: nat)
    requires Fits(p) && 0 < p.g.size && p.g.start + 2 * p.g.size <= |d| <= U32 && d[p.g.start] == ZeroBlock()
    requires 2 <= nbuf && 2 <= nthreads
    ensures AllSurvive(p, d, nbuf, nthreads) <==> SafeModest(p, nbuf)
  {
    hide Run, Booted, ZeroBlock, Contained, Modest, SameHome, DiskOk, Recover, CrashedRecoveries;
    if SafeModest(p, nbuf) {
      forall m: Machine, cuts: seq<nat> | Reaches(p, d, nbuf, nthreads, m) ensures Survives(p, m, cuts) {
        var ms: seq<Machine>, es: seq<Event> :|
          |ms| == |es| + 1 && Run(p, ms, es) && Modest(p, ms, es, |es|) && BootOn(p, ms[0], d, nbuf, nthreads) && ms[|es|] == m;
        SafeContained(p, ms, es, |es|);
        RunDurable(p, ms, es, |es|, cuts);
      }
    } else {
      var b := MkfsBoots(p, d, nbuf, nthreads);
      RunBoots(p, b);
      var m := LosingRun(p, b, d, nbuf, nthreads);
    }
  }
}
