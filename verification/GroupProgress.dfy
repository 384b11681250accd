/** A commit that has a buffer to spare can run to its end, step by step in GroupCommit, and then has done what commit()
    of class Log does in one call: the same disk, and an empty log. */
module GroupProgress {
  import opened Blocks
  import opened Bio
  import opened LogDisk
  import opened Options
  import opened Seqs
  import opened Log
  import opened GroupCommit
  import opened GroupReserve
  import opened GroupRuns

  // ----- one block

  /** Reading a block nobody holds: its buffer is locked, and referenced once. */
  lemma DoFetch(p: Params, b: Machine, m: Machine, t: nat, blockno: nat) returns (n: Machine, i: nat)
    requires Fits(p) && From(p, b, m) && Inv(p, m) && Shape(p, m) && Runs(m, t) && m.threads[t].waiting == None
    requires blockno < |m.disk| && GetBuf(m.cache, 1, blockno).Got? && NoRef(m.cache, blockno)
    ensures From(p, b, n) && Inv(p, n) && Shape(p, n) && i < |m.cache.bufs|
    ensures Steps(m, n, t, m.threads[t].(held := m.threads[t].held + {i}))
    ensures Keyed(n.cache.bufs[i], 1, blockno) && n.cache.bufs[i].valid && n.cache.bufs[i].refcnt == 1
    ensures m.cache.bufs[i].refcnt == 0 && (Keyed(m.cache.bufs[i], 1, blockno) || Recyclable(m.cache.bufs[i]))
    ensures if Keyed(m.cache.bufs[i], 1, blockno)
            then n.cache.bufs[i].dirty == m.cache.bufs[i].dirty && (m.cache.bufs[i].valid ==> n.cache.bufs[i].data == m.cache.bufs[i].data)
            else !n.cache.bufs[i].dirty
    ensures n.cache.bufs == m.cache.bufs[i := n.cache.bufs[i]]
  {
    hide Inv, Shape, From, GetBuf;
    ShapeRing(p, m);
    InvCache(p, m);
    Unlocked(m.cache, blockno);
    GetBufSafe(m.cache, 1, blockno);
    var m1;
    m1, i := DoGet(p, b, m, t, blockno);
    FetchedOnce(m.cache, blockno, i);
    n := DoAcquire(p, b, m1, t);
    assert n.threads == m.threads[t := m.threads[t].(held := m.threads[t].held + {i})];
  }

  lemma Unlocked(c: Cache, blockno: nat)
    requires CacheOk(c) && NoRef(c, blockno)
    ensures forall i :: 0 <= i < |c.bufs| && (Keyed(c.bufs[i], 1, blockno) || Recyclable(c.bufs[i])) ==>
              !c.bufs[i].locked && c.bufs[i].refcnt == 0
  {}

  lemma FetchedOnce(c: Cache, blockno: nat, i: nat)
    requires NoRef(c, blockno) && i < |c.bufs| && (Keyed(c.bufs[i], 1, blockno) || Recyclable(c.bufs[i]))
    ensures c.bufs[i].refcnt == 0
  {}

  lemma ApartNoRef(g: Geometry, c: Cache, lh: seq<Word>, blockno: nat)
    requires Apart(g, c, lh) && (InLog(g, blockno) || blockno in lh)
    ensures NoRef(c, blockno)
  {}

  /** A clean buffer of a block, while somebody commits, holds what the disk holds. */
  lemma CleanIsDisk(p: Params, m: Machine, i: nat)
    requires Inv(p, m) && m.phase != Open && i < |m.cache.bufs| && m.cache.bufs[i].valid && m.cache.bufs[i].dev == 1 && !m.cache.bufs[i].dirty
    ensures m.cache.bufs[i].blockno < |m.disk| && m.cache.bufs[i].data == m.disk[m.cache.bufs[i].blockno]
  {
    hide CacheOk, RefsOk, LocksOk, PinsOk, DurableOk, DataOk;
    Committing(p, m, i);
    DataAt(m.cache.bufs, m.threads, m.logged, m.disk, i);
  }

  /** Round k of write_log or install_trans before its block write: the committer holds the log block's buffer and the
      home block's, and nothing else has changed. */
  ghost predicate Fetching(p: Params, b: Machine, m: Machine, n: Machine, k: nat, x: nat, y: nat) {
    From(p, b, n) && Inv(p, n) && Shape(p, n) && m.who < |m.threads| &&
    Steps(m, n, m.who, m.threads[m.who].(held := m.threads[m.who].held + {x, y})) &&
    k < |m.lh| == |m.pins| && y == m.pins[k] && x < |m.cache.bufs| && y < |m.cache.bufs| && x != y &&
    Keyed(n.cache.bufs[x], 1, p.g.start + 1 + k) && Keyed(n.cache.bufs[y], 1, m.lh[k]) &&
    n.cache.bufs[x].valid && n.cache.bufs[y].valid && n.cache.bufs[x].refcnt == 1 && n.cache.bufs[y].refcnt == 1 &&
    !n.cache.bufs[x].dirty && n.cache.bufs[y].dirty && m.cache.bufs[y].dirty && !m.cache.bufs[x].dirty &&
    m.cache.bufs[x].refcnt == 0 && m.cache.bufs[y].refcnt == 0 && n.cache.bufs[y].data == m.cache.bufs[y].data &&
    n.cache.bufs == m.cache.bufs[x := n.cache.bufs[x]][y := n.cache.bufs[y]]
  }

  /** The committer is at block k, holds nothing, and can go on. */
  ghost predicate Ready(p: Params, b: Machine, m: Machine, k: nat) {
    From(p, b, m) && Inv(p, m) && Shape(p, m) && (m.phase == Copying(k) || m.phase == Installing(k)) &&
    m.who < |m.threads| && Free(m.threads[m.who]) && Apart(p.g, m.cache, m.lh) && Spare(m.cache)
  }

  lemma DoFetchPair(p: Params, b: Machine, m: Machine, k: nat) returns (n: Machine, x: nat, y: nat)
    requires Fits(p) && Ready(p, b, m, k) && k < |m.lh| && k + 1 < p.g.size
    ensures Fetching(p, b, m, n, k, x, y)
  {
    hide Inv, Shape, From, GetBuf, Apart, Spare, InLog, NoRef, RingOk;
    var logno, home := p.g.start + 1 + k, m.lh[k];
    ShapeRing(p, m);
    RoundBlocks(p, m, k);
    RoomForOne(m.cache, logno);
    ApartNoRef(p.g, m.cache, m.lh, logno);
    ApartNoRef(p.g, m.cache, m.lh, home);
    var m1;
    m1, x := DoFetch(p, b, m, m.who, logno);
    var q := m.pins[k];
    ThePin(p, m, k);
    HeldLog(p, m, x, logno);
    HomeGot(p, m1, k);
    NoRefSame(m.cache.bufs, m1.cache.bufs, m.cache.ring, m1.cache.ring, x, logno, home);
    n, y := DoFetch(p, b, m1, m.who, home);
    assert n.cache.bufs[q].dev == 1 && n.cache.bufs[q].blockno == home;
    OneBuffer(p, n, home, y, q);
    assert m1.threads[m.who].held == m.threads[m.who].held + {x};
    assert m.threads[m.who].held + {x} + {y} == m.threads[m.who].held + {x, y};
    assert n.threads == m.threads[m.who := m.threads[m.who].(held := m.threads[m.who].held + {x, y})];
  }

  lemma RoundBlocks(p: Params, m: Machine, k: nat)
    requires Inv(p, m) && k < |m.lh| && m.phase != Open
    ensures (k + 1 < p.g.size ==> InLog(p.g, p.g.start + 1 + k) && p.g.start + 1 + k < |m.disk|) && m.lh[k] < |m.disk| && !InLog(p.g, m.lh[k])
    ensures |m.pins| == |m.lh| && |m.disk| <= U32 && (m.phase.Installing? ==> |m.lh| < p.g.size)
  {}

  /** The pinned buffer of a block that is not yet home. */
  lemma ThePin(p: Params, m: Machine, k: nat)
    requires Inv(p, m) && k < |m.lh| && |m.pins| == |m.lh| && Done(m) <= k
    ensures m.pins[k] < |m.cache.bufs| && Keyed(m.cache.bufs[m.pins[k]], 1, m.lh[k])
    ensures m.cache.bufs[m.pins[k]].dirty && m.cache.bufs[m.pins[k]].valid
  {
    hide CacheOk, RefsOk, LocksOk, OpsOk, DataOk, DurableOk, CountsOk;
  }

  lemma OneBuffer(p: Params, m: Machine, blockno: nat, x: nat, y: nat)
    requires Inv(p, m) && x < |m.cache.bufs| && y < |m.cache.bufs| && Keyed(m.cache.bufs[x], 1, blockno) && Keyed(m.cache.bufs[y], 1, blockno)
    ensures x == y
  {
    hide RefsOk, LocksOk, OpsOk, DataOk, DurableOk, CountsOk, PinsOk;
  }

  lemma HomeGot(p: Params, m: Machine, k: nat)
    requires Inv(p, m) && k < |m.lh| && (m.phase.Copying? || m.phase.Installing?) && m.phase.k == k
    ensures RingOk(m.cache.ring, |m.cache.bufs|) && GetBuf(m.cache, 1, m.lh[k]).Got?
  {
    hide GetBuf, Inv;
    HaltsIff(p, m, m.lh[k]);
    HomeCached(p, m);
  }

  lemma NoRefSame(bufs: seq<Buf>, now: seq<Buf>, r: seq<nat>, t: seq<nat>, x: nat, logno: nat, home: nat)
    requires NoRef(Cache(bufs, r), home) && x < |bufs| == |now| && now == bufs[x := now[x]]
    requires Keyed(now[x], 1, logno) && logno != home
    ensures NoRef(Cache(now, t), home)
  {}

  lemma HeldLog(p: Params, m: Machine, x: nat, logno: nat)
    requires Inv(p, m) && x < |m.cache.bufs| && InLog(p.g, logno) && (Keyed(m.cache.bufs[x], 1, logno) || Recyclable(m.cache.bufs[x]))
    ensures !m.cache.bufs[x].dirty
  {
    hide CacheOk, RefsOk, LocksOk, OpsOk, DataOk, DurableOk, CountsOk;
    if Keyed(m.cache.bufs[x], 1, logno) { LogBufferFree(p.g, m.cache, m.lh, m.pins, Done(m), m.logged, |m.disk|, x); }
  }

  // ----- the rounds

  /** The pinned buffers are pinned still, with the same contents, and no others are. */
  ghost predicate SamePinned(c: Cache, e: Cache) {
    |e.bufs| == |c.bufs| &&
    forall i :: 0 <= i < |c.bufs| ==> ((e.bufs[i].dirty <==> c.bufs[i].dirty) && (c.bufs[i].dirty ==> e.bufs[i].data == c.bufs[i].data))
  }

  /** Two buffers that nobody used have been used and let go. */
  ghost predicate Used(c: Cache, e: Cache, x: nat, y: nat) {
    |e.bufs| == |c.bufs| && x < |c.bufs| && y < |c.bufs| && c.bufs[x].refcnt == 0 && c.bufs[y].refcnt == 0 &&
    e.bufs[x].refcnt == 0 && e.bufs[y].refcnt == 0 && !e.bufs[x].dirty &&
    forall j :: 0 <= j < |c.bufs| && j != x && j != y ==> e.bufs[j] == c.bufs[j]
  }

  lemma UsedSame(g: Geometry, c: Cache, e: Cache, lh: seq<Word>, x: nat, y: nat)
    requires Used(c, e, x, y) && Apart(g, c, lh)
    ensures SameHeld(c, e) && Apart(g, e, lh) && Spare(e)
  {
    assert Recyclable(e.bufs[x]);
  }

  /** brelse of both buffers. */
  lemma DoReleasePair(p: Params, b: Machine, m: Machine, n: Machine, first: nat, second: nat) returns (r: Machine)
    requires Fits(p) && From(p, b, n) && Inv(p, n) && Shape(p, n) && m.who < |m.threads| && n.who == m.who && Free(m.threads[m.who])
    requires n.threads == m.threads[m.who := m.threads[m.who].(held := {first, second})] && first != second
    requires first < |n.cache.bufs| && second < |n.cache.bufs| && n.cache.bufs[first].refcnt == 1 && n.cache.bufs[second].refcnt == 1
    ensures From(p, b, r) && Inv(p, r) && Shape(p, r)
    ensures r == n.(cache := r.cache, threads := m.threads)
    ensures r.cache.bufs == n.cache.bufs[first := n.cache.bufs[first].(locked := false, refcnt := 0)]
                                        [second := n.cache.bufs[second].(locked := false, refcnt := 0)]
  {
    hide Inv, Shape, From;
    var r1 := DoRelease(p, b, n, m.who, first);
    assert r1.threads[m.who].held == {second};
    r := DoRelease(p, b, r1, m.who, second);
    assert r.threads[m.who] == m.threads[m.who];
    assert r.threads == m.threads;
  }

  lemma DoCopyOut(p: Params, b: Machine, m: Machine, n: Machine, k: nat, x: nat, y: nat) returns (e: Machine)
    requires Fits(p) && Fetching(p, b, m, n, k, x, y) && m.phase == Copying(k) && k + 1 < p.g.size && p.g.start + 1 + k < |m.disk|
    requires Free(m.threads[m.who])
    ensures From(p, b, e) && Inv(p, e) && Shape(p, e)
    ensures e.threads == m.threads[m.who := m.threads[m.who].(held := {y, x})]
    ensures e == n.(cache := e.cache, disk := m.disk[p.g.start + 1 + k := m.cache.bufs[y].data], phase := Copying(k + 1))
    ensures e.cache.bufs == n.cache.bufs[x := n.cache.bufs[x].(data := m.cache.bufs[y].data)]
  {
    hide Inv, DiskOk, RingOk, From;
    Extend(p, b, n, CopyOut(x, y));
    e := Next(p, n, CopyOut(x, y));
    assert n.threads[m.who].held == {x, y} == {y, x};
  }

  lemma CopyRound(p: Params, b: Machine, m: Machine, k: nat) returns (r: Machine)
    requires Fits(p) && Ready(p, b, m, k) && m.phase == Copying(k) && k < |m.lh| && k + 1 < p.g.size
    ensures |m.pins| == |m.lh| && m.pins[k] < |m.cache.bufs| && p.g.start + 1 + k < |m.disk|
    ensures r == m.(cache := r.cache, disk := m.disk[p.g.start + 1 + k := m.cache.bufs[m.pins[k]].data], phase := Copying(k + 1))
    ensures Ready(p, b, r, k + 1) && SameHeld(m.cache, r.cache) && SamePinned(m.cache, r.cache)
  {
    hide Inv, DiskOk, RingOk, From, Apart, Spare, InLog;
    RoundBlocks(p, m, k);
    var n, x, y := DoFetchPair(p, b, m, k);
    var e := DoCopyOut(p, b, m, n, k, x, y);
    r := DoReleasePair(p, b, m, e, y, x);
    assert Used(m.cache, r.cache, x, y);
    UsedSame(p.g, m.cache, r.cache, m.lh, x, y);
  }

  lemma DoInstall(p: Params, b: Machine, m: Machine, n: Machine, k: nat, x: nat, y: nat) returns (e: Machine)
    requires Fits(p) && Fetching(p, b, m, n, k, x, y) && m.phase == Installing(k) && p.g.start + 1 + k < |m.disk| && m.lh[k] < |m.disk|
    requires Free(m.threads[m.who])
    ensures From(p, b, e) && Inv(p, e) && Shape(p, e)
    ensures e.threads == m.threads[m.who := m.threads[m.who].(held := {x, y})]
    ensures e == n.(cache := e.cache, disk := m.disk[m.lh[k] := m.disk[p.g.start + 1 + k]], phase := Installing(k + 1))
    ensures e.cache.bufs == n.cache.bufs[y := n.cache.bufs[y].(data := n.cache.bufs[x].data, dirty := false)]
  {
    hide Inv, DiskOk, RingOk, From;
    CleanIsDisk(p, n, x);
    Extend(p, b, n, Install(x, y));
    e := Next(p, n, Install(x, y));
    assert n.threads[m.who].held == {x, y};
  }

  lemma InstallRound(p: Params, b: Machine, m: Machine, k: nat) returns (r: Machine)
    requires Fits(p) && Ready(p, b, m, k) && m.phase == Installing(k) && k < |m.lh|
    ensures p.g.start + 1 + k < |m.disk| && m.lh[k] < |m.disk|
    ensures r == m.(cache := r.cache, disk := m.disk[m.lh[k] := m.disk[p.g.start + 1 + k]], phase := Installing(k + 1))
    ensures Ready(p, b, r, k + 1) && SameHeld(m.cache, r.cache)
  {
    hide Inv, DiskOk, RingOk, From, Apart, Spare, InLog;
    RoundBlocks(p, m, k);
    var n, x, y := DoFetchPair(p, b, m, k);
    var e := DoInstall(p, b, m, n, k, x, y);
    r := DoReleasePair(p, b, m, e, x, y);
    assert Used(m.cache, r.cache, x, y);
    UsedSame(p.g, m.cache, r.cache, m.lh, x, y);
  }

  // ----- the header

  /** The header block is read, and its buffer held. */
  lemma DoFetchHead(p: Params, b: Machine, m: Machine, k: nat) returns (n: Machine, x: nat)
    requires Fits(p) && Ready(p, b, m, k)
    ensures From(p, b, n) && Inv(p, n) && Shape(p, n) && p.g.start < |m.disk| && x < |m.cache.bufs|
    ensures m.who < |m.threads| && Steps(m, n, m.who, m.threads[m.who].(held := {x}))
    ensures Keyed(n.cache.bufs[x], 1, p.g.start) && n.cache.bufs[x].refcnt == 1 && n.cache.bufs[x].data == m.disk[p.g.start]
    ensures m.cache.bufs[x].refcnt == 0 && !m.cache.bufs[x].dirty && !n.cache.bufs[x].dirty && n.cache.bufs == m.cache.bufs[x := n.cache.bufs[x]]
  {
    hide Inv, Shape, From, GetBuf, Apart, Spare, InLog, NoRef, RingOk;
    HeadBlock(p, m);
    ShapeRing(p, m);
    RoomForOne(m.cache, p.g.start);
    ApartNoRef(p.g, m.cache, m.lh, p.g.start);
    n, x := DoFetch(p, b, m, m.who, p.g.start);
    assert m.threads[m.who].held + {x} == {x};
    HeldLog(p, m, x, p.g.start);
    CleanIsDisk(p, n, x);
  }

  lemma HeadBlock(p: Params, m: Machine)
    requires Inv(p, m)
    ensures InLog(p.g, p.g.start) && p.g.start < |m.disk|
  {
    hide Inv;
    InvHeader(p, m);
  }

  /** The first write_head of a commit. */
  lemma HeadRound(p: Params, b: Machine, m: Machine) returns (r: Machine)
    requires Fits(p) && Ready(p, b, m, |m.lh|) && m.phase == Copying(|m.lh|)
    ensures p.g.start < |m.disk| && |m.lh| < WORDS && |m.groups| > 0
    ensures r == m.(cache := r.cache, disk := HeadWritten(p.g, m.disk, m.lh), phase := Installing(0),
                    groups := m.groups + [Apply(Last(m), m.logged)])
    ensures Ready(p, b, r, 0) && SameHeld(m.cache, r.cache)
  {
    hide Inv, DiskOk, RingOk, From, Apart, Spare, InLog, EncodeHead, Apply;
    var n, x := DoFetchHead(p, b, m, |m.lh|);
    Extend(p, b, n, CommitHead(x));
    var e := Next(p, n, CommitHead(x));
    r := DoRelease(p, b, e, m.who, x);
    assert r.threads[m.who] == m.threads[m.who];
    assert r.threads == m.threads;
    assert Used(m.cache, r.cache, x, x);
    UsedSame(p.g, m.cache, r.cache, m.lh, x, x);
  }

  /** The second one, and the end of the commit. */
  lemma ClearRound(p: Params, b: Machine, m: Machine) returns (r: Machine)
    requires Fits(p) && Ready(p, b, m, |m.lh|) && m.phase == Installing(|m.lh|)
    ensures p.g.start < |m.disk|
    ensures r == m.(cache := r.cache, disk := HeadWritten(p.g, m.disk, []), phase := Open, committing := false,
                    lh := [], logged := map[], pins := [])
    ensures From(p, b, r) && Inv(p, r) && Shape(p, r) && SameHeld(m.cache, r.cache)
  {
    hide Inv, DiskOk, RingOk, From, Apart, Spare, InLog, EncodeHead;
    var n, x := DoFetchHead(p, b, m, |m.lh|);
    Extend(p, b, n, ClearHead(x));
    var e := Next(p, n, ClearHead(x));
    var f := DoRelease(p, b, e, m.who, x);
    assert f.threads[m.who] == m.threads[m.who];
    assert f.threads == m.threads;
    assert Used(m.cache, f.cache, x, x);
    UsedSame(p.g, m.cache, f.cache, m.lh, x, x);
    Extend(p, b, f, Close);
    r := Next(p, f, Close);
  }

  // ----- a whole commit

  lemma PinnedTrans(c: Cache, e: Cache, f: Cache)
    requires SamePinned(c, e) && SamePinned(e, f)
    ensures SamePinned(c, f)
  {}

  lemma {:induction false} CopyRounds(p: Params, b: Machine, m: Machine, vals: seq<Block>, k: nat) returns (r: Machine)
    requires Fits(p) && Ready(p, b, m, 0) && m.phase == Copying(0) && k <= |m.lh| == |m.pins| && k < p.g.size && |vals| == |m.lh| && p.g.start + |vals| < |m.disk|
    requires forall i :: 0 <= i < |m.lh| ==> m.pins[i] < |m.cache.bufs| && m.cache.bufs[m.pins[i]].dirty && vals[i] == m.cache.bufs[m.pins[i]].data
    ensures Ready(p, b, r, k) && SameHeld(m.cache, r.cache) && SamePinned(m.cache, r.cache)
    ensures r == m.(cache := r.cache, disk := LogWritten(p.g, m.disk, vals, k), phase := Copying(k))
    decreases k
  {
    hide Ready, SameHeld, SamePinned;
    if k == 0 {
      r := m;
      HeldSame(m.cache);
      assert SamePinned(m.cache, m.cache) by { PinnedSelf(m.cache); }
    } else {
      var q := CopyRounds(p, b, m, vals, k - 1);
      PinnedData(m.cache, q.cache, m.pins[k - 1]);
      r := CopyRound(p, b, q, k - 1);
      HeldTrans(m.cache, q.cache, r.cache);
      PinnedTrans(m.cache, q.cache, r.cache);
    }
  }

  lemma PinnedSelf(c: Cache)
    ensures SamePinned(c, c)
  {}

  lemma PinnedData(c: Cache, e: Cache, i: nat)
    requires SamePinned(c, e) && i < |c.bufs| && c.bufs[i].dirty
    ensures i < |e.bufs| && e.bufs[i].data == c.bufs[i].data
  {}

  lemma {:induction false} InstallRounds(p: Params, b: Machine, m: Machine, k: nat) returns (r: Machine)
    requires Fits(p) && Ready(p, b, m, 0) && m.phase == Installing(0) && k <= |m.lh|
    requires HeaderOk(p.g, m.lh, |m.disk|) && p.g.start + p.g.size <= |m.disk|
    ensures Ready(p, b, r, k) && SameHeld(m.cache, r.cache)
    ensures r == m.(cache := r.cache, disk := Installed(p.g, m.disk, m.lh, k), phase := Installing(k))
    decreases k
  {
    hide Ready, SameHeld, HeaderOk;
    if k == 0 {
      r := m;
      HeldSame(m.cache);
    } else {
      var q := InstallRounds(p, b, m, k - 1);
      r := InstallRound(p, b, q, k - 1);
      HeldTrans(m.cache, q.cache, r.cache);
    }
  }

  lemma CommitBounds(p: Params, m: Machine)
    requires Inv(p, m) && m.phase == Copying(0) && |m.lh| < p.g.size
    ensures DiskOk(p.g, m.disk) && HeaderOk(p.g, m.lh, |m.disk|) && p.g.start + p.g.size <= |m.disk| && p.g.start + |m.lh| < |m.disk|
    ensures |m.pins| == |m.lh| && |m.groups| > 0 && m.who < |m.threads|
    ensures forall i :: 0 <= i < |m.lh| ==> m.pins[i] < |m.cache.bufs| && m.cache.bufs[m.pins[i]].dirty
  {
    hide CacheOk, RefsOk, LocksOk, OpsOk, DataOk;
  }

  /** From any reachable start of a commit, if a buffer is to spare and nobody holds one of the log area or of a logged
      block, a run leads to the end of the commit. It ends with the disk, the empty log and the buffers held by others
      that Log.Commit ends with. */
  lemma CommitCompletes(p: Params, b: Machine, m: Machine) returns (r: Machine)
    requires Fits(p) && From(p, b, m) && Inv(p, m) && Shape(p, m) && m.phase == Copying(0) && |m.lh| < p.g.size
    requires Free(m.threads[m.who]) && Apart(p.g, m.cache, m.lh) && Spare(m.cache)
    ensures |m.pins| == |m.lh| && forall i :: 0 <= i < |m.pins| ==> m.pins[i] < |m.cache.bufs|
    ensures DiskOk(p.g, m.disk) && HeaderOk(p.g, m.lh, |m.disk|) && |m.groups| > 0
    ensures From(p, b, r) && Inv(p, r) && Shape(p, r) && SameHeld(m.cache, r.cache)
    ensures r == m.(cache := r.cache, disk := CommitDisk(p.g, m.disk, m.lh, Logged(m.cache, m.pins), 2 * |m.lh| + 2),
                    phase := Open, committing := false, lh := [], logged := map[], pins := [],
                    groups := m.groups + [Apply(Last(m), m.logged)])
  {
    hide Inv, Shape, From, Apart, Spare, DiskOk, HeaderOk, Apply, EncodeHead, SameHeld, SamePinned, HeadWritten, Installed, LogWritten, CommitDisk;
    CommitBounds(p, m);
    var vals := Logged(m.cache, m.pins);
    assert Ready(p, b, m, 0);
    hide Ready;
    var m1 := CopyRounds(p, b, m, vals, |m.lh|);
    var m2 := HeadRound(p, b, m1);
    CommitAtHead(p.g, m.disk, m.lh, vals);
    LogAll(p.g, m.disk, m.lh, vals);
    var m3 := InstallRounds(p, b, m2, |m.lh|);
    r := ClearRound(p, b, m3);
    CommitAtEnd(p.g, m.disk, m.lh, vals);
    HeldTrans(m.cache, m1.cache, m2.cache);
    HeldTrans(m.cache, m2.cache, m3.cache);
    HeldTrans(m.cache, m3.cache, r.cache);
  }

  lemma LogAll(g: Geometry, d: Disk, lh: seq<Word>, vals: seq<Block>)
    requires DiskOk(g, d) && HeaderOk(g, lh, |d|) && |vals| == |lh|
    ensures g.start + |vals| < |d| && CommitDisk(g, d, lh, vals, |lh|) == LogWritten(g, d, vals, |lh|)
  {}
}
