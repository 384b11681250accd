/** log.c over the buffer cache: the in-memory log header and the procedures that update it, the cache
    and the disk in place. Every block write is recorded in the cache's trace, so that what commit()
    and recovery do can be stopped after any one of them. */
module Log {
  import opened Blocks
  import opened Bio
  import opened LogDisk
  import opened Seqs

  // ----- the log's own bookkeeping

  /** The condition under which begin_op lets an operation in. */
  predicate MayBegin(n: nat, outstanding: nat, committing: bool, maxop: nat, limit: nat) {
    !committing && n + (outstanding + 1) * maxop <= limit
  }

  /** The logged block numbers after log_write of a block: a block already logged is absorbed. */
  function Absorb(lh: seq<Word>, blockno: Word): (r: seq<Word>)
    ensures blockno in r && |lh| <= |r| <= |lh| + 1
    ensures NoDup(lh) ==> NoDup(r)
  {
    if blockno in lh then lh else lh + [blockno]
  }

  datatype Ended = StillOpen | Committed | Panicked

  // ----- what holds between the procedures

  ghost predicate Quiet(c: Cache) {
    forall i :: 0 <= i < |c.bufs| ==> c.bufs[i].refcnt == 0
  }

  /** Processes that read without an operation may hold buffers while others commit. This says that what they hold
      is neither of the log area nor of a logged block, so that nobody waits for them. */
  ghost predicate Apart(g: Geometry, c: Cache, lh: seq<Word>) {
    forall i :: 0 <= i < |c.bufs| && c.bufs[i].refcnt != 0 ==>
      !c.bufs[i].dirty && !(c.bufs[i].dev == 1 && (InLog(g, c.bufs[i].blockno) || c.bufs[i].blockno in lh))
  }

  /** Some buffer can be recycled. */
  ghost predicate Spare(c: Cache) {
    exists i :: 0 <= i < |c.bufs| && Recyclable(c.bufs[i])
  }

  /** The buffers somebody holds. */
  ghost function InUse(c: Cache): set<nat> {
    set i: nat | i < |c.bufs| && c.bufs[i].refcnt != 0
  }

  /** The buffers held before are held now, unchanged, and no others. */
  ghost predicate SameHeld(c: Cache, e: Cache) {
    |e.bufs| == |c.bufs| &&
    forall i :: 0 <= i < |c.bufs| ==>
      ((e.bufs[i].refcnt == 0 <==> c.bufs[i].refcnt == 0) && (c.bufs[i].refcnt != 0 ==> e.bufs[i] == c.bufs[i]))
  }

  ghost predicate NoRef(c: Cache, blockno: nat) {
    forall i :: 0 <= i < |c.bufs| && Keyed(c.bufs[i], 1, blockno) ==> c.bufs[i].refcnt == 0
  }

  /** Buffer pins[k] is pinned in the cache with the contents of logged block lh[k], for every k >= from,
      and no other buffer is dirty. */
  ghost predicate Pinned(c: Cache, lh: seq<Word>, pins: seq<nat>, from: nat) {
    |pins| == |lh| && from <= |lh| &&
    (forall k :: from <= k < |lh| ==>
       (pins[k] < |c.bufs| &&
        Keyed(c.bufs[pins[k]], 1, lh[k]) && c.bufs[pins[k]].valid && c.bufs[pins[k]].dirty)) &&
    (forall i :: 0 <= i < |c.bufs| && c.bufs[i].dirty ==> i in pins[from..])
  }

  /** The contents waiting in the pinned buffers. */
  ghost function Logged(c: Cache, pins: seq<nat>): (vals: seq<Block>)
    requires forall k :: 0 <= k < |pins| ==> pins[k] < |c.bufs|
  {
    seq(|pins|, k requires 0 <= k < |pins| => c.bufs[pins[k]].data)
  }

  /** A cache nobody is using the logged blocks of, coherent with the disk, whose pinned buffers from..n still hold vals. */
  ghost predicate Staged(g: Geometry, c: Cache, d: Disk, lh: seq<Word>, pins: seq<nat>, vals: seq<Block>, from: nat) {
    CacheOk(c) && Apart(g, c, lh) && Coherent(c, d) && Pinned(c, lh, pins, from) && NoDup(lh) &&
    HeaderOk(g, lh, |d|) && g.start + g.size <= |d| &&
    |vals| == |lh| && forall k :: from <= k < |lh| ==> c.bufs[pins[k]].data == vals[k]
  }

  /** A buffer can be recycled exactly if the logged blocks and the buffers in use are fewer than the buffers. */
  lemma SpareIff(g: Geometry, c: Cache, d: Disk, lh: seq<Word>, pins: seq<nat>, vals: seq<Block>)
    requires Staged(g, c, d, lh, pins, vals, 0)
    ensures Spare(c) <==> |lh| + |InUse(c)| < |c.bufs|
  {
    hide Coherent, CacheOk, HeaderOk, InLog, Below, Elements, NoDup;
    PinsNoDup(c, lh, pins);
    ElementsExact(pins);
    assert pins[0..] == pins;
    forall i: nat ensures i in Elements(pins) <==> i < |c.bufs| && c.bufs[i].dirty {
      if i in pins { var k :| 0 <= k < |pins| && pins[k] == i; }
    }
    BusyCount(c, Elements(pins));
  }

  /** The dirty buffers and those in use are all but the ones that can be recycled. */
  lemma BusyCount(c: Cache, dirty: set<nat>)
    requires forall i: nat :: i in dirty <==> i < |c.bufs| && c.bufs[i].dirty
    requires forall i :: 0 <= i < |c.bufs| && c.bufs[i].refcnt != 0 ==> !c.bufs[i].dirty
    ensures Spare(c) <==> |dirty| + |InUse(c)| < |c.bufs|
  {
    var busy := dirty + InUse(c);
    assert dirty !! InUse(c) && busy <= Below(|c.bufs|);
    SubsetSize(busy, Below(|c.bufs|));
    if Spare(c) {
      var i :| 0 <= i < |c.bufs| && Recyclable(c.bufs[i]);
      assert i !in busy && i in Below(|c.bufs|);
    } else {
      forall i | i in Below(|c.bufs|) ensures i in busy {
        assert !Recyclable(c.bufs[i]);
      }
      assert busy == Below(|c.bufs|);
    }
  }

  /** Reading a block of the log area panics exactly if the logged blocks and the buffers in use are all the buffers there are. */
  lemma NoRoom(g: Geometry, c: Cache, d: Disk, lh: seq<Word>, pins: seq<nat>, vals: seq<Block>, blockno: nat)
    requires Staged(g, c, d, lh, pins, vals, 0) && InLog(g, blockno)
    ensures GetBuf(c, 1, blockno).Halt? <==> |lh| + |InUse(c)| >= |c.bufs|
  {
    hide GetBuf, Coherent;
    SpareIff(g, c, d, lh, pins, vals);
    GetBufHaltsIff(c, 1, blockno);
    if !Spare(c) {
      forall i | 0 <= i < |c.bufs| ensures !Keyed(c.bufs[i], 1, blockno) && !Recyclable(c.bufs[i]) {
        if c.bufs[i].dirty { assert i in pins[0..]; }
      }
    }
  }

  lemma RoomForOne(c: Cache, blockno: nat)
    requires RingOk(c.ring, |c.bufs|) && Spare(c)
    ensures GetBuf(c, 1, blockno).Got?
  {
    hide GetBuf;
    GetBufHaltsIff(c, 1, blockno);
  }

  lemma PinsNoDup(c: Cache, lh: seq<Word>, pins: seq<nat>)
    requires Pinned(c, lh, pins, 0) && NoDup(lh)
    ensures NoDup(pins) && |pins| == |lh|
  {
    forall j, k | 0 <= j < k < |pins| ensures pins[j] != pins[k] {
      assert Keyed(c.bufs[pins[j]], 1, lh[j]) && Keyed(c.bufs[pins[k]], 1, lh[k]);
    }
  }

  /** One round of write_log, write_head or recovery on a log block: only the buffer of that block changes. */
  lemma StagedLogWrite(g: Geometry, c: Cache, d: Disk, lh: seq<Word>, pins: seq<nat>, vals: seq<Block>, from: nat,
                       e: Cache, i: nat, blockno: nat, data: Block)
    requires Staged(g, c, d, lh, pins, vals, from) && InLog(g, blockno) && CacheOk(e) && i < |c.bufs|
    requires Keyed(c.bufs[i], 1, blockno) || Recyclable(c.bufs[i])
    requires e.bufs == c.bufs[i := Buf(true, false, 1, blockno, false, 0, data)]
    ensures Staged(g, e, d[blockno := data], lh, pins, vals, from)
  {
    assert !c.bufs[i].dirty;
    forall j | 0 <= j < |c.bufs| && j != i ensures !Keyed(e.bufs[j], 1, blockno) {
      assert Keyed(e.bufs[i], 1, blockno);
    }
  }

  /** What install_trans needs: dirty buffers belong to blocks still to be installed. */
  ghost predicate Installable(g: Geometry, c: Cache, d: Disk, lh: seq<Word>, from: nat) {
    CacheOk(c) && Apart(g, c, lh) && Coherent(c, d) && HeaderOk(g, lh, |d|) && g.start + g.size <= |d| && from <= |lh| &&
    forall i :: 0 <= i < |c.bufs| && c.bufs[i].dirty ==> c.bufs[i].dev == 1 && c.bufs[i].blockno in lh[from..]
  }

  lemma StagedInstallable(g: Geometry, c: Cache, d: Disk, lh: seq<Word>, pins: seq<nat>, vals: seq<Block>)
    requires Staged(g, c, d, lh, pins, vals, 0)
    ensures Installable(g, c, d, lh, 0)
  {
    assert pins[0..] == pins && lh[0..] == lh;
    forall i | 0 <= i < |c.bufs| && c.bufs[i].dirty ensures c.bufs[i].dev == 1 && c.bufs[i].blockno in lh {
      var k :| 0 <= k < |pins| && pins[k] == i;
      assert Keyed(c.bufs[pins[k]], 1, lh[k]);
    }
  }

  /** One round of install_trans: the home block's buffer is overwritten, written out and becomes clean. */
  lemma InstallRound(g: Geometry, c: Cache, d: Disk, lh: seq<Word>, tail: nat, e: Cache, i: nat, j: nat)
    requires Installable(g, c, d, lh, tail) && tail < |lh| && CacheOk(e) && i < |c.bufs| && j < |c.bufs| && i != j
    requires Keyed(c.bufs[i], 1, g.start + tail + 1) || Recyclable(c.bufs[i])
    requires Keyed(c.bufs[j], 1, lh[tail]) || Recyclable(c.bufs[j])
    requires e.bufs == c.bufs[i := Buf(true, false, 1, g.start + tail + 1, false, 0, d[g.start + tail + 1])]
                             [j := Buf(true, false, 1, lh[tail], false, 0, d[g.start + tail + 1])]
    ensures Installable(g, e, d[lh[tail] := d[g.start + tail + 1]], lh, tail + 1)
  {
    assert InLog(g, g.start + tail + 1);
    assert Keyed(e.bufs[i], 1, g.start + tail + 1) && Keyed(e.bufs[j], 1, lh[tail]);
    forall m | 0 <= m < |c.bufs| && e.bufs[m].dirty
      ensures e.bufs[m].dev == 1 && e.bufs[m].blockno in lh[tail + 1..]
    {
      assert e.bufs[m] == c.bufs[m] && !Keyed(e.bufs[m], 1, lh[tail]);
      assert lh[tail..] == [lh[tail]] + lh[tail + 1..];
    }
  }

  /** Replaying block numbers tail.. of the log needs no more buffers than there are: either the home
      blocks are pinned and one buffer is to spare, or nobody holds or has pinned any and there are two. */
  ghost predicate InstallReady(g: Geometry, c: Cache, d: Disk, lh: seq<Word>, pins: seq<nat>, tail: nat) {
    Installable(g, c, d, lh, tail) &&
    ((Pinned(c, lh, pins, tail) && NoDup(lh) && Spare(c)) ||
     (2 <= |c.bufs| && Quiet(c) && forall i :: 0 <= i < |c.bufs| ==> !c.bufs[i].dirty))
  }

  /** struct log. The header's block numbers are block[..n]; pins says, for the proof only, which buffer
      each of them is pinned in. */
  class Log {
    const cache: BufferCache
    const g: Geometry
    const limit: nat            // LOGSIZE
    const maxop: nat            // MAXOPBLOCKS
    const block: array<Word>
    var n: nat
    var outstanding: nat
    var committing: bool
    ghost var pins: seq<nat>

    ghost function Lh(): seq<Word>
      reads this, block
      requires n <= block.Length
    {
      block[..n]
    }

    ghost predicate Valid()
      reads this, block, cache, cache.buf, cache.next, cache.prev
    {
      block as object != cache.buf && block as object != cache.next && block as object != cache.prev &&
      block as object != cache.disk && block as object != cache &&
      this as object != cache &&
      cache.Valid() && 0 < g.size && g.start + g.size <= cache.disk.Length <= U32 &&
      block.Length == limit < WORDS && n <= limit && HeaderOk(g, Lh(), cache.disk.Length)
    }

    /** No operation is open: nobody holds a buffer of the log area or of a logged block, and the cache agrees with the disk. */
    ghost predicate Idle()
      requires Valid()
      reads this, block, cache, cache.buf, cache.next, cache.prev, cache.disk
    {
      Pinned(cache.State(), Lh(), pins, 0) &&
      Staged(g, cache.State(), cache.disk[..], Lh(), pins, Logged(cache.State(), pins), 0)
    }

    constructor (c: BufferCache, geometry: Geometry, logsize: nat, maxOpBlocks: nat)
      requires c.Valid() && 0 < geometry.size && geometry.start + geometry.size <= c.disk.Length <= U32
      requires logsize < WORDS
      ensures Valid() && cache == c && g == geometry && limit == logsize && maxop == maxOpBlocks
      ensures n == 0 && outstanding == 0 && !committing && pins == [] && fresh(block)
    {
      cache, g, limit, maxop := c, geometry, logsize, maxOpBlocks;
      block := new Word[logsize](_ => 0);
      n, outstanding, committing, pins := 0, 0, false, [];
    }

    /** One round of begin_op's loop: false means sleep and try again. */
    method BeginOp() returns (admitted: bool)
      requires Valid()
      modifies this`outstanding
      ensures Valid() && (admitted <==> MayBegin(n, old(outstanding), committing, maxop, limit))
      ensures outstanding == old(outstanding) + if admitted then 1 else 0
    {
      if committing {
        return false;
      } else if n + (outstanding + 1) * maxop > limit {
        return false;
      }
      outstanding := outstanding + 1;
      return true;
    }

    /** log_write of a buffer the caller holds and has modified; false is one of its panics. */
    method LogWrite(b: nat) returns (ok: bool)
      requires Valid() && CacheOk(cache.State()) && Pinned(cache.State(), Lh(), pins, 0) && NoDup(Lh())
      requires b < cache.buf.Length && cache.buf[b].locked && cache.buf[b].valid && cache.buf[b].dev == 1
      requires cache.buf[b].blockno < cache.disk.Length && !InLog(g, cache.buf[b].blockno)
      modifies this`n, this`pins, block, cache.buf
      ensures Valid() && CacheOk(cache.State()) && Pinned(cache.State(), Lh(), pins, 0) && NoDup(Lh())
      ensures ok <==> old(n) < limit && old(n) < g.size - 1 && 1 <= outstanding
      ensures var c := old(cache.State());
              if ok then Lh() == Absorb(old(Lh()), c.bufs[b].blockno) &&
                         cache.State() == c.(bufs := c.bufs[b := c.bufs[b].(dirty := true)])
              else Lh() == old(Lh()) && cache.State() == c
    {
      if n >= limit || n >= g.size - 1 { return false; }
      if outstanding < 1 { return false; }
      ghost var c, lh, held := cache.State(), Lh(), pins;
      var blockno := cache.buf[b].blockno;
      var i := 0;
      while i < n && block[i] != blockno
        invariant i <= n
        invariant forall k :: 0 <= k < i ==> block[k] != blockno
      {
        i := i + 1;
      }
      block[i] := blockno;
      if i == n {
        n := n + 1;
        pins := pins + [b];
      }
      cache.buf[b] := cache.buf[b].(dirty := true);
      assert cache.buf[..] == c.bufs[b := c.bufs[b].(dirty := true)];
      assert Lh() == Absorb(lh, blockno);
      SetBufOk(c, b, c.bufs[b].(dirty := true));
      PinnedAfterLogWrite(c, lh, held, b, i);
      return true;
    }

    /** end_op by a process inside an operation. Panicked is "log.committing" or a panic inside commit(). */
    method EndOp() returns (r: Ended)
      requires Valid() && 1 <= outstanding
      requires outstanding == 1 && !committing ==> Idle() && DiskOk(g, cache.disk[..])
      modifies this, cache, cache.buf, cache.next, cache.prev, cache.disk
      ensures Valid() && outstanding == old(outstanding) - 1
      ensures old(committing) ==> r == Panicked && committing
      ensures !old(committing) && old(outstanding) > 1 ==> r == StillOpen && !committing
      ensures !old(committing) && old(outstanding) == 1 ==>
                (r == Committed <==> old(n) == 0 || old(n) + |InUse(old(cache.State()))| < cache.buf.Length) &&
                (r == Committed || r == Panicked) &&
                (r == Committed ==> !committing && n == 0 && Idle() && SameHeld(old(cache.State()), cache.State())) && (r == Panicked ==> committing)
      ensures r == StillOpen || (r == Panicked && old(committing)) ==>
                n == old(n) && pins == old(pins) && cache.disk[..] == old(cache.disk[..]) &&
                cache.trace == old(cache.trace) && cache.State() == old(cache.State())
      ensures r == Committed && old(n) > 0 ==>
                var d, lh, vals := old(cache.disk[..]), old(Lh()), old(Logged(cache.State(), pins));
                cache.disk[..] == CommitDisk(g, d, lh, vals, 2 * |lh| + 2) &&
                cache.trace == old(cache.trace) + CommitTrace(g, d, lh, vals, 2 * |lh| + 2)
    {
      hide Staged, Pinned, Linked, RingOk, HeaderOk, InLog, DiskOk, Logged, CommitDisk, CommitTrace, InUse, SameHeld;
      outstanding := outstanding - 1;
      if committing { return Panicked; }
      if outstanding != 0 { return StillOpen; }
      committing := true;
      var ok := Commit();
      if !ok { return Panicked; }
      committing := false;
      return Committed;
    }

    /** The two breads at the head of a write_log or install_trans round: log block number tail, then the
        home block it belongs to. */
    method FetchPair(tail: nat) returns (ok: bool, logbuf: nat, homebuf: nat, ghost mid: Cache)
      requires Valid() && CacheOk(cache.State()) && Apart(g, cache.State(), Lh()) && tail < n
      modifies cache, cache.buf, cache.disk
      ensures Valid() && cache.disk[..] == old(cache.disk[..]) && cache.trace == old(cache.trace)
      ensures ok ==> GetBuf(old(cache.State()), 1, g.start + tail + 1).Got? &&
                     Fetched(old(cache.State()), cache.disk[..], mid, logbuf, g.start + tail + 1) &&
                     Fetched(mid, cache.disk[..], cache.State(), homebuf, block[tail])
      ensures !ok ==> GetBuf(old(cache.State()), 1, g.start + tail + 1).Halt? ||
                      (Fetched(old(cache.State()), cache.disk[..], mid, logbuf, g.start + tail + 1) &&
                       GetBuf(mid, 1, block[tail]).Halt?)
    {
      ghost var c, d := cache.State(), cache.disk[..];
      var logno, home := g.start + tail + 1, block[tail];
      assert Lh()[tail] == home && home != logno;
      logbuf, homebuf, mid := 0, 0, c;
      assert InLog(g, logno);
      UnheldPair(c, d, logno, home);
      hide CacheOk, Apart, Linked, RingOk, HeaderOk, Fetched, GetBuf, ReadBuf;
      var r := cache.Bread(1, logno);
      if !r.Found? { return false, 0, 0, c; }
      logbuf, mid := r.b, cache.State();
      r := cache.Bread(1, home);
      if !r.Found? { return false, logbuf, 0, mid; }
      homebuf := r.b;
      return true, logbuf, homebuf, mid;
    }

    /** The rest of the round: memmove(dst->data, src->data); bwrite(dst); brelse(src); brelse(dst). */
    method MoveBlock(dst: nat, src: nat)
      requires Valid() && Movable(cache.State(), cache.disk[..], dst, src)
      modifies cache, cache.buf, cache.next, cache.prev, cache.disk
      ensures Valid() && CacheOk(cache.State())
      ensures var c := old(cache.State());
              cache.State().bufs == Moved(c, dst, src) &&
              cache.disk[..] == old(cache.disk[..])[c.bufs[dst].blockno := c.bufs[src].data] &&
              cache.trace == old(cache.trace) + [cache.disk[..]]
    {
      hide CacheOk, Linked, RingOk, HeaderOk, WriteBuf, ReleaseBuf, InLog;
      ghost var c, d := cache.State(), cache.disk[..];
      cache.buf[dst] := cache.buf[dst].(data := cache.buf[src].data);
      assert cache.buf[..] == c.bufs[dst := c.bufs[dst].(data := c.bufs[src].data)];
      MoveBlockSafe(c, d, dst, src);
      var ok := cache.Bwrite(dst);
      cache.Brelse(src);
      cache.Brelse(dst);
    }

    /** One round of write_log: the pinned buffer of logged block number tail goes to its log block. It
        panics exactly when no buffer can be recycled. */
    method CopyOut(tail: nat, ghost vals: seq<Block>) returns (ok: bool)
      requires Valid() && Staged(g, cache.State(), cache.disk[..], Lh(), pins, vals, 0) && tail < n
      modifies cache, cache.buf, cache.next, cache.prev, cache.disk
      ensures Valid() && (ok <==> Spare(old(cache.State())))
      ensures ok ==> Staged(g, cache.State(), cache.disk[..], Lh(), pins, vals, 0) &&
                     Spare(cache.State()) && SameHeld(old(cache.State()), cache.State()) &&
                     cache.disk[..] == old(cache.disk[..])[g.start + tail + 1 := vals[tail]] &&
                     cache.trace == old(cache.trace) + [cache.disk[..]]
      ensures !ok ==> cache.disk[..] == old(cache.disk[..]) && cache.trace == old(cache.trace)
    {
      hide Staged, Pinned, Coherent, Fetched, Moved, Movable, CacheOk, Apart, Spare, SameHeld, GetBuf, HeaderOk, InLog, Linked, RingOk;
      ghost var c, d, lh := cache.State(), cache.disk[..], Lh();
      StagedQuiet(g, c, d, lh, pins, vals, tail);
      ghost var mid: Cache;
      var to, from: nat;
      ok, to, from, mid := FetchPair(tail);
      CopyOutHalts(g, c, d, lh, pins, vals, tail, mid, to);
      if !ok { return; }
      ghost var e := cache.State();
      CopyOutSafe(g, c, d, lh, pins, vals, tail, mid, e, to, from);
      MoveBlock(to, from);
      CopyOutDone(g, c, d, lh, pins, vals, tail, mid, e, to, from, cache.State());
    }

    /** write_log: copy the pinned buffers into the log blocks. */
    method WriteLog(ghost vals: seq<Block>) returns (ok: bool)
      requires Valid() && Staged(g, cache.State(), cache.disk[..], Lh(), pins, vals, 0)
      requires DiskOk(g, cache.disk[..])
      modifies cache, cache.buf, cache.next, cache.prev, cache.disk
      ensures Valid() && (ok <==> n == 0 || Spare(old(cache.State())))
      ensures ok ==> Staged(g, cache.State(), cache.disk[..], Lh(), pins, vals, 0) &&
                     (n > 0 ==> Spare(cache.State())) && SameHeld(old(cache.State()), cache.State()) &&
                     cache.disk[..] == LogWritten(g, old(cache.disk[..]), vals, n) &&
                     cache.trace == old(cache.trace) + CommitTrace(g, old(cache.disk[..]), Lh(), vals, n)
      ensures !ok ==> cache.disk[..] == old(cache.disk[..]) && cache.trace == old(cache.trace)
    {
      hide Staged, HeaderOk, Linked, RingOk, DiskOk, InLog, Spare;
      ghost var d0 := cache.disk[..];
      StagedBounds(g, cache.State(), d0, Lh(), pins, vals);
      ok := true;
      var tail := 0;
      while tail < n
        invariant tail <= n && Valid() && ok
        invariant SameHeld(old(cache.State()), cache.State())
        invariant (Spare(cache.State()) <==> Spare(old(cache.State()))) && (tail > 0 ==> Spare(cache.State()))
        invariant Staged(g, cache.State(), cache.disk[..], Lh(), pins, vals, 0)
        invariant cache.disk[..] == LogWritten(g, d0, vals, tail)
        invariant cache.trace == old(cache.trace) + CommitTrace(g, d0, Lh(), vals, tail)
      {
        ok := CopyOut(tail, vals);
        if !ok { return; }
        tail := tail + 1;
      }
    }

    /** write_head: put the in-memory header into the header block and write it. */
    method WriteHead() returns (ok: bool, ghost i: nat)
      requires Valid() && HeadReadable(g, cache.State(), cache.disk[..])
      modifies cache, cache.buf, cache.next, cache.prev, cache.disk
      ensures Valid() && (ok <==> GetBuf(old(cache.State()), 1, g.start).Got?)
      ensures ok ==> CacheOk(cache.State()) &&
                     HeadStored(g, old(cache.State()), cache.State(), i, EncodeHead(old(cache.disk[..])[g.start], Lh())) &&
                     SameHeld(old(cache.State()), cache.State()) &&
                     cache.disk[..] == HeadWritten(g, old(cache.disk[..]), Lh()) &&
                     cache.trace == old(cache.trace) + [cache.disk[..]]
      ensures !ok ==> cache.disk[..] == old(cache.disk[..]) && cache.trace == old(cache.trace)
    {
      hide CacheOk, NoRef, SameHeld, Coherent, Linked, RingOk, HeaderOk, InLog, ReadBuf, GetBuf, WriteBuf, ReleaseBuf, GetWord, SetWord;
      ghost var c, d := cache.State(), cache.disk[..];
      FetchHead(g, c, d);
      var r := cache.Bread(1, g.start);
      if !r.Found? { return false, 0; }
      var b := r.b;
      i := b;
      ghost var c1 := cache.State();
      cache.buf[b] := cache.buf[b].(data := SetWord(cache.buf[b].data, 0, n));
      var k := 0;
      while k < n
        invariant k <= n && Valid() && cache.ring == c1.ring
        invariant cache.trace == old(cache.trace) && cache.disk[..] == d
        invariant cache.buf[..] == c1.bufs[b := c1.bufs[b].(data := cache.buf[b].data)]
        invariant EncodeFrom(cache.buf[b].data, Lh(), k) == EncodeHead(d[g.start], Lh())
      {
        cache.buf[b] := cache.buf[b].(data := SetWord(cache.buf[b].data, k + 1, block[k]));
        k := k + 1;
      }
      StoreHead(c1, d, b, g.start, EncodeHead(d[g.start], Lh()));
      ok := cache.Bwrite(b);
      cache.Brelse(b);
      HeadHeld(g, c, d, cache.State(), b, EncodeHead(d[g.start], Lh()));
    }

    /** One round of install_trans: log block number tail goes to its home block. */
    method InstallOne(tail: nat)
      requires Valid() && InstallReady(g, cache.State(), cache.disk[..], Lh(), pins, tail) && tail < n
      modifies cache, cache.buf, cache.next, cache.prev, cache.disk
      ensures Valid() && InstallReady(g, cache.State(), cache.disk[..], Lh(), pins, tail + 1)
      ensures SameHeld(old(cache.State()), cache.State())
      ensures g.start + tail + 1 < cache.disk.Length &&
              cache.disk[..] == old(cache.disk[..])[block[tail] := old(cache.disk[..])[g.start + tail + 1]] &&
              cache.trace == old(cache.trace) + [cache.disk[..]]
    {
      hide InstallReady, Pinned, Coherent, Fetched, Moved, Movable, CacheOk, Quiet, Apart, Spare, SameHeld, GetBuf, HeaderOk, InLog, Linked, RingOk;
      ghost var c, d, lh := cache.State(), cache.disk[..], Lh();
      InstallBounds(g, c, d, lh, pins, tail);
      var ok, lbuf, dbuf, mid := FetchPair(tail);
      InstallNeverHalts(g, c, d, lh, pins, tail, mid, lbuf);
      ghost var e := cache.State();
      InstallSafe(g, c, d, lh, pins, tail, mid, e, lbuf, dbuf);
      MoveBlock(dbuf, lbuf);
      InstallDone(g, c, d, lh, pins, tail, mid, e, lbuf, dbuf, cache.State());
    }

    /** install_trans: copy the logged blocks to their home locations. */
    method InstallTrans()
      requires Valid() && InstallReady(g, cache.State(), cache.disk[..], Lh(), pins, 0)
      requires HeaderOk(g, Lh(), cache.disk.Length)
      modifies cache, cache.buf, cache.next, cache.prev, cache.disk
      ensures Valid() && InstallReady(g, cache.State(), cache.disk[..], Lh(), pins, n)
      ensures SameHeld(old(cache.State()), cache.State())
      ensures cache.disk[..] == Installed(g, old(cache.disk[..]), Lh(), n) &&
              cache.trace == old(cache.trace) + InstallTrace(g, old(cache.disk[..]), Lh(), n)
    {
      hide InstallReady, HeaderOk, Linked, RingOk, InLog;
      ghost var d0 := cache.disk[..];
      var tail := 0;
      while tail < n
        invariant tail <= n && Valid()
        invariant InstallReady(g, cache.State(), cache.disk[..], Lh(), pins, tail) && SameHeld(old(cache.State()), cache.State())
        invariant cache.disk[..] == Installed(g, d0, Lh(), tail)
        invariant cache.trace == old(cache.trace) + InstallTrace(g, d0, Lh(), tail)
      {
        InstallOne(tail);
        tail := tail + 1;
      }
    }

    /** commit: false is a panic, reached exactly when the logged blocks and the buffers others hold are all the
        buffers there are, and then before anything is written. The buffers others hold stay as they are. Otherwise the disk went through the states of CommitTrace. */
    method Commit() returns (ok: bool)
      requires Valid() && Idle() && DiskOk(g, cache.disk[..])
      modifies this, cache, cache.buf, cache.next, cache.prev, cache.disk
      ensures Valid() && committing == old(committing) && outstanding == old(outstanding)
      ensures ok <==> old(n) == 0 || old(n) + |InUse(old(cache.State()))| < cache.buf.Length
      ensures var d, lh, vals := old(cache.disk[..]), old(Lh()), old(Logged(cache.State(), pins));
              if !ok || |lh| == 0 then cache.disk[..] == d && cache.trace == old(cache.trace)
              else cache.disk[..] == CommitDisk(g, d, lh, vals, 2 * |lh| + 2) &&
                   cache.trace == old(cache.trace) + CommitTrace(g, d, lh, vals, 2 * |lh| + 2)
      ensures ok ==> n == 0 && Idle() && SameHeld(old(cache.State()), cache.State())
    {
      hide Staged, Pinned, InstallReady, HeadReadable, HeadStored, CacheOk, Quiet, Apart, Spare, InUse, SameHeld, Coherent, Linked, RingOk,
           HeaderOk, InLog, DiskOk, GetBuf, EncodeHead, Logged, CommitDisk, CommitTrace, InstallTrace, Installed, LogWritten;
      if n == 0 {
        HeldSame(cache.State());
        return true;
      }
      PinsInRange(cache.State(), Lh(), pins);
      ghost var c, d, lh, vals := cache.State(), cache.disk[..], Lh(), Logged(cache.State(), pins);
      StagedBounds(g, c, d, lh, pins, vals);
      SpareIff(g, c, d, lh, pins, vals);
      ok := WriteLog(vals);
      if !ok { return; }
      ghost var c1, d1 := cache.State(), cache.disk[..];
      StagedHead(g, c1, d1, lh, pins, vals);
      ghost var i;
      ok, i := WriteHead();
      ghost var c2, d2 := cache.State(), cache.disk[..];
      CommitAtHead(g, d, lh, vals);
      CommitTraceStep(g, d, lh, vals, |lh|);
      assert cache.trace == old(cache.trace) + CommitTrace(g, d, lh, vals, |lh| + 1);
      StagedInstallReady(g, c1, d1, lh, pins, vals, c2, i, EncodeHead(d1[g.start], lh));
      InstallTrans();
      ghost var c3, d3, pinned := cache.State(), cache.disk[..], pins;
      CommitInstalls(g, d, lh, vals, |lh|);
      CommitTraceInstall(g, d, lh, vals, |lh|);
      assert cache.trace == old(cache.trace) + CommitTrace(g, d, lh, vals, |lh| + 1 + |lh|);
      InstalledHead(g, c3, d3, lh, pinned);
      n, pins := 0, [];
      EmptyHeaderOk(g, Lh(), cache.disk.Length);
      ok, i := WriteHead();
      HeldTrans(c, c1, c2);
      HeldTrans(c, c2, c3);
      HeldTrans(c, c3, cache.State());
      CommitAtEnd(g, d, lh, vals);
      CommitTraceStep(g, d, lh, vals, |lh| + 1 + |lh|);
      EmptyStaged(g, c3, d3, lh, pinned, cache.State(), i, EncodeHead(d3[g.start], []));
      EmptyLogged(cache.State());
    }

    /** read_head: read the header block into the in-memory header. */
    method ReadHead() returns (ok: bool)
      requires Valid() && Fresh(g, cache.State(), cache.disk[..])
      requires DiskOk(g, cache.disk[..]) && |Header(g, cache.disk[..])| <= limit
      modifies this, block, cache, cache.buf, cache.next, cache.prev, cache.disk
      ensures cache.disk[..] == old(cache.disk[..]) && cache.trace == old(cache.trace)
      ensures committing == old(committing) && outstanding == old(outstanding) && pins == old(pins)
      ensures Valid() && Fresh(g, cache.State(), cache.disk[..]) && ok
      ensures Lh() == Header(g, cache.disk[..])
    {
      hide CacheOk, Quiet, Coherent, Linked, RingOk, HeaderOk, InLog, ReadBuf, GetBuf, ReleaseBuf, GetWord, Fresh;
      ghost var c, d := cache.State(), cache.disk[..];
      FreshHead(g, c, d);
      FetchHead(g, c, d);
      var r := cache.Bread(1, g.start);
      var b := r.b;
      n := GetWord(cache.buf[b].data, 0);
      var i := 0;
      while i < n
        invariant i <= n == |Header(g, d)| && cache.Valid() && cache.State() == ReadBuf(c, d, 1, g.start).c
        invariant cache.disk[..] == d && cache.trace == old(cache.trace)
        invariant committing == old(committing) && outstanding == old(outstanding) && pins == old(pins)
        invariant forall k :: 0 <= k < i ==> block[k] == Header(g, d)[k]
      {
        block[i] := GetWord(cache.buf[b].data, i + 1);
        i := i + 1;
      }
      assert block[..n] == Header(g, d);
      ReleaseHead(g, c, d, b);
      cache.Brelse(b);
      ok := true;
    }

    /** recover_from_log, at boot, with at least two buffers: the disk goes through the states of RecoverTrace. */
    method RecoverFromLog() returns (ok: bool)
      requires Valid() && Fresh(g, cache.State(), cache.disk[..])
      requires DiskOk(g, cache.disk[..]) && |Header(g, cache.disk[..])| <= limit
      modifies this, block, cache, cache.buf, cache.next, cache.prev, cache.disk
      ensures Valid() && ok && n == 0 && Idle() && committing == old(committing) && outstanding == old(outstanding)
      ensures var d := old(cache.disk[..]);
              cache.disk[..] == Recover(g, d) && DiskOk(g, cache.disk[..]) && Header(g, cache.disk[..]) == [] &&
              cache.trace == old(cache.trace) + RecoverTrace(g, d, |Header(g, d)| + 1)
    {
      hide Staged, Pinned, InstallReady, HeadReadable, HeadStored, CacheOk, Quiet, Coherent, Linked, RingOk, HeaderOk, InLog,
           DiskOk, GetBuf, EncodeHead, Logged, InstallTrace, Installed, Fresh, RecoverTrace, Header;
      ghost var d := cache.disk[..];
      ghost var lh := Header(g, d);
      ok := ReadHead();
      FreshInstallReady(g, cache.State(), d, lh);
      pins := [];
      InstallTrans();
      ghost var c1, d1 := cache.State(), cache.disk[..];
      RecoverTraceStages(g, d);
      InstalledHead(g, c1, d1, lh, []);
      n := 0;
      EmptyHeaderOk(g, Lh(), cache.disk.Length);
      ghost var i;
      ok, i := WriteHead();
      EmptyStaged(g, c1, d1, lh, [], cache.State(), i, EncodeHead(d1[g.start], []));
      EmptyLogged(cache.State());
      RecoverInstalls(g, d);
    }
  }

  lemma HeadHeld(g: Geometry, c: Cache, d: Disk, e: Cache, i: nat, head: Block)
    requires HeadReadable(g, c, d) && HeadStored(g, c, e, i, head)
    ensures SameHeld(c, e)
  {}

  lemma HeldSame(c: Cache)
    ensures SameHeld(c, c)
  {}

  lemma HeldTrans(c: Cache, e: Cache, f: Cache)
    requires SameHeld(c, e) && SameHeld(e, f)
    ensures SameHeld(c, f)
  {}

  /** Reading a log block and then a pinned block panics only if no buffer is to spare, and then at once. */
  lemma CopyOutHalts(g: Geometry, c: Cache, d: Disk, lh: seq<Word>, pins: seq<nat>, vals: seq<Block>, tail: nat,
                     mid: Cache, i: nat)
    requires Staged(g, c, d, lh, pins, vals, 0) && tail < |lh|
    ensures GetBuf(c, 1, g.start + tail + 1).Halt? <==> !Spare(c)
    ensures Fetched(c, d, mid, i, g.start + tail + 1) ==> GetBuf(mid, 1, lh[tail]).Got?
  {
    hide GetBuf, Spare, InUse, Staged, Fetched;
    StagedLogBlock(g, c, d, lh, pins, vals, tail);
    SpareIff(g, c, d, lh, pins, vals);
    NoRoom(g, c, d, lh, pins, vals, g.start + tail + 1);
    if Fetched(c, d, mid, i, g.start + tail + 1) {
      HomeFound(g, c, d, lh, pins, vals, tail, mid, i);
    }
  }

  lemma StagedLogBlock(g: Geometry, c: Cache, d: Disk, lh: seq<Word>, pins: seq<nat>, vals: seq<Block>, tail: nat)
    requires Staged(g, c, d, lh, pins, vals, 0) && tail < |lh|
    ensures InLog(g, g.start + tail + 1)
  {}

  lemma HomeFound(g: Geometry, c: Cache, d: Disk, lh: seq<Word>, pins: seq<nat>, vals: seq<Block>, tail: nat, mid: Cache, i: nat)
    requires Staged(g, c, d, lh, pins, vals, 0) && tail < |lh| && Fetched(c, d, mid, i, g.start + tail + 1)
    ensures GetBuf(mid, 1, lh[tail]).Got?
  {
    hide GetBuf, Coherent;
    assert InLog(g, g.start + tail + 1);
    assert i != pins[tail];
    assert mid.bufs[pins[tail]] == c.bufs[pins[tail]];
    ReadCached(mid, d, pins[tail], lh[tail]);
  }

  lemma StagedBounds(g: Geometry, c: Cache, d: Disk, lh: seq<Word>, pins: seq<nat>, vals: seq<Block>)
    requires Staged(g, c, d, lh, pins, vals, 0)
    ensures |vals| == |lh| && HeaderOk(g, lh, |d|) && g.start + |lh| < |d| && g.start + g.size <= |d|
  {}

  lemma StagedQuiet(g: Geometry, c: Cache, d: Disk, lh: seq<Word>, pins: seq<nat>, vals: seq<Block>, tail: nat)
    requires Staged(g, c, d, lh, pins, vals, 0) && tail < |lh|
    ensures CacheOk(c) && Apart(g, c, lh) && |vals| == |lh| && g.start + tail + 1 < |d|
  {}

  lemma CopyOutSafe(g: Geometry, c: Cache, d: Disk, lh: seq<Word>, pins: seq<nat>, vals: seq<Block>, tail: nat,
                    mid: Cache, e: Cache, to: nat, from: nat)
    requires Staged(g, c, d, lh, pins, vals, 0) && tail < |lh|
    requires Fetched(c, d, mid, to, g.start + tail + 1) && Fetched(mid, d, e, from, lh[tail])
    ensures Movable(e, d, to, from) && to < |e.bufs| && from < |e.bufs|
    ensures e.bufs[to].blockno == g.start + tail + 1 && e.bufs[from].data == vals[tail]
  {
    var logno, pin := g.start + tail + 1, pins[tail];
    assert InLog(g, logno) && to != pin;
    assert Keyed(e.bufs[from], 1, lh[tail]) && Keyed(e.bufs[pin], 1, lh[tail]);
    assert from == pin;
  }

  lemma CopyOutDone(g: Geometry, c: Cache, d: Disk, lh: seq<Word>, pins: seq<nat>, vals: seq<Block>, tail: nat,
                    mid: Cache, e: Cache, to: nat, from: nat, z: Cache)
    requires Staged(g, c, d, lh, pins, vals, 0) && tail < |lh|
    requires Fetched(c, d, mid, to, g.start + tail + 1) && Fetched(mid, d, e, from, lh[tail])
    requires Movable(e, d, to, from) && CacheOk(z) && z.bufs == Moved(e, to, from)
    ensures Staged(g, z, d[g.start + tail + 1 := vals[tail]], lh, pins, vals, 0) && Spare(z) && SameHeld(c, z)
  {
    var logno, pin := g.start + tail + 1, pins[tail];
    assert InLog(g, logno) && to != pin;
    assert Keyed(e.bufs[from], 1, lh[tail]) && Keyed(e.bufs[pin], 1, lh[tail]);
    assert from == pin;
    assert z.bufs == c.bufs[to := Buf(true, false, 1, logno, false, 0, vals[tail])];
    assert Recyclable(z.bufs[to]);
    StagedLogWrite(g, c, d, lh, pins, vals, 0, z, to, g.start + tail + 1, vals[tail]);
  }

  lemma InstallBounds(g: Geometry, c: Cache, d: Disk, lh: seq<Word>, pins: seq<nat>, tail: nat)
    requires InstallReady(g, c, d, lh, pins, tail) && tail < |lh|
    ensures CacheOk(c) && Apart(g, c, lh) && g.start + tail + 1 < |d| && lh[tail] < |d|
  {}

  lemma InstallNeverHalts(g: Geometry, c: Cache, d: Disk, lh: seq<Word>, pins: seq<nat>, tail: nat, mid: Cache, i: nat)
    requires InstallReady(g, c, d, lh, pins, tail) && tail < |lh|
    ensures GetBuf(c, 1, g.start + tail + 1).Got?
    ensures Fetched(c, d, mid, i, g.start + tail + 1) ==> GetBuf(mid, 1, lh[tail]).Got?
  {
    hide GetBuf;
    var logno := g.start + tail + 1;
    assert InLog(g, logno);
    if Pinned(c, lh, pins, tail) && Spare(c) {
      RoomForOne(c, logno);
      if Fetched(c, d, mid, i, logno) {
        assert Keyed(c.bufs[pins[tail]], 1, lh[tail]) && i != pins[tail];
        assert mid.bufs[pins[tail]] == c.bufs[pins[tail]];
        ReadCached(mid, d, pins[tail], lh[tail]);
      }
    } else {
      assert Recyclable(c.bufs[0]) && Recyclable(c.bufs[1]);
      GetBufHaltsIff(c, 1, logno);
      if Fetched(c, d, mid, i, logno) {
        var other := if i == 0 then 1 else 0;
        assert mid.bufs[other] == c.bufs[other];
        GetBufHaltsIff(mid, 1, lh[tail]);
      }
    }
  }

  lemma InstallSafe(g: Geometry, c: Cache, d: Disk, lh: seq<Word>, pins: seq<nat>, tail: nat,
                    mid: Cache, e: Cache, lbuf: nat, dbuf: nat)
    requires InstallReady(g, c, d, lh, pins, tail) && tail < |lh|
    requires Fetched(c, d, mid, lbuf, g.start + tail + 1) && Fetched(mid, d, e, dbuf, lh[tail])
    ensures Movable(e, d, dbuf, lbuf) && lbuf < |e.bufs| && dbuf < |e.bufs|
    ensures e.bufs[dbuf].blockno == lh[tail] && e.bufs[lbuf].data == d[g.start + tail + 1]
  {
    assert InLog(g, g.start + tail + 1);
    LogBufferClean(g, c, d, lh, tail, lbuf);
  }

  lemma LogBufferClean(g: Geometry, c: Cache, d: Disk, lh: seq<Word>, tail: nat, i: nat)
    requires Installable(g, c, d, lh, tail) && i < |c.bufs|
    requires (exists b :: InLog(g, b) && Keyed(c.bufs[i], 1, b)) || Recyclable(c.bufs[i])
    ensures !c.bufs[i].dirty
  {}

  lemma InstallDone(g: Geometry, c: Cache, d: Disk, lh: seq<Word>, pins: seq<nat>, tail: nat,
                    mid: Cache, e: Cache, lbuf: nat, dbuf: nat, z: Cache)
    requires InstallReady(g, c, d, lh, pins, tail) && tail < |lh|
    requires Fetched(c, d, mid, lbuf, g.start + tail + 1) && Fetched(mid, d, e, dbuf, lh[tail])
    requires Movable(e, d, dbuf, lbuf) && CacheOk(z) && z.bufs == Moved(e, dbuf, lbuf)
    ensures InstallReady(g, z, d[lh[tail] := d[g.start + tail + 1]], lh, pins, tail + 1) && SameHeld(c, z)
  {
    var logno := g.start + tail + 1;
    assert InLog(g, logno);
    LogBufferClean(g, c, d, lh, tail, lbuf);
    assert z.bufs == c.bufs[lbuf := Buf(true, false, 1, logno, false, 0, d[logno])]
                           [dbuf := Buf(true, false, 1, lh[tail], false, 0, d[logno])];
    InstallRound(g, c, d, lh, tail, z, lbuf, dbuf);
    if Pinned(c, lh, pins, tail) && NoDup(lh) {
      InstallPins(g, c, lh, pins, tail, z, lbuf, dbuf);
    }
  }

  lemma InstallPins(g: Geometry, c: Cache, lh: seq<Word>, pins: seq<nat>, tail: nat, z: Cache, lbuf: nat, dbuf: nat)
    requires Pinned(c, lh, pins, tail) && NoDup(lh) && tail < |lh| && CacheOk(z) && lbuf < |c.bufs| && dbuf < |c.bufs|
    requires lbuf != dbuf && !c.bufs[lbuf].dirty
    requires |z.bufs| == |c.bufs| && forall j :: 0 <= j < |c.bufs| && j != lbuf && j != dbuf ==> z.bufs[j] == c.bufs[j]
    requires Keyed(z.bufs[dbuf], 1, lh[tail]) && !z.bufs[dbuf].dirty && !z.bufs[lbuf].dirty
    requires Keyed(c.bufs[dbuf], 1, lh[tail]) || Recyclable(c.bufs[dbuf])
    ensures Pinned(z, lh, pins, tail + 1)
  {
    var p := pins[tail];
    assert c.bufs[p].dirty && Keyed(c.bufs[p], 1, lh[tail]);
    assert Keyed(z.bufs[p], 1, lh[tail]);
    assert p == dbuf;
    assert pins[tail..] == [p] + pins[tail + 1..];
    forall k | tail + 1 <= k < |lh| ensures z.bufs[pins[k]] == c.bufs[pins[k]] {
      assert c.bufs[pins[k]].dirty;
    }
  }

  /** The cache after boot: nothing held, nothing pinned, in agreement with the disk, and two buffers or more. */
  ghost predicate Fresh(g: Geometry, c: Cache, d: Disk) {
    CacheOk(c) && Quiet(c) && Coherent(c, d) && 2 <= |c.bufs| && g.start < |d| &&
    forall i :: 0 <= i < |c.bufs| ==> !c.bufs[i].dirty
  }

  lemma FreshHead(g: Geometry, c: Cache, d: Disk)
    requires Fresh(g, c, d)
    ensures HeadReadable(g, c, d) && GetBuf(c, 1, g.start).Got?
  {
    assert Recyclable(c.bufs[0]);
    GetBufHaltsIff(c, 1, g.start);
  }

  lemma ReleaseHead(g: Geometry, c: Cache, d: Disk, i: nat)
    requires Fresh(g, c, d) && ReadBuf(c, d, 1, g.start).Got? && ReadBuf(c, d, 1, g.start).i == i
    ensures var e := ReadBuf(c, d, 1, g.start).c;
            i < |e.bufs| && e.bufs[i].locked && 0 < e.bufs[i].refcnt && RingOk(e.ring, |e.bufs|) &&
            CacheOk(ReleaseBuf(e, i)) && Fresh(g, ReleaseBuf(e, i), d)
  {
    FreshHead(g, c, d);
    FetchHead(g, c, d);
    hide ReadBuf;
    ReleaseBufSafe(ReadBuf(c, d, 1, g.start).c, i);
  }

  lemma FreshInstallReady(g: Geometry, c: Cache, d: Disk, lh: seq<Word>)
    requires Fresh(g, c, d) && DiskOk(g, d) && lh == Header(g, d)
    ensures InstallReady(g, c, d, lh, [], 0) && HeaderOk(g, lh, |d|)
  {}

  /** After binit, whatever the disk holds, the cache is ready for recovery. */
  lemma BootFresh(g: Geometry, c: Cache, d: Disk)
    requires RingOk(c.ring, |c.bufs|) && 2 <= |c.bufs| && g.start < |d|
    requires forall i :: 0 <= i < |c.bufs| ==> c.bufs[i] == Buf(false, false, 0, 0, false, 0, ZeroBlock())
    ensures Fresh(g, c, d)
  {}

  lemma PinnedAfterLogWrite(c: Cache, lh: seq<Word>, pins: seq<nat>, b: nat, i: nat)
    requires CacheOk(c) && Pinned(c, lh, pins, 0) && NoDup(lh) && b < |c.bufs| && c.bufs[b].valid && c.bufs[b].dev == 1
    requires c.bufs[b].blockno < U32 && i <= |lh| && (i < |lh| ==> lh[i] == c.bufs[b].blockno)
    requires i == |lh| ==> c.bufs[b].blockno !in lh
    ensures Pinned(c.(bufs := c.bufs[b := c.bufs[b].(dirty := true)]), Absorb(lh, c.bufs[b].blockno),
                   if i == |lh| then pins + [b] else pins, 0)
  {
    if i < |lh| {
      assert Keyed(c.bufs[pins[i]], 1, lh[i]) && pins[i] == b;
    }
  }

  lemma PinsInRange(c: Cache, lh: seq<Word>, pins: seq<nat>)
    requires Pinned(c, lh, pins, 0)
    ensures |pins| == |lh| && forall k :: 0 <= k < |pins| ==> pins[k] < |c.bufs|
  {}

  lemma StagedHead(g: Geometry, c: Cache, d: Disk, lh: seq<Word>, pins: seq<nat>, vals: seq<Block>)
    requires Staged(g, c, d, lh, pins, vals, 0) && Spare(c)
    ensures HeadReadable(g, c, d) && GetBuf(c, 1, g.start).Got?
  {
    hide GetBuf;
    RoomForOne(c, g.start);
    StagedInstallable(g, c, d, lh, pins, vals);
    assert InLog(g, g.start);
  }

  lemma StagedInstallReady(g: Geometry, c: Cache, d: Disk, lh: seq<Word>, pins: seq<nat>, vals: seq<Block>,
                           e: Cache, i: nat, head: Block)
    requires Staged(g, c, d, lh, pins, vals, 0) && Spare(c) && CacheOk(e) && HeadStored(g, c, e, i, head)
    ensures g.start < |d| && InstallReady(g, e, d[g.start := head], lh, pins, 0)
  {
    assert InLog(g, g.start);
    StagedLogWrite(g, c, d, lh, pins, vals, 0, e, i, g.start, head);
    StagedInstallable(g, e, d[g.start := head], lh, pins, vals);
    assert Recyclable(e.bufs[i]);
  }

  lemma InstalledHead(g: Geometry, c: Cache, d: Disk, lh: seq<Word>, pins: seq<nat>)
    requires InstallReady(g, c, d, lh, pins, |lh|)
    ensures HeadReadable(g, c, d) && GetBuf(c, 1, g.start).Got?
  {
    assert lh[|lh|..] == [];
    if 2 <= |c.bufs| && Quiet(c) { assert c.bufs[0].dirty || Recyclable(c.bufs[0]); }
    RoomForOne(c, g.start);
  }

  lemma EmptyHeaderOk(g: Geometry, lh: seq<Word>, size: nat)
    requires lh == [] && 0 < g.size
    ensures HeaderOk(g, lh, size)
  {}

  lemma EmptyStaged(g: Geometry, c: Cache, d: Disk, lh: seq<Word>, pins: seq<nat>, e: Cache, i: nat, head: Block)
    requires InstallReady(g, c, d, lh, pins, |lh|) && CacheOk(e) && HeadStored(g, c, e, i, head) && 0 < g.size
    ensures g.start < |d| && Staged(g, e, d[g.start := head], [], [], [], 0) && Pinned(e, [], [], 0)
  {
    assert lh[|lh|..] == [];
    assert InLog(g, g.start);
    assert Staged(g, c, d, [], [], [], 0);
    StagedLogWrite(g, c, d, [], [], [], 0, e, i, g.start, head);
  }

  lemma EmptyLogged(c: Cache)
    ensures Logged(c, []) == []
  {}

  /** Nobody holds the header block, and it is not waiting to be written. */
  ghost predicate HeadReadable(g: Geometry, c: Cache, d: Disk) {
    CacheOk(c) && NoRef(c, g.start) && Coherent(c, d) && g.start < |d| &&
    forall i :: 0 <= i < |c.bufs| && Keyed(c.bufs[i], 1, g.start) ==> !c.bufs[i].dirty
  }

  ghost predicate HeadStored(g: Geometry, c: Cache, e: Cache, i: nat, head: Block) {
    i < |c.bufs| && (Keyed(c.bufs[i], 1, g.start) || Recyclable(c.bufs[i])) &&
    e.bufs == c.bufs[i := Buf(true, false, 1, g.start, false, 0, head)]
  }

  lemma FetchHead(g: Geometry, c: Cache, d: Disk)
    requires HeadReadable(g, c, d)
    ensures CacheOk(c) && Unheld(c, g.start)
    ensures var r := ReadBuf(c, d, 1, g.start);
            if GetBuf(c, 1, g.start).Halt? then r.Halt?
            else r.Got? && CacheOk(r.c) && r.i < |c.bufs| && (Keyed(c.bufs[r.i], 1, g.start) || Recyclable(c.bufs[r.i])) &&
                 r.c.ring == c.ring &&
                 r.c.bufs == c.bufs[r.i := Buf(true, false, 1, g.start, true, 1, d[g.start])]
  {
    ReadBufSafe(c, d, g.start);
    if GetBuf(c, 1, g.start).Got? {
      GetBufSafe(c, 1, g.start);
    }
  }

  lemma StoreHead(c: Cache, d: Disk, i: nat, blockno: nat, data: Block)
    requires CacheOk(c) && i < |c.bufs| && blockno < |d|
    requires c.bufs[i].valid && c.bufs[i].locked && c.bufs[i].dev == 1 && c.bufs[i].blockno == blockno && c.bufs[i].refcnt == 1
    ensures var c1 := c.(bufs := c.bufs[i := c.bufs[i].(data := data)]);
            var io := WriteBuf(c1, d, i);
            io.Io? && io.d == d[blockno := data] && CacheOk(io.c) && 0 < io.c.bufs[i].refcnt && io.c.bufs[i].locked &&
            var c2 := ReleaseBuf(io.c, i);
            CacheOk(c2) && c2.bufs == c.bufs[i := Buf(true, false, 1, blockno, false, 0, data)]
  {
    var b := c.bufs[i].(data := data);
    SetBufOk(c, i, b);
    var c1 := c.(bufs := c.bufs[i := b]);
    WriteBufSafe(c1, d, i);
    ReleaseBufSafe(WriteBuf(c1, d, i).c, i);
  }

  /** dst and src are two held buffers, and dst may be written to the disk. */
  ghost predicate Movable(c: Cache, d: Disk, dst: nat, src: nat) {
    CacheOk(c) && dst < |c.bufs| && src < |c.bufs| && dst != src &&
    c.bufs[dst].locked && c.bufs[src].locked && c.bufs[dst].valid &&
    c.bufs[dst].dev == 1 && c.bufs[dst].blockno < |d|
  }

  /** The buffers after a MoveBlock: dst holds src's contents, written out, and both are given up. */
  ghost function Moved(c: Cache, dst: nat, src: nat): seq<Buf>
    requires dst < |c.bufs| && src < |c.bufs| && 0 < c.bufs[dst].refcnt && 0 < c.bufs[src].refcnt
  {
    var b, s := c.bufs[dst], c.bufs[src];
    c.bufs[dst := Buf(true, false, b.dev, b.blockno, false, b.refcnt - 1, s.data)]
          [src := s.(locked := false, refcnt := s.refcnt - 1)]
  }

  lemma MoveBlockSafe(c: Cache, d: Disk, dst: nat, src: nat)
    requires Movable(c, d, dst, src)
    ensures var c1 := c.(bufs := c.bufs[dst := c.bufs[dst].(data := c.bufs[src].data)]);
            var io := WriteBuf(c1, d, dst);
            CacheOk(c1) && io.Io? && io.d == d[c.bufs[dst].blockno := c.bufs[src].data] && CacheOk(io.c) &&
            io.c.bufs[src] == c.bufs[src] && 0 < io.c.bufs[src].refcnt &&
            var c2 := ReleaseBuf(io.c, src);
            CacheOk(c2) && c2.bufs[dst].locked && 0 < c2.bufs[dst].refcnt &&
            CacheOk(ReleaseBuf(c2, dst)) && ReleaseBuf(c2, dst).bufs == Moved(c, dst, src)
  {
    var b1 := c.bufs[dst].(data := c.bufs[src].data);
    SetBufOk(c, dst, b1);
    var c1 := c.(bufs := c.bufs[dst := b1]);
    WriteBufSafe(c1, d, dst);
    var io := WriteBuf(c1, d, dst);
    ReleaseBufSafe(io.c, src);
    var c2 := ReleaseBuf(io.c, src);
    ReleaseBufSafe(c2, dst);
  }

  lemma UnheldPair(c: Cache, d: Disk, logno: nat, home: nat)
    requires CacheOk(c) && NoRef(c, logno) && NoRef(c, home) && logno < |d| && home < |d| && logno != home
    ensures Unheld(c, logno)
    ensures var r := ReadBuf(c, d, 1, logno);
            if GetBuf(c, 1, logno).Halt? then r.Halt?
            else r.Got? && Fetched(c, d, r.c, r.i, logno) && CacheOk(r.c) && Unheld(r.c, home) &&
                 var s := ReadBuf(r.c, d, 1, home);
                 if GetBuf(r.c, 1, home).Halt? then s.Halt? else s.Got? && Fetched(r.c, d, s.c, s.i, home)
  {
    ReadBufSafe(c, d, logno);
    if GetBuf(c, 1, logno).Got? {
      GetBufSafe(c, 1, logno);
      var r := ReadBuf(c, d, 1, logno);
      ReadBufSafe(r.c, d, home);
      if GetBuf(r.c, 1, home).Got? {
        GetBufSafe(r.c, 1, home);
      }
    }
  }
}
