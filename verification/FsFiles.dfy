/** The operations of fs.c on blocks and file contents: balloc, bfree, bmap, itrunc, readi and writei. */
module FsFiles {
  import opened Blocks
  import opened Fs
  import opened FsSpace
  import opened Seqs

  datatype Alloc = OutOfBlocks | Got(b: nat)

  datatype Mapping = OutOfRange | NoBlock | At(addr: nat)

  lemma ScanBit(b: nat, bi: nat)
    requires b % BPB == 0 && bi < BPB
    ensures (b + bi) / BPB == b / BPB && (b + bi) % BPB == bi
  {}

  /** Every block below n is in use. */
  ghost predicate AllUsed(sb: SuperBlock, d: Disk, n: nat) {
    forall x: nat :: x < n ==> BBlock(sb, x) < |d| && Used(sb, d, x)
  }

  lemma OneMoreUsed(sb: SuperBlock, d: Disk, n: nat)
    requires AllUsed(sb, d, n) && BBlock(sb, n) < |d| && Used(sb, d, n)
    ensures AllUsed(sb, d, n + 1)
  {
    hide Used;
  }

  lemma NoneUsed(sb: SuperBlock, d: Disk)
    ensures AllUsed(sb, d, 0)
  {}

  /** The bit that balloc looks at. */
  lemma BitAt(sb: SuperBlock, d: Disk, inodes: seq<Inode>, loose: set<nat>, b: nat, bi: nat)
    requires FsOk(sb, d, inodes, loose) && b % BPB == 0 && bi < BPB && b + bi < sb.size
    ensures BBlock(sb, b + bi) == b / BPB + sb.bmapstart < |d| && b + bi < |d|
    ensures Used(sb, d, b + bi) <==> BitSet(d[b / BPB + sb.bmapstart], bi)
  {
    hide AllInodesOk, Unique, Referenced, BitSet;
    ScanBit(b, bi);
  }

  /** What balloc does with a free one. */
  lemma AllocStep(sb: SuperBlock, d: Disk, inodes: seq<Inode>, loose: set<nat>, b: nat, bi: nat)
    requires FsOk(sb, d, inodes, loose) && b % BPB == 0 && bi < BPB && b + bi < sb.size
    requires BBlock(sb, b + bi) < |d| && b / BPB + sb.bmapstart < |d| && !Used(sb, d, b + bi)
    ensures b + bi < |d| && FsOk(sb, Allocated(sb, d, b + bi), inodes, loose + {b + bi})
    ensures 0 < Room(sb, d) && Room(sb, d) == Room(sb, Allocated(sb, d, b + bi)) + 1
    ensures Allocated(sb, d, b + bi) == d[b / BPB + sb.bmapstart := SetBit(d[b / BPB + sb.bmapstart], bi)][b + bi := ZeroBlock()]
  {
    hide AllInodesOk, Unique, Referenced, BitSet, SetBit, Room;
    ScanBit(b, bi);
    AllocLoose(sb, d, inodes, loose, b + bi);
    AllocRoom(sb, d, b + bi);
  }

  lemma NoneFree(sb: SuperBlock, d: Disk)
    requires AllUsed(sb, d, sb.size)
    ensures Room(sb, d) == 0
  {
    hide Used;
    NoRoom(sb, d);
  }

  lemma NextBlock(b: nat)
    requires b % BPB == 0
    ensures (b + BPB) % BPB == 0
  {}

  /** From (d, ino) to (e, now) the inode may have gained its block bn, zeroed; everything it had is still there. */
  ghost predicate Gains(d: Disk, ino: Inode, e: Disk, now: Inode, bn: nat) {
    bn < MAXFILE && now.size == ino.size && |e| == |d| && ino.addrs[NDIRECT] < |d| && now.addrs[NDIRECT] < |e| &&
    (forall t: nat :: t < SLOTS && t != NDIRECT && (t != DataSlot(bn) || SlotOf(d, ino, t) != 0) ==> SlotOf(e, now, t) == SlotOf(d, ino, t)) &&
    (forall t: nat :: t < SLOTS && t != NDIRECT && 0 < SlotOf(d, ino, t) < |d| ==> e[SlotOf(d, ino, t)] == d[SlotOf(d, ino, t)]) &&
    (SlotOf(d, ino, DataSlot(bn)) == 0 && SlotOf(e, now, DataSlot(bn)) != 0 ==>
      SlotOf(e, now, DataSlot(bn)) < |e| && e[SlotOf(e, now, DataSlot(bn))] == ZeroBlock())
  }

  lemma GainsNothing(d: Disk, e: Disk, ino: Inode, bn: nat)
    requires SameFile(d, e, ino) && bn < MAXFILE
    ensures Gains(d, ino, e, ino, bn)
  {}

  lemma GainsDirect(d: Disk, e: Disk, ino: Inode, bn: nat, b: Word)
    requires SameFile(d, e, ino) && bn < NDIRECT && ino.addrs[bn] == 0 && b < |e| && e[b] == ZeroBlock()
    ensures Gains(d, ino, e, WithAddr(ino, bn, b), bn)
  {
    hide GetWord, ZeroBlock;
    var now := WithAddr(ino, bn, b);
    forall t: nat | t < SLOTS && t != bn ensures SlotOf(e, now, t) == SlotOf(d, ino, t) {
      assert SlotOf(e, ino, t) == SlotOf(d, ino, t);
    }
  }

  lemma GainsIndirect(d: Disk, e: Disk, ino: Inode, bn: nat, b: Word)
    requires SameFile(d, e, ino) && bn < MAXFILE && ino.addrs[NDIRECT] == 0 && b < |e| && e[b] == ZeroBlock()
    ensures Gains(d, ino, e, WithAddr(ino, NDIRECT, b), bn)
  {
    forall k: nat | k < NINDIRECT ensures GetWord(ZeroBlock(), k) == 0 { ZeroBlockWord(k); }
    hide GetWord, ZeroBlock;
    var now := WithAddr(ino, NDIRECT, b);
    forall t: nat | t < SLOTS && t != NDIRECT ensures SlotOf(e, now, t) == SlotOf(d, ino, t) {
      assert SlotOf(e, ino, t) == SlotOf(d, ino, t);
    }
  }

  lemma GainsThen(d: Disk, ino: Inode, e: Disk, now: Inode, f: Disk, last: Inode, bn: nat)
    requires Gains(d, ino, e, now, bn) && Gains(e, now, f, last, bn)
    requires SlotOf(e, now, DataSlot(bn)) == SlotOf(d, ino, DataSlot(bn))
    ensures Gains(d, ino, f, last, bn)
  {
    hide GetWord, ZeroBlock;
  }

  function Min(a: nat, b: nat): nat {
    if a < b then a else b
  }

  lemma FileReadable(sb: SuperBlock, d: Disk, inodes: seq<Inode>, loose: set<nat>, i: nat)
    requires FsOk(sb, d, inodes, loose) && i < |inodes|
    ensures Readable(d, inodes[i], inodes[i].size) && inodes[i].size <= MAXFILE * BSIZE
  {
    hide Used;
    assert InodeOk(sb, d, inodes[i]);
    BelowSizeMapped(sb, d, inodes[i]);
  }

  /** A stretch of a file inside one block. */
  lemma BlockBytes(d: Disk, ino: Inode, at: nat, m: nat)
    requires Readable(d, ino, ino.size) && at % BSIZE + m <= BSIZE && at + m <= ino.size && 0 < m
    ensures Mapped(d, ino, at / BSIZE)
    ensures Content(d, ino)[at..at + m] == d[SlotOf(d, ino, DataSlot(at / BSIZE))][at % BSIZE..at % BSIZE + m]
  {
    hide SlotOf;
    assert Mapped(d, ino, at / BSIZE);
    var part := d[SlotOf(d, ino, DataSlot(at / BSIZE))][at % BSIZE..at % BSIZE + m];
    var whole := Content(d, ino)[at..at + m];
    forall k: nat | k < m ensures whole[k] == part[k] {
      SameBlock(at, k);
      assert ByteAt(d, ino, at + k) == part[k];
    }
  }

  lemma SameBlock(at: nat, k: nat)
    requires at % BSIZE + k < BSIZE
    ensures (at + k) / BSIZE == at / BSIZE && (at + k) % BSIZE == at % BSIZE + k
  {}

  function NoAddrs(): Addrs {
    seq(NDIRECT + 1, _ => 0)
  }

  ghost predicate Owns(d: Disk, ino: Inode, x: nat) {
    exists s: nat :: Refers(d, ino, s, x)
  }

  /** The bits cleared from d to e are those of the blocks of the inode. */
  ghost predicate Freed(sb: SuperBlock, d: Disk, e: Disk, ino: Inode) {
    forall x: nat :: x < sb.size ==>
      BBlock(sb, x) < |d| && BBlock(sb, x) < |e| && (Used(sb, e, x) <==> Used(sb, d, x) && !Owns(d, ino, x))
  }

  datatype Written = Refused | DiskFull | Wrote

  /** memmove into a block */
  function PutBytes(b: Block, at: nat, bytes: seq<Byte>): (r: Block)
    requires at + |bytes| <= BSIZE
    ensures forall k :: 0 <= k < BSIZE ==> r[k] == if at <= k < at + |bytes| then bytes[k - at] else b[k]
  {
    b[..at] + bytes + b[at + |bytes|..]
  }

  /** A byte sequence with bytes laid over it at off, which is no further than its end. */
  function Splice(c: seq<Byte>, off: nat, bytes: seq<Byte>): (r: seq<Byte>)
    requires off <= |c|
  {
    c[..off] + bytes + if off + |bytes| < |c| then c[off + |bytes|..] else []
  }

  function Max(a: nat, b: nat): nat {
    if a < b then b else a
  }

  /** The first tot bytes of src have been written at off; the file still has its old size. */
  ghost predicate Partial(d: Disk, ino: Inode, e: Disk, now: Inode, src: seq<Byte>, off: nat, tot: nat) {
    now.size == ino.size && off <= ino.size && tot <= |src| && Readable(d, ino, ino.size) && Readable(e, now, Max(ino.size, off + tot)) &&
    forall p: nat :: p < Max(ino.size, off + tot) ==>
      ByteAt(e, now, p) == if off <= p < off + tot then src[p - off] else ByteAt(d, ino, p)
  }

  // ----- what an operation logs

  /** Whatever has changed from d to e has been logged since was. */
  ghost predicate LogsAll(d: Disk, e: Disk, was: set<nat>, now: set<nat>) {
    |e| == |d| && was <= now && forall b: nat :: b < |d| && b !in now ==> e[b] == d[b]
  }

  lemma LogsNothing(d: Disk, was: set<nat>)
    ensures LogsAll(d, d, was, was)
  {}

  lemma LogsThen(d: Disk, e: Disk, f: Disk, was: set<nat>, mid: set<nat>, now: set<nat>)
    requires LogsAll(d, e, was, mid) && LogsAll(e, f, mid, now)
    ensures LogsAll(d, f, was, now)
  {}

  lemma LogsMore(d: Disk, e: Disk, was: set<nat>, now: set<nat>, b: nat)
    requires LogsAll(d, e, was, now)
    ensures LogsAll(d, e, was, now + {b})
  {}

  lemma LogsGrow(d: Disk, e: Disk, was: set<nat>, now: set<nat>)
    requires LogsAll(d, e, was, now)
    ensures was <= now
  {}

  lemma PutLogs(d: Disk, was: set<nat>, b: nat, data: Block)
    requires b < |d|
    ensures LogsAll(d, d[b := data], was, was + {b})
  {}

  /** The blocks of the bitmap. */
  function Bitmaps(sb: SuperBlock): set<nat> {
    set b: nat | b < sb.size :: BBlock(sb, b)
  }

  lemma AllocLogs(sb: SuperBlock, d: Disk, was: set<nat>, b: nat)
    requires b < sb.size && BBlock(sb, b) < |d| && b < |d|
    ensures LogsAll(d, Allocated(sb, d, b), was, was + {BBlock(sb, b)} + {b}) && BBlock(sb, b) in Bitmaps(sb)
  {}

  lemma FreedLogs(sb: SuperBlock, d: Disk, inodes: seq<Inode>, loose: set<nat>, b: nat, was: set<nat>)
    requires FsOk(sb, d, inodes, loose) && b in loose
    ensures BBlock(sb, b) < |d| && LogsAll(d, MarkFree(sb, d, b), was, was + {BBlock(sb, b)}) && BBlock(sb, b) in Bitmaps(sb)
  {
    hide AllInodesOk, Unique, Used, Referenced;
    FreeLogs(sb, d, was, b);
  }

  lemma FreeLogs(sb: SuperBlock, d: Disk, was: set<nat>, b: nat)
    requires b < sb.size && BBlock(sb, b) < |d|
    ensures LogsAll(d, MarkFree(sb, d, b), was, was + {BBlock(sb, b)}) && BBlock(sb, b) in Bitmaps(sb)
  {}

  /** The indirect block, if there is one. */
  function Indirect(ino: Inode): set<nat> {
    if ino.addrs[NDIRECT] == 0 then {} else {ino.addrs[NDIRECT]}
  }

  /** Writing into block bn of the file logs it, and no more than it, the bitmap and the indirect block; the blocks that the
      file had stay where they are. */
  ghost predicate ChunkLogs(sb: SuperBlock, d: Disk, ino: Inode, e: Disk, now: Inode, bn: nat, was: set<nat>, logged: set<nat>) {
    (forall k: nat :: Mapped(d, ino, k) ==> Mapped(e, now, k) && SlotOf(e, now, DataSlot(k)) == SlotOf(d, ino, DataSlot(k))) &&
    Indirect(ino) <= Indirect(now) && Mapped(e, now, bn) && SlotOf(e, now, DataSlot(bn)) in logged && was <= logged &&
    logged <= was + Bitmaps(sb) + Indirect(now) + {SlotOf(e, now, DataSlot(bn))}
  }

  lemma ChunkLogged(sb: SuperBlock, d: Disk, ino: Inode, f: Disk, now: Inode, e: Disk, bn: nat, was: set<nat>, had: set<nat>)
    requires Gains(d, ino, f, now, bn) && Indirect(ino) <= Indirect(now) && Mapped(f, now, bn) && |e| == |f| && was <= had
    requires forall t: nat :: t < SLOTS ==> SlotOf(e, now, t) == SlotOf(f, now, t)
    requires had <= was + Bitmaps(sb) + Indirect(now) + {SlotOf(f, now, DataSlot(bn))}
    ensures ChunkLogs(sb, d, ino, e, now, bn, was, had + {SlotOf(f, now, DataSlot(bn))})
  {
    hide SlotOf, Bitmaps;
  }

  /** The blocks of the file that hold its blocks from lo to hi - 1. */
  ghost function DataSet(d: Disk, ino: Inode, lo: nat, hi: nat): set<nat> {
    set k: nat | lo <= k < hi && Mapped(d, ino, k) :: SlotOf(d, ino, DataSlot(k)) as nat
  }

  /** How far the first tot bytes from off reach: the block after the last one they touch. */
  function Reach(off: nat, tot: nat): nat {
    if tot == 0 then off / BSIZE else (off + tot - 1) / BSIZE + 1
  }

  /** A write of the file's blocks lo to hi - 1 has logged them all, and besides only the bitmap, the indirect block and
      the block of the inode. */
  ghost predicate WriteLogs(sb: SuperBlock, d: Disk, ino: Inode, i: nat, lo: nat, hi: nat, was: set<nat>, now: set<nat>) {
    (forall k: nat :: lo <= k < hi ==> Mapped(d, ino, k) && SlotOf(d, ino, DataSlot(k)) in now) && was <= now &&
    now <= was + Bitmaps(sb) + Indirect(ino) + DataSet(d, ino, lo, hi) + {IBlock(sb, i)}
  }

  lemma WriteLogsStart(sb: SuperBlock, d: Disk, ino: Inode, i: nat, lo: nat, was: set<nat>)
    ensures WriteLogs(sb, d, ino, i, lo, lo, was, was)
  {}

  lemma WriteLogsStep(sb: SuperBlock, d: Disk, ino: Inode, e: Disk, now: Inode, i: nat, off: nat, tot: nat, m: nat, was: set<nat>,
                      mid: set<nat>, logged: set<nat>)
    requires WriteLogs(sb, d, ino, i, off / BSIZE, Reach(off, tot), was, mid) && ChunkLogs(sb, d, ino, e, now, (off + tot) / BSIZE, mid, logged)
    requires 0 < m && (off + tot) % BSIZE + m <= BSIZE
    ensures WriteLogs(sb, e, now, i, off / BSIZE, Reach(off, tot + m), was, logged)
  {
    hide SlotOf, Bitmaps;
    ReachNext(off, tot, m);
    var lo, hi, c := off / BSIZE, Reach(off, tot), (off + tot) / BSIZE;
    forall k: nat | lo <= k < c + 1 ensures Mapped(e, now, k) && SlotOf(e, now, DataSlot(k)) in logged {
      if k < hi { assert Mapped(d, ino, k); }
    }
    forall b | b in DataSet(d, ino, lo, hi) ensures b in DataSet(e, now, lo, c + 1) {
      var k: nat :| lo <= k < hi && Mapped(d, ino, k) && b == SlotOf(d, ino, DataSlot(k)) as nat;
      assert Mapped(e, now, k);
    }
    assert SlotOf(e, now, DataSlot(c)) as nat in DataSet(e, now, lo, c + 1);
  }

  /** Setting the size and iupdate. */
  lemma WriteLogsEnd(sb: SuperBlock, d: Disk, ino: Inode, now: Inode, i: nat, lo: nat, hi: nat, was: set<nat>, logged: set<nat>)
    requires WriteLogs(sb, d, ino, i, lo, hi, was, logged) && now.addrs == ino.addrs
    ensures WriteLogs(sb, d, now, i, lo, hi, was, logged + {IBlock(sb, i)})
  {
    hide Bitmaps;
    forall k: nat | lo <= k < hi ensures Mapped(d, now, k) && SlotOf(d, now, DataSlot(k)) == SlotOf(d, ino, DataSlot(k)) {
      assert Mapped(d, ino, k);
    }
    forall b | b in DataSet(d, ino, lo, hi) ensures b in DataSet(d, now, lo, hi) {
      var k: nat :| lo <= k < hi && Mapped(d, ino, k) && b == SlotOf(d, ino, DataSlot(k)) as nat;
      assert Mapped(d, now, k);
    }
  }

  lemma ReachNext(off: nat, tot: nat, m: nat)
    requires 0 < m && (off + tot) % BSIZE + m <= BSIZE
    ensures Reach(off, tot + m) == (off + tot) / BSIZE + 1
    ensures off / BSIZE <= (off + tot) / BSIZE <= Reach(off, tot) <= (off + tot) / BSIZE + 1
  {}

  // ----- how much an operation logs

  ghost function Span(lo: nat, n: nat): (r: set<nat>)
    ensures forall b: nat :: b in r <==> lo <= b < lo + n
    ensures |r| == n
  {
    if n == 0 then {} else Span(lo, n - 1) + {lo + n - 1}
  }

  /** How many blocks the bitmap takes. */
  function BitmapBlocks(sb: SuperBlock): nat {
    (sb.size + BPB - 1) / BPB
  }

  lemma BitmapsCount(sb: SuperBlock)
    ensures |Bitmaps(sb)| <= BitmapBlocks(sb)
  {
    var all := Span(sb.bmapstart, BitmapBlocks(sb));
    forall b: nat | b < sb.size ensures BBlock(sb, b) in all {}
    assert Bitmaps(sb) <= all;
    SubsetSize(Bitmaps(sb), all);
  }

  lemma SlotsApart(sb: SuperBlock, d: Disk, inodes: seq<Inode>, loose: set<nat>, i: nat, j: nat, k: nat)
    requires FsOk(sb, d, inodes, loose) && i < |inodes| && Mapped(d, inodes[i], j) && Mapped(d, inodes[i], k) && j != k
    ensures SlotOf(d, inodes[i], DataSlot(j)) != SlotOf(d, inodes[i], DataSlot(k))
  {
    hide Used;
    var b := SlotOf(d, inodes[i], DataSlot(j)) as nat;
    assert Refers(d, inodes[i], DataSlot(j), b) && !Refers(d, inodes[i], DataSlot(k), b);
  }

  /** No two blocks of a file are in the same place. */
  lemma {:induction false} DataSetCount(sb: SuperBlock, d: Disk, inodes: seq<Inode>, loose: set<nat>, i: nat, lo: nat, hi: nat)
    requires FsOk(sb, d, inodes, loose) && i < |inodes| && lo <= hi && forall k: nat :: lo <= k < hi ==> Mapped(d, inodes[i], k)
    ensures |DataSet(d, inodes[i], lo, hi)| == hi - lo
    decreases hi
  {
    hide SlotOf, FsOk, DataSet;
    if lo < hi {
      DataSetCount(sb, d, inodes, loose, i, lo, hi - 1);
      assert Mapped(d, inodes[i], hi - 1);
      forall k: nat | lo <= k < hi - 1 && Mapped(d, inodes[i], k)
        ensures SlotOf(d, inodes[i], DataSlot(k)) != SlotOf(d, inodes[i], DataSlot(hi - 1))
      {
        SlotsApart(sb, d, inodes, loose, i, k, hi - 1);
      }
      DataSetStep(d, inodes[i], lo, hi - 1);
    } else {
      NoData(d, inodes[i], lo);
    }
  }

  lemma NoData(d: Disk, ino: Inode, lo: nat)
    ensures DataSet(d, ino, lo, lo) == {}
  {}

  lemma DataSetStep(d: Disk, ino: Inode, lo: nat, hi: nat)
    requires lo <= hi && Mapped(d, ino, hi)
    requires forall k: nat :: lo <= k < hi && Mapped(d, ino, k) ==> SlotOf(d, ino, DataSlot(k)) != SlotOf(d, ino, DataSlot(hi))
    ensures |DataSet(d, ino, lo, hi + 1)| == |DataSet(d, ino, lo, hi)| + 1
  {
    hide SlotOf;
    var rest, last := DataSet(d, ino, lo, hi), SlotOf(d, ino, DataSlot(hi)) as nat;
    assert DataSet(d, ino, lo, hi + 1) == rest + {last};
    assert last !in rest;
  }

  /** A transaction that writes n bytes at off logs every block it touches, and at most the bitmap, an indirect block and
      the block of the inode besides. */
  ghost predicate OpLogs(sb: SuperBlock, off: nat, n: int, logged: set<nat>) {
    0 <= n && off / BSIZE <= Reach(off, n) && Reach(off, n) - off / BSIZE <= |logged| <= Reach(off, n) - off / BSIZE + BitmapBlocks(sb) + 2
  }

  lemma CountLogs(sb: SuperBlock, d: Disk, inodes: seq<Inode>, loose: set<nat>, i: nat, off: nat, n: nat, logged: set<nat>)
    requires FsOk(sb, d, inodes, loose) && i < |inodes| && WriteLogs(sb, d, inodes[i], i, off / BSIZE, Reach(off, n), {}, logged)
    ensures OpLogs(sb, off, n, logged)
  {
    hide FsOk, SlotOf, Bitmaps;
    var lo, hi := off / BSIZE, Reach(off, n);
    ReachAbove(off, n);
    DataSetCount(sb, d, inodes, loose, i, lo, hi);
    BitmapsCount(sb);
    var data := DataSet(d, inodes[i], lo, hi);
    forall b | b in data ensures b in logged {
      var k: nat :| lo <= k < hi && Mapped(d, inodes[i], k) && b == SlotOf(d, inodes[i], DataSlot(k)) as nat;
    }
    SubsetSize(data, logged);
    var most := {} + Bitmaps(sb) + Indirect(inodes[i]) + data + {IBlock(sb, i)};
    SubsetSize(logged, most);
  }

  lemma ReachAbove(off: nat, n: nat)
    ensures off / BSIZE <= Reach(off, n)
  {}

  const LOGSIZE: nat := 30
  const MAXOPBLOCKS: nat := 10

  /** The most that filewrite writes in one transaction. */
  const CHUNK: nat := (LOGSIZE - 1 - 1 - 2) / 2 * 512

  /** filewrite sizes its transactions by LOGSIZE, not by MAXOPBLOCKS: a full one logs more than MAXOPBLOCKS blocks. */
  lemma ChunkTooBig(sb: SuperBlock, off: nat, logged: set<nat>)
    requires OpLogs(sb, off, CHUNK, logged)
    ensures MAXOPBLOCKS < 13 <= |logged| <= 16 + BitmapBlocks(sb)
  {}

  /** As much as a transaction may write to be sure of MAXOPBLOCKS, where the bitmap is one block. */
  lemma SmallEnough(sb: SuperBlock, off: nat, n: nat, logged: set<nat>)
    requires OpLogs(sb, off, n, logged) && sb.size <= BPB && n <= 6 * BSIZE
    ensures |logged| <= MAXOPBLOCKS
  {}

  /** The sets ops are what the transactions of a filewrite of n bytes have logged. */
  ghost predicate OpsLog(sb: SuperBlock, off: nat, n: nat, ops: seq<set<nat>>) {
    forall k :: 0 <= k < |ops| ==> k * CHUNK < n && OpLogs(sb, off + k * CHUNK, Min(CHUNK, n - k * CHUNK), ops[k])
  }

  lemma OpsLogMore(sb: SuperBlock, off: nat, n: nat, ops: seq<set<nat>>, logged: set<nat>)
    requires OpsLog(sb, off, n, ops) && |ops| * CHUNK < n && OpLogs(sb, off + |ops| * CHUNK, Min(CHUNK, n - |ops| * CHUNK), logged)
    ensures OpsLog(sb, off, n, ops + [logged])
  {
    hide OpLogs;
  }

  /** The first done bytes of src have been written at off. */
  ghost predicate SoFar(d: Disk, ino: Inode, e: Disk, now: Inode, src: seq<Byte>, off: nat, done: nat) {
    done <= |src| && Readable(d, ino, ino.size) && Readable(e, now, now.size) &&
    if done == 0 then Content(e, now) == Content(d, ino)
    else off <= ino.size && Content(e, now) == Splice(Content(d, ino), off, src[..done])
  }

  lemma SoFarStart(d: Disk, ino: Inode, src: seq<Byte>, off: nat)
    requires Readable(d, ino, ino.size)
    ensures SoFar(d, ino, d, ino, src, off, 0)
  {}

  lemma NoOps(sb: SuperBlock, off: nat, n: nat)
    ensures OpsLog(sb, off, n, [])
  {}

  lemma SoFarSize(d: Disk, ino: Inode, e: Disk, now: Inode, src: seq<Byte>, off: nat, done: nat)
    requires SoFar(d, ino, e, now, src, off, done)
    ensures if done == 0 then now.size == ino.size else off + done <= now.size
  {
    assert |Content(e, now)| == now.size && |Content(d, ino)| == ino.size;
  }

  lemma SoFarMore(d: Disk, ino: Inode, e: Disk, was: Inode, f: Disk, now: Inode, src: seq<Byte>, off: nat, done: nat, n: nat)
    requires SoFar(d, ino, e, was, src, off, done) && 0 < n && done + n <= |src| && off + done <= was.size
    requires Readable(f, now, now.size) && Content(f, now) == Splice(Content(e, was), off + done, src[done..done + n])
    ensures SoFar(d, ino, f, now, src, off, done + n)
  {
    hide Mapped, ByteAt;
    SoFarSize(d, ino, e, was, src, off, done);
    SpliceMore(Content(d, ino), off, src, done, n);
    if done == 0 { assert src[0..0 + n] == src[..n]; }
  }

  lemma SpliceMore(c: seq<Byte>, off: nat, src: seq<Byte>, done: nat, n: nat)
    requires off <= |c| && done + n <= |src|
    ensures off + done <= |Splice(c, off, src[..done])|
    ensures Splice(Splice(c, off, src[..done]), off + done, src[done..done + n]) == Splice(c, off, src[..done + n])
  {}

  // ----- when the disk is full

  /** Mapping block bn finds too little room exactly when it takes more than there is; otherwise it takes what it needs. */
  ghost predicate Charges(sb: SuperBlock, d: Disk, ino: Inode, e: Disk, now: Inode, bn: nat, full: bool) {
    bn < MAXFILE && ino.addrs[NDIRECT] < |d| && (full <==> Room(sb, d) < Takes(d, ino, bn)) &&
    (!full ==> Fills(d, ino, e, now, bn) && Room(sb, d) == Room(sb, e) + Takes(d, ino, bn))
  }

  lemma GainsFill(d: Disk, ino: Inode, e: Disk, now: Inode, bn: nat)
    requires Gains(d, ino, e, now, bn) && SlotOf(e, now, DataSlot(bn)) != 0
    requires (bn < NDIRECT || ino.addrs[NDIRECT] != 0) ==> now.addrs[NDIRECT] == ino.addrs[NDIRECT]
    requires NDIRECT <= bn ==> now.addrs[NDIRECT] != 0
    ensures Fills(d, ino, e, now, bn)
  {
    hide GetWord, ZeroBlock;
  }

  lemma ChargesDirect(sb: SuperBlock, d: Disk, ino: Inode, e: Disk, now: Inode, bn: nat, full: bool)
    requires bn < NDIRECT && ino.addrs[NDIRECT] < |d| && (full <==> ino.addrs[bn] == 0 && Room(sb, d) == 0)
    requires !full ==> Fills(d, ino, e, now, bn) && Room(sb, d) == Room(sb, e) + if ino.addrs[bn] == 0 then 1 else 0
    ensures Charges(sb, d, ino, e, now, bn, full)
  {
    hide Room, Fills;
  }

  /** Without an indirect block, one is wanted besides the block itself. */
  lemma ChargesBoth(sb: SuperBlock, d: Disk, ino: Inode, bn: nat)
    requires NDIRECT <= bn < MAXFILE && ino.addrs[NDIRECT] == 0 && 0 < |d| && Room(sb, d) == 0
    ensures Charges(sb, d, ino, d, ino, bn, true)
  {
    hide Room, Fills;
  }

  lemma ChargesEntry(sb: SuperBlock, d: Disk, ino: Inode, e: Disk, mid: Inode, f: Disk, now: Inode, bn: nat, full: bool)
    requires NDIRECT <= bn < MAXFILE && ino.addrs[NDIRECT] < |d| && mid.addrs[NDIRECT] < |e|
    requires Room(sb, d) == Room(sb, e) + if ino.addrs[NDIRECT] == 0 then 1 else 0
    requires SlotOf(e, mid, DataSlot(bn)) == SlotOf(d, ino, DataSlot(bn))
    requires full <==> SlotOf(e, mid, DataSlot(bn)) == 0 && Room(sb, e) == 0
    requires !full ==> Fills(d, ino, f, now, bn) && Room(sb, e) == Room(sb, f) + if SlotOf(e, mid, DataSlot(bn)) == 0 then 1 else 0
    ensures Charges(sb, d, ino, f, now, bn, full)
  {
    hide Room, Fills, GetWord;
  }

  /** The bytes written into the block change neither slots nor room. */
  lemma ChargesPut(sb: SuperBlock, d: Disk, ino: Inode, f: Disk, now: Inode, bn: nat, b: nat, data: Block)
    requires Charges(sb, d, ino, f, now, bn, false) && SbOk(sb, |f|) && DataBlock(sb, b)
    requires forall t: nat :: t < SLOTS ==> now.addrs[NDIRECT] < |f| && SlotOf(f[b := data], now, t) == SlotOf(f, now, t)
    ensures Charges(sb, d, ino, f[b := data], now, bn, false)
  {
    hide SlotOf, Room;
    PutRoom(sb, f, b, data);
    forall k: nat | k < MAXFILE ensures SlotOf(f[b := data], now, DataSlot(k)) == SlotOf(f, now, DataSlot(k)) {}
  }

  lemma TakesWanted(d: Disk, ino: Inode, bn: nat, hi: nat)
    requires bn < hi <= MAXFILE && ino.addrs[NDIRECT] < |d|
    ensures Takes(d, ino, bn) <= Wanted(d, ino, bn, hi)
  {
    hide SlotOf;
  }

  /** The block a write goes on with is the one after those it has touched or, inside a block, the last of them. */
  lemma NextBlockOf(off: nat, tot: nat)
    ensures var c, bn := Reach(off, tot), (off + tot) / BSIZE;
            bn == c || (0 < tot && bn + 1 == c && (off + tot - 1) / BSIZE == bn)
  {}

  lemma ReachIn(off: nat, tot: nat)
    requires off + tot <= MAXFILE * BSIZE
    ensures off / BSIZE <= Reach(off, tot) <= MAXFILE
  {}

  lemma ReachThen(off: nat, done: nat, n: nat)
    ensures 0 < n ==> Reach(off + done, n) == Reach(off, done + n) && Reach(off, done) <= Reach(off, done + n)
    ensures 0 < n ==> (off + done) / BSIZE < Reach(off, done + n)
  {}

  /** Writing n bytes at off, from (d, ino) to (e, now), runs out of blocks exactly when it wants more than there are. */
  ghost predicate Affords(sb: SuperBlock, d: Disk, ino: Inode, e: Disk, now: Inode, off: nat, n: nat, r: Written) {
    off + n <= MAXFILE * BSIZE && ino.addrs[NDIRECT] < |d| && !r.Refused? && off / BSIZE <= Reach(off, n) <= MAXFILE &&
    (r.DiskFull? <==> Room(sb, d) < Wanted(d, ino, off / BSIZE, Reach(off, n))) &&
    (r.Wrote? ==> Accounts(sb, d, ino, off / BSIZE, e, now, Reach(off, n)))
  }

  /** One turn of writei's loop, with the account kept. */
  lemma ChunkAccounts(sb: SuperBlock, d: Disk, ino: Inode, e: Disk, was: Inode, f: Disk, now: Inode, off: nat, tot: nat, m: nat)
    requires Accounts(sb, d, ino, off / BSIZE, e, was, Reach(off, tot)) && Charges(sb, e, was, f, now, (off + tot) / BSIZE, false)
    requires 0 < tot ==> Mapped(e, was, (off + tot - 1) / BSIZE)
    requires 0 < m && (off + tot) % BSIZE + m <= BSIZE
    ensures Accounts(sb, d, ino, off / BSIZE, f, now, Reach(off, tot + m))
  {
    hide Wanted, Room, Fills, Takes, SlotOf, Accounts, Mapped;
    ReachNext(off, tot, m);
    NextBlockOf(off, tot);
    AccountsFill(sb, d, ino, off / BSIZE, e, was, Reach(off, tot), f, now, (off + tot) / BSIZE);
  }

  lemma ChunkFull(sb: SuperBlock, d: Disk, ino: Inode, e: Disk, was: Inode, f: Disk, now: Inode, off: nat, tot: nat, n: nat)
    requires Accounts(sb, d, ino, off / BSIZE, e, was, Reach(off, tot)) && Charges(sb, e, was, f, now, (off + tot) / BSIZE, true)
    requires (0 < tot ==> Mapped(e, was, (off + tot - 1) / BSIZE)) && tot < n && off + n <= MAXFILE * BSIZE
    ensures Affords(sb, d, ino, f, now, off, n, DiskFull)
  {
    hide Wanted, Room, SlotOf, Takes;
    var bn, c, hi := (off + tot) / BSIZE, Reach(off, tot), Reach(off, n);
    ReachIn(off, n);
    ReachThen(off, tot, n - tot);
    NextBlockOf(off, tot);
    if bn + 1 == c { MappedFree(e, was, bn, hi); }
    AccountsAt(sb, d, ino, off / BSIZE, e, was, c, hi);
    TakesWanted(e, was, bn, hi);
  }

  lemma WholeAccounts(sb: SuperBlock, d: Disk, ino: Inode, e: Disk, now: Inode, off: nat, n: nat)
    requires Accounts(sb, d, ino, off / BSIZE, e, now, Reach(off, n)) && off + n <= MAXFILE * BSIZE
    ensures Affords(sb, d, ino, e, now, off, n, Wrote)
  {
    hide Wanted, Room;
    ReachIn(off, n);
    AccountsRoom(sb, d, ino, off / BSIZE, e, now, Reach(off, n));
  }

  lemma AccountsSize(sb: SuperBlock, d: Disk, ino: Inode, lo: nat, e: Disk, now: Inode, c: nat, size: nat)
    requires Accounts(sb, d, ino, lo, e, now, c)
    ensures Accounts(sb, d, ino, lo, e, now.(size := size), c)
  {
    hide Room;
    forall hi: nat | c <= hi <= MAXFILE ensures Wanted(e, now.(size := size), c, hi) == Wanted(e, now, c, hi) {
      HolesSame(e, now, e, now.(size := size), c, hi);
    }
  }

  /** How much of a write of n bytes at off gets done before a transaction of filewrite would reach past the largest file. */
  function Fit(off: nat, n: nat): nat {
    if off + n <= MAXFILE * BSIZE then n else if MAXFILE * BSIZE < off then 0 else (MAXFILE * BSIZE - off) / CHUNK * CHUNK
  }

  /** A transaction is refused exactly at the end of what fits. */
  lemma FitStep(off: nat, n: nat, done: nat, k: nat)
    requires done == k * CHUNK < n && done <= Fit(off, n)
    ensures var n1 := Min(n - done, CHUNK);
            if off + done + n1 > MAXFILE * BSIZE then done == Fit(off, n) < n else done + n1 <= Fit(off, n)
  {
    assert CHUNK == 6656 && MAXFILE * BSIZE == 71680;
    if off + n > 71680 && off <= 71680 {
      WholeChunks(71680 - off, k);
    }
  }

  lemma WholeChunks(a: nat, k: nat)
    ensures k * 6656 <= a / 6656 * 6656 ==> k <= a / 6656
    ensures a / 6656 * 6656 <= a < (a / 6656 + 1) * 6656
    ensures k * 6656 <= a < (k + 1) * 6656 ==> k == a / 6656
    ensures (k + 1) * 6656 <= a ==> (k + 1) * 6656 <= a / 6656 * 6656
  {}

  lemma FitWhole(off: nat, n: nat)
    ensures Fit(off, n) <= n && (off <= MAXFILE * BSIZE ==> off + Fit(off, n) <= MAXFILE * BSIZE) && (Fit(off, n) == n ==> n == 0 || off + n <= MAXFILE * BSIZE)
  {}

  /** What filewrite answers: -1 for an offset past the end, the panic exactly when its transactions want more blocks than
      are free, and -1 otherwise if not all of it fits the largest file. What it has taken is what it wanted. */
  ghost predicate Outcome(sb: SuperBlock, d: Disk, ino: Inode, e: Disk, off: nat, n: nat, r: Written, done: nat) {
    if n == 0 || ino.size < off then done == 0 && r == (if n == 0 then Wrote else Refused)
    else
      var lo := off / BSIZE;
      ino.addrs[NDIRECT] < |d| && done <= Fit(off, n) <= n && lo <= Reach(off, done) <= Reach(off, Fit(off, n)) <= MAXFILE &&
      (r.DiskFull? <==> Room(sb, d) < Wanted(d, ino, lo, Reach(off, Fit(off, n)))) &&
      (r.DiskFull? ==>
        done < Fit(off, n) && lo <= Reach(off, Min(n, done + CHUNK)) <= MAXFILE &&
        Wanted(d, ino, lo, Reach(off, done)) <= Room(sb, d) < Wanted(d, ino, lo, Reach(off, Min(n, done + CHUNK)))) &&
      (!r.DiskFull? ==> done == Fit(off, n) && (r.Wrote? <==> done == n) && Room(sb, d) == Room(sb, e) + Wanted(d, ino, lo, Reach(off, done)))
  }

  /** What filewrite keeps from one transaction to the next. */
  ghost predicate Going(sb: SuperBlock, d: Disk, ino: Inode, e: Disk, now: Inode, off: nat, n: nat, done: nat) {
    done <= Fit(off, n) && Accounts(sb, d, ino, off / BSIZE, e, now, Reach(off, done)) &&
    (0 < done ==> off <= ino.size && Mapped(e, now, (off + done - 1) / BSIZE))
  }

  lemma GoingStart(sb: SuperBlock, d: Disk, ino: Inode, off: nat, n: nat)
    requires ino.addrs[NDIRECT] < |d|
    ensures Going(sb, d, ino, d, ino, off, n, 0)
  {
    hide Wanted, Room;
    AccountsStart(sb, d, ino, off / BSIZE);
  }

  lemma GoingOn(sb: SuperBlock, d: Disk, ino: Inode, e: Disk, was: Inode, f: Disk, now: Inode, off: nat, n: nat, done: nat, n1: nat)
    requires Going(sb, d, ino, e, was, off, n, done) && Affords(sb, e, was, f, now, off + done, n1, Wrote)
    requires 0 < n1 && done + n1 <= Fit(off, n) && off <= ino.size && Mapped(f, now, (off + done + n1 - 1) / BSIZE)
    ensures Going(sb, d, ino, f, now, off, n, done + n1)
  {
    hide Wanted, Room, SlotOf, Accounts, Mapped, Fit;
    var bn, c := (off + done) / BSIZE, Reach(off, done);
    ReachThen(off, done, n1);
    NextBlockOf(off, done);
    if bn + 1 == c { AccountsBack(sb, e, was, bn, f, now, Reach(off, done + n1)); }
    AccountsThen(sb, d, ino, off / BSIZE, e, was, c, f, now, Reach(off, done + n1));
  }

  lemma GoingFull(sb: SuperBlock, d: Disk, ino: Inode, e: Disk, was: Inode, f: Disk, now: Inode, off: nat, n: nat, done: nat, n1: nat)
    requires Going(sb, d, ino, e, was, off, n, done) && Affords(sb, e, was, f, now, off + done, n1, DiskFull)
    requires 0 < n1 == Min(n - done, CHUNK) && done + n1 <= Fit(off, n) && off <= ino.size <= MAXFILE * BSIZE
    ensures Outcome(sb, d, ino, f, off, n, DiskFull, done)
  {
    hide Wanted, Room, SlotOf, Fit, Accounts, Mapped, Reach;
    var c, h, hi := Reach(off, done), Reach(off, done + n1), Reach(off, Fit(off, n));
    FitWhole(off, n);
    ReachIn(off, Fit(off, n));
    ReachIn(off, done + n1);
    ReachThen(off, done, n1);
    ReachIn(off, done);
    if done + n1 < Fit(off, n) { ReachThen(off, done + n1, Fit(off, n) - (done + n1)); }
    StopsShort(sb, d, ino, e, was, off, done, n1);
    AccountsRoom(sb, d, ino, off / BSIZE, e, was, c);
    WantedGrows(d, ino, off / BSIZE, h, hi);
  }

  lemma StopsShort(sb: SuperBlock, d: Disk, ino: Inode, e: Disk, was: Inode, off: nat, done: nat, n1: nat)
    requires Accounts(sb, d, ino, off / BSIZE, e, was, Reach(off, done)) && (0 < done ==> Mapped(e, was, (off + done - 1) / BSIZE))
    requires 0 < n1 && off + done + n1 <= MAXFILE * BSIZE && was.addrs[NDIRECT] < |e|
    requires (off + done) / BSIZE <= Reach(off + done, n1) <= MAXFILE
    requires Room(sb, e) < Wanted(e, was, (off + done) / BSIZE, Reach(off + done, n1))
    ensures ino.addrs[NDIRECT] < |d| && off / BSIZE <= Reach(off, done + n1) <= MAXFILE
    ensures Room(sb, d) < Wanted(d, ino, off / BSIZE, Reach(off, done + n1))
  {
    hide Wanted, Room, SlotOf, Mapped;
    var bn, c, h := (off + done) / BSIZE, Reach(off, done), Reach(off, done + n1);
    ReachThen(off, done, n1);
    NextBlockOf(off, done);
    if bn + 1 == c { MappedFree(e, was, bn, h); }
    AccountsAt(sb, d, ino, off / BSIZE, e, was, c, h);
  }

  lemma GoingEnds(sb: SuperBlock, d: Disk, ino: Inode, e: Disk, now: Inode, off: nat, n: nat, done: nat)
    requires Going(sb, d, ino, e, now, off, n, done) && done == Fit(off, n) && 0 < n && off <= ino.size <= MAXFILE * BSIZE
    ensures Outcome(sb, d, ino, e, off, n, if done == n then Wrote else Refused, done)
  {
    hide Wanted, Room, SlotOf, Fit;
    FitWhole(off, n);
    ReachIn(off, done);
    AccountsRoom(sb, d, ino, off / BSIZE, e, now, Reach(off, done));
  }

  class FileSystem {
    const sb: SuperBlock
    const disk: array<Block>
    const inodes: array<Inode>         // in memory
    const dinodes: array<Inode>        // as last written by iupdate
    var logged: set<nat>               // the blocks given to log_write
    ghost var loose: set<nat>          // allocated, not yet in an inode

    ghost predicate Valid()
      reads this, disk, inodes
    {
      FsOk(sb, disk[..], inodes[..], loose)
    }

    constructor (s: SuperBlock, d: array<Block>, i: array<Inode>, di: array<Inode>)
      requires FsOk(s, d[..], i[..], {}) && i != di && di.Length == i.Length
      ensures Valid() && sb == s && disk == d && inodes == i && dinodes == di && loose == {} && logged == {}
    {
      sb, disk, inodes, dinodes, loose, logged := s, d, i, di, {}, {};
    }

    /** balloc: the first free block, marked in the bitmap and zeroed; panics exactly when none is free. */
    method Balloc() returns (r: Alloc)
      requires Valid()
      modifies this`loose, this`logged, disk
      ensures Valid()
      ensures r.OutOfBlocks? ==> disk[..] == old(disk[..]) && loose == old(loose)
      ensures r.OutOfBlocks? ==> AllUsed(sb, disk[..], sb.size)
      ensures r.Got? <==> 0 < Room(sb, old(disk[..]))
      ensures Room(sb, old(disk[..])) == Room(sb, disk[..]) + if r.Got? then 1 else 0
      ensures r.Got? ==> r.b < sb.size && BBlock(sb, r.b) < disk.Length && !Used(sb, old(disk[..]), r.b)
      ensures r.Got? ==> AllUsed(sb, old(disk[..]), r.b)
      ensures r.Got? ==> disk[..] == Allocated(sb, old(disk[..]), r.b) && loose == old(loose) + {r.b}
      ensures logged == if r.Got? then old(logged) + {BBlock(sb, r.b)} + {r.b} else old(logged)
    {
      hide FsOk, Used, Allocated, BitSet, SetBit, AllUsed, Room;
      ghost var d := disk[..];
      var b := 0;
      assert AllUsed(sb, d, 0) by { NoneUsed(sb, d); }
      while b < sb.size
        invariant b % BPB == 0 && disk[..] == d && loose == old(loose) && logged == old(logged)
        invariant AllUsed(sb, d, if b < sb.size then b else sb.size)
      {
        var bp := b / BPB + sb.bmapstart;
        var bi := 0;
        BitAt(sb, d, inodes[..], loose, b, 0);
        while bi < BPB && b + bi < sb.size
          invariant bi <= BPB && disk[..] == d && loose == old(loose) && logged == old(logged)
          invariant b + bi <= sb.size && AllUsed(sb, d, b + bi)
        {
          BitAt(sb, d, inodes[..], loose, b, bi);
          if !BitSet(disk[bp], bi) {
            AllocStep(sb, d, inodes[..], loose, b, bi);
            disk[bp] := SetBit(disk[bp], bi);
            logged := logged + {bp};
            disk[b + bi] := ZeroBlock();
            logged := logged + {b + bi};
            loose := loose + {b + bi};
            assert disk[..] == Allocated(sb, d, b + bi);
            return Got(b + bi);
          }
          OneMoreUsed(sb, d, b + bi);
          bi := bi + 1;
        }
        NextBlock(b);
        b := b + BPB;
      }
      NoneFree(sb, d);
      r := OutOfBlocks;
    }

    /** bfree: the "freeing free block" panic, which is ok == false, is not reached for an allocated block that no
        inode references. The inodes are those of view, since itrunc frees blocks of an inode it is taking apart. */
    method Bfree(b: nat, ghost view: seq<Inode>) returns (ok: bool)
      requires FsOk(sb, disk[..], view, loose) && b in loose
      modifies this`loose, this`logged, disk
      ensures FsOk(sb, disk[..], view, loose) && ok && loose == old(loose) - {b}
      ensures BBlock(sb, b) < sb.meta <= disk.Length && disk[..] == MarkFree(sb, old(disk[..]), b)
      ensures SameFiles(old(disk[..]), disk[..], view)
      ensures logged == old(logged) + {BBlock(sb, b)}
    {
      hide BitSet, AllInodesOk, Unique, Referenced, ClearBit;
      ghost var d := disk[..];
      FreeLoose(sb, d, view, loose, b);
      assert sb.bmapstart + b / BPB < sb.meta;
      var bp := BBlock(sb, b);
      var bi := b % BPB;
      if !BitSet(disk[bp], bi) {
        return false;
      }
      disk[bp] := ClearBit(disk[bp], bi);
      logged := logged + {bp};
      loose := loose - {b};
      ok := true;
      assert disk[..] == MarkFree(sb, d, b);
    }

    /** Address s of inode i, allocating its block if there is none. */
    method AllocAddr(i: nat, s: nat) returns (r: Alloc)
      requires Valid() && i < inodes.Length && s <= NDIRECT
      modifies this`loose, this`logged, disk, inodes
      ensures Valid() && loose == old(loose) && SameFiles(old(disk[..]), disk[..], old(inodes[..]))
      ensures r.OutOfBlocks? <==> old(inodes[i]).addrs[s] == 0 && Room(sb, old(disk[..])) == 0
      ensures Room(sb, old(disk[..])) == Room(sb, disk[..]) + if r.Got? && old(inodes[i]).addrs[s] == 0 then 1 else 0
      ensures old(inodes[i]).addrs[s] != 0 ==> r == Got(old(inodes[i]).addrs[s]) && disk[..] == old(disk[..]) && inodes[..] == old(inodes[..])
      ensures r.OutOfBlocks? ==> disk[..] == old(disk[..]) && inodes[..] == old(inodes[..]) && AllUsed(sb, disk[..], sb.size)
      ensures r.Got? ==> 0 < r.b < U32 && inodes[..] == old(inodes[..])[i := WithAddr(old(inodes[i]), s, r.b)]
      ensures r.Got? && old(inodes[i]).addrs[s] == 0 ==> r.b < disk.Length && disk[r.b] == ZeroBlock()
      ensures LogsAll(old(disk[..]), disk[..], old(logged), logged)
      ensures logged <= old(logged) + Bitmaps(sb) + if r.Got? && old(inodes[i]).addrs[s] == 0 then {r.b} else {}
      ensures old(inodes[i]).addrs[s] != 0 ==> logged == old(logged)
    {
      hide FsOk, AllUsed, Used, ZeroBlock, SameFile, LogsAll, Bitmaps, Allocated, Room;
      ghost var d := disk[..];
      ghost var was := inodes[..];
      NoChange(sb, d, was, loose);
      LogsNothing(d, logged);
      var addr := inodes[i].addrs[s];
      if addr == 0 {
        r := Balloc();
        if r.Got? {
          GotLoose(sb, d, was, old(loose), r.b);
          AllocLogs(sb, d, old(logged), r.b);
          AttachAddr(sb, disk[..], was, loose, i, s, r.b);
          inodes[i] := WithAddr(inodes[i], s, r.b);
          loose := loose - {r.b};
        }
      } else {
        r := Got(addr);
        assert WithAddr(was[i], s, addr) == was[i];
      }
    }

    /** Entry j of the indirect block of inode i, allocating its block if there is none. */
    method AllocEntry(i: nat, j: nat) returns (r: Alloc)
      requires Valid() && i < inodes.Length && j < NINDIRECT && 0 < inodes[i].addrs[NDIRECT] < disk.Length
      modifies this`loose, this`logged, disk
      ensures Valid() && loose == old(loose)
      ensures forall m :: 0 <= m < inodes.Length && m != i ==> SameFile(old(disk[..]), disk[..], inodes[m])
      ensures Gains(old(disk[..]), inodes[i], disk[..], inodes[i], NDIRECT + j)
      ensures r.OutOfBlocks? <==> SlotOf(old(disk[..]), inodes[i], NDIRECT + 1 + j) == 0 && Room(sb, old(disk[..])) == 0
      ensures Room(sb, old(disk[..])) ==
              Room(sb, disk[..]) + if r.Got? && SlotOf(old(disk[..]), inodes[i], NDIRECT + 1 + j) == 0 then 1 else 0
      ensures SlotOf(old(disk[..]), inodes[i], NDIRECT + 1 + j) != 0 ==> r.Got? && disk[..] == old(disk[..])
      ensures r.OutOfBlocks? ==> disk[..] == old(disk[..]) && AllUsed(sb, disk[..], sb.size)
      ensures r.Got? ==> r.b != 0 && r.b == SlotOf(disk[..], inodes[i], NDIRECT + 1 + j)
      ensures LogsAll(old(disk[..]), disk[..], old(logged), logged)
      ensures logged <= old(logged) + Bitmaps(sb) + Indirect(inodes[i]) + if r.Got? then {r.b} else {}
      ensures SlotOf(old(disk[..]), inodes[i], NDIRECT + 1 + j) != 0 ==> logged == old(logged)
    {
      hide FsOk, AllUsed, Used, ZeroBlock, SameFile, GetWord, SetWord, Gains, LogsAll, Bitmaps, Allocated, Room;
      ghost var d := disk[..];
      ghost var all := inodes[..];
      NoChange(sb, d, all, loose);
      LogsNothing(d, logged);
      var bp := inodes[i].addrs[NDIRECT];
      var addr := GetWord(disk[bp], j);
      GainsNothing(d, d, all[i], NDIRECT + j);
      if addr == 0 {
        r := Balloc();
        if r.Got? {
          GotLoose(sb, d, all, old(loose), r.b);
          AllocLogs(sb, d, old(logged), r.b);
          ghost var e := disk[..];
          EntryStep(sb, d, e, all, loose, i, j, r.b);
          IndirectData(sb, e, all, loose, i);
          PutRoom(sb, e, bp, SetWord(e[bp], j, r.b));
          disk[bp] := SetWord(disk[bp], j, r.b);
          ghost var mid := logged;
          PutLogs(e, mid, bp, SetWord(e[bp], j, r.b));
          logged := logged + {bp};
          loose := loose - {r.b};
          assert disk[..] == e[bp := SetWord(e[bp], j, r.b)];
          LogsThen(d, e, disk[..], old(logged), mid, logged);
        }
      } else {
        r := Got(addr);
      }
    }

    /** The nth block of a file; the "out of range" panic is reached exactly from MAXFILE on. */
    method Bmap(i: nat, bn: nat) returns (r: Mapping)
      requires Valid() && i < inodes.Length
      modifies this`loose, this`logged, disk, inodes
      ensures Valid() && loose == old(loose)
      ensures r.OutOfRange? <==> bn >= MAXFILE
      ensures r.OutOfRange? ==> disk[..] == old(disk[..]) && inodes[..] == old(inodes[..])
      ensures r.NoBlock? ==> AllUsed(sb, disk[..], sb.size)
      ensures bn < MAXFILE ==> Charges(sb, old(disk[..]), old(inodes[i]), disk[..], inodes[i], bn, r.NoBlock?)
      ensures r.At? ==> Mapped(disk[..], inodes[i], bn) && r.addr == SlotOf(disk[..], inodes[i], DataSlot(bn))
      ensures Mapped(old(disk[..]), old(inodes[i]), bn) ==> r.At? && disk[..] == old(disk[..]) && inodes[..] == old(inodes[..])
      ensures bn < MAXFILE ==> Gains(old(disk[..]), old(inodes[i]), disk[..], inodes[i], bn)
      ensures forall m :: 0 <= m < inodes.Length && m != i ==> inodes[m] == old(inodes[m]) && SameFile(old(disk[..]), disk[..], inodes[m])
      ensures LogsAll(old(disk[..]), disk[..], old(logged), logged)
      ensures logged <= old(logged) + Bitmaps(sb) + Indirect(inodes[i]) + if r.At? then {r.addr} else {}
      ensures Mapped(old(disk[..]), old(inodes[i]), bn) ==> logged == old(logged)
      ensures Indirect(old(inodes[i])) <= Indirect(inodes[i])
    {
      hide FsOk, AllUsed, ZeroBlock, GetWord, Gains, SameFile, LogsAll, Bitmaps, Room, Fills, Charges;
      ghost var d := disk[..];
      ghost var all := inodes[..];
      NoChange(sb, d, all, loose);
      LogsNothing(d, logged);
      if bn < NDIRECT {
        var a := AllocAddr(i, bn);
        if a.OutOfBlocks? {
          GainsNothing(d, d, all[i], bn);
          ChargesDirect(sb, d, all[i], d, all[i], bn, true);
          return NoBlock;
        }
        if all[i].addrs[bn] == 0 {
          GainsDirect(d, disk[..], all[i], bn, a.b);
        } else {
          GainsNothing(d, d, all[i], bn);
        }
        SlotInDisk(sb, disk[..], inodes[..], loose, i, DataSlot(bn));
        GainsFill(d, all[i], disk[..], inodes[i], bn);
        ChargesDirect(sb, d, all[i], disk[..], inodes[i], bn, false);
        return At(a.b);
      }
      var j := bn - NDIRECT;
      if j < NINDIRECT {
        var a := AllocAddr(i, NDIRECT);
        if a.OutOfBlocks? {
          GainsNothing(d, d, all[i], bn);
          ChargesBoth(sb, d, all[i], bn);
          return NoBlock;
        }
        ghost var e := disk[..];
        ghost var mid := inodes[..];
        ghost var had := logged;
        SlotInDisk(sb, e, mid, loose, i, NDIRECT);
        if all[i].addrs[NDIRECT] == 0 {
          GainsIndirect(d, e, all[i], bn, a.b);
          EntryZero(e, mid[i], j);
        } else {
          GainsNothing(d, d, all[i], bn);
        }
        assert Gains(d, all[i], e, mid[i], bn) && SlotOf(e, mid[i], DataSlot(bn)) == SlotOf(d, all[i], DataSlot(bn)) by {
          IndirectSlot(d, all[i], e, mid[i], bn);
        }
        var c := AllocEntry(i, j);
        GainsThen(d, all[i], e, mid[i], disk[..], inodes[i], bn);
        LogsThen(d, e, disk[..], old(logged), had, logged);
        forall m | 0 <= m < inodes.Length && m != i ensures SameFile(d, disk[..], inodes[m]) {
          SameFileTrans(d, e, disk[..], inodes[m]);
        }
        if c.OutOfBlocks? {
          ChargesEntry(sb, d, all[i], e, mid[i], disk[..], inodes[i], bn, true);
          return NoBlock;
        }
        SlotInDisk(sb, disk[..], inodes[..], loose, i, DataSlot(bn));
        GainsFill(d, all[i], disk[..], inodes[i], bn);
        ChargesEntry(sb, d, all[i], e, mid[i], disk[..], inodes[i], bn, false);
        return At(c.b);
      }
      r := OutOfRange;
    }

    /** readi of a file: the bytes from off, at most n and none past the end; -1, which is ok == false, for an offset past
        the end or a range that wraps around. Nothing is allocated. */
    method Readi(i: nat, off: Word, n: Word) returns (ok: bool, dst: seq<Byte>)
      requires Valid() && i < inodes.Length
      modifies this`loose, this`logged, disk, inodes
      ensures disk[..] == old(disk[..]) && inodes[..] == old(inodes[..]) && loose == old(loose) && logged == old(logged)
      ensures ok <==> off <= inodes[i].size && off + n < U32
      ensures ok ==> Readable(disk[..], inodes[i], inodes[i].size)
      ensures ok ==> dst == Content(disk[..], inodes[i])[off..Min(off + n, inodes[i].size)]
    {
      hide FsOk, AllUsed, ZeroBlock, Gains, SlotOf, Content, LogsAll, Bitmaps, Charges;
      ghost var d := disk[..];
      ghost var all := inodes[..];
      var size := inodes[i].size;
      if off > size || (off + n) % U32 < off {
        return false, [];
      }
      var count := if off + n > size then size - off else n;
      FileReadable(sb, d, all, loose, i);
      ghost var bytes := Content(d, all[i]);
      dst := [];
      var tot := 0;
      var at: nat := off;
      while tot < count
        invariant tot <= count && at == off + tot
        invariant Valid() && disk[..] == d && inodes[..] == all && loose == old(loose) && logged == old(logged)
        invariant dst == bytes[off..off + tot]
      {
        var r := Bmap(i, at / BSIZE);
        assert r.At?;
        var m := Min(count - tot, BSIZE - at % BSIZE);
        BlockBytes(d, all[i], at, m);
        dst := dst + disk[r.addr][at % BSIZE..at % BSIZE + m];
        tot, at := tot + m, at + m;
      }
      ok := true;
    }

    /** One turn of writei's loop: the bytes of src from tot on that fall in one block. */
    method WriteChunk(i: nat, src: seq<Byte>, off: nat, tot: nat, ghost d: Disk, ghost ino: Inode) returns (full: bool, m: nat)
      requires Valid() && i < inodes.Length && tot < |src| && off + |src| <= MAXFILE * BSIZE
      requires Partial(d, ino, disk[..], inodes[i], src, off, tot)
      modifies this`loose, this`logged, disk, inodes
      ensures Valid() && loose == old(loose)
      ensures full ==> AllUsed(sb, disk[..], sb.size)
      ensures Charges(sb, old(disk[..]), old(inodes[i]), disk[..], inodes[i], (off + tot) / BSIZE, full)
      ensures !full ==> 0 < m <= |src| - tot && (off + tot) % BSIZE + m <= BSIZE && Partial(d, ino, disk[..], inodes[i], src, off, tot + m)
      ensures off + tot < ino.size ==> !full && inodes[i] == old(inodes[i])
      ensures forall k :: 0 <= k < inodes.Length && k != i ==> inodes[k] == old(inodes[k])
      ensures OthersSame(old(disk[..]), disk[..], old(inodes[..]), i)
      ensures LogsAll(old(disk[..]), disk[..], old(logged), logged)
      ensures !full ==> ChunkLogs(sb, old(disk[..]), old(inodes[i]), disk[..], inodes[i], (off + tot) / BSIZE, old(logged), logged)
    {
      hide FsOk, AllUsed, SameFile, SlotOf, OthersSame, Partial, Gains, LogsAll, Bitmaps, ChunkLogs, Charges;
      ghost var e := disk[..];
      ghost var all := inodes[..];
      m := 0;
      var addr := Bmap(i, (off + tot) / BSIZE);
      PartialGains(d, ino, e, all[i], disk[..], inodes[i], src, off, tot);
      OthersUnfold(e, disk[..], all, i);
      if addr.NoBlock? {
        return true, 0;
      }
      m := Min(|src| - tot, BSIZE - (off + tot) % BSIZE);
      ghost var f := disk[..];
      WriteData(sb, f, inodes[..], loose, i, DataSlot((off + tot) / BSIZE), PutBytes(f[addr.addr], (off + tot) % BSIZE, src[tot..tot + m]));
      disk[addr.addr] := PutBytes(disk[addr.addr], (off + tot) % BSIZE, src[tot..tot + m]);
      ChargesWrite(sb, e, all[i], f, inodes[..], loose, i, (off + tot) / BSIZE, PutBytes(f[addr.addr], (off + tot) % BSIZE, src[tot..tot + m]));
      ghost var had := logged;
      logged := logged + {addr.addr};
      assert disk[..] == f[addr.addr := PutBytes(f[addr.addr], (off + tot) % BSIZE, src[tot..tot + m])];
      PutLogs(f, had, addr.addr, disk[addr.addr]);
      LogsThen(e, f, disk[..], old(logged), had, logged);
      LogsGrow(e, f, old(logged), had);
      ChunkLogged(sb, e, all[i], f, inodes[i], disk[..], (off + tot) / BSIZE, old(logged), had);
      PartialPut(d, ino, f, disk[..], inodes[i], src, off, tot, m);
      OthersStep(e, f, disk[..], all, i);
      full := false;
    }

    /** writei to a file, of all of src or, when the disk fills up (a panic), of some of it. The -1 cases are an offset past
        the end, a range that wraps around and a range past the largest file. */
    method Writei(i: nat, src: seq<Byte>, off: Word) returns (r: Written)
      requires Valid() && i < inodes.Length == dinodes.Length && dinodes != inodes && |src| < U32
      modifies this`loose, this`logged, disk, inodes, dinodes
      ensures Valid() && loose == old(loose)
      ensures r.Refused? <==> off > old(inodes[i]).size || off + |src| >= U32 || off + |src| > MAXFILE * BSIZE
      ensures r.Refused? ==> disk[..] == old(disk[..]) && inodes[..] == old(inodes[..]) && dinodes[..] == old(dinodes[..])
      ensures !r.Refused? ==> Affords(sb, old(disk[..]), old(inodes[i]), disk[..], inodes[i], off, |src|, r)
      ensures r.DiskFull? ==> AllUsed(sb, disk[..], sb.size) && off + |src| > old(inodes[i]).size
      ensures forall m :: 0 <= m < inodes.Length && m != i ==> inodes[m] == old(inodes[m]) && dinodes[m] == old(dinodes[m])
      ensures OthersSame(old(disk[..]), disk[..], old(inodes[..]), i)
      ensures r.Wrote? ==> Readable(old(disk[..]), old(inodes[i]), old(inodes[i]).size) && Readable(disk[..], inodes[i], inodes[i].size)
      ensures r.Wrote? ==> Content(disk[..], inodes[i]) == Splice(Content(old(disk[..]), old(inodes[i])), off, src)
      ensures r.Wrote? && old(dinodes[i] == inodes[i]) ==> dinodes[i] == inodes[i]
      ensures LogsAll(old(disk[..]), disk[..], old(logged), logged)
      ensures r.Wrote? ==> WriteLogs(sb, disk[..], inodes[i], i, off / BSIZE, Reach(off, |src|), old(logged), logged)
      ensures dinodes[i] != old(dinodes[i]) ==> IBlock(sb, i) in logged
    {
      hide FsOk, AllUsed, SameFile, SlotOf, Content, OthersSame, Partial, Readable, LogsAll, WriteLogs, ChunkLogs,
        Charges, Accounts, Affords;
      LogsNothing(disk[..], logged);
      WriteLogsStart(sb, disk[..], inodes[i], i, off / BSIZE, logged);
      ghost var d := disk[..];
      ghost var all := inodes[..];
      NoChange(sb, d, all, loose);
      OthersUnfold(d, d, all, i);
      var n := |src|;
      if off > inodes[i].size || (off + n) % U32 < off {
        return Refused;
      }
      if off + n > MAXFILE * BSIZE {
        return Refused;
      }
      FileReadable(sb, d, all, loose, i);
      PartialStart(d, all, i, src, off);
      AddrsInDisk(sb, d, all, loose, i);
      AccountsStart(sb, d, all[i], off / BSIZE);
      var tot := 0;
      var at: nat := off;
      while tot < n
        invariant tot <= n && at == off + tot && Valid() && loose == old(loose)
        invariant Partial(d, all[i], disk[..], inodes[i], src, off, tot)
        invariant forall k :: 0 <= k < |all| && k != i ==> inodes[k] == all[k]
        invariant OthersSame(d, disk[..], all, i) && dinodes[..] == old(dinodes[..])
        invariant dinodes[i] == all[i] && at <= all[i].size ==> dinodes[i] == inodes[i]
        invariant LogsAll(d, disk[..], old(logged), logged)
        invariant WriteLogs(sb, disk[..], inodes[i], i, off / BSIZE, Reach(off, tot), old(logged), logged)
        invariant Accounts(sb, d, all[i], off / BSIZE, disk[..], inodes[i], Reach(off, tot))
      {
        PartialMapped(d, all[i], disk[..], inodes[i], src, off, tot);
        ghost var e := disk[..];
        ghost var now := inodes[..];
        ghost var had := logged;
        var full, m := WriteChunk(i, src, off, tot, d, all[i]);
        OthersSameStep(d, e, disk[..], all, now, i);
        LogsThen(d, e, disk[..], old(logged), had, logged);
        if full {
          ChunkFull(sb, d, all[i], e, now[i], disk[..], inodes[i], off, tot, n);
          return DiskFull;
        }
        WriteLogsStep(sb, e, now[i], disk[..], inodes[i], i, off, tot, m, old(logged), had, logged);
        ChunkAccounts(sb, d, all[i], e, now[i], disk[..], inodes[i], off, tot, m);
        tot, at := tot + m, at + m;
      }
      PartialDone(sb, d, all[i], disk[..], inodes[..], loose, i, src, off);
      if n > 0 && at > inodes[i].size {
        WriteLogsEnd(sb, disk[..], inodes[i], inodes[i].(size := at), i, off / BSIZE, Reach(off, n), old(logged), logged);
        LogsMore(d, disk[..], old(logged), logged, IBlock(sb, i));
        AccountsSize(sb, d, all[i], off / BSIZE, disk[..], inodes[i], Reach(off, n), at);
        inodes[i] := inodes[i].(size := at);
        Iupdate(i);
      }
      WholeAccounts(sb, d, all[i], disk[..], inodes[i], off, n);
      r := Wrote;
    }

    /** One transaction of filewrite. */
    method WriteTransaction(i: nat, src: seq<Byte>, off: Word, done: nat, ghost d: Disk, ghost ino: Inode) returns (r: Written, n1: nat)
      requires Valid() && i < inodes.Length == dinodes.Length && dinodes != inodes && done < |src| < 0x8000_0000
      requires SoFar(d, ino, disk[..], inodes[i], src, off, done)
      modifies this`loose, this`logged, disk, inodes, dinodes
      ensures Valid() && loose == old(loose) && n1 == Min(|src| - done, CHUNK)
      ensures r.Refused? <==> (done == 0 && off > ino.size) || off + done + n1 > MAXFILE * BSIZE
      ensures !r.Refused? ==> Affords(sb, old(disk[..]), old(inodes[i]), disk[..], inodes[i], off + done, n1, r)
      ensures r.Refused? ==> disk[..] == old(disk[..]) && inodes[..] == old(inodes[..]) && dinodes[..] == old(dinodes[..])
      ensures r.DiskFull? ==> AllUsed(sb, disk[..], sb.size)
      ensures r.Wrote? ==> SoFar(d, ino, disk[..], inodes[i], src, off, done + n1) && OpLogs(sb, off + done, n1, logged)
      ensures OthersSame(old(disk[..]), disk[..], old(inodes[..]), i)
      ensures forall m :: 0 <= m < inodes.Length && m != i ==> inodes[m] == old(inodes[m])
    {
      hide FsOk, SameFile, SlotOf, Content, OthersSame, Readable, LogsAll, WriteLogs, AllUsed, OpLogs, SoFar, Splice, Affords;
      ghost var e := disk[..];
      ghost var was := inodes[i];
      FileReadable(sb, e, inodes[..], loose, i);
      SoFarSize(d, ino, e, was, src, off, done);
      n1 := Min(|src| - done, CHUNK);
      logged := {};
      r := Writei(i, src[done..done + n1], off + done);
      if r.Wrote? {
        SoFarMore(d, ino, e, was, disk[..], inodes[i], src, off, done, n1);
        CountLogs(sb, disk[..], inodes[..], loose, i, off + done, n1, logged);
      }
    }

    /** filewrite to a file that is not a pipe: the bytes go in transactions of CHUNK bytes, of which done have been written
        when it returns. It panics, which is DiskFull, when a block is wanted and none is free. The sets ops are the blocks
        that each completed transaction has logged. */
    method Filewrite(i: nat, src: seq<Byte>, off: Word) returns (r: Written, done: nat, ghost ops: seq<set<nat>>)
      requires Valid() && i < inodes.Length == dinodes.Length && dinodes != inodes && |src| < 0x8000_0000
      modifies this`loose, this`logged, disk, inodes, dinodes
      ensures Valid() && loose == old(loose) && done == Min(|src|, |ops| * CHUNK)
      ensures r.Wrote? <==> done == |src|
      ensures Outcome(sb, old(disk[..]), old(inodes[i]), disk[..], off, |src|, r, done)
      ensures r.DiskFull? ==> AllUsed(sb, disk[..], sb.size)
      ensures OthersSame(old(disk[..]), disk[..], old(inodes[..]), i)
      ensures !r.DiskFull? ==> SoFar(old(disk[..]), old(inodes[i]), disk[..], inodes[i], src, off, done)
      ensures OpsLog(sb, off, |src|, ops)
    {
      hide FsOk, SameFile, SlotOf, Content, OthersSame, Readable, LogsAll, WriteLogs, AllUsed, OpLogs, OpsLog, SoFar, Splice,
        Affords, Going, Outcome, Fit;
      ghost var d := disk[..];
      ghost var all := inodes[..];
      NoChange(sb, d, all, loose);
      OthersUnfold(d, d, all, i);
      FileReadable(sb, d, all, loose, i);
      SoFarStart(d, all[i], src, off);
      AddrsInDisk(sb, d, all, loose, i);
      GoingStart(sb, d, all[i], off, |src|);
      ops := [];
      NoOps(sb, off, |src|);
      done := 0;
      while done < |src|
        invariant Valid() && loose == old(loose) && done == Min(|src|, |ops| * CHUNK)
        invariant OthersSame(d, disk[..], all, i)
        invariant forall m :: 0 <= m < |all| && m != i ==> inodes[m] == all[m]
        invariant SoFar(d, all[i], disk[..], inodes[i], src, off, done)
        invariant OpsLog(sb, off, |src|, ops)
        invariant Going(sb, d, all[i], disk[..], inodes[i], off, |src|, done) && (0 < done ==> off <= all[i].size)
        decreases |src| - done
      {
        ghost var e := disk[..];
        ghost var now := inodes[..];
        var w, n1 := WriteTransaction(i, src, off, done, d, all[i]);
        OthersSameStep(d, e, disk[..], all, now, i);
        GoesOn(sb, d, all[i], e, now[i], disk[..], inodes[i], src, off, |ops|, done, n1, w);
        if !w.Wrote? {
          return w, done, ops;
        }
        OpsLogMore(sb, off, |src|, ops, logged);
        ops := ops + [logged];
        done := done + n1;
      }
      WroteAll(sb, d, all[i], disk[..], inodes[i], off, |src|);
      r := Wrote;
    }

    /** The disk's copy of an inode becomes the one in memory. */
    method Iupdate(i: nat)
      requires i < inodes.Length == dinodes.Length && dinodes != inodes
      modifies this`logged, dinodes
      ensures dinodes[..] == old(dinodes[..])[i := inodes[i]]
      ensures logged == old(logged) + {IBlock(sb, i)}
    {
      dinodes[i] := inodes[i];
      logged := logged + {IBlock(sb, i)};
    }

    /** One step of itrunc's first loop: direct block k is freed and its address cleared. */
    method FreeDirect(i: nat, k: nat, ghost view: seq<Inode>)
      requires FsOk(sb, disk[..], view, loose) && i < inodes.Length == |view| && k < NDIRECT
      requires view[i].size == 0 && view[i].addrs == inodes[i].addrs
      modifies this`loose, this`logged, disk, inodes
      ensures FsOk(sb, disk[..], view[i := WithAddr(view[i], k, 0)], loose) && loose == old(loose)
      ensures inodes[..] == old(inodes[..])[i := WithAddr(old(inodes[i]), k, 0)]
      ensures forall m :: 0 <= m < |view| && m != i ==> SameFile(old(disk[..]), disk[..], view[m])
      ensures LogsAll(old(disk[..]), disk[..], old(logged), logged) && logged <= old(logged) + Bitmaps(sb)
    {
      hide FsOk, SameFile, MarkFree, LogsAll, Bitmaps;
      ghost var d := disk[..];
      LogsNothing(d, logged);
      NoChange(sb, d, view, loose);
      var addr := inodes[i].addrs[k];
      assert WithAddr(inodes[i], k, addr) == inodes[i] && view[i := WithAddr(view[i], k, addr)] == view;
      if addr != 0 {
        DirectFreed(sb, d, view, loose, i, k);
        ghost var now := view[i := WithAddr(view[i], k, 0)];
        loose := loose + {addr};
        FreedLogs(sb, d, now, loose, addr, logged);
        var ok := Bfree(addr, now);
        assert ok;
        inodes[i] := WithAddr(inodes[i], k, 0);
        forall m | 0 <= m < |view| && m != i ensures SameFile(d, disk[..], view[m]) {
          assert now[m] == view[m];
        }
      }
    }

    /** The rest of itrunc: the entries of the indirect block and the block itself. */
    method FreeIndirect(i: nat, ghost view: seq<Inode>)
      requires FsOk(sb, disk[..], view, loose) && i < inodes.Length == |view|
      requires view[i].size == 0 && view[i].addrs == inodes[i].addrs
      modifies this`loose, this`logged, disk, inodes
      ensures FsOk(sb, disk[..], view[i := WithAddr(view[i], NDIRECT, 0)], loose) && loose == old(loose)
      ensures inodes[..] == old(inodes[..])[i := WithAddr(old(inodes[i]), NDIRECT, 0)]
      ensures forall m :: 0 <= m < |view| && m != i ==> SameFile(old(disk[..]), disk[..], view[m])
      ensures LogsAll(old(disk[..]), disk[..], old(logged), logged) && logged <= old(logged) + Bitmaps(sb)
    {
      hide FsOk, SameFile, GetWord, MarkFree, EntriesFrom, LogsAll, Bitmaps;
      ghost var d := disk[..];
      LogsNothing(d, logged);
      NoChange(sb, d, view, loose);
      var bp := inodes[i].addrs[NDIRECT];
      assert WithAddr(inodes[i], NDIRECT, bp) == inodes[i] && view[i := WithAddr(view[i], NDIRECT, bp)] == view;
      if bp != 0 {
        ghost var now := view[i := WithAddr(view[i], NDIRECT, 0)];
        ghost var data := IndirectFreed(sb, d, view, loose, i);
        loose := loose + ({bp} + EntriesFrom(data, 0));
        var j := 0;
        while j < NINDIRECT
          invariant j <= NINDIRECT && FsOk(sb, disk[..], now, loose) && disk[bp] == data && inodes[..] == old(inodes[..])
          invariant loose == old(loose) + ({bp} + EntriesFrom(data, j))
          invariant forall m :: 0 <= m < |view| && m != i ==> SameFile(d, disk[..], view[m])
          invariant LogsAll(d, disk[..], old(logged), logged) && logged <= old(logged) + Bitmaps(sb)
        {
          ghost var e := disk[..];
          ghost var had := logged;
          NextEntry(sb, d, view, old(loose), i, j);
          if GetWord(disk[bp], j) != 0 {
            FreedLogs(sb, e, now, loose, GetWord(disk[bp], j), logged);
            var ok := Bfree(GetWord(disk[bp], j), now);
            assert ok;
            LogsThen(d, e, disk[..], old(logged), had, logged);
            NotBitmap(sb, e, GetWord(data, j), bp);
            forall m | 0 <= m < |view| && m != i ensures SameFile(d, disk[..], view[m]) {
              assert now[m] == view[m];
              SameFileTrans(d, e, disk[..], view[m]);
            }
          }
          j := j + 1;
        }
        ghost var e := disk[..];
        ghost var had := logged;
        NoEntries(data);
        FreedLogs(sb, e, now, loose, bp, logged);
        var ok := Bfree(bp, now);
        assert ok;
        LogsThen(d, e, disk[..], old(logged), had, logged);
        inodes[i] := WithAddr(inodes[i], NDIRECT, 0);
        forall m | 0 <= m < |view| && m != i ensures SameFile(d, disk[..], view[m]) {
          assert now[m] == view[m];
          SameFileTrans(d, e, disk[..], view[m]);
        }
      }
    }

    /** itrunc: the file becomes empty, exactly its blocks are freed, and no other file changes. */
    method Itrunc(i: nat)
      requires Valid() && i < inodes.Length == dinodes.Length && dinodes != inodes
      modifies this`loose, this`logged, disk, inodes, dinodes
      ensures Valid() && loose == old(loose)
      ensures inodes[..] == old(inodes[..])[i := Inode(0, NoAddrs())] && dinodes[..] == old(dinodes[..])[i := Inode(0, NoAddrs())]
      ensures OthersSame(old(disk[..]), disk[..], old(inodes[..]), i)
      ensures Freed(sb, old(disk[..]), disk[..], old(inodes[i]))
      ensures LogsAll(old(disk[..]), disk[..], old(logged), logged)
      ensures IBlock(sb, i) in logged && logged <= old(logged) + Bitmaps(sb) + {IBlock(sb, i)}
    {
      hide FsOk, SameFile, OthersSame, Freed, Emptying, LogsAll, Bitmaps;
      ghost var d := disk[..];
      LogsNothing(d, logged);
      ghost var all := inodes[..];
      NoChange(sb, d, all, loose);
      Resize(sb, d, all, loose, i, 0);
      StartEmptying(d, all, i);
      var k := 0;
      while k < NDIRECT
        invariant k <= NDIRECT && FsOk(sb, disk[..], Emptying(all, i, 0, k), loose) && loose == old(loose)
        invariant inodes[..] == Emptying(all, i, all[i].size, k)
        invariant OthersSame(d, disk[..], all, i) && dinodes[..] == old(dinodes[..])
        invariant LogsAll(d, disk[..], old(logged), logged) && logged <= old(logged) + Bitmaps(sb)
      {
        ghost var e := disk[..];
        ghost var had := logged;
        NextEmptying(all, i, k);
        FreeDirect(i, k, Emptying(all, i, 0, k));
        OthersSameTrans(d, e, disk[..], all, i, k);
        LogsThen(d, e, disk[..], old(logged), had, logged);
        k := k + 1;
      }
      ghost var e := disk[..];
      ghost var had := logged;
      NextEmptying(all, i, NDIRECT);
      FreeIndirect(i, Emptying(all, i, 0, NDIRECT));
      OthersSameTrans(d, e, disk[..], all, i, NDIRECT);
      LogsThen(d, e, disk[..], old(logged), had, logged);
      LogsMore(d, disk[..], old(logged), logged, IBlock(sb, i));
      inodes[i] := inodes[i].(size := 0);
      LastEmptying(all, i);
      assert inodes[..] == all[i := Inode(0, NoAddrs())];
      Iupdate(i);
      FreedExactly(sb, d, all, loose, disk[..], i);
    }
  }

  /** The inodes when the first k addresses of inode i are cleared and its size is n. */
  ghost function Emptying(all: seq<Inode>, i: nat, n: nat, k: nat): (r: seq<Inode>)
    requires i < |all| && k <= NDIRECT + 1
    ensures |r| == |all|
  {
    all[i := Inode(n, NoAddrs()[..k] + all[i].addrs[k..])]
  }

  ghost predicate OthersSame(d: Disk, e: Disk, all: seq<Inode>, i: nat) {
    forall m :: 0 <= m < |all| && m != i ==> SameFile(d, e, all[m])
  }

  lemma StartEmptying(d: Disk, all: seq<Inode>, i: nat)
    requires i < |all| && SameFiles(d, d, all)
    ensures OthersSame(d, d, all, i) && Emptying(all, i, all[i].size, 0) == all && Emptying(all, i, 0, 0) == all[i := all[i].(size := 0)]
  {
    assert NoAddrs()[..0] + all[i].addrs[0..] == all[i].addrs;
  }

  lemma NextEmptying(all: seq<Inode>, i: nat, k: nat)
    requires i < |all| && k <= NDIRECT
    ensures Emptying(all, i, 0, k)[i].size == 0 && Emptying(all, i, 0, k)[i].addrs == Emptying(all, i, all[i].size, k)[i].addrs
    ensures forall n: nat :: Emptying(all, i, n, k + 1) == Emptying(all, i, n, k)[i := WithAddr(Emptying(all, i, n, k)[i], k, 0)]
  {
    var a := all[i].addrs;
    assert NoAddrs()[..k + 1] + a[k + 1..] == (NoAddrs()[..k] + a[k..])[k := 0];
  }

  lemma LastEmptying(all: seq<Inode>, i: nat)
    requires i < |all|
    ensures Emptying(all, i, 0, NDIRECT + 1) == all[i := Inode(0, NoAddrs())]
    ensures Emptying(all, i, all[i].size, NDIRECT + 1) == all[i := Inode(all[i].size, NoAddrs())]
  {
    assert NoAddrs()[..NDIRECT + 1] + all[i].addrs[NDIRECT + 1..] == NoAddrs();
  }

  lemma OthersSameTrans(d: Disk, e: Disk, f: Disk, all: seq<Inode>, i: nat, k: nat)
    requires i < |all| && k <= NDIRECT + 1 && OthersSame(d, e, all, i)
    requires forall m :: 0 <= m < |all| && m != i ==> SameFile(e, f, Emptying(all, i, 0, k)[m])
    ensures OthersSame(d, f, all, i)
  {
    hide SameFile;
    forall m | 0 <= m < |all| && m != i ensures SameFile(d, f, all[m]) {
      assert Emptying(all, i, 0, k)[m] == all[m];
      SameFileTrans(d, e, f, all[m]);
    }
  }

  lemma AddrsInDisk(sb: SuperBlock, d: Disk, inodes: seq<Inode>, loose: set<nat>, i: nat)
    requires FsOk(sb, d, inodes, loose) && i < |inodes|
    ensures inodes[i].addrs[NDIRECT] < |d| && inodes[i].size <= MAXFILE * BSIZE && SbOk(sb, |d|)
  {
    hide Used, SlotOf;
    assert InodeOk(sb, d, inodes[i]);
  }

  lemma IndirectData(sb: SuperBlock, d: Disk, inodes: seq<Inode>, loose: set<nat>, i: nat)
    requires FsOk(sb, d, inodes, loose) && i < |inodes| && inodes[i].addrs[NDIRECT] != 0
    ensures DataBlock(sb, inodes[i].addrs[NDIRECT]) && SbOk(sb, |d|)
  {
    hide Used;
    assert InodeOk(sb, d, inodes[i]);
    assert SlotOf(d, inodes[i], NDIRECT) == inodes[i].addrs[NDIRECT];
  }

  /** The bytes of a write go to a data block that no slot of the inode is read from. */
  lemma ChargesWrite(sb: SuperBlock, d: Disk, ino: Inode, f: Disk, inodes: seq<Inode>, loose: set<nat>, i: nat, bn: nat, data: Block)
    requires FsOk(sb, f, inodes, loose) && i < |inodes| && Mapped(f, inodes[i], bn)
    requires Charges(sb, d, ino, f, inodes[i], bn, false)
    ensures Charges(sb, d, ino, f[SlotOf(f, inodes[i], DataSlot(bn)) := data], inodes[i], bn, false)
  {
    hide Used, GetWord, Charges, BitmapOk;
    assert InodeOk(sb, f, inodes[i]);
    var b := SlotOf(f, inodes[i], DataSlot(bn));
    assert Refers(f, inodes[i], DataSlot(bn), b);
    assert !Refers(f, inodes[i], NDIRECT, b);
    ChargesPut(sb, d, ino, f, inodes[i], bn, b, data);
  }

  lemma PartialMapped(d: Disk, ino: Inode, e: Disk, now: Inode, src: seq<Byte>, off: nat, tot: nat)
    requires Partial(d, ino, e, now, src, off, tot)
    ensures 0 < tot ==> Mapped(e, now, (off + tot - 1) / BSIZE)
  {
    hide Mapped, ByteAt;
  }

  /** One transaction of filewrite, with the account kept. */
  lemma GoesOn(sb: SuperBlock, d: Disk, ino: Inode, e: Disk, was: Inode, f: Disk, now: Inode, src: seq<Byte>, off: nat, k: nat, done: nat, n1: nat, w: Written)
    requires Going(sb, d, ino, e, was, off, |src|, done) && done == k * CHUNK < |src| && n1 == Min(|src| - done, CHUNK)
    requires w.Refused? <==> (done == 0 && off > ino.size) || off + done + n1 > MAXFILE * BSIZE
    requires !w.Refused? ==> Affords(sb, e, was, f, now, off + done, n1, w)
    requires w.Refused? ==> f == e && now == was
    requires w.Wrote? ==> SoFar(d, ino, f, now, src, off, done + n1)
    requires ino.size <= MAXFILE * BSIZE && ino.addrs[NDIRECT] < |d|
    ensures w.Wrote? ==> Going(sb, d, ino, f, now, off, |src|, done + n1)
    ensures !w.Wrote? ==> Outcome(sb, d, ino, f, off, |src|, w, done)
  {
    hide Affords, Going, Outcome, Fit, SoFar;
    var n := |src|;
    GoingIs(sb, d, ino, e, was, off, n, done);
    if done == 0 && off > ino.size {
      OutsideEnds(sb, d, ino, f, off, n);
    } else {
      FitStep(off, n, done, k);
      if w.Refused? {
        GoingEnds(sb, d, ino, e, was, off, n, done);
      } else if w.DiskFull? {
        GoingFull(sb, d, ino, e, was, f, now, off, n, done, n1);
      } else {
        SoFarMapped(d, ino, f, now, src, off, done + n1);
        GoingOn(sb, d, ino, e, was, f, now, off, n, done, n1);
      }
    }
  }

  lemma GoingIs(sb: SuperBlock, d: Disk, ino: Inode, e: Disk, now: Inode, off: nat, n: nat, done: nat)
    requires Going(sb, d, ino, e, now, off, n, done)
    ensures done <= Fit(off, n) && (0 < done ==> off <= ino.size)
  {
    hide Accounts;
  }

  lemma OutsideEnds(sb: SuperBlock, d: Disk, ino: Inode, e: Disk, off: nat, n: nat)
    requires ino.size < off && 0 < n
    ensures Outcome(sb, d, ino, e, off, n, Refused, 0)
  {}

  lemma SoFarMapped(d: Disk, ino: Inode, e: Disk, now: Inode, src: seq<Byte>, off: nat, done: nat)
    requires SoFar(d, ino, e, now, src, off, done)
    ensures 0 < done ==> Mapped(e, now, (off + done - 1) / BSIZE) && off <= ino.size
  {
    hide Mapped, ByteAt;
    SoFarSize(d, ino, e, now, src, off, done);
  }

  lemma WroteAll(sb: SuperBlock, d: Disk, ino: Inode, e: Disk, now: Inode, off: nat, n: nat)
    requires Going(sb, d, ino, e, now, off, n, n) && ino.size <= MAXFILE * BSIZE
    ensures Outcome(sb, d, ino, e, off, n, Wrote, n)
  {
    hide Accounts, Room;
    if n > 0 {
      FitWhole(off, n);
      GoingEnds(sb, d, ino, e, now, off, n, n);
    }
  }

  lemma NoChange(sb: SuperBlock, d: Disk, inodes: seq<Inode>, loose: set<nat>)
    requires FsOk(sb, d, inodes, loose)
    ensures SameFiles(d, d, inodes) && AllInodesOk(sb, d, inodes) && Unique(d, inodes)
  {
    forall j | 0 <= j < |inodes| ensures SameFile(d, d, inodes[j]) {
      assert InodeOk(sb, d, inodes[j]);
    }
  }

  /** What a successful balloc gives. */
  lemma GotLoose(sb: SuperBlock, d: Disk, inodes: seq<Inode>, loose: set<nat>, b: nat)
    requires FsOk(sb, d, inodes, loose) && b < sb.size && BBlock(sb, b) < |d| && !Used(sb, d, b)
    ensures b < |d| && Allocated(sb, d, b)[b] == ZeroBlock() && SameFiles(d, Allocated(sb, d, b), inodes)
    ensures loose + {b} - {b} == loose && 0 < b
  {
    hide AllInodesOk, Unique, Referenced, MarkUsed, Used, ZeroBlock;
    AllocLoose(sb, d, inodes, loose, b);
    DataPositive(sb, |d|, b);
  }

  /** balloc followed by filling the entry. */
  lemma EntryStep(sb: SuperBlock, d: Disk, e: Disk, inodes: seq<Inode>, loose: set<nat>, i: nat, j: nat, b: nat)
    requires FsOk(sb, e, inodes, loose) && b in loose && i < |inodes| && j < NINDIRECT && 0 < inodes[i].addrs[NDIRECT] < |d|
    requires SameFiles(d, e, inodes) && SlotOf(d, inodes[i], NDIRECT + 1 + j) == 0 && b < |e| && e[b] == ZeroBlock()
    ensures var ind := inodes[i].addrs[NDIRECT];
            b < U32 && ind < |e| && b != 0 &&
            var f := e[ind := SetWord(e[ind], j, b)];
            FsOk(sb, f, inodes, loose - {b}) && Gains(d, inodes[i], f, inodes[i], NDIRECT + j) &&
            SlotOf(f, inodes[i], NDIRECT + 1 + j) == b &&
            forall m :: 0 <= m < |inodes| && m != i ==> SameFile(d, f, inodes[m])
  {
    hide Used, ZeroBlock, GetWord, SetWord, AllInodesOk, Unique, Referenced;
    var ind := inodes[i].addrs[NDIRECT];
    assert SameFile(d, e, inodes[i]);
    AttachEntry(sb, e, inodes, loose, i, j, b);
    EntryKeeps(sb, e, inodes, i, j, b);
    DataPositive(sb, |e|, b);
    var f := e[ind := SetWord(e[ind], j, b)];
    assert b != ind by { LooseElsewhere(sb, e, inodes, loose, i, b); }
    forall m | 0 <= m < |inodes| && m != i ensures SameFile(d, f, inodes[m]) {
      SameFileTrans(d, e, f, inodes[m]);
    }
  }

  lemma LooseElsewhere(sb: SuperBlock, d: Disk, inodes: seq<Inode>, loose: set<nat>, i: nat, b: nat)
    requires FsOk(sb, d, inodes, loose) && b in loose && i < |inodes|
    ensures b != inodes[i].addrs[NDIRECT]
  {
    hide Used, GetWord;
    assert InodeOk(sb, d, inodes[i]) && !Refers(d, inodes[i], NDIRECT, b);
    DataPositive(sb, |d|, b);
  }

  lemma SlotInDisk(sb: SuperBlock, d: Disk, inodes: seq<Inode>, loose: set<nat>, i: nat, s: nat)
    requires FsOk(sb, d, inodes, loose) && i < |inodes| && s < SLOTS
    ensures inodes[i].addrs[NDIRECT] < |d| && SlotOf(d, inodes[i], s) < |d|
  {
    hide GetWord, Used;
    assert InodeOk(sb, d, inodes[i]);
  }

  lemma EntryZero(d: Disk, ino: Inode, j: nat)
    requires j < NINDIRECT && ino.addrs[NDIRECT] < |d| && d[ino.addrs[NDIRECT]] == ZeroBlock()
    ensures SlotOf(d, ino, NDIRECT + 1 + j) == 0
  {
    hide GetWord, ZeroBlock;
    ZeroBlockWord(j);
  }

  /** Taking an indirect block does not change the slot of a block it lists. */
  lemma IndirectSlot(d: Disk, ino: Inode, e: Disk, now: Inode, bn: nat)
    requires Gains(d, ino, e, now, bn) && NDIRECT <= bn < MAXFILE
    requires ino.addrs[NDIRECT] == 0 ==> SlotOf(e, now, DataSlot(bn)) == 0
    requires ino.addrs[NDIRECT] != 0 ==> e == d && now == ino
    ensures SlotOf(e, now, DataSlot(bn)) == SlotOf(d, ino, DataSlot(bn))
  {}

  // ----- taking a file apart

  /** Clearing a direct address leaves its block to be freed. */
  lemma DirectFreed(sb: SuperBlock, d: Disk, inodes: seq<Inode>, loose: set<nat>, i: nat, k: nat)
    requires FsOk(sb, d, inodes, loose) && i < |inodes| && k < NDIRECT && inodes[i].size == 0 && inodes[i].addrs[k] != 0
    ensures FsOk(sb, d, inodes[i := WithAddr(inodes[i], k, 0)], loose + {inodes[i].addrs[k]})
    ensures loose + {inodes[i].addrs[k]} - {inodes[i].addrs[k]} == loose
  {
    hide GetWord, Used;
    var addr := inodes[i].addrs[k];
    assert InodeOk(sb, d, inodes[i]);
    assert Refers(d, inodes[i], k, addr) && Goes(k, k);
    assert Referenced(d, inodes, addr);
    Detach(sb, d, inodes, loose, i, k, {addr});
  }

  lemma IndirectFreed(sb: SuperBlock, d: Disk, inodes: seq<Inode>, loose: set<nat>, i: nat) returns (data: Block)
    requires FsOk(sb, d, inodes, loose) && i < |inodes| && inodes[i].size == 0 && inodes[i].addrs[NDIRECT] != 0
    ensures inodes[i].addrs[NDIRECT] < |d| && data == d[inodes[i].addrs[NDIRECT]] && inodes[i].addrs[NDIRECT] !in loose
    ensures FsOk(sb, d, inodes[i := WithAddr(inodes[i], NDIRECT, 0)], loose + ({inodes[i].addrs[NDIRECT]} + EntriesFrom(data, 0)))
  {
    hide GetWord, Used, EntriesFrom;
    assert InodeOk(sb, d, inodes[i]);
    data := d[inodes[i].addrs[NDIRECT]];
    assert Refers(d, inodes[i], NDIRECT, inodes[i].addrs[NDIRECT]);
    IndirectLedTo(sb, d, inodes[i]);
    Detach(sb, d, inodes, loose, i, NDIRECT, {inodes[i].addrs[NDIRECT]} + EntriesFrom(data, 0));
  }

  /** Freeing entry j leaves the later ones to be freed. */
  lemma NextEntry(sb: SuperBlock, d: Disk, inodes: seq<Inode>, loose: set<nat>, i: nat, j: nat)
    requires FsOk(sb, d, inodes, loose) && i < |inodes| && inodes[i].addrs[NDIRECT] != 0 && j < NINDIRECT
    ensures var ind := inodes[i].addrs[NDIRECT];
            ind < |d| && sb.meta <= ind && ind !in loose && 
            var x := GetWord(d[ind], j);
            if x == 0 then EntriesFrom(d[ind], j) == EntriesFrom(d[ind], j + 1)
            else x in EntriesFrom(d[ind], j) && x < sb.size &&
                 loose + ({ind} + EntriesFrom(d[ind], j)) - {x} == loose + ({ind} + EntriesFrom(d[ind], j + 1))
  {
    hide GetWord, Used;
    var ind := inodes[i].addrs[NDIRECT];
    assert InodeOk(sb, d, inodes[i]) && Refers(d, inodes[i], NDIRECT, ind);
    EntryOnce(sb, d, inodes, i, j);
    var x := GetWord(d[ind], j);
    if x != 0 {
      assert Refers(d, inodes[i], NDIRECT + 1 + j, x);
    }
  }

  lemma NoEntries(data: Block)
    ensures EntriesFrom(data, NINDIRECT) == {}
  {}

  /** A bitmap write leaves the data blocks alone. */
  lemma NotBitmap(sb: SuperBlock, d: Disk, b: nat, x: nat)
    requires BBlock(sb, b) < sb.meta <= x < |d|
    ensures BBlock(sb, b) < |d| && MarkFree(sb, d, b)[x] == d[x]
  {}

  /** When a file has lost all its blocks and every other file is the same, the bits cleared are those of its blocks. */
  lemma FreedExactly(sb: SuperBlock, d: Disk, inodes: seq<Inode>, loose: set<nat>, e: Disk, i: nat)
    requires FsOk(sb, d, inodes, loose) && i < |inodes| && FsOk(sb, e, inodes[i := Inode(0, NoAddrs())], loose)
    requires OthersSame(d, e, inodes, i)
    ensures Freed(sb, d, e, inodes[i])
  {
    hide GetWord, Used;
    var now := inodes[i := Inode(0, NoAddrs())];
    forall x: nat ensures Referenced(e, now, x) <==> Referenced(d, inodes, x) && !Owns(d, inodes[i], x) {
      OthersRefer(d, inodes, e, now, i, x);
    }
    forall x: nat, s: nat | Refers(d, inodes[i], s, x) ensures Referenced(d, inodes, x) {}
    forall x: nat | Owns(d, inodes[i], x) ensures Referenced(d, inodes, x) && x !in loose && sb.meta <= x {
      var s: nat :| Refers(d, inodes[i], s, x);
      assert InodeOk(sb, d, inodes[i]);
    }
    hide Referenced, Owns, AllInodesOk, Unique;
  }

  lemma OthersRefer(d: Disk, inodes: seq<Inode>, e: Disk, now: seq<Inode>, i: nat, x: nat)
    requires Unique(d, inodes) && i < |inodes| && now == inodes[i := Inode(0, NoAddrs())]
    requires forall m :: 0 <= m < |inodes| && m != i ==> SameFile(d, e, inodes[m])
    ensures Referenced(e, now, x) <==> Referenced(d, inodes, x) && !Owns(d, inodes[i], x)
  {
    hide GetWord;
    if Referenced(e, now, x) {
      var j: nat, t: nat :| j < |now| && Refers(e, now[j], t, x);
      assert j != i && SameFile(d, e, inodes[j]) && Refers(d, inodes[j], t, x);
      forall s: nat ensures !Refers(d, inodes[i], s, x) {}
    }
    if Referenced(d, inodes, x) && !Owns(d, inodes[i], x) {
      var j: nat, t: nat :| j < |inodes| && Refers(d, inodes[j], t, x);
      assert j != i && SameFile(d, e, inodes[j]) && Refers(e, now[j], t, x);
    }
  }

  // ----- writing a file

  lemma OthersStep(d: Disk, e: Disk, f: Disk, all: seq<Inode>, i: nat)
    requires OthersSame(d, e, all, i)
    requires forall m :: 0 <= m < |all| && m != i ==> SameFile(e, f, all[m])
    ensures OthersSame(d, f, all, i)
  {
    hide SameFile;
    forall m | 0 <= m < |all| && m != i ensures SameFile(d, f, all[m]) {
      SameFileTrans(d, e, f, all[m]);
    }
  }

  lemma OthersUnfold(d: Disk, e: Disk, all: seq<Inode>, i: nat)
    requires forall m :: 0 <= m < |all| && m != i ==> SameFile(d, e, all[m])
    ensures OthersSame(d, e, all, i)
  {}

  lemma OthersSameStep(d: Disk, e: Disk, f: Disk, all: seq<Inode>, now: seq<Inode>, i: nat)
    requires OthersSame(d, e, all, i) && OthersSame(e, f, now, i) && |now| == |all|
    requires forall k :: 0 <= k < |all| && k != i ==> now[k] == all[k]
    ensures OthersSame(d, f, all, i)
  {
    hide SameFile;
    forall m | 0 <= m < |all| && m != i ensures SameFile(d, f, all[m]) {
      assert now[m] == all[m];
      SameFileTrans(d, e, f, all[m]);
    }
  }

  lemma PartialStart(d: Disk, all: seq<Inode>, i: nat, src: seq<Byte>, off: nat)
    requires i < |all| && SameFiles(d, d, all) && Readable(d, all[i], all[i].size) && off <= all[i].size
    ensures Partial(d, all[i], d, all[i], src, off, 0)
  {
    hide SlotOf, SameFile;
  }

  /** Allocating a block of the file loses nothing that was written. */
  lemma PartialGains(d: Disk, ino: Inode, e: Disk, was: Inode, f: Disk, now: Inode, src: seq<Byte>, off: nat, tot: nat)
    requires Partial(d, ino, e, was, src, off, tot) && Gains(e, was, f, now, (off + tot) / BSIZE)
    ensures Partial(d, ino, f, now, src, off, tot)
    ensures off + tot < ino.size ==> Mapped(e, was, (off + tot) / BSIZE)
  {
    hide SlotOf;
    forall p: nat | p < Max(ino.size, off + tot) ensures Mapped(f, now, p / BSIZE) && ByteAt(f, now, p) == ByteAt(e, was, p) {
      assert Mapped(e, was, p / BSIZE);
    }
  }

  /** The next bytes of src, up to the end of their block, are written. */
  lemma PartialPut(d: Disk, ino: Inode, e: Disk, f: Disk, now: Inode, src: seq<Byte>, off: nat, tot: nat, m: nat)
    requires Partial(d, ino, e, now, src, off, tot) && tot + m <= |src| && PutInto(e, f, now, off + tot, src[tot..tot + m])
    ensures Partial(d, ino, f, now, src, off, tot + m)
  {
    var at := off + tot;
    hide SlotOf, PutInto, Mapped, ByteAt;
    forall p: nat | p < Max(ino.size, at + m) && !(at <= p < at + m)
      ensures Mapped(e, now, p / BSIZE) && Mapped(f, now, p / BSIZE) && ByteAt(f, now, p) == ByteAt(e, now, p)
    {
      assert Mapped(e, now, p / BSIZE);
      PutOther(e, f, now, at, src[tot..tot + m], p);
    }
    forall p: nat | at <= p < at + m ensures Mapped(f, now, p / BSIZE) && ByteAt(f, now, p) == src[p - off] {
      PutHere(e, f, now, at, src[tot..tot + m], p);
    }
  }

  /** f is e with bytes written into the block of the file that holds position at. */
  ghost predicate PutInto(e: Disk, f: Disk, now: Inode, at: nat, bytes: seq<Byte>) {
    Mapped(e, now, at / BSIZE) && at % BSIZE + |bytes| <= BSIZE && now.addrs[NDIRECT] < |e| && |f| == |e| &&
    var s := DataSlot(at / BSIZE);
    f == e[SlotOf(e, now, s) := PutBytes(e[SlotOf(e, now, s)], at % BSIZE, bytes)] &&
    (forall t: nat :: t < SLOTS ==> SlotOf(f, now, t) == SlotOf(e, now, t)) &&
    (forall t: nat :: t < SLOTS && t != s && SlotOf(e, now, t) != 0 ==> SlotOf(e, now, t) != SlotOf(e, now, s))
  }

  lemma PutOther(e: Disk, f: Disk, now: Inode, at: nat, bytes: seq<Byte>, p: nat)
    requires PutInto(e, f, now, at, bytes) && !(at <= p < at + |bytes|) && Mapped(e, now, p / BSIZE)
    ensures Mapped(f, now, p / BSIZE) && ByteAt(f, now, p) == ByteAt(e, now, p)
  {
    hide SlotOf;
    if p / BSIZE == at / BSIZE { OtherByte(at, |bytes|, p); }
  }

  lemma PutHere(e: Disk, f: Disk, now: Inode, at: nat, bytes: seq<Byte>, p: nat)
    requires PutInto(e, f, now, at, bytes) && at <= p < at + |bytes|
    ensures Mapped(f, now, p / BSIZE) && ByteAt(f, now, p) == bytes[p - at]
  {
    hide SlotOf;
    SameBlock(at, p - at);
  }

  lemma OtherByte(at: nat, m: nat, p: nat)
    requires p / BSIZE == at / BSIZE && at % BSIZE + m <= BSIZE && !(at <= p < at + m)
    ensures !(at % BSIZE <= p % BSIZE < at % BSIZE + m)
  {}

  /** With all of src written and the size brought up to date, the file is the splice. */
  lemma PartialDone(sb: SuperBlock, d: Disk, ino: Inode, e: Disk, inodes: seq<Inode>, loose: set<nat>, i: nat, src: seq<Byte>, off: nat)
    requires i < |inodes| && FsOk(sb, e, inodes, loose) && Partial(d, ino, e, inodes[i], src, off, |src|) && off + |src| <= MAXFILE * BSIZE
    ensures var now := inodes[i].(size := Max(ino.size, off + |src|));
            Readable(d, ino, ino.size) && Readable(e, now, now.size) &&
            inodes[i].size == ino.size && Content(e, now) == Splice(Content(d, ino), off, src) && FsOk(sb, e, inodes[i := now], loose)
  {
    FileReadable(sb, e, inodes, loose, i);
    hide SlotOf, FsOk;
    var now := inodes[i].(size := Max(ino.size, off + |src|));
    forall p: nat | p < now.size ensures Mapped(e, now, p / BSIZE) && ByteAt(e, now, p) == ByteAt(e, inodes[i], p) {
      assert Mapped(e, inodes[i], p / BSIZE);
      assert forall s: nat :: s < SLOTS ==> SlotOf(e, now, s) == SlotOf(e, inodes[i], s) by { SameAddrs(e, inodes[i], now); }
    }
    var c := Splice(Content(d, ino), off, src);
    forall p: nat | p < now.size ensures Content(e, now)[p] == c[p] {}
    Resize(sb, e, inodes, loose, i, now.size);
  }

  lemma SameAddrs(d: Disk, ino: Inode, now: Inode)
    requires now.addrs == ino.addrs && ino.addrs[NDIRECT] < |d|
    ensures forall s: nat :: s < SLOTS ==> SlotOf(d, now, s) == SlotOf(d, ino, s)
  {}
}
