/** Inodes and blocks (fs.c): which blocks the bitmap, the inodes and their indirect blocks say are in use,
    and the byte sequences that inodes stand for. Blocks are those the operations see through the log. */
module Fs {
  import opened Blocks

  const NDIRECT: nat := 12
  const NINDIRECT: nat := 128
  const MAXFILE: nat := 140          // NDIRECT + NINDIRECT
  const SLOTS: nat := 141            // the direct blocks, the indirect block, its entries
  const IPB: nat := 8                // inodes in a block

  type Disk = seq<Block>

  type Addrs = a: seq<Word> | |a| == NDIRECT + 1 witness seq(NDIRECT + 1, _ => 0)

  /** An inode of a file or directory, in memory or as iupdate writes it. */
  datatype Inode = Inode(size: nat, addrs: Addrs)

  /** The inodes start at inodestart and the bitmap at bmapstart; blocks meta..size hold data. */
  datatype SuperBlock = SuperBlock(size: nat, inodestart: nat, bmapstart: nat, meta: nat)

  predicate SbOk(sb: SuperBlock, n: nat) {
    0 < sb.bmapstart && sb.size <= n <= U32 && sb.meta <= sb.size &&
    forall b :: 0 <= b < sb.size ==> sb.bmapstart + b / BPB < sb.meta
  }

  function BBlock(sb: SuperBlock, b: nat): nat {
    b / BPB + sb.bmapstart
  }

  function IBlock(sb: SuperBlock, i: nat): nat {
    i / IPB + sb.inodestart
  }

  /** The bitmap bit of block b. */
  predicate Used(sb: SuperBlock, d: Disk, b: nat)
    requires BBlock(sb, b) < |d|
  {
    BitSet(d[BBlock(sb, b)], b % BPB)
  }

  // ----- the blocks of an inode

  /** Slot s of an inode: a direct block, the indirect block, or an entry of the indirect block; 0 is none. */
  function SlotOf(d: Disk, ino: Inode, s: nat): Word
    requires s < SLOTS && ino.addrs[NDIRECT] < |d|
  {
    if s <= NDIRECT then ino.addrs[s]
    else if ino.addrs[NDIRECT] == 0 then 0
    else GetWord(d[ino.addrs[NDIRECT]], s - NDIRECT - 1)
  }

  /** The slot of the nth block of a file. */
  function DataSlot(bn: nat): (s: nat)
    requires bn < MAXFILE
    ensures s < SLOTS && s != NDIRECT
  {
    if bn < NDIRECT then bn else bn + 1
  }

  predicate DataBlock(sb: SuperBlock, b: nat) {
    sb.meta <= b < sb.size
  }

  /** An inode's slots hold data blocks or nothing, and the blocks below its size are all there. */
  ghost predicate InodeOk(sb: SuperBlock, d: Disk, ino: Inode) {
    ino.addrs[NDIRECT] < |d| && ino.size <= MAXFILE * BSIZE &&
    (forall s: nat :: s < SLOTS ==> SlotOf(d, ino, s) == 0 || DataBlock(sb, SlotOf(d, ino, s))) &&
    (forall k: nat :: k * BSIZE < ino.size ==> k < MAXFILE && SlotOf(d, ino, DataSlot(k)) != 0)
  }

  /** The inode references block b from slot s. */
  ghost predicate Refers(d: Disk, ino: Inode, s: nat, b: nat) {
    s < SLOTS && ino.addrs[NDIRECT] < |d| && b != 0 && SlotOf(d, ino, s) == b
  }

  ghost predicate Referenced(d: Disk, inodes: seq<Inode>, b: nat) {
    exists i: nat, s: nat :: i < |inodes| && Refers(d, inodes[i], s, b)
  }

  ghost predicate AllInodesOk(sb: SuperBlock, d: Disk, inodes: seq<Inode>) {
    forall i :: 0 <= i < |inodes| ==> InodeOk(sb, d, inodes[i])
  }

  /** No block is referenced twice. */
  ghost predicate Unique(d: Disk, inodes: seq<Inode>) {
    forall i: nat, s: nat, j: nat, t: nat, b: nat ::
      i < |inodes| && j < |inodes| && Refers(d, inodes[i], s, b) && Refers(d, inodes[j], t, b) ==> i == j && s == t
  }

  /** A bitmap bit is set exactly for the metadata, the referenced blocks, and the loose ones: allocated but
      not yet, or no longer, referenced. */
  ghost predicate BitmapOk(sb: SuperBlock, d: Disk, inodes: seq<Inode>, loose: set<nat>) {
    sb.size <= |d| && (forall b: nat :: b < sb.size ==> BBlock(sb, b) < |d|) &&
    (forall b: nat :: b in loose ==> DataBlock(sb, b) && !Referenced(d, inodes, b)) &&
    forall b: nat :: b < sb.size ==> (Used(sb, d, b) <==> b < sb.meta || Referenced(d, inodes, b) || b in loose)
  }

  ghost predicate FsOk(sb: SuperBlock, d: Disk, inodes: seq<Inode>, loose: set<nat>) {
    SbOk(sb, |d|) && AllInodesOk(sb, d, inodes) && Unique(d, inodes) && BitmapOk(sb, d, inodes, loose)
  }

  /** A file system without data blocks in use, as mkfs starts from, is in order. */
  lemma EmptyOk(sb: SuperBlock, d: Disk, inodes: seq<Inode>)
    requires SbOk(sb, |d|) && 0 < |d| && forall i :: 0 <= i < |inodes| ==> inodes[i] == Inode(0, seq(NDIRECT + 1, _ => 0))
    requires forall b: nat :: b < sb.size ==> BBlock(sb, b) < |d| && (Used(sb, d, b) <==> b < sb.meta)
    ensures FsOk(sb, d, inodes, {})
  {
    hide Used;
    forall i | 0 <= i < |inodes| ensures InodeOk(sb, d, inodes[i]) && forall s: nat, b: nat :: !Refers(d, inodes[i], s, b) {}
    forall b: nat ensures !Referenced(d, inodes, b) {}
  }

  /** Such a file system exists: two metadata blocks, one of them the bitmap, and one data block. */
  lemma SmallFs() returns (sb: SuperBlock, d: Disk, inodes: seq<Inode>)
    ensures FsOk(sb, d, inodes, {}) && |inodes| > 0 && DataBlock(sb, 2)
  {
    sb := SuperBlock(3, 0, 1, 2);
    d := [ZeroBlock(), ZeroBlock()[0 := 3], ZeroBlock()];
    inodes := [Inode(0, seq(NDIRECT + 1, _ => 0))];
    forall b: nat | b < sb.size ensures BBlock(sb, b) < |d| && (Used(sb, d, b) <==> b < sb.meta) {
      assert Bit(3, 0) && Bit(3, 1) && !Bit(3, 2) by { assert Bit(1, 0) && !Bit(0, 0) && !Bit(1, 1); }
      assert b == 0 || b == 1 || b == 2;
    }
    EmptyOk(sb, d, inodes);
  }

  // ----- contents

  predicate Mapped(d: Disk, ino: Inode, bn: nat) {
    bn < MAXFILE && ino.addrs[NDIRECT] < |d| && SlotOf(d, ino, DataSlot(bn)) != 0 && SlotOf(d, ino, DataSlot(bn)) < |d|
  }

  function ByteAt(d: Disk, ino: Inode, p: nat): Byte
    requires Mapped(d, ino, p / BSIZE)
  {
    d[SlotOf(d, ino, DataSlot(p / BSIZE))][p % BSIZE]
  }

  ghost predicate Readable(d: Disk, ino: Inode, n: nat) {
    forall p: nat :: p < n ==> Mapped(d, ino, p / BSIZE)
  }

  /** The bytes of the file. */
  ghost function Content(d: Disk, ino: Inode): (c: seq<Byte>)
    requires Readable(d, ino, ino.size)
    ensures |c| == ino.size
  {
    seq(ino.size, p requires 0 <= p < ino.size => ByteAt(d, ino, p))
  }

  lemma BelowSizeMapped(sb: SuperBlock, d: Disk, ino: Inode)
    requires SbOk(sb, |d|) && InodeOk(sb, d, ino)
    ensures Readable(d, ino, ino.size)
  {
    forall p: nat | p < ino.size ensures Mapped(d, ino, p / BSIZE) {
      var k := p / BSIZE;
      assert k * BSIZE <= p;
    }
  }

  // ----- changing a block that no indirect slot names

  /** Two disks give the inode the same slots. */
  ghost predicate SameSlots(d: Disk, e: Disk, ino: Inode) {
    |e| == |d| && forall s: nat, b: nat :: Refers(d, ino, s, b) <==> Refers(e, ino, s, b)
  }

  lemma SlotsSame(d: Disk, e: Disk, ino: Inode)
    requires |e| == |d| && ino.addrs[NDIRECT] < |d| && (ino.addrs[NDIRECT] != 0 ==> e[ino.addrs[NDIRECT]] == d[ino.addrs[NDIRECT]])
    ensures forall s: nat :: s < SLOTS ==> SlotOf(e, ino, s) == SlotOf(d, ino, s)
    ensures SameSlots(d, e, ino)
  {}

  lemma ReferencedSame(d: Disk, e: Disk, inodes: seq<Inode>, b: nat)
    requires forall i :: 0 <= i < |inodes| ==> SameSlots(d, e, inodes[i])
    ensures Referenced(e, inodes, b) <==> Referenced(d, inodes, b)
  {
    hide Refers;
    if Referenced(d, inodes, b) {
      var i: nat, s: nat :| i < |inodes| && Refers(d, inodes[i], s, b);
      assert SameSlots(d, e, inodes[i]) && Refers(e, inodes[i], s, b);
    }
    if Referenced(e, inodes, b) {
      var i: nat, s: nat :| i < |inodes| && Refers(e, inodes[i], s, b);
      assert SameSlots(d, e, inodes[i]) && Refers(d, inodes[i], s, b);
    }
  }

  lemma UniqueSame(d: Disk, e: Disk, inodes: seq<Inode>)
    requires Unique(d, inodes) && forall i :: 0 <= i < |inodes| ==> SameSlots(d, e, inodes[i])
    ensures Unique(e, inodes)
  {
    hide Refers;
    forall i: nat, s: nat, j: nat, t: nat, b: nat
      | i < |inodes| && j < |inodes| && Refers(e, inodes[i], s, b) && Refers(e, inodes[j], t, b)
      ensures i == j && s == t
    {
      assert SameSlots(d, e, inodes[i]) && SameSlots(d, e, inodes[j]);
    }
  }

  lemma InodeSame(sb: SuperBlock, d: Disk, e: Disk, ino: Inode)
    requires InodeOk(sb, d, ino) && |e| == |d|
    requires forall s: nat :: s < SLOTS ==> SlotOf(e, ino, s) == SlotOf(d, ino, s)
    ensures InodeOk(sb, e, ino)
  {}

  // ----- the bitmap

  function MarkUsed(sb: SuperBlock, d: Disk, b: nat): (r: Disk)
    requires BBlock(sb, b) < |d|
    ensures |r| == |d|
  {
    d[BBlock(sb, b) := SetBit(d[BBlock(sb, b)], b % BPB)]
  }

  function MarkFree(sb: SuperBlock, d: Disk, b: nat): (r: Disk)
    requires BBlock(sb, b) < |d|
    ensures |r| == |d|
  {
    d[BBlock(sb, b) := ClearBit(d[BBlock(sb, b)], b % BPB)]
  }

  lemma SameBitmapBit(b: nat, c: nat)
    ensures b / BPB == c / BPB && b % BPB == c % BPB ==> b == c
  {}

  lemma MarkBits(sb: SuperBlock, d: Disk, b: nat, c: nat)
    requires BBlock(sb, b) < |d| && BBlock(sb, c) < |d|
    ensures Used(sb, MarkUsed(sb, d, b), c) <==> c == b || Used(sb, d, c)
    ensures Used(sb, MarkFree(sb, d, b), c) <==> c != b && Used(sb, d, c)
  {
    hide BitSet, SetBit, ClearBit;
    SameBitmapBit(b, c);
    if BBlock(sb, b) == BBlock(sb, c) {
      BitUpdate(d[BBlock(sb, b)], b % BPB, c % BPB);
    }
  }

  // ----- steps on the whole file system

  /** The files whose slots and bytes are the same. */
  ghost predicate SameFile(d: Disk, e: Disk, ino: Inode) {
    |e| == |d| && ino.addrs[NDIRECT] < |d| && (forall s: nat :: s < SLOTS ==> SlotOf(e, ino, s) == SlotOf(d, ino, s)) &&
    forall s: nat :: s < SLOTS && s != NDIRECT && 0 < SlotOf(d, ino, s) < |d| ==> e[SlotOf(d, ino, s)] == d[SlotOf(d, ino, s)]
  }

  lemma SameFileBytes(d: Disk, e: Disk, ino: Inode, p: nat)
    requires SameFile(d, e, ino) && Mapped(d, ino, p / BSIZE)
    ensures Mapped(e, ino, p / BSIZE) && ByteAt(e, ino, p) == ByteAt(d, ino, p)
  {
    assert DataSlot(p / BSIZE) < SLOTS;
  }

  lemma SameFileContent(d: Disk, e: Disk, ino: Inode)
    requires SameFile(d, e, ino) && Readable(d, ino, ino.size)
    ensures Readable(e, ino, ino.size) && Content(e, ino) == Content(d, ino)
  {
    forall p: nat | p < ino.size ensures Mapped(e, ino, p / BSIZE) && ByteAt(e, ino, p) == ByteAt(d, ino, p) {
      SameFileBytes(d, e, ino, p);
    }
  }

  lemma SameFileTrans(d: Disk, e: Disk, f: Disk, ino: Inode)
    requires SameFile(d, e, ino) && SameFile(e, f, ino)
    ensures SameFile(d, f, ino)
  {}

  ghost predicate SameFiles(d: Disk, e: Disk, inodes: seq<Inode>) {
    forall i :: 0 <= i < |inodes| ==> SameFile(d, e, inodes[i])
  }

  /** Changing a block no inode references changes no file. */
  lemma Elsewhere(sb: SuperBlock, d: Disk, inodes: seq<Inode>, b: nat, data: Block)
    requires AllInodesOk(sb, d, inodes) && b < |d| && b != 0 && !Referenced(d, inodes, b)
    ensures SameFiles(d, d[b := data], inodes)
  {
    forall i | 0 <= i < |inodes| ensures SameFile(d, d[b := data], inodes[i]) {
      assert InodeOk(sb, d, inodes[i]);
      var ino := inodes[i];
      forall s: nat | s < SLOTS ensures SlotOf(d, ino, s) != b {
        assert !Refers(d, ino, s, b);
      }
      if ino.addrs[NDIRECT] != 0 {
        assert SlotOf(d, ino, NDIRECT) == ino.addrs[NDIRECT];
      }
      SlotsSame(d, d[b := data], ino);
    }
  }

  /** What unchanged files keep. */
  lemma KeepsFiles(sb: SuperBlock, d: Disk, e: Disk, inodes: seq<Inode>)
    requires AllInodesOk(sb, d, inodes) && Unique(d, inodes) && SameFiles(d, e, inodes) && |e| == |d|
    ensures AllInodesOk(sb, e, inodes) && Unique(e, inodes)
    ensures forall b: nat :: Referenced(e, inodes, b) <==> Referenced(d, inodes, b)
  {
    forall i | 0 <= i < |inodes| ensures SameSlots(d, e, inodes[i]) && InodeOk(sb, e, inodes[i]) {
      assert SameFile(d, e, inodes[i]) && InodeOk(sb, d, inodes[i]);
      InodeSame(sb, d, e, inodes[i]);
    }
    UniqueSame(d, e, inodes);
    forall b: nat ensures Referenced(e, inodes, b) <==> Referenced(d, inodes, b) {
      ReferencedSame(d, e, inodes, b);
    }
  }

  /** Metadata is referenced by nobody. */
  lemma MetaUnreferenced(sb: SuperBlock, d: Disk, inodes: seq<Inode>, b: nat)
    requires AllInodesOk(sb, d, inodes) && b < sb.meta
    ensures !Referenced(d, inodes, b)
  {
    forall i: nat, s: nat | i < |inodes| ensures !Refers(d, inodes[i], s, b) {
      assert InodeOk(sb, d, inodes[i]);
    }
  }

  /** balloc's two writes: the bitmap bit and the zeroed block. */
  function Allocated(sb: SuperBlock, d: Disk, b: nat): (r: Disk)
    requires BBlock(sb, b) < |d| && b < |d|
    ensures |r| == |d|
  {
    MarkUsed(sb, d, b)[b := ZeroBlock()]
  }

  /** An allocated block was free and is nobody's: it is loose, zeroed, and no file changes. */
  lemma AllocLoose(sb: SuperBlock, d: Disk, inodes: seq<Inode>, loose: set<nat>, b: nat)
    requires FsOk(sb, d, inodes, loose) && b < sb.size && BBlock(sb, b) < |d| && !Used(sb, d, b)
    ensures var e := Allocated(sb, d, b);
            DataBlock(sb, b) && b !in loose && FsOk(sb, e, inodes, loose + {b}) && e[b] == ZeroBlock() && SameFiles(d, e, inodes)
  {
    hide Used, MarkUsed, Unique, AllInodesOk, Referenced;
    var c := MarkUsed(sb, d, b);
    var e := Allocated(sb, d, b);
    BitmapStep(sb, d, inodes, loose, b);
    MarkedElsewhere(sb, d, inodes, b);
    KeepsFiles(sb, d, c, inodes);
    Elsewhere(sb, c, inodes, b, ZeroBlock());
    KeepsFiles(sb, c, e, inodes);
    SameFilesTrans(d, c, e, inodes);
    forall x: nat | x < sb.size ensures Used(sb, e, x) <==> Used(sb, d, x) || x == b {
      MarkBits(sb, d, b, x);
      UsedElsewhere(sb, c, b, ZeroBlock(), x);
    }
  }

  lemma SameFilesTrans(d: Disk, e: Disk, f: Disk, inodes: seq<Inode>)
    requires SameFiles(d, e, inodes) && SameFiles(e, f, inodes)
    ensures SameFiles(d, f, inodes)
  {
    hide SameFile;
    forall i | 0 <= i < |inodes| ensures SameFile(d, f, inodes[i]) {
      SameFileTrans(d, e, f, inodes[i]);
    }
  }

  lemma BitmapStep(sb: SuperBlock, d: Disk, inodes: seq<Inode>, loose: set<nat>, b: nat)
    requires FsOk(sb, d, inodes, loose) && b < sb.size && BBlock(sb, b) < |d| && !Used(sb, d, b)
    ensures DataBlock(sb, b) && b !in loose && !Referenced(d, inodes, b) && 0 < b
  {
    assert sb.bmapstart + b / BPB < sb.meta;
  }

  lemma MarkedElsewhere(sb: SuperBlock, d: Disk, inodes: seq<Inode>, b: nat)
    requires SbOk(sb, |d|) && AllInodesOk(sb, d, inodes) && b < sb.size
    ensures BBlock(sb, b) < |d| && SameFiles(d, MarkUsed(sb, d, b), inodes) && SameFiles(d, MarkFree(sb, d, b), inodes)
  {
    assert sb.bmapstart + b / BPB < sb.meta;
    MetaUnreferenced(sb, d, inodes, BBlock(sb, b));
    Elsewhere(sb, d, inodes, BBlock(sb, b), SetBit(d[BBlock(sb, b)], b % BPB));
    Elsewhere(sb, d, inodes, BBlock(sb, b), ClearBit(d[BBlock(sb, b)], b % BPB));
  }

  /** A data block is not part of the bitmap. */
  lemma UsedElsewhere(sb: SuperBlock, d: Disk, b: nat, data: Block, x: nat)
    requires SbOk(sb, |d|) && DataBlock(sb, b) && x < sb.size
    ensures BBlock(sb, x) < |d| && (Used(sb, d[b := data], x) <==> Used(sb, d, x))
  {
    assert sb.bmapstart + x / BPB < sb.meta;
  }

  /** Freeing a loose block: its bit is set, and afterwards it is clear and the block is no longer loose. */
  lemma FreeLoose(sb: SuperBlock, d: Disk, inodes: seq<Inode>, loose: set<nat>, b: nat)
    requires FsOk(sb, d, inodes, loose) && b in loose
    ensures b < sb.size && BBlock(sb, b) < |d| && Used(sb, d, b)
    ensures FsOk(sb, MarkFree(sb, d, b), inodes, loose - {b}) && SameFiles(d, MarkFree(sb, d, b), inodes)
  {
    hide Used, MarkFree, Unique, AllInodesOk, Referenced;
    var e := MarkFree(sb, d, b);
    MarkedElsewhere(sb, d, inodes, b);
    KeepsFiles(sb, d, e, inodes);
    forall x: nat | x < sb.size ensures Used(sb, e, x) <==> x != b && Used(sb, d, x) {
      MarkBits(sb, d, b, x);
    }
  }

  // ----- giving a loose block to an inode

  function WithAddr(ino: Inode, s: nat, b: Word): Inode
    requires s <= NDIRECT
  {
    ino.(addrs := ino.addrs[s := b])
  }

  /** Slots of the other inodes, and the other slots of this one, are what they were. */
  ghost predicate Attached(d: Disk, inodes: seq<Inode>, e: Disk, now: seq<Inode>, i: nat, s: nat, b: nat) {
    |now| == |inodes| && |e| == |d| && i < |inodes| && s < SLOTS && b != 0 &&
    (forall j :: 0 <= j < |inodes| ==> inodes[j].addrs[NDIRECT] < |d| && now[j].addrs[NDIRECT] < |e|) &&
    SlotOf(d, inodes[i], s) == 0 && SlotOf(e, now[i], s) == b &&
    (forall j: nat, t: nat :: j < |inodes| && t < SLOTS && !(j == i && t == s) ==> SlotOf(e, now[j], t) == SlotOf(d, inodes[j], t))
  }

  lemma AttachedRefers(d: Disk, inodes: seq<Inode>, e: Disk, now: seq<Inode>, i: nat, s: nat, b: nat, x: nat)
    requires Attached(d, inodes, e, now, i, s, b)
    ensures Referenced(e, now, x) <==> Referenced(d, inodes, x) || x == b
  {
    if Referenced(d, inodes, x) {
      var j: nat, t: nat :| j < |inodes| && Refers(d, inodes[j], t, x);
      assert Refers(e, now[j], t, x);
    }
    if Referenced(e, now, x) && x != b {
      var j: nat, t: nat :| j < |now| && Refers(e, now[j], t, x);
      assert Refers(d, inodes[j], t, x);
    }
    if x == b { assert Refers(e, now[i], s, x); }
  }

  /** A loose block that becomes one slot of one inode is referenced, once. */
  lemma AttachOk(sb: SuperBlock, d: Disk, inodes: seq<Inode>, loose: set<nat>, e: Disk, now: seq<Inode>, i: nat, s: nat, b: nat)
    requires FsOk(sb, d, inodes, loose) && b in loose && Attached(d, inodes, e, now, i, s, b)
    requires forall j :: 0 <= j < |inodes| ==> now[j].size == inodes[j].size
    requires forall x: nat :: x < sb.size ==> BBlock(sb, x) < |e| && (Used(sb, e, x) <==> Used(sb, d, x))
    ensures FsOk(sb, e, now, loose - {b})
  {
    hide Used;
    AttachInodes(sb, d, inodes, e, now, i, s, b);
    AttachUnique(d, inodes, e, now, i, s, b);
    forall x: nat ensures Referenced(e, now, x) <==> Referenced(d, inodes, x) || x == b {
      AttachedRefers(d, inodes, e, now, i, s, b, x);
    }
    hide AllInodesOk, Unique, Referenced, Attached;
  }

  lemma AttachInodes(sb: SuperBlock, d: Disk, inodes: seq<Inode>, e: Disk, now: seq<Inode>, i: nat, s: nat, b: nat)
    requires AllInodesOk(sb, d, inodes) && Attached(d, inodes, e, now, i, s, b) && DataBlock(sb, b)
    requires forall j :: 0 <= j < |inodes| ==> now[j].size == inodes[j].size
    ensures AllInodesOk(sb, e, now)
  {
    forall j | 0 <= j < |now| ensures InodeOk(sb, e, now[j]) {
      assert InodeOk(sb, d, inodes[j]);
    }
  }

  lemma AttachUnique(d: Disk, inodes: seq<Inode>, e: Disk, now: seq<Inode>, i: nat, s: nat, b: nat)
    requires Unique(d, inodes) && Attached(d, inodes, e, now, i, s, b) && !Referenced(d, inodes, b)
    ensures Unique(e, now)
  {
    forall j: nat, t: nat, k: nat, u: nat, x: nat
      | j < |now| && k < |now| && Refers(e, now[j], t, x) && Refers(e, now[k], u, x)
      ensures j == k && t == u
    {
      if x != b {
        assert Refers(d, inodes[j], t, x) && Refers(d, inodes[k], u, x);
      } else {
        assert !Refers(d, inodes[j], t, b) && !Refers(d, inodes[k], u, b);
      }
    }
  }

  lemma DataPositive(sb: SuperBlock, n: nat, b: nat)
    requires SbOk(sb, n) && DataBlock(sb, b)
    ensures 0 < b
  {
    assert sb.bmapstart + b / BPB < sb.meta;
  }

  /** A direct block, or a zeroed indirect block. */
  lemma AttachAddr(sb: SuperBlock, d: Disk, inodes: seq<Inode>, loose: set<nat>, i: nat, s: nat, b: nat)
    requires FsOk(sb, d, inodes, loose) && b in loose && i < |inodes| && s <= NDIRECT && inodes[i].addrs[s] == 0
    requires s == NDIRECT ==> b < |d| && d[b] == ZeroBlock()
    ensures b < U32 && FsOk(sb, d, inodes[i := WithAddr(inodes[i], s, b)], loose - {b})
  {
    var now := inodes[i := WithAddr(inodes[i], s, b)];
    forall j | 0 <= j < |inodes| ensures inodes[j].addrs[NDIRECT] < |d| && now[j].addrs[NDIRECT] < |d| {
      assert InodeOk(sb, d, inodes[j]);
    }
    forall k: nat | k < NINDIRECT ensures GetWord(ZeroBlock(), k) == 0 { ZeroBlockWord(k); }
    hide GetWord, Used, ZeroBlock;
    DataPositive(sb, |d|, b);
    assert Attached(d, inodes, d, now, i, s, b);
    AttachOk(sb, d, inodes, loose, d, now, i, s, b);
  }

  /** An entry of the indirect block. */
  lemma AttachEntry(sb: SuperBlock, d: Disk, inodes: seq<Inode>, loose: set<nat>, i: nat, j: nat, b: nat)
    requires FsOk(sb, d, inodes, loose) && b in loose && i < |inodes| && j < NINDIRECT && inodes[i].addrs[NDIRECT] != 0
    requires SlotOf(d, inodes[i], NDIRECT + 1 + j) == 0
    ensures var ind := inodes[i].addrs[NDIRECT];
            b < U32 && ind < |d| && DataBlock(sb, ind) && FsOk(sb, d[ind := SetWord(d[ind], j, b)], inodes, loose - {b})
  {
    hide GetWord, SetWord, Used;
    var ind := inodes[i].addrs[NDIRECT];
    assert InodeOk(sb, d, inodes[i]) && SlotOf(d, inodes[i], NDIRECT) == ind;
    var e := d[ind := SetWord(d[ind], j, b)];
    forall k: nat | k < WORDS ensures GetWord(e[ind], k) == if k == j then b else GetWord(d[ind], k) {
      GetSetWord(d[ind], j, b, k);
    }
    OnlyIndirect(sb, d, inodes, i);
    forall m: nat, t: nat | m < |inodes| && t < SLOTS && !(m == i && t == NDIRECT + 1 + j)
      ensures SlotOf(e, inodes[m], t) == SlotOf(d, inodes[m], t)
    {
      if m == i && t > NDIRECT {
        assert GetWord(e[ind], t - NDIRECT - 1) == GetWord(d[ind], t - NDIRECT - 1);
      }
    }
    assert SlotOf(e, inodes[i], NDIRECT + 1 + j) == GetWord(e[ind], j);
    DataPositive(sb, |d|, b);
    assert Attached(d, inodes, e, inodes, i, NDIRECT + 1 + j, b);
    forall x: nat | x < sb.size ensures BBlock(sb, x) < |e| && (Used(sb, e, x) <==> Used(sb, d, x)) {
      UsedElsewhere(sb, d, ind, e[ind], x);
    }
    AttachOk(sb, d, inodes, loose, e, inodes, i, NDIRECT + 1 + j, b);
  }

  /** Filling an entry changes no other file, and of this one only that slot. */
  lemma EntryKeeps(sb: SuperBlock, d: Disk, inodes: seq<Inode>, i: nat, j: nat, b: Word)
    requires AllInodesOk(sb, d, inodes) && Unique(d, inodes) && i < |inodes| && j < NINDIRECT && inodes[i].addrs[NDIRECT] != 0
    ensures var ind := inodes[i].addrs[NDIRECT];
            ind < |d| &&
            var e := d[ind := SetWord(d[ind], j, b)];
            SlotOf(e, inodes[i], NDIRECT + 1 + j) == b &&
            (forall t: nat :: t < SLOTS && t != NDIRECT + 1 + j ==> SlotOf(e, inodes[i], t) == SlotOf(d, inodes[i], t)) &&
            (forall t: nat :: t < SLOTS && t != NDIRECT && SlotOf(d, inodes[i], t) != 0 ==> SlotOf(d, inodes[i], t) != ind) &&
            forall m :: 0 <= m < |inodes| && m != i ==> SameFile(d, e, inodes[m])
  {
    hide GetWord, SetWord;
    var ind := inodes[i].addrs[NDIRECT];
    assert InodeOk(sb, d, inodes[i]) && SlotOf(d, inodes[i], NDIRECT) == ind;
    assert Refers(d, inodes[i], NDIRECT, ind);
    var e := d[ind := SetWord(d[ind], j, b)];
    forall k: nat | k < WORDS ensures GetWord(e[ind], k) == if k == j then b else GetWord(d[ind], k) {
      GetSetWord(d[ind], j, b, k);
    }
    forall t: nat | t < SLOTS && t != NDIRECT ensures SlotOf(d, inodes[i], t) != ind {
      assert !Refers(d, inodes[i], t, ind);
    }
    forall t: nat | t < SLOTS && t != NDIRECT + 1 + j ensures SlotOf(e, inodes[i], t) == SlotOf(d, inodes[i], t) {
      if t > NDIRECT {
        assert GetWord(e[ind], t - NDIRECT - 1) == GetWord(d[ind], t - NDIRECT - 1);
      }
    }
    forall m | 0 <= m < |inodes| && m != i ensures SameFile(d, e, inodes[m]) {
      OthersKeep(sb, d, inodes, i, NDIRECT, m, e[ind]);
    }
  }

  /** Writing a block that one inode references changes no other file. */
  lemma OthersKeep(sb: SuperBlock, d: Disk, inodes: seq<Inode>, i: nat, s: nat, m: nat, data: Block)
    requires AllInodesOk(sb, d, inodes) && Unique(d, inodes) && i < |inodes| && m < |inodes| && m != i
    requires s < SLOTS && inodes[i].addrs[NDIRECT] < |d| && 0 < SlotOf(d, inodes[i], s) < |d|
    ensures SameFile(d, d[SlotOf(d, inodes[i], s) := data], inodes[m])
  {
    hide GetWord;
    var b := SlotOf(d, inodes[i], s);
    assert InodeOk(sb, d, inodes[m]) && Refers(d, inodes[i], s, b);
    forall t: nat | t < SLOTS ensures SlotOf(d, inodes[m], t) != b {
      assert !Refers(d, inodes[m], t, b);
    }
    assert SlotOf(d, inodes[m], NDIRECT) == inodes[m].addrs[NDIRECT];
    SlotsSame(d, d[b := data], inodes[m]);
  }

  /** The indirect block of one inode is not that of another. */
  lemma OnlyIndirect(sb: SuperBlock, d: Disk, inodes: seq<Inode>, i: nat)
    requires AllInodesOk(sb, d, inodes) && Unique(d, inodes) && i < |inodes| && inodes[i].addrs[NDIRECT] != 0
    ensures forall j :: 0 <= j < |inodes| ==> inodes[j].addrs[NDIRECT] < |d| && (j != i ==> inodes[j].addrs[NDIRECT] != inodes[i].addrs[NDIRECT])
  {
    forall j | 0 <= j < |inodes| ensures inodes[j].addrs[NDIRECT] < |d| && (j != i ==> inodes[j].addrs[NDIRECT] != inodes[i].addrs[NDIRECT]) {
      assert InodeOk(sb, d, inodes[j]) && InodeOk(sb, d, inodes[i]);
      var b := inodes[i].addrs[NDIRECT];
      assert Refers(d, inodes[i], NDIRECT, b);
      if j != i { assert !Refers(d, inodes[j], NDIRECT, b); }
    }
  }

  // ----- writing file data, and taking blocks away

  /** Writing a data block of a file touches no slot of any inode and no other file's bytes. */
  lemma WriteData(sb: SuperBlock, d: Disk, inodes: seq<Inode>, loose: set<nat>, i: nat, s: nat, data: Block)
    requires FsOk(sb, d, inodes, loose) && i < |inodes| && s < SLOTS && s != NDIRECT && inodes[i].addrs[NDIRECT] < |d|
    requires SlotOf(d, inodes[i], s) != 0
    ensures var b := SlotOf(d, inodes[i], s);
            DataBlock(sb, b) && b < |d| && FsOk(sb, d[b := data], inodes, loose) &&
            (forall t: nat :: t < SLOTS ==> SlotOf(d[b := data], inodes[i], t) == SlotOf(d, inodes[i], t)) &&
            (forall t: nat :: t < SLOTS && t != s && SlotOf(d, inodes[i], t) != 0 ==> SlotOf(d, inodes[i], t) != b) &&
            forall j :: 0 <= j < |inodes| && j != i ==> SameFile(d, d[b := data], inodes[j])
  {
    hide GetWord, Used;
    var b := SlotOf(d, inodes[i], s);
    var e := d[b := data];
    assert InodeOk(sb, d, inodes[i]) && Refers(d, inodes[i], s, b);
    forall j, t: nat | 0 <= j < |inodes| && t < SLOTS && !(j == i && t == s)
      ensures inodes[j].addrs[NDIRECT] < |d| && SlotOf(d, inodes[j], t) != b
    {
      assert InodeOk(sb, d, inodes[j]) && !Refers(d, inodes[j], t, b);
    }
    forall j | 0 <= j < |inodes|
      ensures inodes[j].addrs[NDIRECT] < |d| && SameSlots(d, e, inodes[j]) &&
              forall t: nat :: t < SLOTS ==> SlotOf(e, inodes[j], t) == SlotOf(d, inodes[j], t)
    {
      assert SlotOf(d, inodes[j], NDIRECT) == inodes[j].addrs[NDIRECT];
      SlotsSame(d, e, inodes[j]);
    }
    DataKeeps(sb, d, e, inodes, loose, b, data);
  }

  lemma DataKeeps(sb: SuperBlock, d: Disk, e: Disk, inodes: seq<Inode>, loose: set<nat>, b: nat, data: Block)
    requires FsOk(sb, d, inodes, loose) && DataBlock(sb, b) && b < |d| && e == d[b := data]
    requires forall j :: 0 <= j < |inodes| ==> (inodes[j].addrs[NDIRECT] < |d| && SameSlots(d, e, inodes[j]) &&
                           forall t: nat :: t < SLOTS ==> SlotOf(e, inodes[j], t) == SlotOf(d, inodes[j], t))
    ensures FsOk(sb, e, inodes, loose)
  {
    hide GetWord, Used, Refers;
    forall j | 0 <= j < |inodes| ensures InodeOk(sb, e, inodes[j]) {
      assert InodeOk(sb, d, inodes[j]);
      InodeSame(sb, d, e, inodes[j]);
    }
    UniqueSame(d, e, inodes);
    forall x: nat ensures Referenced(e, inodes, x) <==> Referenced(d, inodes, x) {
      ReferencedSame(d, e, inodes, x);
    }
    forall x: nat | x < sb.size ensures BBlock(sb, x) < |e| && (Used(sb, e, x) <==> Used(sb, d, x)) {
      UsedElsewhere(sb, d, b, data, x);
    }
    hide AllInodesOk, Unique, Referenced;
  }

  /** The size of a file may become anything its blocks cover. */
  lemma Resize(sb: SuperBlock, d: Disk, inodes: seq<Inode>, loose: set<nat>, i: nat, n: nat)
    requires FsOk(sb, d, inodes, loose) && i < |inodes| && n <= MAXFILE * BSIZE && Readable(d, inodes[i], n)
    ensures FsOk(sb, d, inodes[i := inodes[i].(size := n)], loose)
  {
    hide GetWord, Used;
    var now := inodes[i := inodes[i].(size := n)];
    forall j | 0 <= j < |now| ensures InodeOk(sb, d, now[j]) {
      assert InodeOk(sb, d, inodes[j]);
      assert forall s: nat :: s < SLOTS ==> SlotOf(d, now[j], s) == SlotOf(d, inodes[j], s);
      forall k: nat | j == i && k * BSIZE < n ensures k < MAXFILE && SlotOf(d, now[j], DataSlot(k)) != 0 {
        assert k * BSIZE / BSIZE == k && Mapped(d, inodes[i], k * BSIZE / BSIZE);
      }
    }
    forall j: nat, s: nat, b: nat ensures j < |now| ==> (Refers(d, now[j], s, b) <==> Refers(d, inodes[j], s, b)) {}
    RefersSame(d, inodes, now);
  }

  lemma RefersSame(d: Disk, inodes: seq<Inode>, now: seq<Inode>)
    requires |now| == |inodes|
    requires forall j: nat, s: nat, b: nat :: j < |now| ==> (Refers(d, now[j], s, b) <==> Refers(d, inodes[j], s, b))
    ensures Unique(d, inodes) <==> Unique(d, now)
    ensures forall b: nat :: Referenced(d, now, b) <==> Referenced(d, inodes, b)
  {
    hide Refers;
    forall b: nat ensures Referenced(d, now, b) <==> Referenced(d, inodes, b) {
      if Referenced(d, now, b) {
        var j: nat, s: nat :| j < |now| && Refers(d, now[j], s, b);
        assert Refers(d, inodes[j], s, b);
      }
      if Referenced(d, inodes, b) {
        var j: nat, s: nat :| j < |inodes| && Refers(d, inodes[j], s, b);
        assert Refers(d, now[j], s, b);
      }
    }
  }

  /** The slots that go when address s of an inode is cleared: itself and, for the indirect block, its entries. */
  ghost predicate Goes(s: nat, t: nat) {
    t == s || (s == NDIRECT && t > NDIRECT)
  }

  /** Block b is referenced from a slot that goes with address s. */
  ghost predicate LedTo(d: Disk, ino: Inode, s: nat, b: nat) {
    exists t: nat :: Goes(s, t) && Refers(d, ino, t, b)
  }

  /** Clearing an address makes the blocks it led to loose. */
  lemma Detach(sb: SuperBlock, d: Disk, inodes: seq<Inode>, loose: set<nat>, i: nat, s: nat, gone: set<nat>)
    requires FsOk(sb, d, inodes, loose) && i < |inodes| && s <= NDIRECT && inodes[i].size == 0 && inodes[i].addrs[NDIRECT] < |d|
    requires forall b: nat :: b in gone <==> LedTo(d, inodes[i], s, b)
    ensures FsOk(sb, d, inodes[i := WithAddr(inodes[i], s, 0)], loose + gone)
  {
    hide GetWord, Used;
    var now := inodes[i := WithAddr(inodes[i], s, 0)];
    assert InodeOk(sb, d, inodes[i]);
    forall t: nat | t < SLOTS
      ensures now[i].addrs[NDIRECT] < |d| && SlotOf(d, now[i], t) == if Goes(s, t) then 0 else SlotOf(d, inodes[i], t) {}
    forall j | 0 <= j < |now| ensures InodeOk(sb, d, now[j]) {
      assert InodeOk(sb, d, inodes[j]);
    }
    forall j: nat, t: nat, b: nat | j < |now|
      ensures Refers(d, now[j], t, b) <==> Refers(d, inodes[j], t, b) && !(j == i && Goes(s, t)) {}
    DetachRefers(d, inodes, now, i, s, gone);
    forall b: nat | b in gone ensures DataBlock(sb, b) {
      var t: nat :| Goes(s, t) && Refers(d, inodes[i], t, b);
    }
    hide AllInodesOk, Unique, Refers, Referenced, LedTo, InodeOk, Goes;
  }

  lemma DetachRefers(d: Disk, inodes: seq<Inode>, now: seq<Inode>, i: nat, s: nat, gone: set<nat>)
    requires |now| == |inodes| && i < |inodes| && Unique(d, inodes)
    requires forall j: nat, t: nat, b: nat :: j < |now| ==> (Refers(d, now[j], t, b) <==> Refers(d, inodes[j], t, b) && !(j == i && Goes(s, t)))
    requires forall b: nat :: b in gone <==> LedTo(d, inodes[i], s, b)
    ensures Unique(d, now)
    ensures forall b: nat :: Referenced(d, inodes, b) <==> Referenced(d, now, b) || b in gone
    ensures forall b: nat :: b in gone ==> !Referenced(d, now, b)
  {
    hide Refers;
    forall b: nat ensures (Referenced(d, inodes, b) <==> Referenced(d, now, b) || b in gone) && (b in gone ==> !Referenced(d, now, b)) {
      if Referenced(d, inodes, b) {
        var j: nat, t: nat :| j < |inodes| && Refers(d, inodes[j], t, b);
        if !(j == i && Goes(s, t)) { assert Refers(d, now[j], t, b); }
      }
      if Referenced(d, now, b) {
        var j: nat, t: nat :| j < |now| && Refers(d, now[j], t, b);
        assert Refers(d, inodes[j], t, b);
      }
      if LedTo(d, inodes[i], s, b) {
        var t: nat :| Goes(s, t) && Refers(d, inodes[i], t, b);
        forall j: nat, u: nat | j < |now| ensures !Refers(d, now[j], u, b) {}
      }
    }
  }

  /** The nonzero entries of an indirect block from entry j on. */
  ghost function EntriesFrom(data: Block, j: nat): (r: set<nat>)
    requires j <= NINDIRECT
    decreases NINDIRECT - j
  {
    if j == NINDIRECT then {}
    else EntriesFrom(data, j + 1) + if GetWord(data, j) == 0 then {} else {GetWord(data, j)}
  }

  ghost predicate EntryFrom(data: Block, j: nat, x: nat) {
    x != 0 && exists k: nat :: j <= k < NINDIRECT && GetWord(data, k) == x
  }

  lemma {:induction false} EntriesIn(data: Block, j: nat, x: nat)
    requires j <= NINDIRECT
    ensures x in EntriesFrom(data, j) <==> EntryFrom(data, j, x)
    decreases NINDIRECT - j
  {
    hide GetWord;
    if j < NINDIRECT {
      EntriesIn(data, j + 1, x);
      if EntryFrom(data, j, x) {
        var k: nat :| j <= k < NINDIRECT && GetWord(data, k) == x;
        assert k == j || EntryFrom(data, j + 1, x);
      }
    }
  }

  /** What the address of an indirect block leads to. */
  lemma IndirectLedTo(sb: SuperBlock, d: Disk, ino: Inode)
    requires InodeOk(sb, d, ino) && ino.addrs[NDIRECT] != 0
    ensures forall b: nat :: b in {ino.addrs[NDIRECT]} + EntriesFrom(d[ino.addrs[NDIRECT]], 0) <==> LedTo(d, ino, NDIRECT, b)
  {
    hide GetWord;
    var ind := ino.addrs[NDIRECT];
    forall b: nat ensures b in {ind} + EntriesFrom(d[ind], 0) <==> LedTo(d, ino, NDIRECT, b) {
      EntriesIn(d[ind], 0, b);
      if b == ind { assert Goes(NDIRECT, NDIRECT) && Refers(d, ino, NDIRECT, b); }
      if EntryFrom(d[ind], 0, b) {
        var k: nat :| 0 <= k < NINDIRECT && GetWord(d[ind], k) == b;
        assert Goes(NDIRECT, NDIRECT + 1 + k) && Refers(d, ino, NDIRECT + 1 + k, b);
      }
      if LedTo(d, ino, NDIRECT, b) {
        var t: nat :| Goes(NDIRECT, t) && Refers(d, ino, t, b);
        if t != NDIRECT { assert GetWord(d[ind], t - NDIRECT - 1) == b; }
      }
    }
  }

  /** An entry occurs once in its indirect block, and the block does not list itself. */
  lemma EntryOnce(sb: SuperBlock, d: Disk, inodes: seq<Inode>, i: nat, j: nat)
    requires AllInodesOk(sb, d, inodes) && Unique(d, inodes) && i < |inodes| && inodes[i].addrs[NDIRECT] != 0 && j < NINDIRECT
    ensures var ind := inodes[i].addrs[NDIRECT];
            ind < |d| && ind !in EntriesFrom(d[ind], 0) &&
            (GetWord(d[ind], j) != 0 ==> GetWord(d[ind], j) !in EntriesFrom(d[ind], j + 1) && GetWord(d[ind], j) != ind)
  {
    hide GetWord;
    var ind := inodes[i].addrs[NDIRECT];
    assert InodeOk(sb, d, inodes[i]) && Refers(d, inodes[i], NDIRECT, ind);
    forall k: nat | k < NINDIRECT ensures GetWord(d[ind], k) != ind {
      assert !Refers(d, inodes[i], NDIRECT + 1 + k, ind);
    }
    EntriesIn(d[ind], 0, ind);
    var x := GetWord(d[ind], j);
    if x != 0 {
      assert Refers(d, inodes[i], NDIRECT + 1 + j, x);
      forall k: nat | j < k < NINDIRECT ensures GetWord(d[ind], k) != x {
        assert !Refers(d, inodes[i], NDIRECT + 1 + k, x);
      }
      EntriesIn(d[ind], j + 1, x);
    }
  }
}
