/** How much room a disk has, and how much of it a write needs (balloc and bmap in fs.c). */
module FsSpace {
  import opened Blocks
  import opened Fs
  import opened Seqs

  /** The blocks that balloc may hand out. */
  ghost function FreeBlocks(sb: SuperBlock, d: Disk): set<nat> {
    set b: nat | b < sb.size && BBlock(sb, b) < |d| && !Used(sb, d, b)
  }

  ghost function Room(sb: SuperBlock, d: Disk): nat {
    |FreeBlocks(sb, d)|
  }

  lemma FreeIs(sb: SuperBlock, d: Disk, b: nat)
    ensures b in FreeBlocks(sb, d) <==> b < sb.size && BBlock(sb, b) < |d| && !Used(sb, d, b)
  {}

  /** balloc takes one free block. */
  lemma AllocRoom(sb: SuperBlock, d: Disk, b: nat)
    requires SbOk(sb, |d|) && DataBlock(sb, b) && BBlock(sb, b) < |d| && !Used(sb, d, b)
    ensures 0 < Room(sb, d) && Room(sb, Allocated(sb, d, b)) == Room(sb, d) - 1
  {
    hide Used, MarkUsed, FreeBlocks;
    var e, c := Allocated(sb, d, b), MarkUsed(sb, d, b);
    forall x: nat ensures x in FreeBlocks(sb, e) <==> x in FreeBlocks(sb, d) && x != b {
      FreeIs(sb, d, x);
      FreeIs(sb, e, x);
      if x < sb.size {
        UsedElsewhere(sb, c, b, ZeroBlock(), x);
        MarkBits(sb, d, b, x);
      }
    }
    FreeIs(sb, d, b);
    assert FreeBlocks(sb, e) == FreeBlocks(sb, d) - {b};
  }

  /** Writing a data block does not touch the bitmap. */
  lemma PutRoom(sb: SuperBlock, d: Disk, b: nat, data: Block)
    requires SbOk(sb, |d|) && DataBlock(sb, b)
    ensures b < |d| && Room(sb, d[b := data]) == Room(sb, d)
  {
    hide Used, FreeBlocks;
    forall x: nat ensures x in FreeBlocks(sb, d[b := data]) <==> x in FreeBlocks(sb, d) {
      FreeIs(sb, d, x);
      FreeIs(sb, d[b := data], x);
      if x < sb.size { UsedElsewhere(sb, d, b, data, x); }
    }
    assert FreeBlocks(sb, d[b := data]) == FreeBlocks(sb, d);
  }

  lemma NoRoom(sb: SuperBlock, d: Disk)
    requires forall b: nat :: b < sb.size ==> BBlock(sb, b) < |d| && Used(sb, d, b)
    ensures Room(sb, d) == 0
  {
    hide Used;
    assert FreeBlocks(sb, d) == {};
  }

  // ----- the blocks a write wants

  /** The blocks that bmap allocates for block bn of a file: the block, and the indirect block if it is the first to need it. */
  function Takes(d: Disk, ino: Inode, bn: nat): nat
    requires bn < MAXFILE && ino.addrs[NDIRECT] < |d|
  {
    (if SlotOf(d, ino, DataSlot(bn)) == 0 then 1 else 0) + (if NDIRECT <= bn && ino.addrs[NDIRECT] == 0 then 1 else 0)
  }

  /** The blocks from lo to hi - 1 that the file does not have. */
  function Holes(d: Disk, ino: Inode, lo: nat, hi: nat): nat
    requires lo <= hi <= MAXFILE && ino.addrs[NDIRECT] < |d|
    decreases hi - lo
  {
    if lo == hi then 0 else (if SlotOf(d, ino, DataSlot(lo)) == 0 then 1 else 0) + Holes(d, ino, lo + 1, hi)
  }

  /** What writing to the blocks lo to hi - 1 of a file allocates: those it does not have and, if there are any behind the
      direct blocks, the indirect block. */
  function Wanted(d: Disk, ino: Inode, lo: nat, hi: nat): nat
    requires lo <= hi <= MAXFILE && ino.addrs[NDIRECT] < |d|
  {
    Holes(d, ino, lo, hi) + if lo < hi && NDIRECT < hi && ino.addrs[NDIRECT] == 0 then 1 else 0
  }

  lemma {:induction false} HolesSame(d: Disk, ino: Inode, e: Disk, now: Inode, lo: nat, hi: nat)
    requires lo <= hi <= MAXFILE && ino.addrs[NDIRECT] < |d| && now.addrs[NDIRECT] < |e|
    requires forall k: nat :: lo <= k < hi ==> SlotOf(e, now, DataSlot(k)) == SlotOf(d, ino, DataSlot(k))
    ensures Holes(e, now, lo, hi) == Holes(d, ino, lo, hi)
    decreases hi - lo
  {
    hide SlotOf;
    if lo < hi { HolesSame(d, ino, e, now, lo + 1, hi); }
  }

  /** From (d, ino) to (e, now) the inode has gained what it lacked for block bn, and nothing else has moved. */
  ghost predicate Fills(d: Disk, ino: Inode, e: Disk, now: Inode, bn: nat) {
    bn < MAXFILE && ino.addrs[NDIRECT] < |d| && now.addrs[NDIRECT] < |e| &&
    (forall k: nat :: k < MAXFILE && k != bn ==> SlotOf(e, now, DataSlot(k)) == SlotOf(d, ino, DataSlot(k))) &&
    SlotOf(e, now, DataSlot(bn)) != 0 && (bn < NDIRECT ==> now.addrs[NDIRECT] == ino.addrs[NDIRECT]) &&
    (NDIRECT <= bn ==> now.addrs[NDIRECT] != 0) && (SlotOf(d, ino, DataSlot(bn)) != 0 ==> now.addrs[NDIRECT] == ino.addrs[NDIRECT])
  }

  lemma FillStep(d: Disk, ino: Inode, e: Disk, now: Inode, bn: nat, hi: nat)
    requires Fills(d, ino, e, now, bn) && bn < hi <= MAXFILE
    ensures Wanted(d, ino, bn, hi) == Takes(d, ino, bn) + Wanted(e, now, bn + 1, hi)
  {
    hide SlotOf;
    HolesSame(d, ino, e, now, bn + 1, hi);
  }

  /** A block that the file has costs nothing. */
  lemma MappedFree(d: Disk, ino: Inode, bn: nat, hi: nat)
    requires Mapped(d, ino, bn) && bn < hi <= MAXFILE
    ensures Takes(d, ino, bn) == 0 && Wanted(d, ino, bn, hi) == Wanted(d, ino, bn + 1, hi)
  {}

  lemma {:induction false} HolesSplit(d: Disk, ino: Inode, lo: nat, mid: nat, hi: nat)
    requires lo <= mid <= hi <= MAXFILE && ino.addrs[NDIRECT] < |d|
    ensures Holes(d, ino, lo, hi) == Holes(d, ino, lo, mid) + Holes(d, ino, mid, hi)
    decreases mid - lo
  {
    hide SlotOf;
    if lo < mid { HolesSplit(d, ino, lo + 1, mid, hi); }
  }

  /** A longer write wants no less. */
  lemma WantedGrows(d: Disk, ino: Inode, lo: nat, mid: nat, hi: nat)
    requires lo <= mid <= hi <= MAXFILE && ino.addrs[NDIRECT] < |d|
    ensures Wanted(d, ino, lo, mid) <= Wanted(d, ino, lo, hi)
  {
    hide SlotOf;
    HolesSplit(d, ino, lo, mid, hi);
  }

  // ----- keeping account

  /** What the blocks lo to c - 1 of the file wanted in d has been taken from the room by e: for every write that goes on,
      the room that is left and what is still wanted make up the same sum. */
  ghost predicate Accounts(sb: SuperBlock, d: Disk, ino: Inode, lo: nat, e: Disk, now: Inode, c: nat) {
    lo <= c && ino.addrs[NDIRECT] < |d| && now.addrs[NDIRECT] < |e| &&
    forall hi: nat :: c <= hi <= MAXFILE ==> Room(sb, d) + Wanted(e, now, c, hi) == Room(sb, e) + Wanted(d, ino, lo, hi)
  }

  lemma AccountsStart(sb: SuperBlock, d: Disk, ino: Inode, lo: nat)
    requires ino.addrs[NDIRECT] < |d|
    ensures Accounts(sb, d, ino, lo, d, ino, lo)
  {}

  lemma AccountsAt(sb: SuperBlock, d: Disk, ino: Inode, lo: nat, e: Disk, now: Inode, c: nat, hi: nat)
    requires Accounts(sb, d, ino, lo, e, now, c) && c <= hi <= MAXFILE
    ensures Room(sb, d) + Wanted(e, now, c, hi) == Room(sb, e) + Wanted(d, ino, lo, hi)
  {}

  /** With the account kept up to c, what was wanted up to there has been there. */
  lemma AccountsRoom(sb: SuperBlock, d: Disk, ino: Inode, lo: nat, e: Disk, now: Inode, c: nat)
    requires Accounts(sb, d, ino, lo, e, now, c) && c <= MAXFILE
    ensures Room(sb, d) == Room(sb, e) + Wanted(d, ino, lo, c)
  {
    AccountsAt(sb, d, ino, lo, e, now, c, c);
  }

  lemma AccountsThen(sb: SuperBlock, d: Disk, ino: Inode, lo: nat, e: Disk, now: Inode, c: nat, f: Disk, last: Inode, h: nat)
    requires Accounts(sb, d, ino, lo, e, now, c) && Accounts(sb, e, now, c, f, last, h)
    ensures Accounts(sb, d, ino, lo, f, last, h)
  {
    hide Wanted, Room;
    forall hi: nat | h <= hi <= MAXFILE ensures Room(sb, d) + Wanted(f, last, h, hi) == Room(sb, f) + Wanted(d, ino, lo, hi) {
      AccountsAt(sb, d, ino, lo, e, now, c, hi);
      AccountsAt(sb, e, now, c, f, last, h, hi);
    }
  }

  /** One block more, which is the next one or, if the last write ended inside it, one that is there. */
  lemma AccountsFill(sb: SuperBlock, d: Disk, ino: Inode, lo: nat, e: Disk, was: Inode, c: nat, f: Disk, now: Inode, bn: nat)
    requires Accounts(sb, d, ino, lo, e, was, c) && Fills(e, was, f, now, bn) && Room(sb, e) == Room(sb, f) + Takes(e, was, bn)
    requires bn == c || (bn + 1 == c && Mapped(e, was, bn))
    ensures Accounts(sb, d, ino, lo, f, now, bn + 1)
  {
    hide Wanted, Room, Fills, Takes, SlotOf;
    AddrsIn(e, was, f, now, bn);
    forall hi: nat | bn + 1 <= hi <= MAXFILE ensures Room(sb, d) + Wanted(f, now, bn + 1, hi) == Room(sb, f) + Wanted(d, ino, lo, hi) {
      AccountsAt(sb, d, ino, lo, e, was, c, hi);
      FillStep(e, was, f, now, bn, hi);
      if bn + 1 == c { MappedFree(e, was, bn, hi); }
    }
  }

  lemma AddrsIn(d: Disk, ino: Inode, e: Disk, now: Inode, bn: nat)
    requires Fills(d, ino, e, now, bn)
    ensures bn < MAXFILE && ino.addrs[NDIRECT] < |d| && now.addrs[NDIRECT] < |e|
  {}

  /** Going on from inside a block that is there. */
  lemma AccountsBack(sb: SuperBlock, e: Disk, was: Inode, bn: nat, f: Disk, now: Inode, h: nat)
    requires Mapped(e, was, bn) && Accounts(sb, e, was, bn, f, now, h) && bn + 1 <= h
    ensures Accounts(sb, e, was, bn + 1, f, now, h)
  {
    hide Wanted, Room, SlotOf;
    forall hi: nat | h <= hi <= MAXFILE ensures Room(sb, e) + Wanted(f, now, h, hi) == Room(sb, f) + Wanted(e, was, bn + 1, hi) {
      AccountsAt(sb, e, was, bn, f, now, h, hi);
      MappedFree(e, was, bn, hi);
    }
  }
}
