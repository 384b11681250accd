/** The buffer cache of bio.c: as values (Cache) and as the doubly linked ring of buffers the C code
    updates in place (BufferCache). */
module Bio {
  import opened Blocks
  import opened Options
  import opened Seqs

  datatype Buf = Buf(valid: bool, dirty: bool, dev: nat, blockno: nat, locked: bool, refcnt: nat, data: Block)

  /** The buffers, and their indices from most to least recently released. */
  datatype Cache = Cache(bufs: seq<Buf>, ring: seq<nat>)

  predicate Keyed(b: Buf, dev: nat, blockno: nat) {
    b.dev == dev && b.blockno == blockno
  }

  predicate Recyclable(b: Buf) {
    b.refcnt == 0 && !b.dirty
  }

  // ----- invariants

  /** Every buffer occurs in the ring exactly once. */
  ghost predicate RingOk(ring: seq<nat>, n: nat) {
    |ring| == n &&
    (forall k :: 0 <= k < |ring| ==> ring[k] < n) &&
    (forall j, k :: 0 <= j < k < |ring| ==> ring[j] != ring[k]) &&
    (forall i :: 0 <= i < n ==> i in ring)
  }

  /** At most one buffer per block of a real device; a locked buffer is referenced,
      and a dirty one has valid contents. */
  ghost predicate CacheOk(c: Cache) {
    RingOk(c.ring, |c.bufs|) &&
    (forall i, j :: 0 <= i < j < |c.bufs| && c.bufs[i].dev != 0 ==>
       !Keyed(c.bufs[j], c.bufs[i].dev, c.bufs[i].blockno)) &&
    (forall i :: 0 <= i < |c.bufs| ==>
       (c.bufs[i].locked ==> 0 < c.bufs[i].refcnt) && (c.bufs[i].dirty ==> c.bufs[i].valid))
  }

  /** Changing anything but its key in one buffer keeps the cache invariant, if the flags stay consistent. */
  lemma SetBufOk(c: Cache, i: nat, b: Buf)
    requires CacheOk(c) && i < |c.bufs| && Keyed(b, c.bufs[i].dev, c.bufs[i].blockno)
    requires (b.locked ==> 0 < b.refcnt) && (b.dirty ==> b.valid)
    ensures CacheOk(c.(bufs := c.bufs[i := b]))
  {}

  // ----- bget

  /** The first buffer with this key among the ring positions k.. */
  function Lookup(c: Cache, dev: nat, blockno: nat, k: nat): (r: Option<nat>)
    requires k <= |c.ring| && forall j :: 0 <= j < |c.ring| ==> c.ring[j] < |c.bufs|
    ensures r.Some? ==> r.value in c.ring[k..] && r.value < |c.bufs| && Keyed(c.bufs[r.value], dev, blockno)
    ensures r.None? ==> forall j :: k <= j < |c.ring| ==> !Keyed(c.bufs[c.ring[j]], dev, blockno)
    decreases |c.ring| - k
  {
    if k == |c.ring| then None
    else if Keyed(c.bufs[c.ring[k]], dev, blockno) then Some(c.ring[k])
    else Lookup(c, dev, blockno, k + 1)
  }

  /** The last recyclable buffer among the first k ring positions. */
  function Victim(c: Cache, k: nat): (r: Option<nat>)
    requires k <= |c.ring| && forall j :: 0 <= j < |c.ring| ==> c.ring[j] < |c.bufs|
    ensures r.Some? ==> r.value < |c.bufs| && Recyclable(c.bufs[r.value])
    ensures r.Some? ==> exists p :: 0 <= p < k && c.ring[p] == r.value &&
                                    forall j :: p < j < k ==> !Recyclable(c.bufs[c.ring[j]])
    ensures r.None? ==> forall j :: 0 <= j < k ==> !Recyclable(c.bufs[c.ring[j]])
  {
    if k == 0 then None
    else if Recyclable(c.bufs[c.ring[k - 1]]) then Some(c.ring[k - 1])
    else Victim(c, k - 1)
  }

  datatype Got = Halt | Got(i: nat, c: Cache)

  /** How bread ends for its caller: in a panic, asleep on the lock of a buffer, or with the buffer. */
  datatype Read = Halted | Sleeping(b: nat) | Found(b: nat)

  /** The part of bget that runs under bcache.lock. */
  function GetBuf(c: Cache, dev: nat, blockno: nat): (g: Got)
    requires RingOk(c.ring, |c.bufs|)
  {
    var hit := Lookup(c, dev, blockno, 0);
    if hit.Some? then
      var b := c.bufs[hit.value];
      Got(hit.value, c.(bufs := c.bufs[hit.value := b.(refcnt := b.refcnt + 1)]))
    else
      var v := Victim(c, |c.ring|);
      if v.None? then Halt
      else
        var b := c.bufs[v.value];
        Got(v.value, c.(bufs := c.bufs[v.value :=
          b.(dev := dev, blockno := blockno, valid := false, dirty := false, refcnt := 1)]))
  }

  /** bget hands out the block's one buffer with its contents if the block is cached, and otherwise
      takes over a buffer nobody references and no transaction has pinned, the one longest out of use; every other
      buffer is untouched, and the cache invariant holds again. */
  lemma GetBufSafe(c: Cache, dev: nat, blockno: nat)
    requires CacheOk(c) && dev != 0
    requires GetBuf(c, dev, blockno).Got?
    ensures var Got(i, d) := GetBuf(c, dev, blockno);
            CacheOk(d) && i < |c.bufs| == |d.bufs| && d.ring == c.ring &&
            Keyed(d.bufs[i], dev, blockno) && 0 < d.bufs[i].refcnt &&
            (forall j :: 0 <= j < |c.bufs| && j != i ==> d.bufs[j] == c.bufs[j]) &&
            (if Keyed(c.bufs[i], dev, blockno)
             then d.bufs[i] == c.bufs[i].(refcnt := c.bufs[i].refcnt + 1)
             else (exists p :: 0 <= p < |c.ring| && c.ring[p] == i && forall q :: p < q < |c.ring| ==> !Recyclable(c.bufs[c.ring[q]])) &&
                  Recyclable(c.bufs[i]) && !d.bufs[i].valid && !d.bufs[i].dirty && !d.bufs[i].locked && d.bufs[i].refcnt == 1)
  {
    var Got(i, d) := GetBuf(c, dev, blockno);
    var hit := Lookup(c, dev, blockno, 0);
    if hit.None? {
      forall j | 0 <= j < |c.bufs| ensures !Keyed(c.bufs[j], dev, blockno) {
        assert j in c.ring;
      }
    }
  }

  /** "bget: no buffers" is reached exactly when the block is not cached and every buffer is referenced or pinned. */
  lemma GetBufHaltsIff(c: Cache, dev: nat, blockno: nat)
    requires RingOk(c.ring, |c.bufs|)
    ensures GetBuf(c, dev, blockno).Halt? <==>
            forall i :: 0 <= i < |c.bufs| ==> !Keyed(c.bufs[i], dev, blockno) && !Recyclable(c.bufs[i])
  {
    if GetBuf(c, dev, blockno).Halt? {
      forall i | 0 <= i < |c.bufs| ensures !Keyed(c.bufs[i], dev, blockno) && !Recyclable(c.bufs[i]) {
        assert i in c.ring;
      }
    }
  }

  // ----- brelse

  lemma MoveToFrontOk(ring: seq<nat>, n: nat, i: nat)
    requires RingOk(ring, n) && i < n
    ensures RingOk(MoveToFront(ring, i), n)
  {
    var p := Position(ring, i);
    var r := MoveToFront(ring, i);
    assert forall k :: 0 <= k < |r| ==> r[k] == if k == 0 then i else if k <= p then ring[k - 1] else ring[k];
    forall j | 0 <= j < n ensures j in r {
      var q := Position(ring, j);
      assert r[if q == p then 0 else if q < p then q + 1 else q] == j;
    }
  }

  /** releasesleep(&b->lock) */
  function Unlock(c: Cache, i: nat): Cache
    requires i < |c.bufs|
  {
    c.(bufs := c.bufs[i := c.bufs[i].(locked := false)])
  }

  /** The part of brelse that runs under bcache.lock. */
  function DropRef(c: Cache, i: nat): Cache
    requires i < |c.bufs| && 0 < c.bufs[i].refcnt && i in c.ring
  {
    var b := c.bufs[i];
    var bufs := c.bufs[i := b.(refcnt := b.refcnt - 1)];
    Cache(bufs, if b.refcnt == 1 then MoveToFront(c.ring, i) else c.ring)
  }

  lemma DropRefSafe(c: Cache, i: nat)
    requires CacheOk(c) && i < |c.bufs| && 0 < c.bufs[i].refcnt
    requires c.bufs[i].refcnt == 1 ==> !c.bufs[i].locked
    ensures CacheOk(DropRef(c, i))
    ensures c.bufs[i].refcnt == 1 ==> DropRef(c, i).ring[0] == i
  {
    MoveToFrontOk(c.ring, |c.bufs|, i);
  }

  // ----- iderw on the memory disk

  /** iderw, or Panic. */
  datatype Io = Panic | Io(c: Cache, d: seq<Block>)

  function Transfer(c: Cache, d: seq<Block>, i: nat): (r: Io)
    requires i < |c.bufs|
  {
    var b := c.bufs[i];
    if !b.locked || (b.valid && !b.dirty) || b.dev != 1 || b.blockno >= |d| then Panic
    else if b.dirty then
      Io(c.(bufs := c.bufs[i := b.(dirty := false, valid := true)]), d[b.blockno := b.data])
    else
      Io(c.(bufs := c.bufs[i := b.(valid := true, data := d[b.blockno])]), d)
  }

  /** acquiresleep once the lock is free, and the read that bread does if the contents are not valid yet. */
  function LockAndFill(c: Cache, d: seq<Block>, i: nat): (r: Got)
    requires i < |c.bufs|
  {
    var locked := c.(bufs := c.bufs[i := c.bufs[i].(locked := true)]);
    if locked.bufs[i].valid then Got(i, locked)
    else
      var io := Transfer(locked, d, i);
      if io.Panic? then Halt else Got(i, io.c)
  }

  function ReadBuf(c: Cache, d: seq<Block>, dev: nat, blockno: nat): (r: Got)
    requires RingOk(c.ring, |c.bufs|)
  {
    var g := GetBuf(c, dev, blockno);
    if g.Halt? then Halt else LockAndFill(g.c, d, g.i)
  }

  function WriteBuf(c: Cache, d: seq<Block>, i: nat): (r: Io)
    requires i < |c.bufs|
  {
    if !c.bufs[i].locked then Panic
    else Transfer(c.(bufs := c.bufs[i := c.bufs[i].(dirty := true)]), d, i)
  }

  /** No process holds the buffer that bget finds for this block. */
  ghost predicate Unheld(c: Cache, blockno: nat)
    requires RingOk(c.ring, |c.bufs|)
  {
    var got := GetBuf(c, 1, blockno);
    got.Got? ==> !got.c.bufs[got.i].locked
  }

  function ReleaseBuf(c: Cache, i: nat): Cache
    requires RingOk(c.ring, |c.bufs|) && i < |c.bufs| && 0 < c.bufs[i].refcnt
  {
    DropRef(Unlock(c, i), i)
  }

  // ----- coherence with the disk

  /** A valid buffer of device 1 that is not waiting to be written equals its disk block. */
  ghost predicate Coherent(c: Cache, d: seq<Block>) {
    forall i :: 0 <= i < |c.bufs| && c.bufs[i].valid && !c.bufs[i].dirty && c.bufs[i].dev == 1 ==>
      c.bufs[i].blockno < |d| && c.bufs[i].data == d[c.bufs[i].blockno]
  }

  lemma LockAndFillSafe(c: Cache, d: seq<Block>, i: nat)
    requires CacheOk(c) && i < |c.bufs| && c.bufs[i].dev == 1 && c.bufs[i].blockno < |d| && 0 < c.bufs[i].refcnt
    ensures var b := c.bufs[i];
            var filled := b.(valid := true, locked := true, data := if b.valid then b.data else d[b.blockno]);
            LockAndFill(c, d, i) == Got(i, c.(bufs := c.bufs[i := filled]))
    ensures CacheOk(LockAndFill(c, d, i).c)
  {
    var b := c.bufs[i];
    SetBufOk(c, i, b.(valid := true, locked := true, data := if b.valid then b.data else d[b.blockno]));
  }

  /** Buffer i after bread of a block: locked, with the cached contents or else the disk's. */
  function FetchedBuf(c: Cache, d: seq<Block>, i: nat, blockno: nat): Buf
    requires i < |c.bufs| && blockno < |d|
  {
    var b := c.bufs[i];
    if Keyed(b, 1, blockno) then
      b.(valid := true, locked := true, refcnt := b.refcnt + 1, data := if b.valid then b.data else d[blockno])
    else Buf(true, false, 1, blockno, true, 1, d[blockno])
  }

  /** e is c after bread of a block into buffer i: the block's own buffer or one nobody needs. */
  ghost predicate Fetched(c: Cache, d: seq<Block>, e: Cache, i: nat, blockno: nat) {
    i < |c.bufs| && blockno < |d| && CacheOk(e) && e.ring == c.ring &&
    (Keyed(c.bufs[i], 1, blockno) || Recyclable(c.bufs[i])) &&
    e.bufs == c.bufs[i := FetchedBuf(c, d, i, blockno)]
  }

  /** bread gives the locked buffer of the block with the cached contents, or the disk's if none were
      cached; it changes no other buffer and takes over only a buffer nobody needs. */
  lemma ReadBufSafe(c: Cache, d: seq<Block>, blockno: nat)
    requires CacheOk(c) && blockno < |d|
    ensures var r := ReadBuf(c, d, 1, blockno);
            if GetBuf(c, 1, blockno).Halt? then r.Halt? else r.Got? && Fetched(c, d, r.c, r.i, blockno)
  {
    var got := GetBuf(c, 1, blockno);
    if got.Got? {
      GetBufSafe(c, 1, blockno);
      hide CacheOk, GetBuf, LockAndFill;
      LockAndFillSafe(got.c, d, got.i);
    }
  }

  /** A block that is cached is found in its own buffer, and bread of it never panics. */
  lemma ReadCached(c: Cache, d: seq<Block>, i: nat, blockno: nat)
    requires CacheOk(c) && i < |c.bufs| && Keyed(c.bufs[i], 1, blockno) && blockno < |d|
    ensures var r := ReadBuf(c, d, 1, blockno);
            r.Got? && r.i == i && GetBuf(c, 1, blockno).Got? && GetBuf(c, 1, blockno).i == i
  {
    GetBufHaltsIff(c, 1, blockno);
    GetBufSafe(c, 1, blockno);
    var got := GetBuf(c, 1, blockno);
    assert Keyed(got.c.bufs[got.i], 1, blockno) && Keyed(got.c.bufs[i], 1, blockno);
    hide GetBuf;
    LockAndFillSafe(got.c, d, i);
  }

  /** bwrite of a held buffer puts its contents on the disk and leaves the buffer clean. */
  lemma WriteBufSafe(c: Cache, d: seq<Block>, i: nat)
    requires CacheOk(c) && i < |c.bufs| && c.bufs[i].locked && c.bufs[i].dev == 1 && c.bufs[i].blockno < |d|
    ensures WriteBuf(c, d, i) == Io(c.(bufs := c.bufs[i := c.bufs[i].(dirty := false, valid := true)]),
                                    d[c.bufs[i].blockno := c.bufs[i].data])
    ensures CacheOk(WriteBuf(c, d, i).c)
  {
    SetBufOk(c, i, c.bufs[i].(dirty := false, valid := true));
  }

  /** brelse gives up the lock and the reference, and nothing else about the buffers changes. */
  lemma ReleaseBufSafe(c: Cache, i: nat)
    requires CacheOk(c) && i < |c.bufs| && c.bufs[i].locked
    ensures CacheOk(ReleaseBuf(c, i))
    ensures ReleaseBuf(c, i).bufs == c.bufs[i := c.bufs[i].(locked := false, refcnt := c.bufs[i].refcnt - 1)]
  {
    DropRefSafe(Unlock(c, i), i);
  }

  // ----- the ring as prev/next links

  /** Ring position k, where the positions just outside the ring are the list head. */
  function At(ring: seq<nat>, head: nat, k: int): nat {
    if 0 <= k < |ring| then ring[k] else head
  }

  ghost predicate Linked(next: seq<nat>, prev: seq<nat>, ring: seq<nat>, head: nat) {
    |next| == head + 1 && |prev| == head + 1 &&
    (forall k :: 0 <= k < |ring| ==> ring[k] < head) &&
    (forall j, k :: 0 <= j < k < |ring| ==> ring[j] != ring[k]) &&
    (forall k :: -1 <= k < |ring| ==> next[At(ring, head, k)] == At(ring, head, k + 1)) &&
    (forall k :: 0 <= k <= |ring| ==> prev[At(ring, head, k)] == At(ring, head, k - 1))
  }

  lemma LinkedRemove(next: seq<nat>, prev: seq<nat>, ring: seq<nat>, head: nat, p: nat)
    requires Linked(next, prev, ring, head) && p < |ring|
    ensures var b := ring[p];
            next[b] <= head && prev[b] <= head &&
            Linked(next[prev[b] := next[b]], prev[next[b] := prev[b]], ring[..p] + ring[p + 1..], head)
  {
    var r := ring[..p] + ring[p + 1..];
    var b := ring[p];
    assert b == At(ring, head, p);
    assert next[b] == At(ring, head, p + 1) && prev[b] == At(ring, head, p - 1);
    var next', prev' := next[prev[b] := next[b]], prev[next[b] := prev[b]];
    forall k | -1 <= k < |r| ensures next'[At(r, head, k)] == At(r, head, k + 1) {
      assert At(r, head, k) == At(ring, head, if k < p then k else k + 1);
      assert At(r, head, k + 1) == At(ring, head, if k + 1 < p then k + 1 else k + 2);
    }
    forall k | 0 <= k <= |r| ensures prev'[At(r, head, k)] == At(r, head, k - 1) {
      assert At(r, head, k) == At(ring, head, if k < p then k else k + 1);
      assert At(r, head, k - 1) == At(ring, head, if k - 1 < p then k - 1 else k);
    }
  }

  lemma LinkedPush(next: seq<nat>, prev: seq<nat>, ring: seq<nat>, head: nat, b: nat)
    requires Linked(next, prev, ring, head) && b < head && b !in ring
    ensures next[head] <= head && next[head] != b
    ensures Linked(next[b := next[head]][head := b], prev[b := head][next[head] := b], [b] + ring, head)
  {
    var r := [b] + ring;
    assert next[head] == At(ring, head, 0) by { assert At(ring, head, -1) == head; }
    var next', prev' := next[b := next[head]][head := b], prev[b := head][next[head] := b];
    assert forall k {:trigger At(r, head, k)} :: k != 0 ==> At(r, head, k) == At(ring, head, k - 1);
    forall k | -1 <= k < |r| ensures next'[At(r, head, k)] == At(r, head, k + 1) {
      if k > 0 { assert next[At(ring, head, k - 1)] == At(ring, head, k); }
    }
    forall k | 0 <= k <= |r| ensures prev'[At(r, head, k)] == At(r, head, k - 1) {
      if k > 1 { assert prev[At(ring, head, k - 1)] == At(ring, head, k - 2); }
    }
  }

  /** struct bcache, its links as array indices with index buf.Length for the head, and the memory disk under it. */
  class BufferCache {
    const buf: array<Buf>
    const next: array<nat>
    const prev: array<nat>
    const disk: array<Block>
    ghost var ring: seq<nat>
    ghost var trace: seq<seq<Block>>     // the disk after each block write

    ghost predicate Valid()
      reads this, buf, next, prev
    {
      next != prev && buf as object != disk && buf as object != next && buf as object != prev &&
      disk as object != next && disk as object != prev &&
      Linked(next[..], prev[..], ring, buf.Length) && RingOk(ring, buf.Length)
    }

    ghost function State(): Cache
      reads this, buf
    {
      Cache(buf[..], ring)
    }

    /** binit */
    constructor (nbuf: nat, blocks: array<Block>)
      ensures Valid() && disk == blocks && fresh(buf) && fresh(next) && fresh(prev) && buf.Length == nbuf
      ensures forall i :: 0 <= i < nbuf ==> buf[i] == Buf(false, false, 0, 0, false, 0, ZeroBlock())
      ensures trace == []
    {
      disk := blocks;
      buf := new Buf[nbuf](_ => Buf(false, false, 0, 0, false, 0, ZeroBlock()));
      next := new nat[nbuf + 1](_ => 0);
      prev := new nat[nbuf + 1](_ => 0);
      ring := [];
      trace := [];
      new;
      prev[nbuf] := nbuf;
      next[nbuf] := nbuf;
      var b := 0;
      while b < nbuf
        invariant 0 <= b <= nbuf
        invariant Linked(next[..], prev[..], ring, nbuf)
        invariant trace == []
        invariant |ring| == b && forall i :: 0 <= i < nbuf ==> (i in ring <==> i < b)
        invariant forall i :: 0 <= i < nbuf ==> buf[i] == Buf(false, false, 0, 0, false, 0, ZeroBlock())
      {
        PushFront(b);
        b := b + 1;
      }
    }

    /** Insert buffer b at the head of the ring. */
    method PushFront(b: nat)
      requires next != prev && b < buf.Length && b !in ring && Linked(next[..], prev[..], ring, buf.Length)
      modifies this`ring, next, prev
      ensures ring == [b] + old(ring) && Linked(next[..], prev[..], ring, buf.Length)
    {
      var head := buf.Length;
      LinkedPush(next[..], prev[..], ring, head, b);
      ghost var n0: seq<nat>, p0: seq<nat> := next[..], prev[..];
      next[b] := next[head];
      prev[b] := head;
      prev[next[head]] := b;
      next[head] := b;
      ring := [b] + ring;
      assert next[..] == n0[b := n0[head]][head := b];
      assert prev[..] == p0[b := head][n0[head] := b];
    }

    /** bget's first loop: "is the block already cached?", from the most recently used buffer on. */
    method FindCached(dev: nat, blockno: nat) returns (r: Option<nat>)
      requires Valid()
      ensures r == Lookup(State(), dev, blockno, 0)
    {
      hide RingOk;
      var head := buf.Length;
      var b := next[head];
      ghost var k: nat := 0;
      assert At(ring, head, -1) == head;
      while b != head
        invariant 0 <= k <= |ring| && b == At(ring, head, k)
        invariant Lookup(State(), dev, blockno, 0) == Lookup(State(), dev, blockno, k)
        decreases |ring| - k
      {
        if buf[b].dev == dev && buf[b].blockno == blockno {
          return Some(b);
        }
        assert b == At(ring, head, k);
        b := next[b];
        k := k + 1;
      }
      return None;
    }

    /** bget's second loop: an unused buffer to recycle, from the least recently used one on. */
    method FindVictim() returns (r: Option<nat>)
      requires Valid()
      ensures r == Victim(State(), |ring|)
    {
      hide RingOk;
      var head := buf.Length;
      var b := prev[head];
      ghost var k: nat := |ring|;
      assert At(ring, head, |ring|) == head;
      while b != head
        invariant 0 <= k <= |ring| && b == At(ring, head, k - 1)
        invariant Victim(State(), |ring|) == Victim(State(), k)
        decreases k
      {
        if buf[b].refcnt == 0 && !buf[b].dirty {
          return Some(b);
        }
        assert b == At(ring, head, k - 1);
        b := prev[b];
        k := k - 1;
      }
      return None;
    }

    /** bget up to the release of bcache.lock; None is the panic. */
    method Bget(dev: nat, blockno: nat) returns (r: Option<nat>)
      requires Valid()
      modifies buf
      ensures Valid()
      ensures var g := GetBuf(old(State()), dev, blockno);
              if g.Halt? then r == None && State() == old(State())
              else r == Some(g.i) && State() == g.c
    {
      ghost var c := State();
      r := FindCached(dev, blockno);
      if r != None {
        buf[r.value] := buf[r.value].(refcnt := buf[r.value].refcnt + 1);
      } else {
        r := FindVictim();
        if r != None {
          buf[r.value] := buf[r.value].(dev := dev, blockno := blockno, valid := false, dirty := false, refcnt := 1);
        }
      }
      assert r != None ==> buf[..] == c.bufs[r.value := buf[r.value]];
    }

    /** iderw; false is one of its panics. */
    method Iderw(b: nat) returns (ok: bool)
      requires Valid() && b < buf.Length
      modifies buf, disk, this`trace
      ensures Valid()
      ensures var io := Transfer(old(State()), old(disk[..]), b);
              if io.Panic? then !ok && State() == old(State()) && disk[..] == old(disk[..]) && trace == old(trace)
              else ok && State() == io.c && disk[..] == io.d &&
                   trace == if old(buf[b]).dirty then old(trace) + [io.d] else old(trace)
    {
      if !buf[b].locked || (buf[b].valid && !buf[b].dirty) || buf[b].dev != 1 || buf[b].blockno >= disk.Length {
        return false;
      }
      if buf[b].dirty {
        buf[b] := buf[b].(dirty := false);
        disk[buf[b].blockno] := buf[b].data;
        trace := trace + [disk[..]];
      } else {
        buf[b] := buf[b].(data := disk[buf[b].blockno]);
      }
      buf[b] := buf[b].(valid := true);
      return true;
    }

    /** bread. If another process holds the block's buffer, the caller goes to sleep on its lock, keeping the
        reference it has taken; Filled goes on from there. */
    method Bread(dev: nat, blockno: nat) returns (r: Read)
      requires Valid() && CacheOk(State()) && dev == 1
      modifies buf, disk, this`trace
      ensures Valid() && disk[..] == old(disk[..]) && trace == old(trace)
      ensures var c := old(State());
              var g := GetBuf(c, dev, blockno);
              if g.Halt? then r == Halted && State() == c
              else if g.c.bufs[g.i].locked then r == Sleeping(g.i) && State() == g.c
              else var f := ReadBuf(c, old(disk[..]), dev, blockno);
                   if f.Halt? then r == Halted else r == Found(f.i) && State() == f.c
    {
      var got := Bget(dev, blockno);
      if got == None { return Halted; }
      var b := got.value;
      if buf[b].locked { return Sleeping(b); }
      var ok := Filled(b);
      r := if ok then Found(b) else Halted;
    }

    /** The end of bread, once the buffer's lock is free: take it, and read the block unless the contents are valid;
        false is a panic in iderw. */
    method Filled(b: nat) returns (ok: bool)
      requires Valid() && b < buf.Length && !buf[b].locked && (buf[b].dirty ==> buf[b].valid)
      modifies buf, disk, this`trace
      ensures Valid() && disk[..] == old(disk[..]) && trace == old(trace)
      ensures var g := LockAndFill(old(State()), old(disk[..]), b);
              if g.Halt? then !ok else ok && State() == g.c
    {
      ghost var c := State();
      buf[b] := buf[b].(locked := true);
      assert buf[..] == c.bufs[b := buf[b]];
      ok := true;
      if !buf[b].valid {
        ok := Iderw(b);
      }
    }

    /** bwrite; false is a panic. */
    method Bwrite(b: nat) returns (ok: bool)
      requires Valid() && b < buf.Length
      modifies buf, disk, this`trace
      ensures Valid()
      ensures var io := WriteBuf(old(State()), old(disk[..]), b);
              if io.Panic? then !ok && disk[..] == old(disk[..]) && trace == old(trace)
              else ok && State() == io.c && disk[..] == io.d && trace == old(trace) + [io.d]
    {
      if !buf[b].locked { return false; }
      buf[b] := buf[b].(dirty := true);
      ok := Iderw(b);
    }

    /** The end of brelse: unlink the buffer and make it the most recently used. */
    method Touch(b: nat)
      requires Valid() && b < buf.Length
      modifies this`ring, next, prev
      ensures Valid() && ring == MoveToFront(old(ring), b)
    {
      var head := buf.Length;
      ghost var p := Position(ring, b);
      LinkedRemove(next[..], prev[..], ring, head, p);
      MoveToFrontOk(ring, head, b);
      ghost var n0: seq<nat>, p0: seq<nat> := next[..], prev[..];
      prev[next[b]] := prev[b];
      next[prev[b]] := next[b];
      ghost var r0 := ring;
      ring := ring[..p] + ring[p + 1..];
      assert [b] + ring == MoveToFront(r0, b);
      assert prev[..] == p0[n0[b] := p0[b]];
      assert next[..] == n0[p0[b] := n0[b]];
      PushFront(b);
    }

    /** brelse of a buffer the caller holds. */
    method Brelse(b: nat)
      requires Valid() && b < buf.Length && buf[b].locked && 0 < buf[b].refcnt
      modifies this`ring, buf, next, prev
      ensures Valid() && State() == ReleaseBuf(old(State()), b)
    {
      ghost var c := State();
      buf[b] := buf[b].(locked := false);
      buf[b] := buf[b].(refcnt := buf[b].refcnt - 1);
      assert buf[..] == c.bufs[b := buf[b]];
      if buf[b].refcnt == 0 {
        Touch(b);
      }
    }
  }
}
