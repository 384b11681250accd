/** How the operations of the PF buffer pool (pf_buffermgr.cc) count the pins of each page. */
module PfPins {
  import opened Options
  import opened PfHash
  import opened Seqs
  import opened PfPool

  /** How often the page is pinned, 0 if it is not in the pool. */
  ghost function Pins(p: Pool, k: Key): int
    requires PoolOk(p)
  {
    var found := Lookup(p.frames, p.used, k);
    if found.Some? then p.frames[found.value].pin else 0
  }

  /** Every page is pinned as often as before. */
  ghost predicate PinsKept(p: Pool, q: Pool) {
    PoolOk(p) && PoolOk(q) && forall k :: Pins(q, k) == Pins(p, k)
  }

  /** Page k is pinned n times, every other page as often as before. */
  ghost predicate PinsNow(p: Pool, q: Pool, k: Key, n: int) {
    PoolOk(p) && PoolOk(q) && Pins(q, k) == n && forall x :: x != k ==> Pins(q, x) == Pins(p, x)
  }

  lemma PinsAt(p: Pool, slot: nat)
    requires PoolOk(p) && slot in p.used && slot < |p.frames|
    ensures Pins(p, p.frames[slot].key) == p.frames[slot].pin
  {}

  /** The pinned slots of page x are the same in both pools. */
  ghost predicate SameSlots(p: Pool, q: Pool, x: Key) {
    (forall s: nat :: s in p.used && s < |p.frames| && p.frames[s].key == x && p.frames[s].pin != 0 ==>
       s in q.used && s < |q.frames| && q.frames[s].key == x && q.frames[s].pin == p.frames[s].pin) &&
    (forall s: nat :: s in q.used && s < |q.frames| && q.frames[s].key == x && q.frames[s].pin != 0 ==>
       s in p.used && s < |p.frames| && p.frames[s].key == x && p.frames[s].pin == q.frames[s].pin)
  }

  lemma SameCount(p: Pool, q: Pool, x: Key)
    requires PoolOk(p) && PoolOk(q) && SameSlots(p, q, x)
    ensures Pins(q, x) == Pins(p, x)
  {
    hide Partition, Injective;
    PoolLists(p);
    PoolLists(q);
    var s, t := Lookup(p.frames, p.used, x), Lookup(q.frames, q.used, x);
    if s.Some? && p.frames[s.value].pin != 0 {
      PinsAt(q, s.value);
    } else if t.Some? && q.frames[t.value].pin != 0 {
      PinsAt(p, t.value);
    }
  }

  /** GetPage pins the page once more, and nothing else; if it fails, nothing. */
  lemma GetCounts(p: Pool, k: Key, multiple: bool, os: Faults)
    requires PoolOk(p)
    ensures var (rc, slot, q) := GetPage(p, k, multiple, os);
            if rc == Ok then PinsNow(p, q, k, Inc(Pins(p, k))) else PinsKept(p, q)
  {
    hide PoolOk, SameSlots, Pins, Partition, Injective, InternalAlloc;
    var (rc, slot, q) := GetPage(p, k, multiple, os);
    GetOk(p, k, multiple, os);
    forall x | rc != Ok || x != k ensures Pins(q, x) == Pins(p, x) {
      GetSame(p, k, multiple, os, x);
      SameCount(p, q, x);
    }
    if rc == Ok { GetOne(p, k, multiple, os); }
  }

  lemma GetOne(p: Pool, k: Key, multiple: bool, os: Faults)
    requires PoolOk(p) && GetPage(p, k, multiple, os).0 == Ok
    ensures var q := GetPage(p, k, multiple, os).2;
            PoolOk(q) && Pins(q, k) == Inc(Pins(p, k))
  {
    hide InternalAlloc, Partition, Injective, PfPool.ReadPage;
    var (rc, slot, q) := GetPage(p, k, multiple, os);
    GetOk(p, k, multiple, os);
    PoolLists(p);
    if Lookup(p.frames, p.used, k).Some? {
      PartitionMove(p.used, p.free, |p.frames|, slot);
    } else {
      AllocOk(p, os);
    }
    PinsAt(q, slot);
  }

  /** Page x has no pin in the one slot that changes. */
  lemma SameBut(p: Pool, q: Pool, slot: nat, x: Key)
    requires |q.frames| == |p.frames| && forall s :: s != slot ==> (s in q.used <==> s in p.used)
    requires forall s: nat :: s < |p.frames| && s != slot ==>
               q.frames[s].key == p.frames[s].key && q.frames[s].pin == p.frames[s].pin
    requires slot in p.used && slot < |p.frames| ==> p.frames[slot].key != x || p.frames[slot].pin == 0
    requires slot in q.used && slot < |q.frames| ==> q.frames[slot].key != x || q.frames[slot].pin == 0
    ensures SameSlots(p, q, x)
  {}

  lemma SameFrames(p: Pool, q: Pool, x: Key)
    requires q == p.(files := q.files)
    ensures SameSlots(p, q, x)
  {}

  lemma GetSame(p: Pool, k: Key, multiple: bool, os: Faults, x: Key)
    requires PoolOk(p) && (GetPage(p, k, multiple, os).0 == Ok ==> x != k)
    ensures SameSlots(p, GetPage(p, k, multiple, os).2, x)
  {
    hide InternalAlloc, PoolOk, PfPool.ReadPage, SameSlots, MoveToFront;
    PoolLists(p);
    var found := Lookup(p.frames, p.used, k);
    var (rc, slot, q) := GetPage(p, k, multiple, os);
    if found.Some? && rc == Ok {
      PoolMove(p, found.value);
      SameBut(p, q, slot, x);
    } else if found.None? {
      AllocOk(p, os);
      AllocFrames(p, os);
      if InternalAlloc(p, os).0 == Ok {
        AllocSlots(p, os);
        SameBut(p, q, slot, x);
      } else {
        SameFrames(p, q, x);
      }
    } else {
      SameFrames(p, q, x);
    }
  }

  lemma PoolMove(p: Pool, slot: nat)
    requires PoolOk(p) && slot in p.used
    ensures forall s :: s in MoveToFront(p.used, slot) <==> s in p.used
  {
    PartitionMove(p.used, p.free, |p.frames|, slot);
  }

  /** The slot that InternalAlloc gives is not pinned, and the other used slots stay used. */
  lemma AllocSlots(p: Pool, os: Faults)
    requires PoolOk(p) && InternalAlloc(p, os).0 == Ok
    ensures var (rc, slot, q) := InternalAlloc(p, os);
            (forall s :: s != slot ==> (s in q.used <==> s in p.used)) && slot in q.used && slot !in Without(q.used, slot) &&
            (forall s :: s != slot ==> (s in Without(q.used, slot) <==> s in p.used)) &&
            (slot in p.used && slot < |p.frames| ==> p.frames[slot].pin == 0)
  {
    hide InternalAlloc, Partition, Injective, NoDup;
    var (rc, slot, q) := InternalAlloc(p, os);
    PoolLists(p);
    AllocOk(p, os);
    RestOk(p, slot);
    AllocUnpinned(p, os);
    FailedRead(q, Rest(p.used, slot), slot, q.frames[slot]);
  }

  /** The slot that is evicted is not pinned. */
  lemma AllocUnpinned(p: Pool, os: Faults)
    requires PoolOk(p) && InternalAlloc(p, os).0 == Ok
    ensures var slot := InternalAlloc(p, os).1; slot in p.used && slot < |p.frames| ==> p.frames[slot].pin == 0
  {
    PoolLists(p);
  }

  /** AllocatePage pins the new page once, and nothing else; if it fails, nothing. */
  lemma AllocateCounts(p: Pool, k: Key, os: Faults)
    requires PoolOk(p)
    ensures var (rc, slot, q) := AllocatePage(p, k, os);
            if rc == Ok then Pins(p, k) == 0 && PinsNow(p, q, k, 1) else PinsKept(p, q)
  {
    hide PoolOk, SameSlots, Partition, Injective, InternalAlloc;
    var (rc, slot, q) := AllocatePage(p, k, os);
    AllocateOk(p, k, os);
    PoolLists(p);
    if rc == Ok {
      AllocOk(p, os);
      AllocFrames(p, os);
      AllocSlots(p, os);
      PinsAt(q, slot);
    } else {
      AllocOk(p, os);
    }
    hide Pins;
    forall x | rc != Ok || x != k ensures Pins(q, x) == Pins(p, x) {
      if rc == Ok { SameBut(p, q, slot, x); } else { SameFrames(p, q, x); }
      SameCount(p, q, x);
    }
  }

  /** UnpinPage takes one pin off a pinned page, and nothing else. */
  lemma UnpinCounts(p: Pool, k: Key)
    requires PoolOk(p)
    ensures var (rc, q) := UnpinPage(p, k);
            (rc == Ok <==> Pins(p, k) != 0) && (if rc == Ok then PinsNow(p, q, k, Dec(Pins(p, k))) else PinsKept(p, q))
  {
    hide PoolOk, MoveToFront, Lookup, SameSlots;
    var (rc, q) := UnpinPage(p, k);
    UnpinOk(p, k);
    PoolLists(p);
    var found := Lookup(p.frames, p.used, k);
    if rc == Ok {
      PoolMove(p, found.value);
      PinsAt(q, found.value);
      hide UnpinPage, Pins;
      forall x | x != k ensures Pins(q, x) == Pins(p, x) {
        SameBut(p, q, found.value, x);
        SameCount(p, q, x);
      }
    }
  }

  /** A GetPage and an UnpinPage of the same page cancel out. */
  lemma PinUnpin(p: Pool, q: Pool, r: Pool, k: Key)
    requires PoolOk(p) && -32768 <= Pins(p, k) <= 32767 && PinsNow(p, q, k, Inc(Pins(p, k))) && PinsNow(q, r, k, Dec(Pins(q, k)))
    ensures PinsKept(p, r)
  {
    hide Pins, PoolOk;
  }

  lemma KeptTrans(p: Pool, q: Pool, r: Pool)
    requires PinsKept(p, q) && PinsKept(q, r)
    ensures PinsKept(p, r)
  {
    hide Pins, PoolOk;
    forall k ensures Pins(r, k) == Pins(p, k) {
      assert Pins(q, k) == Pins(p, k);
    }
  }

  lemma KeptNow(p: Pool, q: Pool, r: Pool, k: Key, n: int)
    requires PinsKept(p, q) && PinsNow(q, r, k, n)
    ensures PinsNow(p, r, k, n)
  {
    hide Pins, PoolOk;
    forall x | x != k ensures Pins(r, x) == Pins(p, x) {
      assert Pins(q, x) == Pins(p, x);
    }
  }

  lemma NowKept(p: Pool, q: Pool, r: Pool, k: Key, n: int)
    requires PinsNow(p, q, k, n) && PinsKept(q, r)
    ensures PinsNow(p, r, k, n)
  {
    hide Pins, PoolOk;
    forall x | x != k ensures Pins(r, x) == Pins(p, x) {
      assert Pins(q, x) == Pins(p, x);
    }
  }

  /** Pools with the same used slots, keys and counts pin the same pages. */
  lemma KeptFrames(p: Pool, q: Pool)
    requires PoolOk(p) && PoolOk(q) && |q.frames| == |p.frames| && forall s :: s in q.used <==> s in p.used
    requires forall s: nat :: s < |p.frames| ==> q.frames[s].key == p.frames[s].key && q.frames[s].pin == p.frames[s].pin
    ensures PinsKept(p, q)
  {
    hide PoolOk, Pins;
    forall k ensures Pins(q, k) == Pins(p, k) {
      SameCount(p, q, k);
    }
  }

  /** The 65536th pin of a page wraps its count to 0: the page looks unpinned to everybody. Any other pin counts. */
  lemma PinWraps(p: Pool, k: Key, os: Faults)
    requires PoolOk(p) && -32768 <= Pins(p, k) <= 32767 && GetPage(p, k, true, os).0 == Ok
    ensures var q := GetPage(p, k, true, os).2;
            PoolOk(q) && (Pins(q, k) == 0 <==> Pins(p, k) == -1)
  {
    hide PoolOk, Pins;
    GetCounts(p, k, true, os);
  }
}
