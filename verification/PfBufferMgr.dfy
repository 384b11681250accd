/** The PF buffer manager as pf_buffermgr.cc runs it: one table of page descriptors through which the
    used and the free list are threaded by slot numbers, and a hash table from pages to slots. */
module PfBufferMgr {
  import opened Options
  import opened PfHash
  import opened PfPool
  import opened Seqs

  const INVALID_SLOT: int := -1

  datatype Desc = Desc(page: Page, next: int, prev: int, dirty: bool, pin: int, key: Key)

  function FrameOf(d: Desc): Frame {
    Frame(d.key, d.dirty, d.pin, d.page)
  }

  function FramesOf(tab: seq<Desc>): (r: seq<Frame>)
    ensures |r| == |tab| && forall i :: 0 <= i < |tab| ==> r[i] == FrameOf(tab[i])
  {
    seq(|tab|, i requires 0 <= i < |tab| => FrameOf(tab[i]))
  }

  /** Slot i before anything is in the pool: on the free list, before slot i + 1. */
  function Initial(i: int, pages: nat): Desc {
    Desc(ZeroPage(), if i == pages - 1 then INVALID_SLOT else i + 1, i - 1, false, 0, Key(0, 0))
  }

  // ----- the lists as links between slots

  function At(list: seq<nat>, i: int): int {
    if 0 <= i < |list| then list[i] else INVALID_SLOT
  }

  ghost predicate UsedLinked(tab: seq<Desc>, used: seq<nat>, first: int, last: int) {
    Slots(used, |tab|) && NoDup(used) && first == At(used, 0) && last == At(used, |used| - 1) &&
    forall i :: 0 <= i < |used| ==> tab[used[i]].next == At(used, i + 1) && tab[used[i]].prev == At(used, i - 1)
  }

  ghost predicate FreeLinked(tab: seq<Desc>, list: seq<nat>, free: int) {
    Slots(list, |tab|) && NoDup(list) && free == At(list, 0) &&
    forall i :: 0 <= i < |list| ==> tab[list[i]].next == At(list, i + 1)
  }

  /** Both lists, with no slot on both. */
  ghost predicate Lists(tab: seq<Desc>, used: seq<nat>, list: seq<nat>, first: int, last: int, free: int) {
    UsedLinked(tab, used, first, last) && FreeLinked(tab, list, free) && forall s :: s in used ==> s !in list
  }

  /** t is s but for the links. */
  ghost predicate SameFrames(s: seq<Desc>, t: seq<Desc>) {
    |s| == |t| && forall i :: 0 <= i < |s| ==> FrameOf(s[i]) == FrameOf(t[i])
  }

  /** t is t0 with the links leading past slot. */
  ghost predicate Bypassed(t0: seq<Desc>, t: seq<Desc>, slot: nat) {
    |t| == |t0| && slot < |t| &&
    var next, prev := t0[slot].next, t0[slot].prev;
    (forall i :: 0 <= i < |t| && i != slot && i != prev ==> t[i].next == t0[i].next) &&
    (forall i :: 0 <= i < |t| && i != slot && i != next ==> t[i].prev == t0[i].prev) &&
    (0 <= prev < |t| && prev != slot ==> t[prev].next == next) &&
    (0 <= next < |t| && next != slot ==> t[next].prev == prev)
  }

  lemma AtWithout(used: seq<nat>, slot: nat, k: int)
    requires slot in used
    ensures At(Without(used, slot), k) == At(used, if k < Position(used, slot) then k else k + 1)
  {}

  lemma UsedAt(tab: seq<Desc>, used: seq<nat>, first: int, last: int, j: nat)
    requires UsedLinked(tab, used, first, last) && j < |used|
    ensures used[j] < |tab| && tab[used[j]].next == At(used, j + 1) && tab[used[j]].prev == At(used, j - 1)
    ensures forall i :: 0 <= i < |used| && i != j ==> used[i] != used[j]
  {}

  lemma UnlinkUsed(t0: seq<Desc>, t: seq<Desc>, used: seq<nat>, first: int, last: int, slot: nat)
    requires UsedLinked(t0, used, first, last) && slot in used && slot < |t0| && Bypassed(t0, t, slot)
    ensures UsedLinked(t, Without(used, slot), if first == slot then t0[slot].next else first,
                       if last == slot then t0[slot].prev else last)
  {
    var p: int := Position(used, slot);
    var r := Without(used, slot);
    WithoutOk(used, slot);
    forall k | 0 <= k < |r|
      ensures r[k] < |t| && t[r[k]].next == At(r, k + 1) && t[r[k]].prev == At(r, k - 1)
    {
      UnlinkAt(t0, t, used, first, last, slot, k);
    }
    UsedAt(t0, used, first, last, p);
    UsedAt(t0, used, first, last, 0);
    UsedAt(t0, used, first, last, |used| - 1);
    AtWithout(used, slot, 0);
    AtWithout(used, slot, |r| - 1);
  }

  lemma UnlinkAt(t0: seq<Desc>, t: seq<Desc>, used: seq<nat>, first: int, last: int, slot: nat, k: nat)
    requires UsedLinked(t0, used, first, last) && slot in used && slot < |t0| && Bypassed(t0, t, slot)
    requires k < |used| - 1
    ensures var r := Without(used, slot);
            r[k] < |t| && t[r[k]].next == At(r, k + 1) && t[r[k]].prev == At(r, k - 1)
  {
    hide UsedLinked, Without;
    var p: int := Position(used, slot);
    var j := if k < p then k else k + 1;
    WithoutAt(used, slot, k);
    UsedAt(t0, used, first, last, p);
    UsedAt(t0, used, first, last, j);
    AtWithout(used, slot, k + 1);
    AtWithout(used, slot, k - 1);
  }

  lemma WithoutAt(used: seq<nat>, slot: nat, k: nat)
    requires slot in used && k < |used| - 1
    ensures Without(used, slot)[k] == used[if k < Position(used, slot) then k else k + 1]
  {}

  lemma UnlinkFree(t0: seq<Desc>, t: seq<Desc>, used: seq<nat>, list: seq<nat>, first: int, last: int, free: int, slot: nat)
    requires Lists(t0, used, list, first, last, free) && slot in used && slot < |t0| && Bypassed(t0, t, slot)
    ensures FreeLinked(t, list, free)
  {
    var p: int := Position(used, slot);
    UsedAt(t0, used, first, last, p);
    assert t0[slot].prev == At(used, p - 1);
    forall i | 0 <= i < |list| ensures list[i] != slot && list[i] != t0[slot].prev {
      assert list[i] in list;
    }
  }

  lemma LinkHeadLists(t0: seq<Desc>, t: seq<Desc>, used: seq<nat>, list: seq<nat>, first: int, last: int, free: int, slot: nat)
    requires Lists(t0, used, list, first, last, free) && slot !in used && slot !in list && slot < |t| == |t0|
    requires t[slot].next == first && t[slot].prev == INVALID_SLOT
    requires forall i :: 0 <= i < |t| && i != slot ==> t[i].next == t0[i].next
    requires forall i :: 0 <= i < |t| && i != slot && i != first ==> t[i].prev == t0[i].prev
    requires 0 <= first < |t| ==> t[first].prev == slot
    ensures Lists(t, [slot] + used, list, slot, if last == INVALID_SLOT then slot else last, free)
  {
    var r := [slot] + used;
    forall k | 0 <= k < |r| ensures t[r[k]].next == At(r, k + 1) && t[r[k]].prev == At(r, k - 1) {
      if k > 0 {
        UsedAt(t0, used, first, last, k - 1);
        assert r[k] == used[k - 1] && At(r, k + 1) == At(used, k) && (k > 1 ==> At(r, k - 1) == At(used, k - 2));
      }
    }
    assert Slots(r, |t|) && NoDup(r);
    assert FreeLinked(t, list, free) by {
      forall i | 0 <= i < |list| ensures list[i] != slot { assert list[i] in list; }
    }
  }

  lemma InsertFreeLists(t0: seq<Desc>, t: seq<Desc>, used: seq<nat>, list: seq<nat>, first: int, last: int, free: int, slot: nat)
    requires Lists(t0, used, list, first, last, free) && slot !in used && slot !in list && slot < |t| == |t0|
    requires t[slot].next == free
    requires forall i :: 0 <= i < |t| && i != slot ==> t[i].next == t0[i].next && t[i].prev == t0[i].prev
    ensures Lists(t, used, [slot] + list, first, last, slot)
  {
    var r := [slot] + list;
    forall k | 0 <= k < |r| ensures t[r[k]].next == At(r, k + 1) {
      if k > 0 { assert t0[list[k - 1]].next == At(list, k); }
    }
  }

  lemma TakeFreeLists(tab: seq<Desc>, used: seq<nat>, list: seq<nat>, first: int, last: int, free: int)
    requires Lists(tab, used, list, first, last, free) && free != INVALID_SLOT
    ensures list != [] && 0 <= free < |tab| && free == list[0] && free !in used && free !in list[1..]
    ensures Lists(tab, used, list[1..], first, last, tab[free].next)
  {
    var r := list[1..];
    assert list[0] in list;
    forall k | 0 <= k < |r| ensures tab[r[k]].next == At(r, k + 1) {
      assert tab[list[k + 1]].next == At(list, k + 2);
    }
    assert tab[list[0]].next == At(list, 1);
  }

  // ----- the hash table's map

  /** The map has exactly the pages of the listed slots. */
  ghost predicate Maps(contents: map<Key, nat>, frames: seq<Frame>, list: seq<nat>) {
    Slots(list, |frames|) &&
    (forall s :: s in list ==> frames[s].key in contents && contents[frames[s].key] == s) &&
    (forall k :: k in contents ==> contents[k] in list && frames[contents[k]].key == k)
  }

  lemma MapsLookup(contents: map<Key, nat>, frames: seq<Frame>, list: seq<nat>, k: Key)
    requires Maps(contents, frames, list)
    ensures Slots(list, |frames|)
    ensures var found := Lookup(frames, list, k);
            (found.Some? <==> k in contents) && (found.Some? ==> found.value == contents[k])
  {}

  lemma MapsDelete(contents: map<Key, nat>, frames: seq<Frame>, list: seq<nat>, slot: nat)
    requires Maps(contents, frames, list) && slot in list && NoDup(list)
    ensures frames[slot].key in contents && Maps(contents - {frames[slot].key}, frames, Without(list, slot))
  {
    WithoutOk(list, slot);
    forall i | 0 <= i < |Without(list, slot)| ensures Without(list, slot)[i] < |frames| {
      assert Without(list, slot)[i] in Without(list, slot);
    }
  }

  lemma MapsInsert(contents: map<Key, nat>, frames: seq<Frame>, list: seq<nat>, slot: nat, f: Frame)
    requires Maps(contents, frames, list) && slot !in list && slot < |frames| && f.key !in contents
    ensures Maps(contents[f.key := slot], frames[slot := f], [slot] + list)
  {}

  lemma MapsFrame(contents: map<Key, nat>, frames: seq<Frame>, list: seq<nat>, now: seq<Frame>, r: seq<nat>)
    requires Maps(contents, frames, list) && |now| == |frames| && forall s :: s in r <==> s in list
    requires forall s :: s in list && s < |frames| ==> now[s].key == frames[s].key
    ensures Maps(contents, now, r)
  {
    forall i | 0 <= i < |r| ensures r[i] < |now| {
      assert r[i] in r;
    }
  }

  lemma InitialState(tab: seq<Desc>, list: seq<nat>, pages: nat, files: Files)
    requires 0 < pages == |tab| && forall i :: 0 <= i < pages ==> tab[i] == Initial(i, pages)
    requires list == seq(pages, i requires 0 <= i < pages => i)
    ensures Lists(tab, [], list, INVALID_SLOT, INVALID_SLOT, 0)
    ensures PoolOk(Pool(FramesOf(tab), [], list, files)) && Maps(map[], FramesOf(tab), [])
  {
    hide FramesOf;
  }

  class BufferMgr {
    const numPages: nat
    const bufTable: array<Desc>
    const hashTable: HashTable
    var first: int
    var last: int
    var free: int
    var files: Files
    ghost var used: seq<nat>
    ghost var list: seq<nat>

    ghost function Frames(): seq<Frame>
      reads bufTable
    {
      FramesOf(bufTable[..])
    }

    ghost function State(): Pool
      reads this, bufTable
    {
      Pool(Frames(), used, list, files)
    }

    /** The table, the lists and the hash table are in order, but for the pages the hash table knows. */
    ghost predicate Linked()
      reads this, bufTable, hashTable, hashTable.table, hashTable.entries
    {
      bufTable.Length == numPages && 0 < numPages &&
      bufTable as object != hashTable.table && this as object != hashTable &&
      hashTable.Valid() &&
      Lists(bufTable[..], used, list, first, last, free)
    }

    ghost predicate Valid()
      reads this, bufTable, hashTable, hashTable.table, hashTable.entries
    {
      Linked() && PoolOk(State()) && Maps(hashTable.contents, Frames(), used)
    }

    constructor (pages: nat, buckets: nat, disk: Files)
      requires 0 < pages && 0 < buckets
      ensures Valid() && used == [] && files == disk && numPages == pages
      ensures list == seq(pages, i requires 0 <= i < pages => i)
      ensures fresh(bufTable) && fresh(hashTable) && fresh(hashTable.table) && hashTable.entries == {}
    {
      hide HashTable.Valid, Lists, PoolOk, Maps, FramesOf;
      numPages := pages;
      bufTable := new Desc[pages]((i: int) => Initial(i, pages));
      hashTable := new HashTable(buckets);
      files := disk;
      free := 0;
      first, last := INVALID_SLOT, INVALID_SLOT;
      used := [];
      list := seq(pages, i requires 0 <= i < pages => i);
      new;
      InitialState(bufTable[..], list, pages, disk);
    }

    // ----- list surgery

    method InsertFree(slot: nat)
      requires Linked() && slot < numPages && slot !in used && slot !in list
      modifies this`free, this`list, bufTable
      ensures Linked() && list == [slot] + old(list) && SameFrames(old(bufTable[..]), bufTable[..])
    {
      hide Lists, HashTable.Valid;
      ghost var t := bufTable[..];
      bufTable[slot] := bufTable[slot].(next := free);
      InsertFreeLists(t, bufTable[..], used, list, first, last, free, slot);
      free := slot;
      list := [slot] + list;
    }

    method LinkHead(slot: nat)
      requires Linked() && slot < numPages && slot !in used && slot !in list
      modifies this`first, this`last, this`used, bufTable
      ensures Linked() && used == [slot] + old(used) && SameFrames(old(bufTable[..]), bufTable[..])
    {
      hide Lists, HashTable.Valid;
      ghost var t := bufTable[..];
      FirstInRange(t, used, list, first, last, free);
      bufTable[slot] := bufTable[slot].(next := first, prev := INVALID_SLOT);
      if first != INVALID_SLOT {
        bufTable[first] := bufTable[first].(prev := slot);
      }
      LinkHeadLists(t, bufTable[..], used, list, first, last, free, slot);
      first := slot;
      if last == INVALID_SLOT {
        last := first;
      }
      used := [slot] + used;
    }

    method Unlink(slot: nat)
      requires Linked() && slot in used
      modifies this`first, this`last, this`used, bufTable
      ensures Linked() && used == Without(old(used), slot) && SameFrames(old(bufTable[..]), bufTable[..])
    {
      hide Lists, SameFrames, Bypassed, Without, HashTable.Valid, At;
      ghost var t := bufTable[..];
      NeighboursInRange(t, used, list, first, last, free, slot);
      ghost var first0, last0 := first, last;
      if first == slot {
        first := bufTable[slot].next;
      }
      if last == slot {
        last := bufTable[slot].prev;
      }
      if bufTable[slot].next != INVALID_SLOT {
        bufTable[bufTable[slot].next] := bufTable[bufTable[slot].next].(prev := bufTable[slot].prev);
      }
      assert bufTable[..] == PrevPast(t, slot);
      if bufTable[slot].prev != INVALID_SLOT {
        bufTable[bufTable[slot].prev] := bufTable[bufTable[slot].prev].(next := bufTable[slot].next);
      }
      assert bufTable[..] == NextPast(PrevPast(t, slot), slot);
      bufTable[slot] := bufTable[slot].(prev := INVALID_SLOT, next := INVALID_SLOT);
      assert bufTable[..] == TakenOut(t, slot);
      TakenOutLinks(t, slot);
      UnlinkLists(t, bufTable[..], used, list, first0, last0, free, slot);
      used := Without(used, slot);
    }

    // ----- choosing a slot

    /** The scan from the least recently used end for an unpinned page. */
    method FindVictim() returns (slot: int)
      requires Linked()
      ensures var v := Victim(Frames(), used, |used|);
              if v.None? then slot == INVALID_SLOT else slot == v.value
    {
      hide HashTable.Valid, Lists, UsedLinked, NoDup;
      ghost var i: int, frames := |used|, Frames();
      UsedOf(bufTable[..], used, list, first, last, free);
      slot := last;
      while slot != INVALID_SLOT && bufTable[slot].pin != 0
        invariant 0 <= i <= |used| && slot == At(used, i - 1)
        invariant Victim(frames, used, |used|) == Victim(frames, used, i)
        decreases i
      {
        assert i >= 1 && slot == used[i - 1] && frames[slot] == FrameOf(bufTable[slot]);
        UsedPrev(bufTable[..], used, first, last, i - 1);
        slot := bufTable[slot].prev;
        i := i - 1;
      }
    }

    method WritePage(k: Key, page: Page, os: Faults) returns (rc: Rc)
      modifies this`files
      ensures (rc, files) == PfPool.WritePage(old(files), k, page, os)
    {
      var w := PfPool.WritePage(files, k, page, os);
      rc, files := w.0, w.1;
    }

    method InternalAlloc(os: Faults) returns (rc: Rc, slot: int)
      requires Valid()
      modifies this, bufTable, hashTable, hashTable.table, hashTable.entries
      ensures Linked() && hashTable.entries == old(hashTable.entries)
      ensures var (rc', slot', p) := PfPool.InternalAlloc(old(State()), os);
              rc == rc' && State() == p && (rc == Ok ==> slot == slot')
      ensures if rc == Ok then Maps(hashTable.contents, Frames(), Rest(old(used), slot))
              else Maps(hashTable.contents, Frames(), used)
    {
      hide HashTable.Valid, Lists, PoolOk, Maps, Victim, SameFrames, FramesOf;
      ghost var p := State();
      PoolLists(p);
      PoolNoDup(p);
      if free != INVALID_SLOT {
        TakeFreeLists(bufTable[..], used, list, first, last, free);
        slot := free;
        free := bufTable[slot].next;
        list := list[1..];
      } else {
        FreeEmpty(bufTable[..], used, list, first, last, free);
        rc, slot := Evict(os);
        if rc != Ok {
          return;
        }
      }
      ghost var t := bufTable[..];
      LinkHead(slot);
      FramesEq(t, bufTable[..]);
      rc := Ok;
    }

    /** InternalAlloc's other case: the victim is written back if dirty and leaves the hash table and the used list. */
    method Evict(os: Faults) returns (rc: Rc, slot: int)
      requires Valid() && list == []
      modifies this, bufTable, hashTable, hashTable.table, hashTable.entries
      ensures Linked() && hashTable.entries == old(hashTable.entries) && list == []
      ensures var (rc', slot', p) := PfPool.InternalAlloc(old(State()), os);
              rc == rc' &&
              if rc != Ok then State() == p && Maps(hashTable.contents, Frames(), used)
              else slot == slot' && slot in old(used) && Frames() == p.frames && files == p.files &&
                   used == Without(old(used), slot) && slot !in used && Maps(hashTable.contents, Frames(), used)
    {
      hide HashTable.Valid, Lists, PoolOk, Maps, Victim, SameFrames, FramesOf;
      ghost var p := State();
      PoolLists(p);
      PoolNoDup(p);
      slot := FindVictim();
      if slot == INVALID_SLOT {
        return NoBuf, slot;
      }
      if bufTable[slot].dirty {
        rc := WritePage(bufTable[slot].key, bufTable[slot].page, os);
        if rc != Ok {
          return;
        }
        SetDesc(slot, bufTable[slot].(dirty := false));
      }
      rc := Ok;
      MapsDelete(hashTable.contents, Frames(), used, slot);
      WithoutOk(used, slot);
      var h := hashTable.Delete(bufTable[slot].key);
      ghost var t := bufTable[..];
      Unlink(slot);
      FramesEq(t, bufTable[..]);
    }

    /** A descriptor's own fields change, but not its links. */
    method SetDesc(slot: nat, d: Desc)
      requires Linked() && slot < numPages && d.next == bufTable[slot].next && d.prev == bufTable[slot].prev
      modifies bufTable
      ensures Linked() && bufTable[..] == old(bufTable[..])[slot := d]
      ensures Frames() == old(Frames())[slot := FrameOf(d)]
      ensures d.key == old(bufTable[slot].key) && old(Maps(hashTable.contents, Frames(), used)) ==>
                Maps(hashTable.contents, Frames(), used)
    {
      hide HashTable.Valid, Lists, Maps;
      ghost var t := bufTable[..];
      bufTable[slot] := d;
      assert bufTable[..] == t[slot := d];
      ListsSame(t, bufTable[..], used, list, first, last, free);
      if d.key == t[slot].key && Maps(hashTable.contents, FramesOf(t), used) {
        MapsFrame(hashTable.contents, FramesOf(t), used, Frames(), used);
      }
    }

    // ----- pages

    method ReadPage(k: Key, slot: nat, os: Faults) returns (rc: Rc)
      requires Linked() && slot < numPages
      modifies bufTable
      ensures Linked()
      ensures var r := PfPool.ReadPage(files, k, os);
              rc == r.0 && Frames() == if r.1.Some? then old(Frames())[slot := old(Frames()[slot]).(page := r.1.value)] else old(Frames())
    {
      var r := PfPool.ReadPage(files, k, os);
      if r.1.Some? {
        SetDesc(slot, bufTable[slot].(page := r.1.value));
      }
      rc := r.0;
    }

    method InitPageDesc(k: Key, slot: nat)
      requires Linked() && slot < numPages
      modifies bufTable
      ensures Linked() && Frames() == old(Frames())[slot := Frame(k, false, 1, old(bufTable[slot].page))]
    {
      SetDesc(slot, bufTable[slot].(key := k, dirty := false, pin := 1));
    }

    /** The client's pointer to the page is the slot it is in. */
    method GetPage(k: Key, multiple: bool, os: Faults) returns (rc: Rc, slot: int)
      requires Valid()
      modifies this, bufTable, hashTable, hashTable.table, hashTable.entries
      ensures Valid() && fresh(hashTable.entries - old(hashTable.entries))
      ensures var (rc', slot', p) := PfPool.GetPage(old(State()), k, multiple, os);
              rc == rc' && State() == p && (rc == Ok ==> slot == slot')
    {
      hide HashTable.Valid, Lists, PoolOk, Maps, PfPool.InternalAlloc, PfPool.ReadPage, SameFrames, FramesOf;
      GetOk(State(), k, multiple, os);
      MapsLookup(hashTable.contents, Frames(), used, k);
      var h, s := hashTable.Find(k);
      slot := s;
      if h == HashNotFound {
        rc, slot := Fetch(k, os);
      } else {
        if !multiple && bufTable[slot].pin > 0 {
          return PagePinned, slot;
        }
        SetDesc(slot, bufTable[slot].(pin := Inc(bufTable[slot].pin)));
        Promote(slot);
        rc := Ok;
      }
    }

    /** Unlink and LinkHead: the page becomes the most recently used one. */
    method Promote(slot: nat)
      requires Linked() && slot in used && Maps(hashTable.contents, Frames(), used)
      modifies this`first, this`last, this`used, bufTable
      ensures Linked() && used == MoveToFront(old(used), slot) && Frames() == old(Frames())
      ensures Maps(hashTable.contents, Frames(), used)
    {
      hide HashTable.Valid, Lists, Maps, SameFrames, FramesOf;
      ghost var t, u := bufTable[..], used;
      NeighboursInRange(t, used, list, first, last, free, slot);
      UsedNoDup(t, used, list, first, last, free);
      WithoutOk(used, slot);
      Unlink(slot);
      FramesEq(t, bufTable[..]);
      t := bufTable[..];
      LinkHead(slot);
      FramesEq(t, bufTable[..]);
      MapsFrame(hashTable.contents, Frames(), u, Frames(), used);
    }

    /** The slot at the head of the used list goes back to the free list. */
    method GiveBack(slot: nat, ghost rest: seq<nat>)
      requires Linked() && used == [slot] + rest && slot !in rest
      modifies this`first, this`last, this`free, this`used, this`list, bufTable
      ensures Linked() && used == rest == Without(old(used), slot) && list == [slot] + old(list) && Frames() == old(Frames())
    {
      hide HashTable.Valid, Lists, SameFrames, FramesOf;
      HeadWithout(used, rest, slot);
      ghost var t := bufTable[..];
      NeighboursInRange(t, used, list, first, last, free, slot);
      Unlink(slot);
      FramesEq(t, bufTable[..]);
      t := bufTable[..];
      InsertFree(slot);
      FramesEq(t, bufTable[..]);
    }

    /** The allocated slot is entered in the hash table for page k and described as newly pinned. */
    method Enter(k: Key, slot: nat, ghost rest: seq<nat>)
      requires Linked() && used == [slot] + rest && slot !in rest && slot < numPages
      requires Maps(hashTable.contents, Frames(), rest) && k !in hashTable.contents
      modifies bufTable, hashTable, hashTable.table, hashTable.entries
      ensures Linked() && fresh(hashTable.entries - old(hashTable.entries)) && Maps(hashTable.contents, Frames(), used)
      ensures Frames() == old(Frames())[slot := Frame(k, false, 1, old(Frames()[slot].page))]
    {
      hide HashTable.Valid, Lists, Maps, SameFrames;
      MapsInsert(hashTable.contents, Frames(), rest, slot, Frame(k, false, 1, Frames()[slot].page));
      var h := hashTable.Insert(k, slot);
      InitPageDesc(k, slot);
    }

    /** GetPage's case of a page that is not in the buffer. */
    method Fetch(k: Key, os: Faults) returns (rc: Rc, slot: int)
      requires Valid() && Lookup(Frames(), used, k).None?
      modifies this, bufTable, hashTable, hashTable.table, hashTable.entries
      ensures Linked() && fresh(hashTable.entries - old(hashTable.entries)) && Maps(hashTable.contents, Frames(), used)
      ensures var (rc', slot', p) := PfPool.GetPage(old(State()), k, true, os);
              rc == rc' && State() == p && (rc == Ok ==> slot == slot')
    {
      hide HashTable.Valid, Lists, PoolOk, Maps, PfPool.InternalAlloc, PfPool.ReadPage, SameFrames, FramesOf;
      ghost var p := State();
      PoolLists(p);
      AllocOk(p, os);
      AllocUncached(p, k, os);
      RestAlloc(p, os);
      rc, slot := InternalAlloc(os);
      if rc != Ok {
        return;
      }
      ghost var rest := Rest(p.used, slot);
      MapsLookup(hashTable.contents, Frames(), rest, k);
      rc := Load(k, slot, rest, os);
    }

    /** Reading page k into the allocated slot, or giving the slot back. */
    method Load(k: Key, slot: nat, ghost rest: seq<nat>, os: Faults) returns (rc: Rc)
      requires Linked() && used == [slot] + rest && slot !in rest && slot < numPages
      requires Maps(hashTable.contents, Frames(), rest) && k !in hashTable.contents
      modifies this`first, this`last, this`free, this`used, this`list, bufTable, hashTable, hashTable.table, hashTable.entries
      ensures Linked() && fresh(hashTable.entries - old(hashTable.entries)) && Maps(hashTable.contents, Frames(), used)
      ensures var r := PfPool.ReadPage(files, k, os);
              var f := old(Frames()[slot]);
              rc == r.0 &&
              if rc == Ok then
                used == old(used) && list == old(list) && Frames() == old(Frames())[slot := Frame(k, false, 1, r.1.value)]
              else
                used == rest == Without(old(used), slot) && list == [slot] + old(list) &&
                Frames() == old(Frames())[slot := if r.1.Some? then f.(page := r.1.value) else f]
    {
      hide HashTable.Valid, Lists, Maps, PfPool.ReadPage, SameFrames, FramesOf;
      ghost var frames := Frames();
      rc := ReadPage(k, slot, os);
      MapsOther(hashTable.contents, frames, rest, slot, Frames());
      if rc == Ok {
        Enter(k, slot, rest);
      } else {
        GiveBack(slot, rest);
      }
    }

    method AllocatePage(k: Key, os: Faults) returns (rc: Rc, slot: int)
      requires Valid()
      modifies this, bufTable, hashTable, hashTable.table, hashTable.entries
      ensures Valid() && fresh(hashTable.entries - old(hashTable.entries))
      ensures var (rc', slot', p) := PfPool.AllocatePage(old(State()), k, os);
              rc == rc' && State() == p && (rc == Ok ==> slot == slot')
    {
      hide HashTable.Valid, Lists, PoolOk, Maps, PfPool.InternalAlloc, SameFrames, FramesOf;
      ghost var p := State();
      AllocateOk(p, k, os);
      PoolLists(p);
      MapsLookup(hashTable.contents, Frames(), used, k);
      var h, s := hashTable.Find(k);
      if h == HashOk {
        return PageInBuf, s;
      }
      AllocOk(p, os);
      AllocUncached(p, k, os);
      RestAlloc(p, os);
      rc, slot := InternalAlloc(os);
      if rc != Ok {
        return;
      }
      ghost var rest := Rest(p.used, slot);
      MapsLookup(hashTable.contents, Frames(), rest, k);
      Enter(k, slot, rest);
    }

    method MarkDirty(k: Key) returns (rc: Rc)
      requires Valid()
      modifies this`first, this`last, this`used, bufTable
      ensures Valid() && (rc, State()) == PfPool.MarkDirty(old(State()), k)
    {
      hide HashTable.Valid, Lists, PoolOk, Maps, SameFrames, FramesOf;
      MarkOk(State(), k);
      MapsLookup(hashTable.contents, Frames(), used, k);
      var h, slot := hashTable.Find(k);
      if h == HashNotFound {
        return PageNotInBuf;
      }
      if bufTable[slot].pin == 0 {
        return PageUnpinned;
      }
      SetDesc(slot, bufTable[slot].(dirty := true));
      Promote(slot);
      rc := Ok;
    }

    method UnpinPage(k: Key) returns (rc: Rc)
      requires Valid()
      modifies this`first, this`last, this`used, bufTable
      ensures Valid() && (rc, State()) == PfPool.UnpinPage(old(State()), k)
    {
      hide HashTable.Valid, Lists, PoolOk, Maps, SameFrames, FramesOf;
      UnpinOk(State(), k);
      MapsLookup(hashTable.contents, Frames(), used, k);
      var h, slot := hashTable.Find(k);
      if h == HashNotFound {
        return PageNotInBuf;
      }
      if bufTable[slot].pin == 0 {
        return PageUnpinned;
      }
      SetDesc(slot, bufTable[slot].(pin := Dec(bufTable[slot].pin)));
      if bufTable[slot].pin == 0 {
        Promote(slot);
      }
      rc := Ok;
    }

    /** A client that has the page pinned writes through its pointer. */
    method Write(slot: nat, page: Page)
      requires Valid() && slot < numPages
      modifies bufTable
      ensures Valid() && State() == Poke(old(State()), slot, page)
    {
      hide HashTable.Valid, Lists, PoolOk, Maps;
      FrameOk(State(), slot, Frames()[slot].(page := page), files);
      SetDesc(slot, bufTable[slot].(page := page));
    }

    // ----- whole files

    /** Hash entry and place in the used list are given up; the slot becomes free. */
    method Discard(slot: nat)
      requires Valid() && slot in used && !bufTable[slot].dirty
      modifies this`first, this`last, this`free, this`used, this`list, bufTable, hashTable, hashTable.table, hashTable.entries
      ensures Valid() && hashTable.entries == old(hashTable.entries) && slot < numPages
      ensures State() == Release(old(State()), slot, files)
    {
      hide HashTable.Valid, Lists, PoolOk, Maps, SameFrames;
      ghost var p := State();
      PoolLists(p);
      ReleaseOk(p, slot, files);
      assert p.frames[slot := p.frames[slot].(dirty := false)] == p.frames;
      UsedNoDup(bufTable[..], used, list, first, last, free);
      WithoutOk(used, slot);
      MapsDelete(hashTable.contents, Frames(), used, slot);
      NeighboursInRange(bufTable[..], used, list, first, last, free, slot);
      var h := hashTable.Delete(bufTable[slot].key);
      ghost var t := bufTable[..];
      Unlink(slot);
      FramesEq(t, bufTable[..]);
      t := bufTable[..];
      InsertFree(slot);
      FramesEq(t, bufTable[..]);
    }

    /** An unpinned page is written if dirty, and dropped. */
    method FlushSlot(slot: nat, os: Faults) returns (rc: Rc)
      requires Valid() && slot in used && slot < numPages && bufTable[slot].pin == 0
      modifies this, bufTable, hashTable, hashTable.table, hashTable.entries
      ensures Valid() && hashTable.entries == old(hashTable.entries)
      ensures var f := old(Frames()[slot]);
              var w := if f.dirty then PfPool.WritePage(old(files), f.key, f.page, os) else (Ok, old(files));
              rc == w.0 && State() == if rc != Ok then old(State()).(files := w.1) else Release(old(State()), slot, w.1)
      ensures rc == Ok ==> used == Without(old(used), slot)
    {
      hide HashTable.Valid, Lists, PoolOk, Maps, SameFrames, FramesOf;
      ghost var p := State();
      rc := Ok;
      if bufTable[slot].dirty {
        rc := WritePage(bufTable[slot].key, bufTable[slot].page, os);
        FilesOk(p, files);
        if rc != Ok {
          return;
        }
        FrameOk(State(), slot, Frames()[slot].(dirty := false), files);
        SetDesc(slot, bufTable[slot].(dirty := false));
      }
      Discard(slot);
    }

    method FlushPages(fd: nat, os: Faults) returns (rc: Rc)
      requires Valid()
      modifies this, bufTable, hashTable, hashTable.table, hashTable.entries
      ensures Valid() && hashTable.entries == old(hashTable.entries)
      ensures (rc, State()) == PfPool.FlushPages(old(State()), fd, os)
    {
      hide HashTable.Valid, Lists, PoolOk, Maps, SameFrames, FramesOf, Release, FlushFrom, PfPool.WritePage, IsTail, NoDup, Without;
      var warn := Ok;
      var slot := first;
      ghost var todo, result := used, PfPool.FlushPages(State(), fd, os);
      WholeTail(State());
      FirstOf(bufTable[..], used, list, first, last, free);
      while slot != INVALID_SLOT
        invariant Valid() && hashTable.entries == old(hashTable.entries)
        invariant IsTail(used, todo) && slot == At(todo, 0) && NoDup(todo) && forall s :: s in todo ==> s in used
        invariant result == FlushFrom(State(), todo, fd, os, warn)
        decreases |todo|
      {
        PoolLists(State());
        Tail(bufTable[..], used, list, first, last, free, todo);
        FlushUnfold(State(), todo, fd, os, warn);
        TailWithout(used, todo);
        var next := bufTable[slot].next;
        if bufTable[slot].key.fd == fd {
          if bufTable[slot].pin != 0 {
            warn := PagePinned;
          } else {
            rc := FlushSlot(slot, os);
            if rc != Ok {
              return;
            }
          }
        }
        todo := todo[1..];
        slot := next;
      }
      FlushDone(State(), fd, os, warn);
      rc := warn;
    }

    method ForcePages(fd: nat, pageNum: int, os: Faults) returns (rc: Rc)
      requires Valid()
      modifies this`files, bufTable
      ensures Valid() && (rc, State()) == PfPool.ForcePages(old(State()), fd, pageNum, os)
    {
      hide HashTable.Valid, Lists, PoolOk, Maps, SameFrames, FramesOf, ForceFrom, PfPool.WritePage, IsTail, NoDup, Wanted;
      var slot := first;
      ghost var todo, result := used, PfPool.ForcePages(State(), fd, pageNum, os);
      WholeTail(State());
      FirstOf(bufTable[..], used, list, first, last, free);
      while slot != INVALID_SLOT
        invariant Valid()
        invariant IsTail(used, todo) && slot == At(todo, 0) && forall s :: s in todo ==> s in used
        invariant result == ForceFrom(State(), todo, fd, pageNum, os)
        decreases |todo|
      {
        PoolLists(State());
        Tail(bufTable[..], used, list, first, last, free, todo);
        ForceUnfold(State(), todo, fd, pageNum, os);
        var next := bufTable[slot].next;
        if Wanted(bufTable[slot].key, fd, pageNum) {
          if bufTable[slot].dirty {
            rc := WritePage(bufTable[slot].key, bufTable[slot].page, os);
            if rc != Ok {
              return;
            }
            SetDesc(slot, bufTable[slot].(dirty := false));
          }
        }
        todo := todo[1..];
        slot := next;
      }
      ForceDone(State(), fd, pageNum, os);
      rc := Ok;
    }
  }

  lemma ForceDone(p: Pool, fd: nat, pageNum: int, os: Faults)
    requires PoolOk(p)
    ensures ForceFrom(p, [], fd, pageNum, os) == (Ok, p)
  {}

  lemma ForceUnfold(p: Pool, todo: seq<nat>, fd: nat, pageNum: int, os: Faults)
    requires PoolOk(p) && (forall s :: s in todo ==> s in p.used) && todo != [] && todo[0] < |p.frames|
    ensures var f := p.frames[todo[0]];
            var w := PfPool.WritePage(p.files, f.key, f.page, os);
            if !Wanted(f.key, fd, pageNum) || !f.dirty then
              ForceFrom(p, todo, fd, pageNum, os) == ForceFrom(p, todo[1..], fd, pageNum, os)
            else if w.0 != Ok then
              PoolOk(p.(files := w.1)) && ForceFrom(p, todo, fd, pageNum, os) == (w.0, p.(files := w.1))
            else
              var q := p.(frames := p.frames[todo[0] := f.(dirty := false)], files := w.1);
              PoolOk(q) && ForceFrom(p, todo, fd, pageNum, os) == ForceFrom(q, todo[1..], fd, pageNum, os)
  {
    assert todo[0] in todo;
    var f := p.frames[todo[0]];
    var w := PfPool.WritePage(p.files, f.key, f.page, os);
    FrameOk(p, todo[0], f.(dirty := false), w.1);
    FilesOk(p, w.1);
    hide PoolOk, PfPool.WritePage;
  }

  lemma FlushDone(p: Pool, fd: nat, os: Faults, warn: Rc)
    requires PoolOk(p)
    ensures FlushFrom(p, [], fd, os, warn) == (warn, p)
  {}

  lemma FlushUnfold(p: Pool, todo: seq<nat>, fd: nat, os: Faults, warn: Rc)
    requires PoolOk(p) && NoDup(todo) && (forall s :: s in todo ==> s in p.used) && todo != [] && todo[0] < |p.frames|
    ensures var f := p.frames[todo[0]];
            var w := if f.dirty then PfPool.WritePage(p.files, f.key, f.page, os) else (Ok, p.files);
            NoDup(todo[1..]) &&
            if f.key.fd != fd then
              FlushFrom(p, todo, fd, os, warn) == FlushFrom(p, todo[1..], fd, os, warn)
            else if f.pin != 0 then
              FlushFrom(p, todo, fd, os, warn) == FlushFrom(p, todo[1..], fd, os, PagePinned)
            else if w.0 != Ok then FlushFrom(p, todo, fd, os, warn) == (w.0, p.(files := w.1))
            else
              PoolOk(Release(p, todo[0], w.1)) && (forall s :: s in todo[1..] ==> s in Release(p, todo[0], w.1).used) &&
              FlushFrom(p, todo, fd, os, warn) == FlushFrom(Release(p, todo[0], w.1), todo[1..], fd, os, warn)
  {
    assert todo[0] in todo;
    var f := p.frames[todo[0]];
    var w := if f.dirty then PfPool.WritePage(p.files, f.key, f.page, os) else (Ok, p.files);
    ReleaseOk(p, todo[0], w.1);
    WithoutOk(p.used, todo[0]);
    hide PoolOk, PfPool.WritePage, Without;
  }

  lemma FirstOf(tab: seq<Desc>, used: seq<nat>, list: seq<nat>, first: int, last: int, free: int)
    requires Lists(tab, used, list, first, last, free)
    ensures first == At(used, 0)
  {}

  ghost predicate IsTail(used: seq<nat>, todo: seq<nat>) {
    |todo| <= |used| && todo == used[|used| - |todo|..] && NoDup(todo) && forall s :: s in todo ==> s in used
  }

  lemma WholeTail(p: Pool)
    requires PoolOk(p)
    ensures IsTail(p.used, p.used) && NoDup(p.used)
  {}

  /** The next link of the first of the slots still to do leads to the one after it. */
  lemma Tail(tab: seq<Desc>, used: seq<nat>, list: seq<nat>, first: int, last: int, free: int, todo: seq<nat>)
    requires Lists(tab, used, list, first, last, free) && todo != [] && IsTail(used, todo)
    ensures todo[0] in used && todo[0] < |tab| && tab[todo[0]].next == At(todo[1..], 0)
    ensures NoDup(used) && IsTail(used, todo[1..]) && forall s :: s in todo[1..] ==> s in used
  {
    var j := |used| - |todo|;
    assert todo[0] == used[j];
    UsedAt(tab, used, first, last, j);
  }

  lemma TailWithout(used: seq<nat>, todo: seq<nat>)
    requires NoDup(used) && todo != [] && IsTail(used, todo)
    ensures todo[0] in used && IsTail(Without(used, todo[0]), todo[1..])
    ensures forall s :: s in todo[1..] ==> s in Without(used, todo[0])
  {
    var j := |used| - |todo|;
    assert todo[0] == used[j];
    assert Position(used, todo[0]) == j;
    assert Without(used, todo[0])[j..] == todo[1..];
    forall s | s in todo[1..] ensures s in Without(used, todo[0]) {
      var i := Position(todo[1..], s);
      assert Without(used, todo[0])[j + i] == s;
    }
  }

  lemma UsedNoDup(tab: seq<Desc>, used: seq<nat>, list: seq<nat>, first: int, last: int, free: int)
    requires Lists(tab, used, list, first, last, free)
    ensures NoDup(used)
  {}

  lemma HeadWithout(used: seq<nat>, rest: seq<nat>, slot: nat)
    requires used == [slot] + rest && slot !in rest
    ensures slot in used && Without(used, slot) == rest
  {
    assert Position(used, slot) == 0;
  }

  lemma RestAlloc(p: Pool, os: Faults)
    requires PoolOk(p)
    ensures var slot := PfPool.InternalAlloc(p, os).1; slot !in Rest(p.used, slot)
  {
    RestOk(p, PfPool.InternalAlloc(p, os).1);
  }

  lemma AllocUncached(p: Pool, k: Key, os: Faults)
    requires PoolOk(p) && Slots(p.used, |p.frames|) && Lookup(p.frames, p.used, k).None?
    ensures var (rc, slot, q) := PfPool.InternalAlloc(p, os);
            rc == Ok ==> Slots(Rest(p.used, slot), |q.frames|) && Lookup(q.frames, Rest(p.used, slot), k).None?
  {
    AllocOk(p, os);
    AllocFrames(p, os);
    RestOk(p, PfPool.InternalAlloc(p, os).1);
  }

  /** A slot that is not listed may change as it likes. */
  lemma MapsOther(contents: map<Key, nat>, frames: seq<Frame>, list: seq<nat>, slot: nat, now: seq<Frame>)
    requires Maps(contents, frames, list) && slot !in list && |now| == |frames|
    requires forall i :: 0 <= i < |frames| && i != slot ==> now[i] == frames[i]
    ensures Maps(contents, now, list)
  {}

  lemma ListsSame(t0: seq<Desc>, t: seq<Desc>, used: seq<nat>, list: seq<nat>, first: int, last: int, free: int)
    requires Lists(t0, used, list, first, last, free) && |t| == |t0|
    requires forall i :: 0 <= i < |t| ==> t[i].next == t0[i].next && t[i].prev == t0[i].prev
    ensures Lists(t, used, list, first, last, free)
  {}

  lemma FramesEq(s: seq<Desc>, t: seq<Desc>)
    requires SameFrames(s, t)
    ensures FramesOf(s) == FramesOf(t)
  {}

  lemma FreeEmpty(tab: seq<Desc>, used: seq<nat>, list: seq<nat>, first: int, last: int, free: int)
    requires Lists(tab, used, list, first, last, free)
    ensures list == [] <==> free == INVALID_SLOT
  {}

  lemma UsedPrev(tab: seq<Desc>, used: seq<nat>, first: int, last: int, j: nat)
    requires UsedLinked(tab, used, first, last) && j < |used|
    ensures used[j] < |tab| && tab[used[j]].prev == At(used, j - 1)
  {}

  lemma UsedOf(tab: seq<Desc>, used: seq<nat>, list: seq<nat>, first: int, last: int, free: int)
    requires Lists(tab, used, list, first, last, free)
    ensures UsedLinked(tab, used, first, last) && Slots(used, |tab|) && last == At(used, |used| - 1)
  {}

  function PrevPast(t: seq<Desc>, slot: nat): (r: seq<Desc>)
    requires slot < |t|
    ensures |r| == |t|
  {
    var n := t[slot].next;
    if 0 <= n < |t| then t[n := t[n].(prev := t[slot].prev)] else t
  }

  function NextPast(t: seq<Desc>, slot: nat): (r: seq<Desc>)
    requires slot < |t|
    ensures |r| == |t|
  {
    var p := t[slot].prev;
    if 0 <= p < |t| then t[p := t[p].(next := t[slot].next)] else t
  }

  /** The table after Unlink. */
  function TakenOut(t: seq<Desc>, slot: nat): (r: seq<Desc>)
    requires slot < |t|
    ensures |r| == |t|
  {
    var u := NextPast(PrevPast(t, slot), slot);
    u[slot := u[slot].(prev := INVALID_SLOT, next := INVALID_SLOT)]
  }

  lemma TakenOutLinks(t: seq<Desc>, slot: nat)
    requires slot < |t| && t[slot].next != slot && t[slot].prev != slot
    ensures Bypassed(t, TakenOut(t, slot), slot) && SameFrames(t, TakenOut(t, slot))
  {}

  lemma FirstInRange(tab: seq<Desc>, used: seq<nat>, list: seq<nat>, first: int, last: int, free: int)
    requires Lists(tab, used, list, first, last, free)
    ensures first != INVALID_SLOT ==> 0 <= first < |tab| && first in used
    ensures last != INVALID_SLOT ==> 0 <= last < |tab| && last in used
    ensures used == [] <==> first == INVALID_SLOT
  {}

  lemma NeighboursInRange(tab: seq<Desc>, used: seq<nat>, list: seq<nat>, first: int, last: int, free: int, slot: nat)
    requires Lists(tab, used, list, first, last, free) && slot in used
    ensures slot < |tab| && slot !in list
    ensures var next := tab[slot].next; next != INVALID_SLOT ==> 0 <= next < |tab| && next != slot
    ensures var prev := tab[slot].prev; prev != INVALID_SLOT ==> 0 <= prev < |tab| && prev != slot && prev != tab[slot].next
  {
    UsedAt(tab, used, first, last, Position(used, slot));
  }

  lemma UnlinkLists(t0: seq<Desc>, t: seq<Desc>, used: seq<nat>, list: seq<nat>, first: int, last: int, free: int, slot: nat)
    requires Lists(t0, used, list, first, last, free) && slot in used && slot < |t0| && Bypassed(t0, t, slot)
    ensures Lists(t, Without(used, slot), list, if first == slot then t0[slot].next else first,
                  if last == slot then t0[slot].prev else last, free)
  {
    UnlinkUsed(t0, t, used, first, last, slot);
    UnlinkFree(t0, t, used, list, first, last, free, slot);
    WithoutOk(used, slot);
  }
}
