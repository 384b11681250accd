/** When each call of the PF buffer pool (pf_buffermgr.cc) succeeds, and with which code it fails. */
module PfCodes {
  import opened Options
  import opened PfHash
  import opened Seqs
  import opened PfPool
  import opened PfPins

  /** The file of the page is open and the operating system will not fail its transfer. */
  predicate CanTransfer(files: Files, k: Key, os: Faults) {
    k.fd in files && k !in os
  }

  /** Slot i of the used list is the least recently used one that nobody has pinned. */
  ghost predicate Oldest(p: Pool, i: nat)
    requires PoolOk(p)
  {
    i < |p.used| && p.frames[p.used[i]].pin == 0 && forall j :: i < j < |p.used| ==> p.frames[p.used[j]].pin != 0
  }

  /** There is a slot for one page more: a free one, or the oldest unpinned one, if its page need not be written back or can be. */
  ghost predicate CanAlloc(p: Pool, os: Faults)
    requires PoolOk(p)
  {
    p.free != [] ||
    exists i: nat :: Oldest(p, i) && (p.frames[p.used[i]].dirty ==> CanTransfer(p.files, p.frames[p.used[i]].key, os))
  }

  lemma {:induction false} VictimOldest(p: Pool, n: nat)
    requires PoolOk(p) && n <= |p.used| && forall j :: n <= j < |p.used| ==> p.frames[p.used[j]].pin != 0
    ensures Slots(p.used, |p.frames|)
    ensures var v := Victim(p.frames, p.used, n);
            if v.Some? then exists i: nat :: Oldest(p, i) && p.used[i] == v.value else forall i: nat :: !Oldest(p, i)
  {
    if n > 0 {
      if p.frames[p.used[n - 1]].pin == 0 { assert Oldest(p, n - 1); } else { VictimOldest(p, n - 1); }
    }
  }

  lemma OneOldest(p: Pool, i: nat, j: nat)
    requires PoolOk(p) && Oldest(p, i) && Oldest(p, j)
    ensures i == j
  {}

  lemma WriteCode(files: Files, k: Key, page: Page, os: Faults)
    ensures var rc := WritePage(files, k, page, os).0;
            (rc == Ok <==> CanTransfer(files, k, os)) && (rc == Ok || rc == Unix || rc == IncompleteWrite)
  {}

  /** A slot can be had exactly if one is free or the oldest unpinned page can leave; if everything is pinned the code is
      PF_NOBUF, and otherwise that of the write that failed. */
  lemma AllocCode(p: Pool, os: Faults)
    requires PoolOk(p)
    ensures var rc := InternalAlloc(p, os).0;
            (rc == Ok <==> CanAlloc(p, os)) &&
            (rc == NoBuf <==> p.free == [] && forall s :: s in p.used ==> p.frames[s].pin != 0) &&
            (rc == Ok || rc == NoBuf || rc == Unix || rc == IncompleteWrite)
  {
    hide WritePage, Partition, Injective, Victim, CanTransfer;
    NoBufIff(p, os);
    PoolLists(p);
    VictimOldest(p, |p.used|);
    var v := Victim(p.frames, p.used, |p.used|);
    if p.free == [] && v.Some? {
      var i: nat :| Oldest(p, i) && p.used[i] == v.value;
      var f := p.frames[v.value];
      WriteCode(p.files, f.key, f.page, os);
      forall j: nat | Oldest(p, j) ensures j == i { OneOldest(p, i, j); }
    }
  }

  /** GetPage of a page in the pool fails exactly if the caller does not want a pinned page and it is pinned. Of any other
      page it succeeds exactly if a slot can be had and the page can be read. */
  lemma GetCode(p: Pool, k: Key, multiple: bool, os: Faults)
    requires PoolOk(p)
    ensures var (rc, slot, q) := GetPage(p, k, multiple, os);
            (rc == PagePinned <==> Cached(p, k) && !multiple && Pins(p, k) > 0) &&
            if Cached(p, k) then rc == Ok || rc == PagePinned
            else if CanAlloc(p, os) then
              rc == PfPool.ReadPage(q.files, k, os).0 && (rc == Ok <==> CanTransfer(q.files, k, os) && OnFile(q.files, k).Some?)
            else rc == InternalAlloc(p, os).0
  {
    hide InternalAlloc, Partition, Injective, CanAlloc, OnFile;
    PoolLists(p);
    LookupCached(p, k);
    AllocCode(p, os);
  }

  /** Making room for a page leaves the page where it is on file. */
  lemma AllocFiles(p: Pool, k: Key, os: Faults)
    requires PoolOk(p) && !Cached(p, k) && OnFile(p.files, k).Some?
    ensures OnFile(InternalAlloc(p, os).2.files, k) == OnFile(p.files, k)
  {
    hide WritePage, Partition, Injective, Victim, OnFile;
    PoolLists(p);
    var v := Victim(p.frames, p.used, |p.used|);
    if p.free == [] && v.Some? {
      var f := p.frames[v.value];
      assert f.key != k;
      WriteTouches(p.files, f.key, f.page, os, k);
    }
  }

  /** A page the clients know of can be got exactly if it is in the pool or a slot can be had and its read does not fail. */
  ghost predicate Gettable(p: Pool, k: Key, os: Faults)
    requires PoolOk(p)
  {
    Cached(p, k) || (CanAlloc(p, os) && k !in os)
  }

  lemma GetKnown(p: Pool, k: Key, multiple: bool, os: Faults, model: map<Key, Page>, pending: set<Key>)
    requires PoolOk(p) && Agrees(p, model, pending) && k in model
    ensures GetPage(p, k, multiple, os).0 == Ok <==> Gettable(p, k, os) && (multiple || Pins(p, k) <= 0)
    ensures GetPage(p, k, multiple, os).0 == PagePinned <==> !multiple && Pins(p, k) > 0
  {
    hide GetPage, InternalAlloc, Partition, Injective, CanAlloc, Agrees, Pins, Cached;
    GetCode(p, k, multiple, os);
    if !Cached(p, k) {
      AllocCode(p, os);
      UncachedAgrees(p, k, model, pending);
      AllocFiles(p, k, os);
      UncachedFiles(p, k, multiple, os);
      UncachedPins(p, k);
    }
  }

  /** There is a free slot or an unpinned page, and the files of all pages in the pool are open: as long as the operating
      system fails nothing, any page can be had. */
  ghost predicate Easy(p: Pool) {
    PoolOk(p) && (forall s :: s in p.used && s < |p.frames| ==> p.frames[s].key.fd in p.files) &&
    (p.free != [] || exists s :: s in p.used && s < |p.frames| && p.frames[s].pin == 0)
  }

  lemma EasyGettable(p: Pool, k: Key)
    requires Easy(p)
    ensures CanAlloc(p, map[]) && Gettable(p, k, map[])
  {
    hide Partition, Injective;
    NoBufIff(p, map[]);
    PoolLists(p);
    VictimOldest(p, |p.used|);
    if p.free == [] {
      var i: nat :| Oldest(p, i) && p.used[i] == Victim(p.frames, p.used, |p.used|).value;
      assert p.used[i] in p.used;
    }
  }

  lemma SlotFound(p: Pool, k: Key, slot: nat)
    requires PoolOk(p) && PoolShape(p) && slot in p.used && slot < |p.frames| && p.frames[slot].key == k
    ensures Lookup(p.frames, p.used, k) == Some(slot)
  {}

  lemma GetSlot(p: Pool, k: Key, multiple: bool, os: Faults)
    requires PoolOk(p) && GetPage(p, k, multiple, os).0 == Ok
    ensures var (rc, slot, q) := GetPage(p, k, multiple, os);
            Slots(p.used, |p.frames|) && slot in q.used && slot < |p.frames| == |q.frames| && q.frames[slot].key == k &&
            q.frames[slot].pin == (var found := Lookup(p.frames, p.used, k);
                                   if found.Some? then Inc(p.frames[found.value].pin) else 1) &&
            (forall s :: s in q.used && s != slot ==> s in p.used) &&
            (forall s: nat :: s < |p.frames| && s != slot ==> q.frames[s] == p.frames[s])
  {
    hide InternalAlloc, PfPool.ReadPage, Partition, Injective;
    PoolLists(p);
    var found := Lookup(p.frames, p.used, k);
    if found.Some? {
      PartitionMove(p.used, p.free, |p.frames|, found.value);
    } else {
      AllocOk(p, os);
      AllocFrames(p, os);
      RestOk(p, InternalAlloc(p, os).1);
    }
  }

  lemma GetOpen(p: Pool, k: Key, multiple: bool, os: Faults)
    requires PoolOk(p)
    ensures GetPage(p, k, multiple, os).2.files.Keys == p.files.Keys
  {
    hide WritePage, Partition, Injective, Victim, PfPool.ReadPage, Lookup;
    PoolLists(p);
    var v := Victim(p.frames, p.used, |p.used|);
    if p.free == [] && v.Some? { SameOpen(p.files, p.frames[v.value].key, p.frames[v.value].page, os); }
  }

  lemma UnpinSlot(q: Pool, k: Key, slot: nat)
    requires PoolOk(q) && slot in q.used && slot < |q.frames| && q.frames[slot].key == k && q.frames[slot].pin != 0
    ensures var r := UnpinPage(q, k).1;
            r.frames == q.frames[slot := q.frames[slot].(pin := Dec(q.frames[slot].pin))] && r.free == q.free && r.files == q.files &&
            PoolOk(r) && forall s :: s in r.used <==> s in q.used
  {
    hide Partition, Injective;
    PoolLists(q);
    UnpinOk(q, k);
    SlotFound(q, k, slot);
    PartitionMove(q.used, q.free, |q.frames|, slot);
  }

  lemma OpenKnown(p: Pool, k: Key, model: map<Key, Page>, pending: set<Key>)
    requires Easy(p) && Agrees(p, model, pending) && k in model
    ensures k.fd in p.files
  {
    hide Agrees, Partition, Injective;
    if !Cached(p, k) { UncachedAgrees(p, k, model, pending); }
  }

  lemma GetFree(p: Pool, k: Key, os: Faults)
    requires PoolOk(p) && GetPage(p, k, true, os).0 == Ok
    ensures var (rc, slot, q) := GetPage(p, k, true, os);
            if Cached(p, k) then q.free == p.free && (forall s :: s in p.used <==> s in q.used) && slot in p.used && slot < |p.frames| &&
                                 q.frames == p.frames[slot := p.frames[slot].(pin := Inc(p.frames[slot].pin))]
            else slot < |q.frames| && q.frames[slot].pin == 1
  {
    hide InternalAlloc, Partition, Injective, PfPool.ReadPage;
    PoolLists(p);
    LookupCached(p, k);
    if Cached(p, k) { PartitionMove(p.used, p.free, |p.frames|, GetPage(p, k, true, os).1); } else { AllocOk(p, os); }
  }

  /** Looking at a page and letting it go leaves it so. */
  lemma EasyPeek(p: Pool, k: Key, model: map<Key, Page>, pending: set<Key>)
    requires Easy(p) && Agrees(p, model, pending) && k in model && GetPage(p, k, true, map[]).0 == Ok
    requires GetPage(p, k, true, map[]).1 < |GetPage(p, k, true, map[]).2.frames|
    requires GetPage(p, k, true, map[]).2.frames[GetPage(p, k, true, map[]).1].pin != 0
    ensures var q := GetPage(p, k, true, map[]).2; PoolOk(q) && Easy(UnpinPage(q, k).1)
  {
    hide GetPage, UnpinPage, Partition, Injective, Agrees, Cached, PoolOk;
    var (rc, slot, q) := GetPage(p, k, true, map[]);
    GetOk(p, k, true, map[]);
    GetSlot(p, k, true, map[]);
    GetOpen(p, k, true, map[]);
    GetFree(p, k, map[]);
    OpenKnown(p, k, model, pending);
    UnpinSlot(q, k, slot);
    var r := UnpinPage(q, k).1;
    if p.free == [] || !Cached(p, k) {
      if Cached(p, k) {
        var s :| s in p.used && s < |p.frames| && p.frames[s].pin == 0;
        assert s in r.used && r.frames[s].pin == 0;
      } else {
        assert slot in r.used && r.frames[slot].pin == 0;
      }
    }
  }

  lemma UncachedPins(p: Pool, k: Key)
    requires PoolOk(p) && !Cached(p, k)
    ensures Pins(p, k) == 0
  {
    LookupCached(p, k);
  }

  lemma UncachedFiles(p: Pool, k: Key, multiple: bool, os: Faults)
    requires PoolOk(p) && !Cached(p, k)
    ensures GetPage(p, k, multiple, os).2.files == InternalAlloc(p, os).2.files
  {
    hide InternalAlloc;
    LookupCached(p, k);
  }

  lemma AllocateCode(p: Pool, k: Key, os: Faults)
    requires PoolOk(p)
    ensures var rc := AllocatePage(p, k, os).0;
            (rc == PageInBuf <==> Cached(p, k)) && (rc == Ok <==> !Cached(p, k) && CanAlloc(p, os)) &&
            (!Cached(p, k) && !CanAlloc(p, os) ==> rc == InternalAlloc(p, os).0)
  {
    hide InternalAlloc, Partition, Injective, CanAlloc;
    PoolLists(p);
    LookupCached(p, k);
    AllocCode(p, os);
  }

  /** MarkDirty and UnpinPage want a page of the pool, and a pinned one. */
  lemma MarkCode(p: Pool, k: Key)
    requires PoolOk(p)
    ensures MarkDirty(p, k).0 == if !Cached(p, k) then PageNotInBuf else if Pins(p, k) == 0 then PageUnpinned else Ok
    ensures UnpinPage(p, k).0 == MarkDirty(p, k).0
  {
    hide Partition, Injective;
    PoolLists(p);
    LookupCached(p, k);
  }

  /** What FlushPages has to write back: the dirty pages of the file that nobody has pinned. */
  ghost predicate Unwritable(p: Pool, s: nat, fd: nat, os: Faults) {
    s < |p.frames| && p.frames[s].key.fd == fd && p.frames[s].dirty && !CanTransfer(p.files, p.frames[s].key, os)
  }

  lemma SameOpen(files: Files, k: Key, page: Page, os: Faults)
    ensures WritePage(files, k, page, os).1.Keys == files.Keys
  {}

  /** A flush stops with an error exactly if a dirty unpinned page of the file cannot be written back. */
  lemma {:induction false} FlushCode(p: Pool, todo: seq<nat>, fd: nat, os: Faults, warn: Rc)
    requires PoolOk(p) && NoDup(todo) && (forall s :: s in todo ==> s in p.used) && (warn == Ok || warn == PagePinned)
    ensures var rc := FlushFrom(p, todo, fd, os, warn).0;
            (rc == Ok || rc == PagePinned <==> forall s: nat :: s in todo && s < |p.frames| && p.frames[s].pin == 0 ==> !Unwritable(p, s, fd, os)) &&
            (rc == Ok || rc == PagePinned || rc == Unix || rc == IncompleteWrite)
    decreases |todo|
  {
    hide PoolOk, WritePage, Release;
    PoolLists(p);
    if todo != [] {
      var slot := todo[0];
      assert slot in p.used;
      assert forall s :: s in todo <==> s == slot || s in todo[1..];
      assert slot !in todo[1..];
      var f := p.frames[slot];
      if f.key.fd != fd {
        FlushCode(p, todo[1..], fd, os, warn);
      } else if f.pin != 0 {
        FlushCode(p, todo[1..], fd, os, PagePinned);
      } else {
        var w := if f.dirty then WritePage(p.files, f.key, f.page, os) else (Ok, p.files);
        WriteCode(p.files, f.key, f.page, os);
        SameOpen(p.files, f.key, f.page, os);
        if w.0 == Ok {
          ReleaseOk(p, slot, w.1);
          ReleaseFrames(p, slot, w.1);
          FlushCode(Release(p, slot, w.1), todo[1..], fd, os, warn);
          ReleaseFiles(p, slot, w.1);
          forall s: nat | s in todo[1..] && s < |p.frames| ensures Unwritable(Release(p, slot, w.1), s, fd, os) == Unwritable(p, s, fd, os) {}
        }
      }
    }
  }

  lemma ReleaseFiles(p: Pool, slot: nat, files: Files)
    requires slot in p.used && slot < |p.frames|
    ensures Release(p, slot, files).files == files
  {}

  /** A force stops with an error exactly if a dirty page it is to write cannot be written. */
  lemma {:induction false} ForceCode(p: Pool, todo: seq<nat>, fd: nat, pageNum: int, os: Faults)
    requires PoolOk(p) && NoDup(todo) && forall s :: s in todo ==> s in p.used
    ensures var rc := ForceFrom(p, todo, fd, pageNum, os).0;
            (rc == Ok <==> forall s: nat :: s in todo && s < |p.frames| && Wanted(p.frames[s].key, fd, pageNum) ==> !Unwritable(p, s, fd, os)) &&
            (rc == Ok || rc == Unix || rc == IncompleteWrite)
    decreases |todo|
  {
    hide PoolOk, WritePage;
    PoolLists(p);
    if todo != [] {
      var slot := todo[0];
      assert slot in p.used;
      assert forall s :: s in todo <==> s == slot || s in todo[1..];
      var f := p.frames[slot];
      if Wanted(f.key, fd, pageNum) && f.dirty {
        var w := WritePage(p.files, f.key, f.page, os);
        WriteCode(p.files, f.key, f.page, os);
        SameOpen(p.files, f.key, f.page, os);
        if w.0 == Ok {
          var q := p.(frames := p.frames[slot := f.(dirty := false)], files := w.1);
          FrameOk(p, slot, f.(dirty := false), w.1);
          ForceCode(q, todo[1..], fd, pageNum, os);
          forall s: nat | s in todo[1..] && s < |p.frames| ensures Unwritable(q, s, fd, os) == Unwritable(p, s, fd, os) {}
        }
      } else {
        ForceCode(p, todo[1..], fd, pageNum, os);
      }
    }
  }
}
