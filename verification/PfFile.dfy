/** The paged file (pf_filehandle.cc): a client of the buffer pool that keeps the free pages of a file in
    a list threaded through the pages themselves. */
module PfFile {
  import opened Options
  import opened PfCodes
  import opened PfHash
  import opened PfPins
  import opened PfPool
  import opened PfBufferMgr
  import opened Seqs

  const PF_PAGE_LIST_END: int := -1
  const PF_PAGE_USED: int := -2

  // ----- the file as the plain map of its pages

  predicate InUse(model: map<Key, Page>, k: Key) {
    k in model && model[k].nextFree == PF_PAGE_USED
  }

  ghost function Next(chain: seq<nat>, i: int): int {
    if 0 <= i < |chain| then chain[i] else PF_PAGE_LIST_END
  }

  /** Every page below numPages is either in use or on the chain of free pages that starts at firstFree. */
  ghost predicate FileOk(model: map<Key, Page>, fd: nat, numPages: nat, firstFree: int, chain: seq<nat>) {
    (forall p: nat :: p < numPages ==> Key(fd, p) in model) &&
    NoDup(chain) && Slots(chain, numPages) && firstFree == Next(chain, 0) &&
    (forall i :: 0 <= i < |chain| ==> model[Key(fd, chain[i])].nextFree == Next(chain, i + 1)) &&
    (forall p: nat :: p < numPages && p !in chain ==> InUse(model, Key(fd, p)))
  }

  lemma ChainAt(model: map<Key, Page>, fd: nat, numPages: nat, firstFree: int, chain: seq<nat>, p: nat)
    requires FileOk(model, fd, numPages, firstFree, chain) && p < numPages
    ensures Key(fd, p) in model && (InUse(model, Key(fd, p)) <==> p !in chain)
  {
    if p in chain {
      var i := Position(chain, p);
      assert model[Key(fd, chain[i])].nextFree == Next(chain, i + 1);
    }
  }

  /** Taking the first free page. */
  lemma TakeFirst(model: map<Key, Page>, fd: nat, numPages: nat, firstFree: int, chain: seq<nat>, page: Page)
    requires FileOk(model, fd, numPages, firstFree, chain) && firstFree != PF_PAGE_LIST_END && page.nextFree == PF_PAGE_USED
    ensures chain != [] && 0 <= firstFree < numPages && firstFree == chain[0] && Key(fd, firstFree) in model
    ensures FileOk(model[Key(fd, firstFree) := page], fd, numPages, model[Key(fd, firstFree)].nextFree, chain[1..])
  {
    var now := model[Key(fd, firstFree) := page];
    var r := chain[1..];
    assert model[Key(fd, chain[0])].nextFree == Next(chain, 1);
    forall i | 0 <= i < |r| ensures now[Key(fd, r[i])].nextFree == Next(r, i + 1) {
      assert r[i] == chain[i + 1] && chain[i + 1] != chain[0];
      assert model[Key(fd, chain[i + 1])].nextFree == Next(chain, i + 2);
    }
    forall p: nat | p < numPages && p !in r ensures InUse(now, Key(fd, p)) {
      if p != firstFree { assert p !in chain by { assert chain == [chain[0]] + r; } }
    }
  }

  /** A page at the end of the file. */
  lemma Extend(model: map<Key, Page>, fd: nat, numPages: nat, firstFree: int, chain: seq<nat>, page: Page)
    requires FileOk(model, fd, numPages, firstFree, chain) && page.nextFree == PF_PAGE_USED
    ensures FileOk(model[Key(fd, numPages) := page], fd, numPages + 1, firstFree, chain)
  {
    var now := model[Key(fd, numPages) := page];
    forall i | 0 <= i < |chain| ensures now[Key(fd, chain[i])].nextFree == Next(chain, i + 1) {}
    forall p: nat | p < numPages + 1 && p !in chain ensures InUse(now, Key(fd, p)) {
      if p < numPages { assert InUse(model, Key(fd, p)); }
    }
  }

  /** Putting a page in front of the chain. */
  lemma PushFree(model: map<Key, Page>, fd: nat, numPages: nat, firstFree: int, chain: seq<nat>, p: nat, page: Page)
    requires FileOk(model, fd, numPages, firstFree, chain) && p < numPages && p !in chain && page.nextFree == firstFree
    ensures FileOk(model[Key(fd, p) := page], fd, numPages, p, [p] + chain)
  {
    var now := model[Key(fd, p) := page];
    var r := [p] + chain;
    forall i | 0 <= i < |r| ensures now[Key(fd, r[i])].nextFree == Next(r, i + 1) {
      if i > 0 {
        assert chain[i - 1] in chain;
        assert model[Key(fd, chain[i - 1])].nextFree == Next(chain, i);
      }
    }
    forall q: nat | q < numPages && q !in r ensures InUse(now, Key(fd, q)) {
      assert p in r && InUse(model, Key(fd, q));
    }
  }

  // ----- looking at a page and letting it go

  /** Pin counts are 16-bit numbers, and no page is pinned 65535 times, so that one more pin does not wrap its count to zero. */
  ghost predicate Pinnable(p: Pool) {
    forall s :: s in p.used && s < |p.frames| ==> -32768 <= p.frames[s].pin <= 32767 && p.frames[s].pin != -1
  }

  lemma PinRange(p: Pool, k: Key)
    requires PoolOk(p) && Pinnable(p)
    ensures -32768 <= Pins(p, k) <= 32767
  {
    PoolLists(p);
  }

  lemma PinnableMay(p: Pool, pending: set<Key>, k: Key)
    requires PoolOk(p) && Pinnable(p)
    ensures PoolShape(p) && MayPin(p, k, pending)
  {
    PoolLists(p);
  }

  /** After a GetPage the caller may unpin the page again. */
  lemma PinnedMayUnpin(p: Pool, k: Key, multiple: bool, os: Faults, model: map<Key, Page>, pending: set<Key>)
    requires PoolOk(p) && Agrees(p, model, pending) && Pinnable(p) && GetPage(p, k, multiple, os).0 == Ok
    ensures var q := GetPage(p, k, multiple, os).2;
            PoolOk(q) && PoolShape(q) && MayUnpin(q, k, pending) && UnpinPage(q, k).0 == Ok
  {
    hide GetPage, Agrees, Partition, Injective;
    var (rc, slot, q) := GetPage(p, k, multiple, os);
    GetOk(p, k, multiple, os);
    PoolLists(p);
    PoolLists(q);
    LookupCached(p, k);
    GetSlot(p, k, multiple, os);
    SlotFound(q, k, slot);
    var found := Lookup(p.frames, p.used, k);
    if found.None? {
      UncachedAgrees(p, k, model, pending);
    } else if k in pending {
      PendingPinned(p, k, found.value, model, pending);
    }
  }

  lemma PendingPinned(p: Pool, k: Key, slot: nat, model: map<Key, Page>, pending: set<Key>)
    requires PoolOk(p) && Agrees(p, model, pending) && k in pending && slot in p.used && slot < |p.frames| && p.frames[slot].key == k
    ensures p.frames[slot].pin != 0
  {
    assert PinnedPage(p, k);
  }

  /** Getting a page and unpinning it again leaves every pin count as it was, a newly read page unpinned. */
  lemma PeekPins(p: Pool, k: Key, os: Faults)
    requires PoolOk(p) && Pinnable(p) && GetPage(p, k, true, os).0 == Ok
    ensures var q := GetPage(p, k, true, os).2;
            PoolOk(q) && Pinnable(UnpinPage(q, k).1)
  {
    hide GetPage, Partition, Injective;
    var (rc, slot, q) := GetPage(p, k, true, os);
    GetOk(p, k, true, os);
    GetSlot(p, k, true, os);
    PoolLists(p);
    PoolLists(q);
    SlotFound(q, k, slot);
    PartitionMove(q.used, q.free, |q.frames|, slot);
  }

  ghost predicate PinsOne(p: Pool, q: Pool, k: Key) {
    PoolOk(p) && PinsNow(p, q, k, Inc(Pins(p, k)))
  }

  lemma KeptOne(p: Pool, q: Pool, r: Pool, k: Key)
    requires PinsKept(p, q) && PinsOne(q, r, k)
    ensures PinsOne(p, r, k)
  {
    hide PoolOk, Pins;
    KeptNow(p, q, r, k, Inc(Pins(q, k)));
    assert Pins(q, k) == Pins(p, k);
  }

  ghost predicate PinsLess(p: Pool, q: Pool, k: Key) {
    PoolOk(p) && PinsNow(p, q, k, Dec(Pins(p, k)))
  }

  lemma KeptUnpin(p: Pool, q: Pool, k: Key)
    requires PoolOk(q) && PinsKept(p, q) && UnpinPage(q, k).0 == Ok
    ensures PinsLess(p, UnpinPage(q, k).1, k)
  {
    hide PoolOk, Pins, UnpinPage;
    UnpinCounts(q, k);
    KeptNow(p, q, UnpinPage(q, k).1, k, Dec(Pins(q, k)));
    assert Pins(q, k) == Pins(p, k);
  }

  /** A page pinned once more and unpinned again is pinned as before. */
  lemma Unpinned(p: Pool, k: Key, q: Pool)
    requires PoolOk(p) && Pinnable(p) && PinsOne(p, q, k) && UnpinPage(q, k).0 == Ok
    ensures PinsKept(p, UnpinPage(q, k).1)
  {
    hide PoolOk, Pins, Pinnable;
    PinRange(p, k);
    UnpinCounts(q, k);
    PinUnpin(p, q, UnpinPage(q, k).1, k);
  }

  /** An open paged file. model, pending and chain exist for the proof only: the plain map the pool stands
      for, the pages written since their last MarkDirty, and the free pages in list order. */
  class FileHandle {
    const mgr: BufferMgr
    const fd: nat
    var bFileOpen: bool
    var firstFree: int
    var numPages: nat
    var bHdrChanged: bool
    ghost var model: map<Key, Page>
    ghost var pending: set<Key>
    ghost var chain: seq<nat>

    /** The pool is in order and stands for model. */
    ghost predicate Synced()
      reads this, mgr, mgr.bufTable, mgr.hashTable, mgr.hashTable.table, mgr.hashTable.entries
    {
      this as object != mgr && this as object != mgr.hashTable &&
      mgr.Valid() && Agrees(mgr.State(), model, pending)
    }

    ghost predicate Valid()
      reads this, mgr, mgr.bufTable, mgr.hashTable, mgr.hashTable.table, mgr.hashTable.entries
    {
      Synced() && FileOk(model, fd, numPages, firstFree, chain)
    }

    predicate IsValidPageNum(pageNum: int)
      reads this
    {
      bFileOpen && 0 <= pageNum < numPages
    }

    /** The slot holds this page of the file, pinned, with its current contents. */
    ghost predicate Holds(slot: int, k: Key)
      requires Synced()
      reads this, mgr, mgr.bufTable, mgr.hashTable, mgr.hashTable.table, mgr.hashTable.entries
    {
      0 <= slot < mgr.numPages && slot in mgr.used && k in model && mgr.Frames()[slot].pin != 0 &&
      mgr.Frames()[slot].key == k && mgr.Frames()[slot].page == model[k]
    }

    constructor (m: BufferMgr, unixfd: nat, first: int, pages: nat, ghost map0: map<Key, Page>,
                 ghost pending0: set<Key>, ghost free: seq<nat>)
      requires m.Valid() && Agrees(m.State(), map0, pending0) && FileOk(map0, unixfd, pages, first, free)
      ensures Valid() && mgr == m && fd == unixfd && bFileOpen && numPages == pages && model == map0 && chain == free
    {
      mgr, fd, bFileOpen, firstFree, numPages, bHdrChanged := m, unixfd, true, first, pages, false;
      model, pending, chain := map0, pending0, free;
    }

    /** PF_BufferMgr::GetPage seen from the plain map. */
    method Pin(k: Key, multiple: bool, os: Faults) returns (rc: Rc, slot: int)
      requires Synced() && Pinnable(mgr.State()) && k in model
      modifies mgr, mgr.bufTable, mgr.hashTable, mgr.hashTable.table, mgr.hashTable.entries
      ensures Synced() && fresh(mgr.hashTable.entries - old(mgr.hashTable.entries))
      ensures var (rc', slot', p) := GetPage(old(mgr.State()), k, multiple, os);
              rc == rc' && mgr.State() == p && (rc == Ok ==> slot == slot' && Holds(slot, k))
    {
      hide Lists, HashTable.Valid, PoolOk, Maps, Agrees, GetPage;
      GetAgrees(mgr.State(), k, multiple, os, model, pending);
      assert model[k := model[k]] == model;
      if GetPage(mgr.State(), k, multiple, os).0 == Ok { GetPins(mgr.State(), k, multiple, os); }
      rc, slot := mgr.GetPage(k, multiple, os);
    }

    method UnpinPage(pageNum: int) returns (rc: Rc)
      requires Synced() && (IsValidPageNum(pageNum) ==> PoolShape(mgr.State()) && MayUnpin(mgr.State(), Key(fd, pageNum), pending))
      modifies mgr`first, mgr`last, mgr`used, mgr.bufTable
      ensures Synced()
      ensures if !bFileOpen then rc == ClosedFile && mgr.State() == old(mgr.State())
              else if !IsValidPageNum(pageNum) then rc == InvalidPage && mgr.State() == old(mgr.State())
              else (rc, mgr.State()) == PfPool.UnpinPage(old(mgr.State()), Key(fd, pageNum))
    {
      hide Lists, HashTable.Valid, PoolOk, Maps, Agrees, PfPool.UnpinPage, PoolShape;
      if !bFileOpen {
        return ClosedFile;
      }
      if !IsValidPageNum(pageNum) {
        return InvalidPage;
      }
      UnpinTransparent(mgr.State(), Key(fd, pageNum), model, pending);
      rc := mgr.UnpinPage(Key(fd, pageNum));
    }

    method MarkDirty(pageNum: int) returns (rc: Rc)
      requires Synced()
      modifies this`pending, mgr`first, mgr`last, mgr`used, mgr.bufTable
      ensures Synced()
      ensures if !bFileOpen then rc == ClosedFile && mgr.State() == old(mgr.State())
              else if !IsValidPageNum(pageNum) then rc == InvalidPage && mgr.State() == old(mgr.State())
              else (rc, mgr.State()) == PfPool.MarkDirty(old(mgr.State()), Key(fd, pageNum))
      ensures pending == if rc == Ok then old(pending) - {Key(fd, pageNum)} else old(pending)
    {
      hide Lists, HashTable.Valid, PoolOk, Maps, Agrees, PfPool.MarkDirty;
      if !bFileOpen {
        return ClosedFile;
      }
      if !IsValidPageNum(pageNum) {
        return InvalidPage;
      }
      MarkTransparent(mgr.State(), Key(fd, pageNum), model, pending);
      rc := mgr.MarkDirty(Key(fd, pageNum));
      if rc == Ok {
        pending := pending - {Key(fd, pageNum)};
      }
    }

    /** A page in use comes back pinned with its contents; a free page or a number outside the file is
        refused and leaves every pin as it was. */
    method GetThisPage(pageNum: int, os: Faults) returns (rc: Rc, slot: int)
      requires Valid() && Pinnable(mgr.State())
      modifies mgr, mgr.bufTable, mgr.hashTable, mgr.hashTable.table, mgr.hashTable.entries
      ensures Valid() && fresh(mgr.hashTable.entries - old(mgr.hashTable.entries))
      ensures !bFileOpen ==> rc == ClosedFile
      ensures rc == Ok ==> IsValidPageNum(pageNum) && InUse(model, Key(fd, pageNum)) && Holds(slot, Key(fd, pageNum))
      ensures rc == InvalidPage ==>
                Pinnable(mgr.State()) && !(IsValidPageNum(pageNum) && InUse(model, Key(fd, pageNum)))
      ensures bFileOpen && !IsValidPageNum(pageNum) ==> rc == InvalidPage
      ensures PoolOk(old(mgr.State()))
      ensures IsValidPageNum(pageNum) ==>
                (var k := Key(fd, pageNum);
                 (rc == Ok <==> InUse(model, k) && Gettable(old(mgr.State()), k, os)) &&
                 (rc == InvalidPage <==> !InUse(model, k) && Gettable(old(mgr.State()), k, os)))
      ensures rc == InvalidPage && os == map[] && Easy(old(mgr.State())) ==> Easy(mgr.State())
      ensures rc != Eof
      ensures if rc == Ok then PinsOne(old(mgr.State()), mgr.State(), Key(fd, pageNum)) else PinsKept(old(mgr.State()), mgr.State())
    {
      hide Lists, HashTable.Valid, PoolOk, Maps, Agrees, GetPage, FileOk, Pinnable, PfPool.UnpinPage, PoolShape, MayUnpin, Pins, Gettable, Easy;
      if !bFileOpen {
        return ClosedFile, 0;
      }
      if !IsValidPageNum(pageNum) {
        return InvalidPage, 0;
      }
      var k := Key(fd, pageNum);
      ChainAt(model, fd, numPages, firstFree, chain, pageNum);
      ghost var p := mgr.State();
      GetCounts(p, k, true, os);
      GetKnown(p, k, true, os, model, pending);
      rc, slot := Pin(k, true, os);
      if rc != Ok {
        GetCodes(p, k, true, os);
        return;
      }
      if mgr.bufTable[slot].page.nextFree == PF_PAGE_USED {
        return Ok, slot;
      }
      PinnedMayUnpin(p, k, true, os, model, pending);
      PeekPins(p, k, os);
      Unpinned(p, k, mgr.State());
      if os == map[] && Easy(p) {
        GetPins(p, k, true, os);
        EasyPeek(p, k, model, pending);
      }
      rc := UnpinPage(pageNum);
      assert rc == Ok;
      rc := InvalidPage;
    }

    /** The first page in use after current, or PF_EOF if the rest of the file is free. */
    method GetNextPage(current: int, os: Faults) returns (rc: Rc, slot: int, page: int)
      requires Valid() && Pinnable(mgr.State())
      modifies mgr, mgr.bufTable, mgr.hashTable, mgr.hashTable.table, mgr.hashTable.entries
      ensures Valid() && fresh(mgr.hashTable.entries - old(mgr.hashTable.entries))
      ensures !bFileOpen ==> rc == ClosedFile
      ensures bFileOpen && current != -1 && !IsValidPageNum(current) <==> rc == InvalidPage
      ensures rc == Ok ==> current < page < numPages && InUse(model, Key(fd, page)) && Holds(slot, Key(fd, page))
      ensures rc == Ok ==> forall p :: current < p < page ==> !InUse(model, Key(fd, p))
      ensures rc == Eof ==> forall p :: current < p < numPages ==> !InUse(model, Key(fd, p))
      ensures bFileOpen && rc != InvalidPage && os == map[] && Easy(old(mgr.State())) ==> rc == Ok || rc == Eof
      ensures if rc == Ok then 0 <= page && PinsOne(old(mgr.State()), mgr.State(), Key(fd, page)) else PinsKept(old(mgr.State()), mgr.State())
    {
      hide Lists, HashTable.Valid, PoolOk, Maps, Agrees, FileOk, Pinnable, InUse, Pins, Gettable, Easy;
      slot, page := 0, current;
      if !bFileOpen {
        return ClosedFile, slot, page;
      }
      if current != -1 && !IsValidPageNum(current) {
        return InvalidPage, slot, page;
      }
      page := current + 1;
      while page < numPages
        invariant Valid() && Pinnable(mgr.State()) && current + 1 <= page <= numPages && PinsKept(old(mgr.State()), mgr.State())
        invariant fresh(mgr.hashTable.entries - old(mgr.hashTable.entries))
        invariant forall p :: current < p < page ==> !InUse(model, Key(fd, p))
        invariant os == map[] && Easy(old(mgr.State())) ==> Easy(mgr.State())
        modifies mgr, mgr.bufTable, mgr.hashTable, mgr.hashTable.table, mgr.hashTable.entries
      {
        ghost var p := mgr.State();
        ChainAt(model, fd, numPages, firstFree, chain, page);
        if os == map[] && Easy(p) { EasyGettable(p, Key(fd, page)); }
        rc, slot := GetThisPage(page, os);
        if rc == Ok { KeptOne(old(mgr.State()), p, mgr.State(), Key(fd, page)); } else { KeptTrans(old(mgr.State()), p, mgr.State()); }
        if rc != InvalidPage {
          return;
        }
        page := page + 1;
      }
      rc := Eof;
    }

    /** The client writes a pinned page through its pointer. */
    method Write(slot: nat, k: Key, page: Page)
      requires Synced() && Holds(slot, k)
      modifies this`model, this`pending, mgr.bufTable
      ensures Synced() && Holds(slot, k)
      ensures model == old(model)[k := page] && pending == old(pending) + {k}
      ensures mgr.State() == Poke(old(mgr.State()), slot, page) && PinsKept(old(mgr.State()), mgr.State())
    {
      hide Lists, HashTable.Valid, PoolOk, Maps, Agrees, Pins;
      PokeTransparent(mgr.State(), slot, page, model, pending);
      PokeKeeps(mgr.State(), slot, page);
      mgr.Write(slot, page);
      model, pending := model[k := page], pending + {k};
    }

    /** MarkDirty of a page the caller holds. */
    method Settle(slot: nat, pageNum: nat)
      requires Synced() && Holds(slot, Key(fd, pageNum)) && IsValidPageNum(pageNum)
      modifies this`pending, mgr`first, mgr`last, mgr`used, mgr.bufTable
      ensures Synced() && Holds(slot, Key(fd, pageNum)) && pending == old(pending) - {Key(fd, pageNum)}
      ensures mgr.Frames() == old(mgr.Frames())[slot := old(mgr.Frames()[slot]).(dirty := true)]
      ensures forall s :: s in mgr.used <==> s in old(mgr.used)
      ensures PinsKept(old(mgr.State()), mgr.State())
    {
      hide Lists, HashTable.Valid, PoolOk, Maps, Agrees, PfPool.MarkDirty, Pins;
      MarkSlot(mgr.State(), Key(fd, pageNum), slot);
      var rc := MarkDirty(pageNum);
      assert rc == Ok;
    }

    /** The first free page, or a new one at the end of the file; never a page in use. It comes zeroed, in
        use and pinned, and no other page of any file changes. */
    method AllocatePage(os: Faults) returns (rc: Rc, slot: int, pageNum: nat)
      requires Valid() && Pinnable(mgr.State())
      modifies this, mgr, mgr.bufTable, mgr.hashTable, mgr.hashTable.table, mgr.hashTable.entries
      ensures Valid() && fresh(mgr.hashTable.entries - old(mgr.hashTable.entries)) && bFileOpen == old(bFileOpen)
      ensures !bFileOpen ==> rc == ClosedFile
      ensures PoolOk(old(mgr.State()))
      ensures bFileOpen ==>
                (rc == Ok <==> if old(chain) != [] then Gettable(old(mgr.State()), Key(fd, old(chain)[0]), os)
                               else !Cached(old(mgr.State()), Key(fd, old(numPages))) && CanAlloc(old(mgr.State()), os))
      ensures rc == Ok ==>
                pageNum == (if old(chain) != [] then old(chain)[0] else old(numPages)) &&
                (pageNum < old(numPages) ==> !InUse(old(model), Key(fd, pageNum))) &&
                model == old(model)[Key(fd, pageNum) := Page(PF_PAGE_USED, ZeroBody())] &&
                chain == (if old(chain) != [] then old(chain)[1..] else []) &&
                numPages == old(numPages) + (if old(chain) != [] then 0 else 1) &&
                bHdrChanged && pending == old(pending) - {Key(fd, pageNum)} && Holds(slot, Key(fd, pageNum))
      ensures rc != Ok ==> model == old(model) && chain == old(chain) && numPages == old(numPages) && pending == old(pending)
      ensures if rc == Ok then PinsOne(old(mgr.State()), mgr.State(), Key(fd, pageNum)) else PinsKept(old(mgr.State()), mgr.State())
    {
      hide Lists, HashTable.Valid, PoolOk, Maps, Agrees, FileOk, Pinnable, InUse, GetPage, PfPool.AllocatePage, Pins, PinsNow, Gettable, Cached, CanAlloc;
      slot, pageNum := 0, 0;
      if !bFileOpen {
        return ClosedFile, slot, pageNum;
      }
      ChainEmpty(model, fd, numPages, firstFree, chain);
      if firstFree != PF_PAGE_LIST_END {
        rc, slot, pageNum := TakeFree(os);
      } else {
        rc, slot := Append(os);
        pageNum := if rc == Ok then numPages - 1 else 0;
      }
      if rc != Ok {
        return;
      }
      bHdrChanged := true;
      ghost var p := mgr.State();
      InitPage(slot, pageNum);
      NowKept(old(mgr.State()), p, mgr.State(), Key(fd, pageNum), Inc(Pins(old(mgr.State()), Key(fd, pageNum))));
    }

    /** AllocatePage with a free page at hand: it leaves the free list. */
    method TakeFree(os: Faults) returns (rc: Rc, slot: int, pageNum: nat)
      requires Valid() && Pinnable(mgr.State()) && firstFree != PF_PAGE_LIST_END
      modifies this`firstFree, this`chain, mgr, mgr.bufTable, mgr.hashTable, mgr.hashTable.table, mgr.hashTable.entries
      ensures Synced() && fresh(mgr.hashTable.entries - old(mgr.hashTable.entries))
      ensures rc != Ok ==> firstFree == old(firstFree) && chain == old(chain)
      ensures rc == Ok ==>
                Holds(slot, Key(fd, pageNum)) && pageNum < numPages && !InUse(model, Key(fd, pageNum)) &&
                old(chain) == [pageNum] + chain &&
                FileOk(model[Key(fd, pageNum) := Page(PF_PAGE_USED, ZeroBody())], fd, numPages, firstFree, chain)
      ensures if rc == Ok then PinsOne(old(mgr.State()), mgr.State(), Key(fd, pageNum)) else PinsKept(old(mgr.State()), mgr.State())
      ensures old(chain) != [] && PoolOk(old(mgr.State())) && (rc == Ok <==> Gettable(old(mgr.State()), Key(fd, old(chain)[0]), os))
    {
      hide Lists, HashTable.Valid, PoolOk, Maps, Agrees, FileOk, Pinnable, GetPage, Pins, Gettable;
      TakeFirst(model, fd, numPages, firstFree, chain, Page(PF_PAGE_USED, ZeroBody()));
      ChainAt(model, fd, numPages, firstFree, chain, firstFree);
      pageNum := firstFree;
      GetCounts(mgr.State(), Key(fd, pageNum), true, os);
      GetKnown(mgr.State(), Key(fd, pageNum), true, os, model, pending);
      rc, slot := Pin(Key(fd, pageNum), true, os);
      if rc != Ok {
        return;
      }
      firstFree := mgr.bufTable[slot].page.nextFree;
      chain := chain[1..];
    }

    /** AllocatePage with no free page: the file grows by one page, of which the pool says nothing yet. */
    method Append(os: Faults) returns (rc: Rc, slot: int)
      requires Valid()
      modifies this`numPages, this`model, this`pending, mgr, mgr.bufTable, mgr.hashTable, mgr.hashTable.table, mgr.hashTable.entries
      ensures Synced() && fresh(mgr.hashTable.entries - old(mgr.hashTable.entries))
      ensures rc != Ok ==> numPages == old(numPages) && model == old(model) && pending == old(pending)
      ensures rc == Ok ==>
                var k := Key(fd, old(numPages));
                Holds(slot, k) && numPages == old(numPages) + 1 && pending == old(pending) + {k} &&
                model == old(model)[k := model[k]] &&
                FileOk(model[k := Page(PF_PAGE_USED, ZeroBody())], fd, numPages, firstFree, chain)
      ensures if rc == Ok then PinsOne(old(mgr.State()), mgr.State(), Key(fd, old(numPages)))
              else PinsKept(old(mgr.State()), mgr.State())
      ensures PoolOk(old(mgr.State()))
      ensures rc == Ok <==> !Cached(old(mgr.State()), Key(fd, old(numPages))) && CanAlloc(old(mgr.State()), os)
    {
      hide Lists, HashTable.Valid, PoolOk, Maps, Agrees, FileOk, PfPool.AllocatePage, Pins, Cached, CanAlloc;
      var k := Key(fd, numPages);
      AllocateCounts(mgr.State(), k, os);
      AllocateCode(mgr.State(), k, os);
      Extend(model, fd, numPages, firstFree, chain, Page(PF_PAGE_USED, ZeroBody()));
      AllocateTransparent(mgr.State(), k, os, model, pending);
      rc, slot := mgr.AllocatePage(k, os);
      if rc == Ok {
        ghost var page := mgr.bufTable[slot].page;
        assert model[k := page][k := Page(PF_PAGE_USED, ZeroBody())] == model[k := Page(PF_PAGE_USED, ZeroBody())];
        model, pending := model[k := page], pending + {k};
        numPages := numPages + 1;
      }
    }

    /** Mark the page as used, zero its data, and mark it dirty. */
    method InitPage(slot: nat, pageNum: nat)
      requires Synced() && Holds(slot, Key(fd, pageNum)) && IsValidPageNum(pageNum)
      modifies this`model, this`pending, mgr`first, mgr`last, mgr`used, mgr.bufTable
      ensures Synced() && Holds(slot, Key(fd, pageNum))
      ensures model == old(model)[Key(fd, pageNum) := Page(PF_PAGE_USED, ZeroBody())]
      ensures pending == old(pending) - {Key(fd, pageNum)}
      ensures PinsKept(old(mgr.State()), mgr.State())
    {
      hide Lists, HashTable.Valid, PoolOk, Maps, Agrees, Pins, Poke, PinsKept;
      ghost var p := mgr.State();
      Write(slot, Key(fd, pageNum), mgr.bufTable[slot].page.(nextFree := PF_PAGE_USED));
      ghost var q := mgr.State();
      Write(slot, Key(fd, pageNum), mgr.bufTable[slot].page.(body := ZeroBody()));
      KeptTrans(p, q, mgr.State());
      q := mgr.State();
      Settle(slot, pageNum);
      KeptTrans(p, q, mgr.State());
    }

    /** A page in use that nobody has pinned joins the free pages; a free page is refused. */
    method DisposePage(pageNum: int, os: Faults) returns (rc: Rc)
      requires Valid() && Pinnable(mgr.State())
      modifies this, mgr, mgr.bufTable, mgr.hashTable, mgr.hashTable.table, mgr.hashTable.entries
      ensures Valid() && fresh(mgr.hashTable.entries - old(mgr.hashTable.entries))
      ensures numPages == old(numPages) && bFileOpen == old(bFileOpen)
      ensures !bFileOpen ==> rc == ClosedFile
      ensures bFileOpen && !IsValidPageNum(pageNum) ==> rc == InvalidPage
      ensures PoolOk(old(mgr.State()))
      ensures IsValidPageNum(pageNum) ==>
                (var k := Key(fd, pageNum);
                 (rc == PagePinned <==> Pins(old(mgr.State()), k) > 0) &&
                 (rc == PageFree <==> !InUse(old(model), k) && Pins(old(mgr.State()), k) <= 0 && Gettable(old(mgr.State()), k, os)) &&
                 (rc == Ok <==> InUse(old(model), k) && Pins(old(mgr.State()), k) <= 0 && Gettable(old(mgr.State()), k, os)))
      ensures rc == Ok ==>
                IsValidPageNum(pageNum) && InUse(old(model), Key(fd, pageNum)) && chain == [pageNum] + old(chain) &&
                model == old(model)[Key(fd, pageNum) := old(model)[Key(fd, pageNum)].(nextFree := old(firstFree))]
      ensures rc != Ok ==> model == old(model) && chain == old(chain)
      ensures PinsKept(old(mgr.State()), mgr.State())
    {
      hide Lists, HashTable.Valid, PoolOk, Maps, Agrees, FileOk, Pinnable, GetPage, PfPool.UnpinPage, PoolShape, MayUnpin, Pins, PinsNow, Gettable;
      if !bFileOpen {
        return ClosedFile;
      }
      if !IsValidPageNum(pageNum) {
        return InvalidPage;
      }
      var k := Key(fd, pageNum);
      ChainAt(model, fd, numPages, firstFree, chain, pageNum);
      ghost var p := mgr.State();
      GetCounts(p, k, false, os);
      GetKnown(p, k, false, os, model, pending);
      var slot;
      rc, slot := Pin(k, false, os);
      if rc != Ok {
        GetCodes(p, k, false, os);
        return;
      }
      if mgr.bufTable[slot].page.nextFree != PF_PAGE_USED {
        PinnedMayUnpin(p, k, false, os, model, pending);
        Unpinned(p, k, mgr.State());
        rc := UnpinPage(pageNum);
        assert rc == Ok;
        return PageFree;
      }
      PushFree(model, fd, numPages, firstFree, chain, pageNum, model[k].(nextFree := firstFree));
      ghost var q := mgr.State();
      Retire(slot, pageNum);
      PinRange(p, k);
      PinUnpin(p, q, mgr.State(), k);
    }

    /** The page becomes the first free page, is marked dirty and let go. */
    method Retire(slot: nat, pageNum: nat)
      requires Synced() && Holds(slot, Key(fd, pageNum)) && IsValidPageNum(pageNum)
      modifies this`model, this`pending, this`firstFree, this`bHdrChanged, this`chain, mgr`first, mgr`last, mgr`used, mgr.bufTable
      ensures Synced() && firstFree == pageNum && bHdrChanged && chain == [pageNum] + old(chain)
      ensures var k := Key(fd, pageNum); k in old(model) && model == old(model)[k := old(model)[k].(nextFree := old(firstFree))]
      ensures PinsLess(old(mgr.State()), mgr.State(), Key(fd, pageNum))
    {
      hide Lists, HashTable.Valid, PoolOk, Maps, Agrees, PfPool.UnpinPage, PoolShape, MayUnpin, Pins, PinsNow, PinsKept, Poke;
      var k := Key(fd, pageNum);
      ghost var p := mgr.State();
      Write(slot, k, mgr.bufTable[slot].page.(nextFree := firstFree));
      firstFree := pageNum;
      bHdrChanged := true;
      chain := [pageNum] + chain;
      ghost var q := mgr.State();
      Settle(slot, pageNum);
      KeptTrans(p, q, mgr.State());
      q := mgr.State();
      SettledUnpin(q, k, slot, pending);
      var rc := UnpinPage(pageNum);
      KeptUnpin(p, q, k);
    }
  }

  lemma ChainEmpty(model: map<Key, Page>, fd: nat, numPages: nat, firstFree: int, chain: seq<nat>)
    requires FileOk(model, fd, numPages, firstFree, chain)
    ensures firstFree == PF_PAGE_LIST_END <==> chain == []
  {}

  lemma MarkSlot(p: Pool, k: Key, slot: nat)
    requires PoolOk(p) && slot in p.used && slot < |p.frames| && p.frames[slot].key == k && p.frames[slot].pin != 0
    ensures var (rc, q) := PfPool.MarkDirty(p, k);
            rc == Ok && q.frames == p.frames[slot := p.frames[slot].(dirty := true)] && (forall s :: s in q.used <==> s in p.used) &&
            PinsKept(p, q)
  {
    hide Partition, Injective, Pins;
    PoolLists(p);
    SlotFound(p, k, slot);
    PartitionMove(p.used, p.free, |p.frames|, slot);
    MarkOk(p, k);
    KeptFrames(p, PfPool.MarkDirty(p, k).1);
  }

  lemma PokeKeeps(p: Pool, slot: nat, page: Page)
    requires PoolOk(p) && slot in p.used && slot < |p.frames|
    ensures PinsKept(p, Poke(p, slot, page))
  {
    hide Partition, Pins;
    KeptFrames(p, Poke(p, slot, page));
  }

  lemma SettledUnpin(p: Pool, k: Key, slot: nat, pending: set<Key>)
    requires PoolOk(p) && slot in p.used && slot < |p.frames| && p.frames[slot].key == k && p.frames[slot].pin != 0 && k !in pending
    ensures PoolShape(p) && MayUnpin(p, k, pending) && PfPool.UnpinPage(p, k).0 == Ok
  {
    PoolLists(p);
    SlotFound(p, k, slot);
  }

  lemma GetPins(p: Pool, k: Key, multiple: bool, os: Faults)
    requires PoolOk(p) && Pinnable(p) && GetPage(p, k, multiple, os).0 == Ok
    ensures var (rc, slot, q) := GetPage(p, k, multiple, os); slot < |q.frames| && q.frames[slot].pin != 0
  {
    hide GetPage, PoolOk;
    GetSlot(p, k, multiple, os);
  }

  lemma AllocCodes(p: Pool, os: Faults)
    requires PoolOk(p)
    ensures var rc := PfPool.InternalAlloc(p, os).0;
            rc == Ok || rc == NoBuf || rc == Unix || rc == IncompleteWrite
  {
    hide PfPool.WritePage, Partition, Injective, Victim;
    PoolLists(p);
    var v := Victim(p.frames, p.used, |p.used|);
    if v.Some? { WriteFails(p.files, p.frames[v.value].key, p.frames[v.value].page, os); }
  }

  /** GetPage fails only for its own reasons. */
  lemma GetCodes(p: Pool, k: Key, multiple: bool, os: Faults)
    requires PoolOk(p)
    ensures var rc := GetPage(p, k, multiple, os).0;
            rc == Ok || rc == PagePinned || rc == NoBuf || rc == Unix || rc == IncompleteRead || rc == IncompleteWrite
  {
    hide PfPool.ReadPage, PfPool.InternalAlloc, PoolOk, Lookup;
    PoolLists(p);
    AllocCodes(p, os);
  }

  lemma GetAgrees(p: Pool, k: Key, multiple: bool, os: Faults, model: map<Key, Page>, pending: set<Key>)
    requires PoolOk(p) && Agrees(p, model, pending) && Pinnable(p)
    ensures var (rc, slot, q) := GetPage(p, k, multiple, os);
            if rc == Ok then
              var page := if k in model then model[k] else ZeroPage();
              slot in q.used && slot < |q.frames| == |p.frames| && q.frames[slot].key == k && q.frames[slot].page == page &&
              Agrees(q, model[k := page], pending)
            else Agrees(q, model, pending)
  {
    hide GetPage, Agrees, PoolOk;
    PinnableMay(p, pending, k);
    GetTransparent(p, k, multiple, os, model, pending);
    if GetPage(p, k, multiple, os).0 == Ok { GetSlot(p, k, multiple, os); }
  }
}
