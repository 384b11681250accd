/** The PF buffer pool (pf_buffermgr.cc) as a value: frames, the used list from most to least recently
    used, the free list and the files behind them; and what its operations do to that value. */
module PfPool {
  import opened Options
  import opened PfHash
  import opened Seqs

  const PF_PAGE_SIZE: nat := 4092
  const ALL_PAGES: int := -1

  type Body = b: seq<nat> | |b| == PF_PAGE_SIZE witness seq(PF_PAGE_SIZE, _ => 0)

  /** A page with its header field. */
  datatype Page = Page(nextFree: int, body: Body)

  function ZeroBody(): Body {
    seq(PF_PAGE_SIZE, _ => 0)
  }

  function ZeroPage(): Page {
    Page(0, ZeroBody())
  }

  datatype Rc = Ok | PagePinned | PageNotInBuf | PageUnpinned | PageInBuf | NoBuf
    | Unix | IncompleteRead | IncompleteWrite
    | ClosedFile | InvalidPage | PageFree | Eof

  // ----- files

  /** The open files, by descriptor. */
  type Files = map<nat, seq<Page>>

  /** How the operating system may fail a transfer: refuse it, or break off leaving the target torn. */
  datatype Fault = Refused | Torn(page: Page)

  type Faults = map<Key, Fault>

  function OnFile(files: Files, k: Key): Option<Page> {
    if k.fd in files && k.page < |files[k.fd]| then Some(files[k.fd][k.page]) else None
  }

  /** Zero pages fill the gap when a write goes beyond the end of the file. */
  function Grown(s: seq<Page>, n: nat): (r: seq<Page>)
    ensures n <= |r| && s <= r && forall i :: |s| <= i < |r| ==> r[i] == ZeroPage()
    decreases n - |s|
  {
    if n <= |s| then s else Grown(s + [ZeroPage()], n)
  }

  function Stored(files: Files, k: Key, page: Page): Files
    requires k.fd in files
  {
    files[k.fd := Grown(files[k.fd], k.page + 1)[k.page := page]]
  }

  /** read(): the result code, and what the destination then holds if anything was read. */
  function ReadPage(files: Files, k: Key, os: Faults): (r: (Rc, Option<Page>))
    ensures r.0 == Ok ==> r.1.Some? && r.1 == OnFile(files, k)
    ensures r.0 == Ok || r.0 == Unix || r.0 == IncompleteRead
  {
    if k.fd !in files || (k in os && os[k].Refused?) then (Unix, None)
    else if k in os then (IncompleteRead, Some(os[k].page))
    else if OnFile(files, k).None? then (IncompleteRead, None)
    else (Ok, OnFile(files, k))
  }

  function WritePage(files: Files, k: Key, page: Page, os: Faults): (Rc, Files) {
    if k.fd !in files || (k in os && os[k].Refused?) then (Unix, files)
    else if k in os then (IncompleteWrite, Stored(files, k, os[k].page))
    else (Ok, Stored(files, k, page))
  }

  /** A write touches its own page, and otherwise at most turns missing pages into zero pages. */
  lemma WriteTouches(files: Files, k: Key, page: Page, os: Faults, q: Key)
    ensures var w := WritePage(files, k, page, os);
            (q != k ==> OnFile(w.1, q) == OnFile(files, q) ||
                        (OnFile(files, q) == None && OnFile(w.1, q) == Some(ZeroPage()))) &&
            (w.0 == Ok ==> OnFile(w.1, k) == Some(page))
  {}

  // ----- the pool

  /** The 16-bit pin count. */
  function Inc(pin: int): int {
    if pin == 32767 then -32768 else pin + 1
  }

  function Dec(pin: int): int {
    if pin == -32768 then 32767 else pin - 1
  }

  datatype Frame = Frame(key: Key, dirty: bool, pin: int, page: Page)

  datatype Pool = Pool(frames: seq<Frame>, used: seq<nat>, free: seq<nat>, files: Files)

  predicate Slots(list: seq<nat>, n: nat) {
    forall i :: 0 <= i < |list| ==> list[i] < n
  }

  /** No two listed slots hold the same page. */
  ghost predicate Injective(frames: seq<Frame>, used: seq<nat>) {
    Slots(used, |frames|) && forall s, t :: s in used && t in used && s != t ==> frames[s].key != frames[t].key
  }

  /** Every slot is on exactly one of the two lists, once. */
  ghost predicate Partition(used: seq<nat>, free: seq<nat>, n: nat) {
    NoDup(used) && NoDup(free) && Slots(used, n) && Slots(free, n) && |used| + |free| == n &&
    forall x :: x in used ==> x !in free
  }

  ghost predicate PoolOk(p: Pool) {
    Partition(p.used, p.free, |p.frames|) && Injective(p.frames, p.used)
  }

  /** The slot of page k among the listed slots. */
  function Lookup(frames: seq<Frame>, used: seq<nat>, k: Key): (r: Option<nat>)
    requires Slots(used, |frames|)
    ensures r.Some? ==> r.value in used && r.value < |frames| && frames[r.value].key == k
    ensures r.None? ==> forall s :: s in used ==> frames[s].key != k
  {
    if used == [] then None
    else if frames[used[0]].key == k then Some(used[0])
    else Lookup(frames, used[1..], k)
  }

  /** The last unpinned slot among the first n of the list. */
  function Victim(frames: seq<Frame>, used: seq<nat>, n: nat): (r: Option<nat>)
    requires Slots(used, |frames|) && n <= |used|
    ensures r.Some? ==> r.value in used && frames[r.value].pin == 0
    ensures r.None? ==> forall i :: 0 <= i < n ==> frames[used[i]].pin != 0
  {
    if n == 0 then None
    else if frames[used[n - 1]].pin == 0 then Some(used[n - 1])
    else Victim(frames, used, n - 1)
  }

  /** InternalAlloc: a free slot, or else the victim, written back if it is dirty; put at the head of the used list. */
  function InternalAlloc(p: Pool, os: Faults): (r: (Rc, nat, Pool))
    requires PoolOk(p)
  {
    if p.free != [] then
      (Ok, p.free[0], p.(used := [p.free[0]] + p.used, free := p.free[1..]))
    else
      var v := Victim(p.frames, p.used, |p.used|);
      if v.None? then (NoBuf, 0, p)
      else
        var f := p.frames[v.value];
        var w := if f.dirty then WritePage(p.files, f.key, f.page, os) else (Ok, p.files);
        if w.0 != Ok then (w.0, v.value, p.(files := w.1))
        else
          (Ok, v.value,
           p.(frames := p.frames[v.value := f.(dirty := false)], used := MoveToFront(p.used, v.value), files := w.1))
  }

  function Touch(p: Pool, slot: nat): Pool
    requires slot in p.used
  {
    p.(used := MoveToFront(p.used, slot))
  }

  /** GetPage: the result code, the slot the caller's pointer leads to, and the pool afterwards. */
  function GetPage(p: Pool, k: Key, multiple: bool, os: Faults): (r: (Rc, nat, Pool))
    requires PoolOk(p)
  {
    var found := Lookup(p.frames, p.used, k);
    if found.Some? then
      var f := p.frames[found.value];
      if !multiple && f.pin > 0 then (PagePinned, found.value, p)
      else (Ok, found.value, Touch(p, found.value).(frames := p.frames[found.value := f.(pin := Inc(f.pin))]))
    else
      var a := InternalAlloc(p, os);
      if a.0 != Ok then a
      else
        AllocOk(p, os);
        var slot, q := a.1, a.2;
        var read := ReadPage(q.files, k, os);
        if read.0 != Ok then
          var f := if read.1.Some? then q.frames[slot].(page := read.1.value) else q.frames[slot];
          (read.0, slot, q.(frames := q.frames[slot := f], used := Without(q.used, slot), free := [slot] + q.free))
        else
          (Ok, slot, q.(frames := q.frames[slot := Frame(k, false, 1, read.1.value)]))
  }

  function AllocatePage(p: Pool, k: Key, os: Faults): (r: (Rc, nat, Pool))
    requires PoolOk(p)
  {
    if Lookup(p.frames, p.used, k).Some? then (PageInBuf, 0, p)
    else
      var a := InternalAlloc(p, os);
      if a.0 != Ok then a
      else
        AllocOk(p, os);
        var slot, q := a.1, a.2;
        (Ok, slot, q.(frames := q.frames[slot := Frame(k, false, 1, q.frames[slot].page)]))
  }

  function MarkDirty(p: Pool, k: Key): (r: (Rc, Pool))
    requires PoolOk(p)
  {
    var found := Lookup(p.frames, p.used, k);
    if found.None? then (PageNotInBuf, p)
    else
      var f := p.frames[found.value];
      if f.pin == 0 then (PageUnpinned, p)
      else (Ok, Touch(p, found.value).(frames := p.frames[found.value := f.(dirty := true)]))
  }

  function UnpinPage(p: Pool, k: Key): (r: (Rc, Pool))
    requires PoolOk(p)
  {
    var found := Lookup(p.frames, p.used, k);
    if found.None? then (PageNotInBuf, p)
    else
      var f := p.frames[found.value];
      if f.pin == 0 then (PageUnpinned, p)
      else
        var q := p.(frames := p.frames[found.value := f.(pin := Dec(f.pin))]);
        (Ok, if Dec(f.pin) == 0 then Touch(q, found.value) else q)
  }

  /** FlushPages from the slots todo on; warn is the code to return at the end. */
  function FlushFrom(p: Pool, todo: seq<nat>, fd: nat, os: Faults, warn: Rc): (r: (Rc, Pool))
    requires PoolOk(p) && NoDup(todo) && forall s :: s in todo ==> s in p.used
    decreases |todo|
  {
    if todo == [] then (warn, p)
    else
      var slot := todo[0];
      assert slot in p.used;
      var f := p.frames[slot];
      if f.key.fd != fd then FlushFrom(p, todo[1..], fd, os, warn)
      else if f.pin != 0 then FlushFrom(p, todo[1..], fd, os, PagePinned)
      else
        var w := if f.dirty then WritePage(p.files, f.key, f.page, os) else (Ok, p.files);
        if w.0 != Ok then (w.0, p.(files := w.1))
        else
          ReleaseOk(p, slot, w.1);
          WithoutOk(p.used, slot);
          FlushFrom(Release(p, slot, w.1), todo[1..], fd, os, warn)
  }

  /** A flushed slot goes to the free list. */
  function Release(p: Pool, slot: nat, files: Files): Pool
    requires slot in p.used && slot < |p.frames|
  {
    Pool(p.frames[slot := p.frames[slot].(dirty := false)], Without(p.used, slot), [slot] + p.free, files)
  }

  function FlushPages(p: Pool, fd: nat, os: Faults): (r: (Rc, Pool))
    requires PoolOk(p)
  {
    FlushFrom(p, p.used, fd, os, Ok)
  }

  predicate Wanted(k: Key, fd: nat, pageNum: int) {
    k.fd == fd && (pageNum == ALL_PAGES || k.page == pageNum)
  }

  function ForceFrom(p: Pool, todo: seq<nat>, fd: nat, pageNum: int, os: Faults): (r: (Rc, Pool))
    requires PoolOk(p) && forall s :: s in todo ==> s in p.used
    decreases |todo|
  {
    if todo == [] then (Ok, p)
    else
      assert todo[0] in p.used;
      var f := p.frames[todo[0]];
      if Wanted(f.key, fd, pageNum) && f.dirty then
        var w := WritePage(p.files, f.key, f.page, os);
        if w.0 != Ok then (w.0, p.(files := w.1))
        else
          var q := p.(frames := p.frames[todo[0] := f.(dirty := false)], files := w.1);
          FrameOk(p, todo[0], f.(dirty := false), w.1);
          ForceFrom(q, todo[1..], fd, pageNum, os)
      else ForceFrom(p, todo[1..], fd, pageNum, os)
  }

  function ForcePages(p: Pool, fd: nat, pageNum: int, os: Faults): (r: (Rc, Pool))
    requires PoolOk(p)
  {
    ForceFrom(p, p.used, fd, pageNum, os)
  }

  // ----- what the operations keep

  lemma FrameOk(p: Pool, slot: nat, f: Frame, files: Files)
    requires PoolOk(p) && slot < |p.frames| && f.key == p.frames[slot].key
    ensures PoolOk(p.(frames := p.frames[slot := f], files := files))
  {}

  lemma TouchOk(p: Pool, slot: nat)
    requires PoolOk(p) && slot in p.used
    ensures PoolOk(Touch(p, slot))
    ensures forall s :: s in Touch(p, slot).used <==> s in p.used
  {
    PartitionMove(p.used, p.free, |p.frames|, slot);
  }

  lemma InjectiveOn(frames: seq<Frame>, used: seq<nat>, r: seq<nat>)
    requires Injective(frames, used) && forall s :: s in r ==> s in used
    ensures Injective(frames, r)
  {
    forall i | 0 <= i < |r| ensures r[i] < |frames| {
      assert r[i] in r;
    }
  }

  lemma ReleaseOk(p: Pool, slot: nat, files: Files)
    requires PoolOk(p) && slot in p.used
    ensures PoolOk(Release(p, slot, files))
  {
    WithoutOk(p.used, slot);
    PartitionMove(p.used, p.free, |p.frames|, slot);
  }

  lemma PartitionTake(used: seq<nat>, free: seq<nat>, n: nat)
    requires Partition(used, free, n) && free != []
    ensures free[0] !in used && Partition([free[0]] + used, free[1..], n)
  {
    assert free[0] in free;
    assert forall x :: x in free[1..] ==> x in free && x != free[0];
  }

  lemma PartitionMove(used: seq<nat>, free: seq<nat>, n: nat, slot: nat)
    requires Partition(used, free, n) && slot in used
    ensures Partition(MoveToFront(used, slot), free, n)
    ensures Partition(Without(used, slot), [slot] + free, n)
    ensures forall s :: s in MoveToFront(used, slot) <==> s in used
  {
    WithoutOk(used, slot);
  }

  /** The used list without a slot. */
  function Rest(used: seq<nat>, slot: nat): seq<nat> {
    if slot in used then Without(used, slot) else used
  }

  lemma RestOk(p: Pool, slot: nat)
    requires PoolOk(p)
    ensures slot !in Rest(p.used, slot) && forall s :: s in Rest(p.used, slot) <==> s in p.used && s != slot
    ensures Injective(p.frames, Rest(p.used, slot))
  {
    if slot in p.used {
      WithoutOk(p.used, slot);
      InjectiveOn(p.frames, p.used, Rest(p.used, slot));
    }
  }

  lemma InjectiveFrame(frames: seq<Frame>, used: seq<nat>, slot: nat, f: Frame)
    requires Injective(frames, used) && slot !in used && slot < |frames|
    ensures Injective(frames[slot := f], used)
  {}

  /** What InternalAlloc gives: a slot at the head of the used list, the others as they were. */
  lemma AllocOk(p: Pool, os: Faults)
    requires PoolOk(p)
    ensures var (rc, slot, q) := InternalAlloc(p, os);
            rc == Ok ==>
              slot < |q.frames| == |p.frames| && q.used == [slot] + Rest(p.used, slot) &&
              Partition(q.used, q.free, |q.frames|) && Injective(q.frames, Rest(p.used, slot))
    ensures var (rc, slot, q) := InternalAlloc(p, os);
            rc != Ok ==> PoolOk(q) && q == p.(files := q.files)
  {
    hide WritePage, Partition, Injective, NoDup;
    var (rc, slot, q) := InternalAlloc(p, os);
    if rc == Ok {
      PoolLists(p);
      RestOk(p, slot);
      InjectiveFrame(p.frames, Rest(p.used, slot), slot, q.frames[slot]);
      if p.free != [] {
        PartitionTake(p.used, p.free, |p.frames|);
        assert q.frames == p.frames[slot := q.frames[slot]];
      } else {
        PartitionMove(p.used, p.free, |p.frames|, slot);
      }
    }
  }

  lemma PoolLists(p: Pool)
    requires PoolOk(p)
    ensures PoolShape(p) && Slots(p.used, |p.frames|) && Slots(p.free, |p.frames|)
    ensures forall s :: s in p.used ==> s < |p.frames|
    ensures p.free != [] ==> p.free[0] < |p.frames|
  {}

  lemma GetOk(p: Pool, k: Key, multiple: bool, os: Faults)
    requires PoolOk(p)
    ensures PoolOk(GetPage(p, k, multiple, os).2)
  {
    hide ReadPage, InternalAlloc, Partition, Injective;
    PoolLists(p);
    var found := Lookup(p.frames, p.used, k);
    if found.Some? {
      TouchOk(p, found.value);
      FrameOk(Touch(p, found.value), found.value, p.frames[found.value].(pin := Inc(p.frames[found.value].pin)), p.files);
    } else {
      AllocOk(p, os);
      var (rc, slot, q) := InternalAlloc(p, os);
      if rc == Ok {
        RestOk(p, slot);
        var read := ReadPage(q.files, k, os);
        if read.0 != Ok {
          FailedRead(q, Rest(p.used, slot), slot, if read.1.Some? then q.frames[slot].(page := read.1.value) else q.frames[slot]);
        } else {
          NewPage(p, q, slot, k, Frame(k, false, 1, read.1.value), os);
        }
      }
    }
  }

  /** A slot whose page could not be read goes to the free list. */
  lemma FailedRead(q: Pool, rest: seq<nat>, slot: nat, f: Frame)
    requires slot < |q.frames| && q.used == [slot] + rest && slot !in rest
    requires Partition(q.used, q.free, |q.frames|) && Injective(q.frames, rest)
    ensures Without(q.used, slot) == rest
    ensures PoolOk(q.(frames := q.frames[slot := f], used := rest, free := [slot] + q.free))
  {
    hide Partition, Injective;
    WithoutFirst(slot, rest);
    PartitionMove(q.used, q.free, |q.frames|, slot);
    ElsewhereInjective(q.frames, rest, slot, f);
  }

  lemma WithoutFirst(slot: nat, rest: seq<nat>)
    ensures Without([slot] + rest, slot) == rest
  {
    assert Position([slot] + rest, slot) == 0;
  }

  lemma ElsewhereInjective(frames: seq<Frame>, rest: seq<nat>, slot: nat, f: Frame)
    requires slot < |frames| && slot !in rest && Injective(frames, rest)
    ensures Injective(frames[slot := f], rest)
  {}

  /** The allocated slot takes a page that no other slot holds. */
  lemma NewPage(p: Pool, q: Pool, slot: nat, k: Key, f: Frame, os: Faults)
    requires PoolOk(p) && InternalAlloc(p, os) == (Ok, slot, q) && slot < |q.frames|
    requires Lookup(p.frames, p.used, k).None? && f.key == k
    ensures PoolOk(q.(frames := q.frames[slot := f]))
  {
    hide Partition;
    AllocOk(p, os);
    RestOk(p, slot);
    AllocFrames(p, os);
  }

  /** InternalAlloc changes no frame but the slot's, and there only the dirty bit. */
  lemma AllocFrames(p: Pool, os: Faults)
    requires PoolOk(p)
    ensures var (rc, slot, q) := InternalAlloc(p, os);
            rc == Ok ==> slot < |p.frames| && q.frames == p.frames[slot := p.frames[slot].(dirty := q.frames[slot].dirty)]
  {
    PoolLists(p);
  }

  lemma AllocateOk(p: Pool, k: Key, os: Faults)
    requires PoolOk(p)
    ensures PoolOk(AllocatePage(p, k, os).2)
  {
    hide InternalAlloc, Partition, Injective;
    PoolLists(p);
    AllocOk(p, os);
    var (rc, slot, q) := InternalAlloc(p, os);
    if Lookup(p.frames, p.used, k).None? && rc == Ok {
      NewPage(p, q, slot, k, Frame(k, false, 1, q.frames[slot].page), os);
    }
  }

  lemma MarkOk(p: Pool, k: Key)
    requires PoolOk(p)
    ensures PoolOk(MarkDirty(p, k).1)
  {
    hide Partition, Injective;
    PoolLists(p);
    var found := Lookup(p.frames, p.used, k);
    if found.Some? {
      TouchOk(p, found.value);
      FrameOk(Touch(p, found.value), found.value, p.frames[found.value].(dirty := true), p.files);
    }
  }

  lemma UnpinOk(p: Pool, k: Key)
    requires PoolOk(p)
    ensures PoolOk(UnpinPage(p, k).1)
  {
    hide Partition, Injective;
    PoolLists(p);
    var found := Lookup(p.frames, p.used, k);
    if found.Some? {
      var f := p.frames[found.value];
      FrameOk(p, found.value, f.(pin := Dec(f.pin)), p.files);
      TouchOk(p.(frames := p.frames[found.value := f.(pin := Dec(f.pin))]), found.value);
    }
  }

  lemma UsedWithout(p: Pool, slot: nat)
    requires PoolOk(p) && slot in p.used
    ensures forall s :: s in Without(p.used, slot) <==> s in p.used && s != slot
  {
    WithoutOk(p.used, slot);
  }

  /** PF_NOBUF is returned exactly when no slot is free and every page is pinned. */
  lemma NoBufIff(p: Pool, os: Faults)
    requires PoolOk(p)
    ensures InternalAlloc(p, os).0 == NoBuf <==> p.free == [] && forall s :: s in p.used ==> p.frames[s].pin != 0
  {
    PoolLists(p);
    var v := Victim(p.frames, p.used, |p.used|);
    if v.None? {
      forall s | s in p.used ensures p.frames[s].pin != 0 {
        assert s == p.used[Position(p.used, s)];
      }
    }
  }

  // ----- the plain map behind the pool

  ghost predicate Cached(p: Pool, k: Key) {
    exists s :: s in p.used && s < |p.frames| && p.frames[s].key == k
  }

  ghost predicate PinnedPage(p: Pool, k: Key) {
    exists s :: s in p.used && s < |p.frames| && p.frames[s].key == k && p.frames[s].pin != 0
  }

  /** A frame holds the model's page, and so does the file unless the frame is dirty or about to be. */
  ghost predicate FrameAgrees(f: Frame, files: Files, model: map<Key, Page>, pending: set<Key>) {
    f.key in model && f.page == model[f.key] &&
    (!f.dirty && f.key !in pending ==> OnFile(files, f.key) == Some(f.page))
  }

  /** The pool and the files together hold the model. pending are the pages written since their last
      MarkDirty. */
  ghost predicate Agrees(p: Pool, model: map<Key, Page>, pending: set<Key>) {
    (forall s :: s in p.used && s < |p.frames| ==> FrameAgrees(p.frames[s], p.files, model, pending)) &&
    (forall k :: k in model && !Cached(p, k) ==> OnFile(p.files, k) == Some(model[k])) &&
    (forall k :: k in pending ==> PinnedPage(p, k)) &&
    (forall k :: k !in model && OnFile(p.files, k).Some? ==> OnFile(p.files, k) == Some(ZeroPage()))
  }

  lemma LookupCached(p: Pool, k: Key)
    requires PoolOk(p)
    ensures Lookup(p.frames, p.used, k).Some? <==> Cached(p, k)
  {
    PoolLists(p);
  }

  /** Agreement does not depend on the order of the lists. */
  lemma AgreesReorder(p: Pool, q: Pool, model: map<Key, Page>, pending: set<Key>)
    requires Agrees(p, model, pending) && q.frames == p.frames && q.files == p.files
    requires forall s :: s in q.used <==> s in p.used
    ensures Agrees(q, model, pending)
  {
    hide FrameAgrees;
    forall k ensures Cached(q, k) <==> Cached(p, k) {}
    forall k | k in pending ensures PinnedPage(q, k) {
      assert PinnedPage(p, k);
    }
  }

  /** What is cached depends on the keys of the used slots alone. */
  lemma SameKeys(p: Pool, q: Pool)
    requires q.used == p.used && |q.frames| == |p.frames|
    requires forall s :: s in p.used && s < |p.frames| ==> q.frames[s].key == p.frames[s].key
    ensures forall k :: Cached(q, k) <==> Cached(p, k)
  {
    forall k ensures Cached(q, k) <==> Cached(p, k) {
      if Cached(p, k) {
        var s :| s in p.used && s < |p.frames| && p.frames[s].key == k;
        assert q.frames[s].key == k;
      }
    }
  }

  lemma SamePins(p: Pool, q: Pool, pending: set<Key>)
    requires (forall k :: k in pending ==> PinnedPage(p, k)) && q.used == p.used && |q.frames| == |p.frames|
    requires forall s :: s in p.used && s < |p.frames| && p.frames[s].key in pending && p.frames[s].pin != 0 ==>
               q.frames[s].key == p.frames[s].key && q.frames[s].pin != 0
    ensures forall k :: k in pending ==> PinnedPage(q, k)
  {
    forall k | k in pending ensures PinnedPage(q, k) {
      assert PinnedPage(p, k);
      var s :| s in p.used && s < |p.frames| && p.frames[s].key == k && p.frames[s].pin != 0;
      assert q.frames[s].key == k && q.frames[s].pin != 0;
    }
  }

  /** Changing the pin count or setting the dirty bit of a cached page. */
  lemma AgreesFrame(p: Pool, slot: nat, f: Frame, model: map<Key, Page>, pending: set<Key>, now: set<Key>)
    requires PoolOk(p) && Agrees(p, model, pending) && slot in p.used && slot < |p.frames|
    requires f == p.frames[slot].(pin := f.pin, dirty := f.dirty) && (p.frames[slot].dirty ==> f.dirty)
    requires now == pending || (now == pending - {f.key} && f.dirty)
    requires f.pin == 0 ==> f.key !in now
    ensures Agrees(p.(frames := p.frames[slot := f]), model, now)
  {
    hide Partition, OnFile, Cached, PinnedPage;
    var q := p.(frames := p.frames[slot := f]);
    SameKeys(p, q);
    SamePins(p, q, now);
  }

  /** Writing a cached page to its file, whether or not that succeeds. */
  lemma AgreesWrite(p: Pool, slot: nat, os: Faults, model: map<Key, Page>, pending: set<Key>)
    requires PoolOk(p) && Agrees(p, model, pending) && slot in p.used && slot < |p.frames| && p.frames[slot].dirty
    ensures var f := p.frames[slot];
            var w := WritePage(p.files, f.key, f.page, os);
            if w.0 != Ok then Agrees(p.(files := w.1), model, pending)
            else Agrees(p.(frames := p.frames[slot := f.(dirty := false)], files := w.1), model, pending)
  {
    hide WritePage, OnFile;
    var f := p.frames[slot];
    var w := WritePage(p.files, f.key, f.page, os);
    assert FrameAgrees(f, p.files, model, pending);
    var q := p.(frames := p.frames[slot := f.(dirty := w.0 != Ok)], files := w.1);
    assert w.0 != Ok ==> q == p.(files := w.1);
    WriteTouches(p.files, f.key, f.page, os, f.key);
    forall s | s in q.used && s < |q.frames| ensures FrameAgrees(q.frames[s], q.files, model, pending) {
      assert FrameAgrees(p.frames[s], p.files, model, pending);
      WriteTouches(p.files, f.key, f.page, os, p.frames[s].key);
    }
    SameKeys(p, q);
    SamePins(p, q, pending);
    assert Cached(p, f.key);
    forall k | k !in model || !Cached(q, k)
      ensures k !in model && OnFile(q.files, k).Some? ==> OnFile(q.files, k) == Some(ZeroPage())
      ensures k in model ==> OnFile(q.files, k) == Some(model[k])
    {
      WriteTouches(p.files, f.key, f.page, os, k);
    }
  }

  /** A clean unpinned page may leave the pool. */
  lemma AgreesDrop(p: Pool, slot: nat, q: Pool, model: map<Key, Page>, pending: set<Key>)
    requires PoolOk(p) && Agrees(p, model, pending) && slot in p.used && slot < |p.frames|
    requires !p.frames[slot].dirty && p.frames[slot].pin == 0
    requires q.frames == p.frames && q.files == p.files && forall s :: s in q.used <==> s in p.used && s != slot
    ensures Agrees(q, model, pending)
  {
    hide OnFile;
    var f := p.frames[slot];
    assert FrameAgrees(f, p.files, model, pending);
    forall k | k in pending ensures PinnedPage(q, k) {
      assert PinnedPage(p, k);
      var s :| s in p.used && s < |p.frames| && p.frames[s].key == k && p.frames[s].pin != 0;
      assert s in q.used;
    }
    forall k | k in model && !Cached(q, k) ensures OnFile(q.files, k) == Some(model[k]) {
      if Cached(p, k) {
        var s :| s in p.used && s < |p.frames| && p.frames[s].key == k;
        assert s == slot;
      }
    }
  }

  /** A page enters the pool in a slot that was not in use. */
  lemma AgreesAdd(p: Pool, slot: nat, f: Frame, q: Pool, model: map<Key, Page>, pending: set<Key>, now: set<Key>)
    requires Injective(p.frames, p.used) && Agrees(p, model, pending) && slot !in p.used && slot < |p.frames| && !Cached(p, f.key)
    requires f.pin != 0 && (now == pending || now == pending + {f.key})
    requires f.key !in now ==> OnFile(p.files, f.key) == Some(f.page)
    requires q.frames == p.frames[slot := f] && q.files == p.files && forall s :: s in q.used <==> s in p.used || s == slot
    ensures Agrees(q, model[f.key := f.page], now)
  {
    hide OnFile;
    var model' := model[f.key := f.page];
    assert q.frames[slot].key == f.key;
    forall s | s in q.used && s < |q.frames| ensures FrameAgrees(q.frames[s], q.files, model', now) {
      if s != slot {
        assert FrameAgrees(p.frames[s], p.files, model, pending);
        assert p.frames[s].key != f.key;
      }
    }
    forall k | Cached(p, k) ensures Cached(q, k) {
      var s :| s in p.used && s < |p.frames| && p.frames[s].key == k;
      assert s in q.used && q.frames[s].key == k;
    }
    forall k | k in now ensures PinnedPage(q, k) {
      if k != f.key {
        assert PinnedPage(p, k);
        var s :| s in p.used && s < |p.frames| && p.frames[s].key == k && p.frames[s].pin != 0;
        assert s in q.used && q.frames[s] == p.frames[s];
      } else {
        assert q.frames[slot].pin != 0;
      }
    }
  }

  /** Making room keeps the agreement: what is evicted is on file. */
  lemma AgreesAlloc(p: Pool, os: Faults, model: map<Key, Page>, pending: set<Key>)
    requires PoolOk(p) && Agrees(p, model, pending)
    ensures var (rc, slot, q) := InternalAlloc(p, os);
            if rc == Ok then
              slot < |q.frames| && slot !in Rest(p.used, slot) && Injective(q.frames, Rest(p.used, slot)) &&
              q.used == [slot] + Rest(p.used, slot) &&
              Agrees(q.(used := Rest(p.used, slot)), model, pending)
            else Agrees(q, model, pending)
  {
    hide Agrees, Partition, Injective, WritePage;
    PoolLists(p);
    AllocOk(p, os);
    var (rc, slot, q) := InternalAlloc(p, os);
    if p.free == [] && Victim(p.frames, p.used, |p.used|).Some? {
      var f := p.frames[slot];
      if f.dirty { AgreesWrite(p, slot, os, model, pending); }
      if rc == Ok {
        RestOk(p, slot);
        var r := p.(frames := p.frames[slot := f.(dirty := false)], files := q.files);
        assert p.frames[slot := f] == p.frames;
        FrameOk(p, slot, f.(dirty := false), q.files);
        AgreesDrop(r, slot, q.(used := Rest(p.used, slot)), model, pending);
      }
    } else if rc == Ok {
      RestOk(p, slot);
      assert slot !in p.used by { PartitionTake(p.used, p.free, |p.frames|); }
      AgreesReorder(p, q.(used := Rest(p.used, slot)), model, pending);
    }
  }

  /** A pin that does not wrap the counter to zero while the page waits to be marked dirty. */
  predicate MayPin(p: Pool, k: Key, pending: set<Key>)
    requires PoolShape(p)
  {
    var found := Lookup(p.frames, p.used, k);
    found.Some? && p.frames[found.value].pin == -1 ==> k !in pending
  }

  predicate PoolShape(p: Pool) {
    Slots(p.used, |p.frames|) && Slots(p.free, |p.frames|)
  }

  /** Transparency of GetPage: it returns the page the plain map holds, whatever has been evicted
      (a page that is in the file but was never stored reads as zeros), and it changes no page. */
  lemma GetTransparent(p: Pool, k: Key, multiple: bool, os: Faults, model: map<Key, Page>, pending: set<Key>)
    requires PoolOk(p) && Agrees(p, model, pending) && PoolShape(p) && MayPin(p, k, pending)
    ensures var (rc, slot, q) := GetPage(p, k, multiple, os);
            if rc == Ok then
              var page := if k in model then model[k] else ZeroPage();
              slot in q.used && slot < |q.frames| && q.frames[slot].key == k && q.frames[slot].page == page &&
              Agrees(q, model[k := page], pending)
            else Agrees(q, model, pending)
  {
    hide Agrees, Partition, Injective, ReadPage, InternalAlloc, OnFile;
    PoolLists(p);
    LookupCached(p, k);
    var (rc, slot, q) := GetPage(p, k, multiple, os);
    var found := Lookup(p.frames, p.used, k);
    if found.Some? {
      CachedAgrees(p, slot, model, pending);
      assert model[k := model[k]] == model;
      if rc == Ok {
        var f := p.frames[slot].(pin := Inc(p.frames[slot].pin));
        AgreesFrame(p, slot, f, model, pending, pending);
        PartitionMove(p.used, p.free, |p.frames|, slot);
        AgreesReorder(p.(frames := p.frames[slot := f]), q, model, pending);
      }
    } else {
      GetFetched(p, k, multiple, os, model, pending);
    }
  }

  lemma CachedAgrees(p: Pool, slot: nat, model: map<Key, Page>, pending: set<Key>)
    requires Agrees(p, model, pending) && slot in p.used && slot < |p.frames|
    ensures FrameAgrees(p.frames[slot], p.files, model, pending)
  {}

  lemma UncachedAgrees(p: Pool, k: Key, model: map<Key, Page>, pending: set<Key>)
    requires Agrees(p, model, pending) && !Cached(p, k)
    ensures k !in pending
    ensures k in model ==> OnFile(p.files, k) == Some(model[k])
    ensures k !in model && OnFile(p.files, k).Some? ==> OnFile(p.files, k) == Some(ZeroPage())
  {
    forall q | q in pending ensures PinnedPage(p, q) && Cached(p, q) {}
  }

  lemma GetFetched(p: Pool, k: Key, multiple: bool, os: Faults, model: map<Key, Page>, pending: set<Key>)
    requires PoolOk(p) && Agrees(p, model, pending) && Slots(p.used, |p.frames|) && Lookup(p.frames, p.used, k).None?
    ensures var (rc, slot, q) := GetPage(p, k, multiple, os);
            if rc == Ok then
              var page := if k in model then model[k] else ZeroPage();
              slot in q.used && slot < |q.frames| && q.frames[slot].key == k && q.frames[slot].page == page &&
              Agrees(q, model[k := page], pending)
            else Agrees(q, model, pending)
  {
    hide Agrees, Partition, Injective, ReadPage, InternalAlloc, OnFile, Cached;
    AgreesAlloc(p, os, model, pending);
    AllocOk(p, os);
    var (arc, slot, a) := InternalAlloc(p, os);
    if arc == Ok {
      var r := a.(used := Rest(p.used, slot));
      StillUncached(p, k, os);
      UncachedAgrees(r, k, model, pending);
      var read := ReadPage(a.files, k, os);
      var q := GetPage(p, k, multiple, os).2;
      if read.0 == Ok {
        AgreesAdd(r, slot, Frame(k, false, 1, read.1.value), q, model, pending, pending);
      } else {
        var f := if read.1.Some? then a.frames[slot].(page := read.1.value) else a.frames[slot];
        FailedRead(a, Rest(p.used, slot), slot, f);
        AgreesUnused(r, slot, f, q, model, pending);
      }
    }
  }

  lemma StillUncached(p: Pool, k: Key, os: Faults)
    requires PoolOk(p) && Slots(p.used, |p.frames|) && Lookup(p.frames, p.used, k).None? && InternalAlloc(p, os).0 == Ok
    ensures var (rc, slot, q) := InternalAlloc(p, os);
            !Cached(q.(used := Rest(p.used, slot)), k)
  {
    AllocOk(p, os);
    AllocFrames(p, os);
    RestOk(p, InternalAlloc(p, os).1);
  }

  /** What an unused slot holds does not matter. */
  lemma AgreesUnused(p: Pool, slot: nat, f: Frame, q: Pool, model: map<Key, Page>, pending: set<Key>)
    requires Agrees(p, model, pending) && slot !in p.used && slot < |p.frames|
    requires q.frames == p.frames[slot := f] && q.used == p.used && q.files == p.files
    ensures Agrees(q, model, pending)
  {
    hide FrameAgrees, Cached, PinnedPage;
    SameKeys(p, q);
    SamePins(p, q, pending);
  }

  /** AllocatePage gives the page some contents, which count from the next write on. */
  lemma AllocateTransparent(p: Pool, k: Key, os: Faults, model: map<Key, Page>, pending: set<Key>)
    requires PoolOk(p) && Agrees(p, model, pending)
    ensures var (rc, slot, q) := AllocatePage(p, k, os);
            if rc == Ok then
              slot in q.used && slot < |q.frames| && q.frames[slot].key == k && q.frames[slot].pin == 1 &&
              Agrees(q, model[k := q.frames[slot].page], pending + {k})
            else Agrees(q, model, pending)
  {
    hide Agrees, Partition, Injective, InternalAlloc, OnFile, Cached;
    PoolLists(p);
    if Lookup(p.frames, p.used, k).None? {
      AgreesAlloc(p, os, model, pending);
      AllocOk(p, os);
      var (arc, slot, a) := InternalAlloc(p, os);
      if arc == Ok {
        var r := a.(used := Rest(p.used, slot));
        StillUncached(p, k, os);
        AgreesAdd(r, slot, Frame(k, false, 1, a.frames[slot].page), AllocatePage(p, k, os).2, model, pending, pending + {k});
      }
    }
  }

  /** After MarkDirty the page's contents are no longer pending. */
  lemma MarkTransparent(p: Pool, k: Key, model: map<Key, Page>, pending: set<Key>)
    requires PoolOk(p) && Agrees(p, model, pending)
    ensures var (rc, q) := MarkDirty(p, k);
            Agrees(q, model, if rc == Ok then pending - {k} else pending)
  {
    hide Agrees, Partition, Injective, Cached;
    PoolLists(p);
    var found := Lookup(p.frames, p.used, k);
    if found.Some? && p.frames[found.value].pin != 0 {
      var f := p.frames[found.value].(dirty := true);
      AgreesFrame(p, found.value, f, model, pending, pending - {k});
      PartitionMove(p.used, p.free, |p.frames|, found.value);
      AgreesReorder(p.(frames := p.frames[found.value := f]), MarkDirty(p, k).1, model, pending - {k});
    }
  }

  /** The client gives up its last pin only on pages it has marked dirty since it wrote them. */
  predicate MayUnpin(p: Pool, k: Key, pending: set<Key>)
    requires PoolShape(p)
  {
    var found := Lookup(p.frames, p.used, k);
    found.Some? && p.frames[found.value].pin == 1 ==> k !in pending
  }

  lemma UnpinTransparent(p: Pool, k: Key, model: map<Key, Page>, pending: set<Key>)
    requires PoolOk(p) && Agrees(p, model, pending) && PoolShape(p) && MayUnpin(p, k, pending)
    ensures Agrees(UnpinPage(p, k).1, model, pending)
  {
    hide Agrees, Partition, Injective, Cached;
    PoolLists(p);
    var found := Lookup(p.frames, p.used, k);
    if found.Some? && p.frames[found.value].pin != 0 {
      var f := p.frames[found.value].(pin := Dec(p.frames[found.value].pin));
      AgreesFrame(p, found.value, f, model, pending, pending);
      PartitionMove(p.used, p.free, |p.frames|, found.value);
      AgreesReorder(p.(frames := p.frames[found.value := f]), UnpinPage(p, k).1, model, pending);
    }
  }

  /** A file is flushed but for its pinned pages, other files' pages stay, and the agreement is kept. */
  lemma {:induction false} FlushTransparent(p: Pool, todo: seq<nat>, fd: nat, os: Faults, warn: Rc,
                                            model: map<Key, Page>, pending: set<Key>)
    requires PoolOk(p) && Agrees(p, model, pending) && NoDup(todo) && forall s :: s in todo ==> s in p.used
    requires warn == Ok || warn == PagePinned
    ensures var (rc, q) := FlushFrom(p, todo, fd, os, warn);
            PoolOk(q) && Agrees(q, model, pending) && PoolShape(q) && |q.frames| == |p.frames| &&
            (forall s :: s in q.used ==> s in p.used && q.frames[s] == p.frames[s]) &&
            (forall s :: s in p.used && (s !in todo || p.frames[s].key.fd != fd || p.frames[s].pin != 0) ==> s in q.used) &&
            (rc == Ok || rc == PagePinned ==>
               forall s :: s in todo && p.frames[s].key.fd == fd && p.frames[s].pin == 0 ==> s !in q.used)
    decreases |todo|
  {
    hide Agrees, PoolOk, PoolShape, WritePage, Release;
    PoolLists(p);
    if todo != [] {
      var slot := todo[0];
      assert slot in p.used;
      assert forall s :: s in todo <==> s == slot || s in todo[1..];
      assert slot !in todo[1..];
      var f := p.frames[slot];
      if f.key.fd != fd {
        FlushTransparent(p, todo[1..], fd, os, warn, model, pending);
      } else if f.pin != 0 {
        FlushTransparent(p, todo[1..], fd, os, PagePinned, model, pending);
      } else {
        var w := if f.dirty then WritePage(p.files, f.key, f.page, os) else (Ok, p.files);
        if f.dirty {
          AgreesWrite(p, slot, os, model, pending);
        } else {
          assert p.frames[slot := f] == p.frames && f.(dirty := false) == f;
        }
        if w.0 == Ok {
          Released(p, slot, w.1, model, pending);
          FlushTransparent(Release(p, slot, w.1), todo[1..], fd, os, warn, model, pending);
        } else {
          WriteFails(p.files, f.key, f.page, os);
          FilesOk(p, w.1);
        }
      }
    }
  }

  /** Ok says nothing of the file was pinned; PagePinned that something was. */
  lemma {:induction false} FlushWarns(p: Pool, todo: seq<nat>, fd: nat, os: Faults, warn: Rc)
    requires PoolOk(p) && NoDup(todo) && forall s :: s in todo ==> s in p.used
    requires warn == Ok || warn == PagePinned
    ensures var rc := FlushFrom(p, todo, fd, os, warn).0;
            rc == Ok || rc == PagePinned ==>
              (rc == Ok <==> warn == Ok && forall s :: s in todo && s < |p.frames| && p.frames[s].key.fd == fd ==> p.frames[s].pin == 0)
    decreases |todo|
  {
    hide PoolOk, WritePage, Release;
    PoolLists(p);
    if todo != [] {
      var slot := todo[0];
      assert slot in p.used;
      assert forall s :: s in todo <==> s == slot || s in todo[1..];
      assert slot !in todo[1..];
      var f := p.frames[slot];
      if f.key.fd != fd {
        FlushWarns(p, todo[1..], fd, os, warn);
      } else if f.pin != 0 {
        FlushWarns(p, todo[1..], fd, os, PagePinned);
      } else {
        var w := if f.dirty then WritePage(p.files, f.key, f.page, os) else (Ok, p.files);
        WriteFails(p.files, f.key, f.page, os);
        if w.0 == Ok {
          ReleaseOk(p, slot, w.1);
          ReleaseFrames(p, slot, w.1);
          FlushWarns(Release(p, slot, w.1), todo[1..], fd, os, warn);
        }
      }
    }
  }

  lemma ReleaseFrames(p: Pool, slot: nat, files: Files)
    requires PoolOk(p) && slot in p.used
    ensures var q := Release(p, slot, files);
            |q.frames| == |p.frames| && (forall s :: s in q.used <==> s in p.used && s != slot) &&
            forall s: nat :: s < |p.frames| && s != slot ==> q.frames[s] == p.frames[s]
  {
    UsedWithout(p, slot);
  }

  lemma FilesOk(p: Pool, files: Files)
    requires PoolOk(p)
    ensures PoolOk(p.(files := files)) && PoolShape(p.(files := files))
  {}

  lemma WriteFails(files: Files, k: Key, page: Page, os: Faults)
    ensures var rc := WritePage(files, k, page, os).0;
            rc == Ok || rc == Unix || rc == IncompleteWrite
  {}

  lemma Released(p: Pool, slot: nat, files: Files, model: map<Key, Page>, pending: set<Key>)
    requires PoolOk(p) && slot in p.used && slot < |p.frames| && p.frames[slot].pin == 0
    requires Agrees(p.(frames := p.frames[slot := p.frames[slot].(dirty := false)], files := files), model, pending)
    ensures var q := Release(p, slot, files);
            PoolOk(q) && Agrees(q, model, pending) && |q.frames| == |p.frames| && PoolShape(q) &&
            (forall s :: s in q.used <==> s in p.used && s != slot) &&
            (forall s: nat :: s < |p.frames| && s != slot ==> q.frames[s] == p.frames[s])
  {
    hide Agrees, Injective;
    var r := p.(frames := p.frames[slot := p.frames[slot].(dirty := false)], files := files);
    FrameOk(p, slot, p.frames[slot].(dirty := false), files);
    ReleaseOk(p, slot, files);
    UsedWithout(p, slot);
    AgreesDrop(r, slot, Release(p, slot, files), model, pending);
  }

  /** After a FlushPages without error or warning, the file holds every page of the plain map. */
  lemma FlushedIsOnFile(p: Pool, fd: nat, os: Faults, model: map<Key, Page>, pending: set<Key>, k: Key)
    requires PoolOk(p) && Agrees(p, model, pending) && k in model && k.fd == fd
    ensures var (rc, q) := FlushPages(p, fd, os);
            rc == Ok ==> !Cached(q, k) && OnFile(q.files, k) == Some(model[k])
  {
    hide Agrees, Partition, Injective, FlushFrom, OnFile;
    PoolLists(p);
    PoolNoDup(p);
    FlushTransparent(p, p.used, fd, os, Ok, model, pending);
    FlushWarns(p, p.used, fd, os, Ok);
    var (rc, q) := FlushPages(p, fd, os);
    if rc == Ok {
      forall s | s in q.used && s < |q.frames| ensures q.frames[s].key != k {
        assert s in p.used;
      }
      UncachedAgrees(q, k, model, pending);
    }
  }

  lemma PoolNoDup(p: Pool)
    requires PoolOk(p)
    ensures NoDup(p.used)
  {}

  /** ForcePages writes the wanted pages back without dropping any, and keeps the agreement. */
  lemma {:induction false} ForceTransparent(p: Pool, todo: seq<nat>, fd: nat, pageNum: int, os: Faults,
                                            model: map<Key, Page>, pending: set<Key>)
    requires PoolOk(p) && Agrees(p, model, pending) && forall s :: s in todo ==> s in p.used
    ensures var (rc, q) := ForceFrom(p, todo, fd, pageNum, os);
            PoolOk(q) && Agrees(q, model, pending) && q.used == p.used && q.free == p.free && |q.frames| == |p.frames| &&
            (forall s :: 0 <= s < |p.frames| ==> q.frames[s] == p.frames[s].(dirty := q.frames[s].dirty) &&
                                                 (q.frames[s].dirty ==> p.frames[s].dirty)) &&
            (rc == Ok ==> forall s :: s in todo && s < |p.frames| && Wanted(p.frames[s].key, fd, pageNum) ==> !q.frames[s].dirty)
    decreases |todo|
  {
    hide Agrees, Partition, Injective, WritePage, Wanted;
    PoolLists(p);
    if todo != [] {
      assert todo[0] in p.used;
      assert todo == [todo[0]] + todo[1..];
      var f := p.frames[todo[0]];
      if Wanted(f.key, fd, pageNum) && f.dirty {
        var w := WritePage(p.files, f.key, f.page, os);
        AgreesWrite(p, todo[0], os, model, pending);
        if w.0 == Ok {
          FrameOk(p, todo[0], f.(dirty := false), w.1);
          ForceTransparent(p.(frames := p.frames[todo[0] := f.(dirty := false)], files := w.1), todo[1..], fd, pageNum, os, model, pending);
        }
      } else {
        ForceTransparent(p, todo[1..], fd, pageNum, os, model, pending);
      }
    }
  }

  /** After a ForcePages without error, the file holds every wanted page that is not being written. */
  lemma ForcedIsOnFile(p: Pool, fd: nat, pageNum: int, os: Faults, model: map<Key, Page>, pending: set<Key>, k: Key)
    requires PoolOk(p) && Agrees(p, model, pending) && k in model && k !in pending && Wanted(k, fd, pageNum)
    ensures var (rc, q) := ForcePages(p, fd, pageNum, os);
            rc == Ok ==> OnFile(q.files, k) == Some(model[k])
  {
    hide Agrees, Partition, Injective, ForceFrom, OnFile, Wanted;
    PoolLists(p);
    ForceTransparent(p, p.used, fd, pageNum, os, model, pending);
    var (rc, q) := ForcePages(p, fd, pageNum, os);
    if rc == Ok {
      if Cached(q, k) {
        var s :| s in q.used && s < |q.frames| && q.frames[s].key == k;
        CachedAgrees(q, s, model, pending);
      } else {
        UncachedAgrees(q, k, model, pending);
      }
    }
  }

  /** The client writes through its pointer. */
  function Poke(p: Pool, slot: nat, page: Page): Pool
    requires slot < |p.frames|
  {
    p.(frames := p.frames[slot := p.frames[slot].(page := page)])
  }

  lemma PokeTransparent(p: Pool, slot: nat, page: Page, model: map<Key, Page>, pending: set<Key>)
    requires PoolOk(p) && Agrees(p, model, pending) && slot in p.used && slot < |p.frames| && p.frames[slot].pin != 0
    ensures PoolOk(Poke(p, slot, page))
    ensures var k := p.frames[slot].key;
            Agrees(Poke(p, slot, page), model[k := page], pending + {k})
  {
    hide OnFile;
    var k := p.frames[slot].key;
    var q := Poke(p, slot, page);
    assert q.frames[slot].key == k;
    forall s | s in q.used && s < |q.frames| ensures FrameAgrees(q.frames[s], q.files, model[k := page], pending + {k}) {
      assert FrameAgrees(p.frames[s], p.files, model, pending);
    }
    SameKeys(p, q);
    SamePins(p, q, pending);
    assert PinnedPage(q, k) && Cached(q, k);
  }
}
