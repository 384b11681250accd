/** Whole runs of the PF buffer pool under clients that mark a page dirty after their last write to it:
    every GetPage returns what a plain map would, and what is evicted is the least recently used page. */
module PfRuns {
  import opened Options
  import opened PfHash
  import opened PfPool
  import opened Seqs

  /** The pool; the plain map it stands for; the pages written since their last MarkDirty; and, for each
      slot, the time its page was last used. */
  datatype World = World(pool: Pool, model: map<Key, Page>, pending: set<Key>, stamps: seq<nat>, clock: nat)

  datatype Event =
    | Get(k: Key, multiple: bool, os: Faults)
    | Allocate(k: Key, os: Faults)
    | Write(k: Key, page: Page)
    | Mark(k: Key)
    | Unpin(k: Key)
    | Flush(fd: nat, os: Faults)
    | Force(fd: nat, pageNum: int, os: Faults)

  ghost predicate Ordered(used: seq<nat>, stamps: seq<nat>, clock: nat) {
    Slots(used, |stamps|) &&
    (forall i :: 0 <= i < |used| ==> stamps[used[i]] < clock) &&
    (forall i, j :: 0 <= i < j < |used| ==> stamps[used[i]] > stamps[used[j]])
  }

  ghost predicate Inv(w: World) {
    PoolOk(w.pool) && PoolShape(w.pool) && Agrees(w.pool, w.model, w.pending) &&
    |w.stamps| == |w.pool.frames| && Ordered(w.pool.used, w.stamps, w.clock)
  }

  ghost predicate Enabled(w: World, e: Event)
    requires PoolOk(w.pool) && PoolShape(w.pool)
  {
    match e
    case Get(k, _, _) => MayPin(w.pool, k, w.pending)
    case Write(k, _) =>
      var found := Lookup(w.pool.frames, w.pool.used, k);
      found.Some? && w.pool.frames[found.value].pin != 0
    case Unpin(k) => MayUnpin(w.pool, k, w.pending)
    case _ => true
  }

  /** The page in this slot has just been used. */
  function Used(w: World, slot: nat): World
    requires slot < |w.stamps|
  {
    w.(stamps := w.stamps[slot := w.clock], clock := w.clock + 1)
  }

  function SlotOf(p: Pool, k: Key): nat
    requires PoolShape(p) && Lookup(p.frames, p.used, k).Some?
  {
    Lookup(p.frames, p.used, k).value
  }

  ghost function Next(w: World, e: Event): World
    requires Inv(w) && Enabled(w, e)
  {
    match e
    case Get(k, multiple, os) =>
      var (rc, slot, q) := GetPage(w.pool, k, multiple, os);
      if rc == Ok && slot < |w.stamps| then
        Used(w.(pool := q, model := w.model[k := if k in w.model then w.model[k] else ZeroPage()]), slot)
      else w.(pool := q)
    case Allocate(k, os) =>
      var (rc, slot, q) := AllocatePage(w.pool, k, os);
      if rc == Ok && slot < |w.stamps| && slot < |q.frames| then
        Used(w.(pool := q, model := w.model[k := q.frames[slot].page], pending := w.pending + {k}), slot)
      else w.(pool := q)
    case Write(k, page) =>
      w.(pool := Poke(w.pool, SlotOf(w.pool, k), page), model := w.model[k := page], pending := w.pending + {k})
    case Mark(k) =>
      var (rc, q) := MarkDirty(w.pool, k);
      if rc == Ok then Used(w.(pool := q, pending := w.pending - {k}), SlotOf(w.pool, k)) else w
    case Unpin(k) =>
      var (rc, q) := UnpinPage(w.pool, k);
      if rc == Ok && q.frames[SlotOf(w.pool, k)].pin == 0 then Used(w.(pool := q), SlotOf(w.pool, k)) else w.(pool := q)
    case Flush(fd, os) => w.(pool := FlushPages(w.pool, fd, os).1)
    case Force(fd, pageNum, os) => w.(pool := ForcePages(w.pool, fd, pageNum, os).1)
  }

  // ----- recency

  lemma OrderedWithout(used: seq<nat>, stamps: seq<nat>, clock: nat, slot: nat)
    requires Ordered(used, stamps, clock) && slot in used
    ensures Ordered(Without(used, slot), stamps, clock)
  {
    var p := Position(used, slot);
    var r := Without(used, slot);
    assert forall i :: 0 <= i < |r| ==> r[i] == used[if i < p then i else i + 1];
  }

  lemma OrderedRest(used: seq<nat>, stamps: seq<nat>, clock: nat, slot: nat)
    requires Ordered(used, stamps, clock)
    ensures Ordered(Rest(used, slot), stamps, clock)
  {
    if slot in used { OrderedWithout(used, stamps, clock, slot); }
  }

  lemma OrderedPush(rest: seq<nat>, stamps: seq<nat>, clock: nat, slot: nat)
    requires Ordered(rest, stamps, clock) && slot < |stamps| && slot !in rest
    ensures Ordered([slot] + rest, stamps[slot := clock], clock + 1)
  {}

  lemma OrderedTouch(p: Pool, stamps: seq<nat>, clock: nat, slot: nat)
    requires PoolOk(p) && |stamps| == |p.frames| && Ordered(p.used, stamps, clock) && slot in p.used && slot < |stamps|
    ensures Ordered(MoveToFront(p.used, slot), stamps[slot := clock], clock + 1)
  {
    RestOk(p, slot);
    OrderedRest(p.used, stamps, clock, slot);
    OrderedPush(Rest(p.used, slot), stamps, clock, slot);
  }

  /** InternalAlloc takes a free slot if there is one, and otherwise the unpinned page whose last use is
      longest ago. */
  lemma EvictsLeastRecent(w: World, os: Faults)
    requires Inv(w) && InternalAlloc(w.pool, os).0 == Ok
    ensures var slot := InternalAlloc(w.pool, os).1;
            slot < |w.stamps| &&
            if w.pool.free != [] then slot == w.pool.free[0]
            else slot in w.pool.used && w.pool.frames[slot].pin == 0 &&
                 forall s :: s in w.pool.used && w.pool.frames[s].pin == 0 ==> w.stamps[slot] <= w.stamps[s]
  {
    hide Agrees;
    PoolLists(w.pool);
    if w.pool.free == [] {
      var slot := InternalAlloc(w.pool, os).1;
      LastUnpinned(w.pool.frames, w.pool.used, |w.pool.used|);
      forall s | s in w.pool.used && w.pool.frames[s].pin == 0 ensures w.stamps[slot] <= w.stamps[s] {
        var i := Position(w.pool.used, s);
        assert w.pool.used[i] == s;
      }
    }
  }

  lemma {:induction false} LastUnpinned(frames: seq<Frame>, used: seq<nat>, n: nat)
    requires Slots(used, |frames|) && n <= |used| && Victim(frames, used, n).Some?
    ensures exists i :: 0 <= i < n && used[i] == Victim(frames, used, n).value &&
                        forall j :: i < j < n ==> frames[used[j]].pin != 0
  {
    if frames[used[n - 1]].pin != 0 {
      LastUnpinned(frames, used, n - 1);
      var i :| 0 <= i < n - 1 && used[i] == Victim(frames, used, n - 1).value &&
               forall j :: i < j < n - 1 ==> frames[used[j]].pin != 0;
      assert used[i] == Victim(frames, used, n).value;
    } else {
      assert used[n - 1] == Victim(frames, used, n).value;
    }
  }

  // ----- every step

  lemma GetStep(w: World, k: Key, multiple: bool, os: Faults)
    requires Inv(w) && Enabled(w, Get(k, multiple, os))
    ensures Inv(Next(w, Get(k, multiple, os)))
    ensures var (rc, slot, q) := GetPage(w.pool, k, multiple, os);
            rc == Ok ==> slot in q.used && slot < |q.frames| && q.frames[slot].key == k &&
                         q.frames[slot].page == (if k in w.model then w.model[k] else ZeroPage())
  {
    hide Agrees, PoolOk, Ordered, ReadPage, InternalAlloc, MayPin;
    GetTransparent(w.pool, k, multiple, os, w.model, w.pending);
    GetOk(w.pool, k, multiple, os);
    GetLists(w, k, multiple, os);
    PoolLists(GetPage(w.pool, k, multiple, os).2);
  }

  lemma GetLists(w: World, k: Key, multiple: bool, os: Faults)
    requires Inv(w)
    ensures var (rc, slot, q) := GetPage(w.pool, k, multiple, os);
            |q.frames| == |w.pool.frames| &&
            if rc == Ok then slot < |w.stamps| && Ordered(q.used, w.stamps[slot := w.clock], w.clock + 1)
            else Ordered(q.used, w.stamps, w.clock)
  {
    hide Agrees, Ordered, ReadPage, InternalAlloc, PoolOk;
    var p := w.pool;
    PoolLists(p);
    var found := Lookup(p.frames, p.used, k);
    if found.Some? {
      OrderedTouch(p, w.stamps, w.clock, found.value);
    } else {
      AllocLists(p, os, w.stamps, w.clock);
    }
  }

  lemma AllocLists(p: Pool, os: Faults, stamps: seq<nat>, clock: nat)
    requires PoolOk(p) && |stamps| == |p.frames| && Ordered(p.used, stamps, clock)
    ensures var (rc, slot, q) := InternalAlloc(p, os);
            |q.frames| == |p.frames| &&
            if rc == Ok then
              slot < |p.frames| && slot in q.used && Ordered(q.used, stamps[slot := clock], clock + 1) &&
              Ordered(Without(q.used, slot), stamps, clock)
            else q.used == p.used
  {
    hide Ordered, InternalAlloc, Partition, Injective;
    PoolLists(p);
    AllocOk(p, os);
    var (rc, slot, q) := InternalAlloc(p, os);
    if rc == Ok {
      RestOk(p, slot);
      OrderedRest(p.used, stamps, clock, slot);
      OrderedPush(Rest(p.used, slot), stamps, clock, slot);
      FailedRead(q, Rest(p.used, slot), slot, q.frames[slot]);
    }
  }

  lemma AllocateStep(w: World, k: Key, os: Faults)
    requires Inv(w)
    ensures Inv(Next(w, Allocate(k, os)))
  {
    hide Agrees, PoolOk, Ordered, InternalAlloc;
    AllocateTransparent(w.pool, k, os, w.model, w.pending);
    AllocateOk(w.pool, k, os);
    AllocateLists(w, k, os);
    PoolLists(AllocatePage(w.pool, k, os).2);
  }

  lemma AllocateLists(w: World, k: Key, os: Faults)
    requires Inv(w)
    ensures var (rc, slot, q) := AllocatePage(w.pool, k, os);
            |q.frames| == |w.pool.frames| &&
            if rc == Ok then slot < |w.stamps| && Ordered(q.used, w.stamps[slot := w.clock], w.clock + 1)
            else Ordered(q.used, w.stamps, w.clock)
  {
    hide Agrees, Ordered, InternalAlloc, PoolOk;
    PoolLists(w.pool);
    AllocLists(w.pool, os, w.stamps, w.clock);
  }

  lemma WriteStep(w: World, k: Key, page: Page)
    requires Inv(w) && Enabled(w, Write(k, page))
    ensures Inv(Next(w, Write(k, page)))
  {
    hide Agrees, Ordered, PoolOk;
    PokeTransparent(w.pool, SlotOf(w.pool, k), page, w.model, w.pending);
  }

  lemma MarkStep(w: World, k: Key)
    requires Inv(w)
    ensures Inv(Next(w, Mark(k)))
  {
    hide Agrees, Ordered, PoolOk;
    MarkTransparent(w.pool, k, w.model, w.pending);
    MarkOk(w.pool, k);
    PoolLists(MarkDirty(w.pool, k).1);
    var found := Lookup(w.pool.frames, w.pool.used, k);
    if found.Some? {
      OrderedTouch(w.pool, w.stamps, w.clock, found.value);
    }
  }

  lemma UnpinStep(w: World, k: Key)
    requires Inv(w) && Enabled(w, Unpin(k))
    ensures Inv(Next(w, Unpin(k)))
  {
    hide Agrees, Ordered, PoolOk, MayUnpin;
    UnpinTransparent(w.pool, k, w.model, w.pending);
    UnpinOk(w.pool, k);
    PoolLists(UnpinPage(w.pool, k).1);
    var found := Lookup(w.pool.frames, w.pool.used, k);
    if found.Some? {
      OrderedTouch(w.pool, w.stamps, w.clock, found.value);
    }
  }

  lemma FlushStep(w: World, fd: nat, os: Faults)
    requires Inv(w)
    ensures Inv(Next(w, Flush(fd, os)))
  {
    hide Agrees, Ordered, PoolOk, FlushFrom;
    PoolNoDup(w.pool);
    FlushTransparent(w.pool, w.pool.used, fd, os, Ok, w.model, w.pending);
    FlushOrdered(w.pool, w.pool.used, fd, os, Ok, w.stamps, w.clock);
  }

  lemma {:induction false} FlushOrdered(p: Pool, todo: seq<nat>, fd: nat, os: Faults, warn: Rc, stamps: seq<nat>, clock: nat)
    requires PoolOk(p) && NoDup(todo) && (forall s :: s in todo ==> s in p.used) && Ordered(p.used, stamps, clock)
    ensures Ordered(FlushFrom(p, todo, fd, os, warn).1.used, stamps, clock)
    decreases |todo|
  {
    hide PoolOk, Ordered, WritePage;
    PoolLists(p);
    if todo != [] {
      var slot := todo[0];
      assert slot in p.used;
      var f := p.frames[slot];
      if f.key.fd != fd {
        FlushOrdered(p, todo[1..], fd, os, warn, stamps, clock);
      } else if f.pin != 0 {
        FlushOrdered(p, todo[1..], fd, os, PagePinned, stamps, clock);
      } else {
        var w := if f.dirty then WritePage(p.files, f.key, f.page, os) else (Ok, p.files);
        if w.0 == Ok {
          ReleaseOk(p, slot, w.1);
          ReleaseFrames(p, slot, w.1);
          OrderedWithout(p.used, stamps, clock, slot);
          FlushOrdered(Release(p, slot, w.1), todo[1..], fd, os, warn, stamps, clock);
        }
      }
    }
  }

  lemma ForceStep(w: World, fd: nat, pageNum: int, os: Faults)
    requires Inv(w)
    ensures Inv(Next(w, Force(fd, pageNum, os)))
  {
    hide Agrees, Ordered, PoolOk, ForceFrom;
    ForceTransparent(w.pool, w.pool.used, fd, pageNum, os, w.model, w.pending);
    PoolLists(ForcePages(w.pool, fd, pageNum, os).1);
  }

  lemma Step(w: World, e: Event)
    requires Inv(w) && Enabled(w, e)
    ensures Inv(Next(w, e))
  {
    hide Inv, Enabled, Next;
    match e
    case Get(k, multiple, os) => GetStep(w, k, multiple, os);
    case Allocate(k, os) => AllocateStep(w, k, os);
    case Write(k, page) => WriteStep(w, k, page);
    case Mark(k) => MarkStep(w, k);
    case Unpin(k) => UnpinStep(w, k);
    case Flush(fd, os) => FlushStep(w, fd, os);
    case Force(fd, pageNum, os) => ForceStep(w, fd, pageNum, os);
  }

  // ----- runs

  /** An empty pool over some files. */
  ghost predicate Start(w: World) {
    PoolOk(w.pool) && PoolShape(w.pool) && w.pool.used == [] && w.pending == {} && |w.stamps| == |w.pool.frames| &&
    forall k :: (k in w.model <==> OnFile(w.pool.files, k).Some?) && (k in w.model ==> OnFile(w.pool.files, k) == Some(w.model[k]))
  }

  lemma StartInv(w: World)
    requires Start(w)
    ensures Inv(w)
  {}

  /** ws is a run. Steps are defined where the invariant holds, which by RunInv is everywhere. */
  ghost predicate Run(ws: seq<World>, es: seq<Event>) {
    |ws| == |es| + 1 && Start(ws[0]) &&
    forall i :: 0 <= i < |es| && Inv(ws[i]) ==> Enabled(ws[i], es[i]) && ws[i + 1] == Next(ws[i], es[i])
  }

  lemma {:induction false} RunInv(ws: seq<World>, es: seq<Event>, i: nat)
    requires Run(ws, es) && i < |ws|
    ensures Inv(ws[i])
  {
    hide Inv, Enabled, Next, Start;
    if i == 0 {
      StartInv(ws[0]);
    } else {
      RunInv(ws, es, i - 1);
      Step(ws[i - 1], es[i - 1]);
    }
  }

  /** In every run, a GetPage that succeeds hands out the page the plain map holds. */
  lemma RunTransparent(ws: seq<World>, es: seq<Event>, i: nat)
    requires Run(ws, es) && i < |es| && es[i].Get?
    ensures Inv(ws[i])
    ensures var (rc, slot, q) := GetPage(ws[i].pool, es[i].k, es[i].multiple, es[i].os);
            rc == Ok ==> slot < |q.frames| && q.frames[slot].key == es[i].k &&
                         q.frames[slot].page == (if es[i].k in ws[i].model then ws[i].model[es[i].k] else ZeroPage())
  {
    hide Enabled, Next, Start, Agrees, Ordered, GetPage;
    RunInv(ws, es, i);
    GetStep(ws[i], es[i].k, es[i].multiple, es[i].os);
  }

  /** The plain map: what the clients store is what stays, and nothing else changes it. */
  lemma ModelIsPlain(w: World, e: Event, k: Key)
    requires Inv(w) && Enabled(w, e) && k in w.model && !(e.Allocate? && e.k == k)
    ensures k in Next(w, e).model
    ensures Next(w, e).model[k] == if e.Write? && e.k == k then e.page else w.model[k]
  {
    hide Agrees, PoolOk, Ordered, GetPage, AllocatePage, MarkDirty, UnpinPage, FlushPages, ForcePages, MayPin, MayUnpin;
  }
}
