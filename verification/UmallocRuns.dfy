/** Whole runs of malloc and free (umalloc.c), over the heap as a value. */
module UmallocRuns {
  import opened Umalloc

  /** The free list with the place where the next search starts, the live blocks, and the units got from the system. */
  datatype Heap = Heap(blocks: seq<Block>, rover: nat, live: map<nat, nat>, owned: set<nat>)

  /** malloc with what sbrk would grant, or refuse by NULL, and its result; free. */
  datatype Op = Malloc(nbytes: nat, grant: nat, ap: nat) | Free(ap: nat)

  /** This malloc takes units for its own that sbrk has not given. */
  ghost predicate Overclaims(h: Heap, op: Op) {
    op.Malloc? && op.nbytes < UINT && Claims(h.blocks, Units(op.nbytes), op.grant)
  }

  ghost predicate Next(memory: nat, h: Heap, op: Op, g: Heap) {
    g.rover < |g.blocks| &&
    match op
    case Malloc(nbytes, grant, ap) =>
      nbytes < UINT && Answers(h.owned, memory, Units(nbytes), grant) &&
      var n := Units(nbytes);
      if Claims(h.blocks, n, grant)
      then g.owned <= h.owned && |h.blocks| > 0 && h.blocks[0].at < grant && ap != NULL &&
           ServedFrom(Insert(h.blocks, Block(grant, AtLeast(n))), Below(h.blocks, grant), h.live, n, g.blocks, g.live, ap - 1, g.rover)
      else Served(h.blocks, h.rover, h.live, h.owned, n, grant, ap, g.blocks, g.live, g.owned, g.rover)
    case Free(ap) =>
      0 < ap && ap - 1 in h.live && |h.blocks| > 0 && h.blocks[0].at < ap - 1 &&
      g.blocks == Insert(h.blocks, Block(ap - 1, h.live[ap - 1])) && g.live == h.live - {ap - 1} && g.owned == h.owned &&
      g.rover == Below(h.blocks, ap - 1)
  }

  ghost predicate IsRun(memory: nat, hs: seq<Heap>, ops: seq<Op>) {
    BASE < memory && |hs| == |ops| + 1 && hs[0] == Heap([Block(BASE, 0)], 0, map[], {}) &&
    forall i :: 0 <= i < |ops| ==> Next(memory, hs[i], ops[i], hs[i + 1])
  }

  lemma FreeStep(memory: nat, h: Heap, ap: nat, g: Heap)
    requires HeapOk(h.blocks, h.live, h.owned, memory) && Next(memory, h, Free(ap), g)
    ensures HeapOk(g.blocks, g.live, g.owned, memory)
  {
    hide HeapOk;
    FreeOk(h.blocks, h.live, h.owned, memory, ap - 1);
  }

  lemma HandedStep(memory: nat, s: seq<Block>, live: map<nat, nat>, owned: set<nat>, j: nat, n: nat, t: seq<Block>, now: map<nat, nat>, at: nat, r: nat)
    requires HeapOk(s, live, owned, memory) && Handed(s, live, j, n, t, now, at, r) && 0 < n
    ensures HeapOk(t, now, owned, memory)
  {
    hide HeapOk;
    TakeOk(s, live, owned, memory, j, n);
  }

  /** What sbrk gave is first live and then, by morecore's free, part of the list. */
  lemma GrownStep(memory: nat, s: seq<Block>, live: map<nat, nat>, owned: set<nat>, a: nat, n: nat)
    requires HeapOk(s, live, owned, memory) && 0 < n && Granted(owned, memory, a, n) && |s| > 0 && s[0].at < a
    ensures HeapOk(Insert(s, Block(a, n)), live, owned + Span(a, n), memory)
  {
    hide HeapOk;
    GrowOk(s, live, owned, memory, a, n);
    FreeOk(s, live[a := n], owned + Span(a, n), memory, a);
    assert live[a := n] - {a} == live;
  }

  lemma MallocStep(memory: nat, h: Heap, nbytes: nat, grant: nat, ap: nat, g: Heap)
    requires HeapOk(h.blocks, h.live, h.owned, memory) && Next(memory, h, Malloc(nbytes, grant, ap), g)
    requires !Overclaims(h, Malloc(nbytes, grant, ap)) && h.rover < |h.blocks|
    ensures HeapOk(g.blocks, g.live, g.owned, memory)
  {
    hide HeapOk, Granted, Handed, Insert;
    var n := Units(nbytes);
    AskedIff(n);
    NoneLarge(h.blocks, h.rover, n);
    var f := First(h.blocks, h.rover, n, 0);
    if f.Found? {
      HandedStep(memory, h.blocks, h.live, h.owned, f.at, n, g.blocks, g.live, ap - 1, g.rover);
    } else if grant != NULL {
      GrownStep(memory, h.blocks, h.live, h.owned, grant, AtLeast(n));
      var t := Insert(h.blocks, Block(grant, AtLeast(n)));
      HandedStep(memory, t, h.live, g.owned, First(t, Below(h.blocks, grant), n, 0).at, n, g.blocks, g.live, ap - 1, g.rover);
    }
  }

  /** A malloc that takes units sbrk has not given breaks the heap: the unit of its header belongs to nobody. */
  lemma OverclaimBreaks(memory: nat, h: Heap, op: Op, g: Heap)
    requires HeapOk(h.blocks, h.live, h.owned, memory) && Next(memory, h, op, g) && Overclaims(h, op)
    ensures !HeapOk(g.blocks, g.live, g.owned, memory)
  {
    hide HeapOk, Insert, Take, Covered, First, Below;
    var n, b := Units(op.nbytes), Block(op.grant, AtLeast(Units(op.nbytes)));
    var t := Insert(h.blocks, b);
    AskedIff(n);
    AboveAll(h.blocks, h.live, h.owned, memory, b);
    InsertOrdered(h.blocks, b);
    InsertCovers(h.blocks, b, op.grant);
    var j := First(t, Below(h.blocks, op.grant), n, 0).at;
    TakeCovers(t, j, n, op.grant);
    BeyondOwned(g.blocks, g.live, g.owned, memory, op.grant, op.ap - 1);
  }

  /** Such a run exists, for every request from 2^31 - 15 to 2^32 - 8 bytes: a first malloc takes units that sbrk, asked for
      a count that is not positive, has not given, and answers with a block there. */
  lemma OverclaimRun(memory: nat, nbytes: nat, grant: nat) returns (hs: seq<Heap>, ops: seq<Op>)
    requires BASE < memory && BASE < grant && SIGN - 2 * HEADER < nbytes <= UINT - HEADER
    ensures IsRun(memory, hs, ops) && ops == [Malloc(nbytes, grant, grant + 1)] && Overclaims(hs[0], ops[0])
    ensures grant in hs[1].live && hs[1].owned == {} && !HeapOk(hs[1].blocks, hs[1].live, hs[1].owned, memory)
  {
    var n := Units(nbytes);
    UnitsHold(nbytes);
    AskedIff(n);
    var h := Heap([Block(BASE, 0)], 0, map[], {});
    var g := Heap([Block(BASE, 0)], 0, map[grant := n], {});
    var op := Malloc(nbytes, grant, grant + 1);
    FirstBlock(n, grant);
    hs, ops := [h, g], [op];
    assert Next(memory, h, op, g);
    StartOk(memory);
    OverclaimBreaks(memory, h, op, g);
  }

  lemma FirstBlock(n: nat, grant: nat)
    requires BASE < grant && MIN_UNITS <= n
    ensures var s := [Block(BASE, 0)];
            ServedFrom(Insert(s, Block(grant, AtLeast(n))), Below(s, grant), map[], n, s, map[grant := n], grant, 0)
  {
    var s := [Block(BASE, 0)];
    assert Below(s, grant) == 0;
    var t := Insert(s, Block(grant, n));
    assert t == [Block(BASE, 0), Block(grant, n)] by {
      assert s[..1] == s && s[1..] == [];
    }
    assert First(t, 0, n, 0) == Found(1);
    assert t[..1] + t[2..] == s;
  }

  lemma AboveAll(s: seq<Block>, live: map<nat, nat>, owned: set<nat>, memory: nat, b: Block)
    requires HeapOk(s, live, owned, memory) && BASE < b.at && 0 < b.size && forall u :: u in owned ==> u < b.at
    ensures Fits(s, b)
  {
    forall i | 0 <= i < |s| ensures s[i].at + s[i].size <= b.at {
      if i > 0 {
        var u := s[i].at + s[i].size - 1;
        assert In(u, s[i]);
        assert Covered(s, u);
      }
    }
  }

  lemma BeyondOwned(s: seq<Block>, live: map<nat, nat>, owned: set<nat>, memory: nat, u: nat, a: nat)
    requires u !in owned && (Covered(s, u) || (a in live && In(u, Block(a, live[a]))))
    ensures !HeapOk(s, live, owned, memory)
  {
    hide Covered;
    if a in live && In(u, Block(a, live[a])) { assert InLive(live, u); }
  }

  lemma StartOk(memory: nat)
    requires BASE < memory
    ensures HeapOk([Block(BASE, 0)], map[], {}, memory)
  {}

  /** No malloc before state i takes units it was not given. */
  ghost predicate Sound(hs: seq<Heap>, ops: seq<Op>, i: nat) {
    i < |hs| && i <= |ops| && forall k :: 0 <= k < i ==> !Overclaims(hs[k], ops[k])
  }

  /** After any sequence of malloc and free the free list is ordered, disjoint and coalesced, live blocks overlap neither
      each other nor free space, and every unit got from the system is in exactly one of them, as long as no malloc
      takes units that sbrk was asked for in vain. */
  lemma {:induction false} RunHeap(memory: nat, hs: seq<Heap>, ops: seq<Op>, i: nat)
    requires IsRun(memory, hs, ops) && i < |hs| && Sound(hs, ops, i)
    ensures HeapOk(hs[i].blocks, hs[i].live, hs[i].owned, memory) && hs[i].rover < |hs[i].blocks|
  {
    hide HeapOk, Next, Overclaims;
    if i == 0 {
      StartOk(memory);
    } else {
      RunHeap(memory, hs, ops, i - 1);
      assert Next(memory, hs[i - 1], ops[i - 1], hs[i - 1 + 1]);
      NextRover(memory, hs[i - 1], ops[i - 1], hs[i]);
      match ops[i - 1] {
        case Malloc(nbytes, grant, ap) => MallocStep(memory, hs[i - 1], nbytes, grant, ap, hs[i]);
        case Free(ap) => FreeStep(memory, hs[i - 1], ap, hs[i]);
      }
    }
  }

  lemma NextRover(memory: nat, h: Heap, op: Op, g: Heap)
    requires Next(memory, h, op, g)
    ensures g.rover < |g.blocks|
  {}

  /** The heap is in order all along a run exactly if no malloc of the run takes units it was not given. */
  lemma RunHeapIff(memory: nat, hs: seq<Heap>, ops: seq<Op>, i: nat)
    requires IsRun(memory, hs, ops) && i < |hs|
    ensures (forall k :: 0 <= k <= i ==> HeapOk(hs[k].blocks, hs[k].live, hs[k].owned, memory)) <==> Sound(hs, ops, i)
  {
    hide HeapOk, Next, Overclaims;
    forall k | 0 <= k < i
      ensures (HeapOk(hs[k].blocks, hs[k].live, hs[k].owned, memory) &&
               HeapOk(hs[k + 1].blocks, hs[k + 1].live, hs[k + 1].owned, memory)) ==> !Overclaims(hs[k], ops[k])
    {
      assert Next(memory, hs[k], ops[k], hs[k + 1]);
      if HeapOk(hs[k].blocks, hs[k].live, hs[k].owned, memory) && Overclaims(hs[k], ops[k]) {
        OverclaimBreaks(memory, hs[k], ops[k], hs[k + 1]);
      }
    }
    if forall k :: 0 <= k <= i ==> HeapOk(hs[k].blocks, hs[k].live, hs[k].owned, memory) {
      forall k | 0 <= k < i ensures !Overclaims(hs[k], ops[k]) {
        assert HeapOk(hs[k + 1].blocks, hs[k + 1].live, hs[k + 1].owned, memory);
      }
    }
    if Sound(hs, ops, i) {
      forall k | 0 <= k <= i ensures HeapOk(hs[k].blocks, hs[k].live, hs[k].owned, memory) {
        RunHeap(memory, hs, ops, k);
      }
    }
  }

  /** Requests of at most 2^31 - 16 bytes never do. */
  lemma SmallSound(hs: seq<Heap>, ops: seq<Op>, i: nat)
    requires i < |hs| && i <= |ops| && forall k :: 0 <= k < i && ops[k].Malloc? ==> ops[k].nbytes <= SIGN - 2 * HEADER
    ensures Sound(hs, ops, i)
  {
    forall k | 0 <= k < i ensures !Overclaims(hs[k], ops[k]) {
      if ops[k].Malloc? {
        UnitsHold(ops[k].nbytes);
        AskedIff(Units(ops[k].nbytes));
      }
    }
  }

  /** The allocator leaves nothing open: what sbrk answers decides what malloc answers and what the heap is next, up to the
      units that a claim does not tell from those that were given. */
  lemma Decided(memory: nat, h: Heap, nbytes: nat, grant: nat, ap: nat, bp: nat, f: Heap, g: Heap)
    requires Next(memory, h, Malloc(nbytes, grant, ap), f) && Next(memory, h, Malloc(nbytes, grant, bp), g)
    ensures ap == bp && f.blocks == g.blocks && f.rover == g.rover && f.live == g.live
    ensures !Overclaims(h, Malloc(nbytes, grant, ap)) ==> f == g
  {
    hide Insert, Below, First, Take;
  }

  /** What a program relies on: as long as a block is live, malloc hands out nothing that overlaps it. */
  lemma StaysApart(memory: nat, hs: seq<Heap>, ops: seq<Op>, i: nat, a: nat)
    requires IsRun(memory, hs, ops) && i < |ops| && ops[i].Malloc? && ops[i].ap != NULL && a in hs[i].live && Sound(hs, ops, i + 1)
    ensures a in hs[i + 1].live && hs[i + 1].live[a] == hs[i].live[a]
    ensures ops[i].ap - 1 in hs[i + 1].live
    ensures Apart(Block(a, hs[i].live[a]), Block(ops[i].ap - 1, hs[i + 1].live[ops[i].ap - 1]))
  {
    hide HeapOk, Next, Overclaims;
    RunHeap(memory, hs, ops, i + 1);
    assert Next(memory, hs[i], ops[i], hs[i + 1]);
    NewLive(memory, hs[i], ops[i], hs[i + 1]);
    LiveApart(hs[i + 1].blocks, hs[i + 1].live, hs[i + 1].owned, memory, a, ops[i].ap - 1);
  }

  lemma NewLive(memory: nat, h: Heap, op: Op, g: Heap)
    requires Next(memory, h, op, g) && op.Malloc? && op.ap != NULL && !Overclaims(h, op)
    ensures op.ap - 1 !in h.live && g.live == h.live[op.ap - 1 := Units(op.nbytes)]
  {
    hide Served;
    ServedIff(h.blocks, h.rover, h.live, h.owned, Units(op.nbytes), op.grant, op.ap, g.blocks, g.live, g.owned, g.rover);
  }

  lemma LiveApart(s: seq<Block>, live: map<nat, nat>, owned: set<nat>, memory: nat, a: nat, c: nat)
    requires HeapOk(s, live, owned, memory) && a in live && c in live && a != c
    ensures Apart(Block(a, live[a]), Block(c, live[c]))
  {}

  /** Memory never leaks inside the allocator: when nothing is live, all units got from the system are free. */
  lemma NothingLost(memory: nat, hs: seq<Heap>, ops: seq<Op>, i: nat, u: nat)
    requires IsRun(memory, hs, ops) && i < |hs| && hs[i].live == map[] && Sound(hs, ops, i)
    ensures u in hs[i].owned <==> Covered(hs[i].blocks, u)
  {
    RunHeap(memory, hs, ops, i);
  }
}
