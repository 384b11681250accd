/** The frame allocator (kalloc.c) and the operations on address spaces (vm.c). */
module VmMachine {
  import opened Blocks
  import opened Seqs
  import opened Vm
  import opened VmCount

  /** The kernel's virtual address of a frame: P2V. */
  function Va(f: nat): Word
    requires f < TOPFRAME
  {
    KERNBASE + f * PGSIZE
  }

  function NextFree(free: seq<nat>, i: nat): Word
    requires i < |free| ==> free[i] < TOPFRAME
  {
    if i < |free| then Va(free[i]) else 0
  }

  /** The free list: distinct frames from lo to hi, the first word of each giving the address of the next. */
  ghost predicate FreeChain(m: Memory, head: Word, free: seq<nat>, lo: nat, hi: nat) {
    0 < lo <= hi <= TOPFRAME && hi <= |m| && NoDup(free) &&
    (forall i :: 0 <= i < |free| ==> lo <= free[i] < hi) && head == NextFree(free, 0) &&
    forall i :: 0 <= i < |free| ==> m[free[i]][0] == NextFree(free, i + 1)
  }

  /** Writing a frame that is not free keeps the list. */
  lemma ChainSame(m: Memory, n: Memory, head: Word, free: seq<nat>, lo: nat, hi: nat)
    requires FreeChain(m, head, free, lo, hi) && |n| == |m| && forall f: nat :: f < |m| && f in free ==> n[f] == m[f]
    ensures FreeChain(n, head, free, lo, hi)
  {}

  lemma ChainPush(m: Memory, head: Word, free: seq<nat>, lo: nat, hi: nat, f: nat, data: Frame)
    requires FreeChain(m, head, free, lo, hi) && lo <= f < hi && f !in free && data[0] == head
    ensures f < |m| && FreeChain(m[f := data], Va(f), [f] + free, lo, hi)
  {
    var n := m[f := data];
    var now := [f] + free;
    forall i | 0 <= i < |now| ensures n[now[i]][0] == NextFree(now, i + 1) {
      if i > 0 { assert now[i] == free[i - 1] && NextFree(now, i + 1) == NextFree(free, i); }
    }
  }

  lemma ChainPop(m: Memory, head: Word, free: seq<nat>, lo: nat, hi: nat)
    requires FreeChain(m, head, free, lo, hi) && head != 0
    ensures free != [] && lo <= free[0] < hi && head == Va(free[0]) && free[0] < |m|
    ensures FreeChain(m, m[free[0]][0], free[1..], lo, hi)
    ensures Elements(free[1..]) == Elements(free) - {free[0]} && free[0] in free
  {
    var now := free[1..];
    assert head == NextFree(free, 0);
    ChainTail(m, head, free, now, lo, hi);
    hide NextFree, Va;
    TailElements(free);
  }

  lemma ChainTail(m: Memory, head: Word, free: seq<nat>, now: seq<nat>, lo: nat, hi: nat)
    requires free != [] && now == free[1..] && FreeChain(m, head, free, lo, hi)
    ensures free[0] < |m| && FreeChain(m, m[free[0]][0], now, lo, hi)
  {
    hide Va;
    forall i | 0 <= i < |now| ensures m[now[i]][0] == NextFree(now, i + 1) {
      assert now[i] == free[i + 1] && NextFree(now, i + 1) == NextFree(free, i + 2);
    }
    assert NextFree(now, 0) == NextFree(free, 1);
  }

  lemma TailElements(free: seq<nat>)
    requires free != [] && NoDup(free)
    ensures Elements(free[1..]) == Elements(free) - {free[0]}
  {
    forall x | x in free && x != free[0] ensures x in free[1..] {
      var j :| 0 <= j < |free| && free[j] == x;
      assert free[1..][j - 1] == x;
    }
  }

  /** memset(v, 1, PGSIZE), then r->next */
  function Junk(next: Word): (f: Frame)
    ensures f[0] == next
  {
    seq(ENTRIES, _ => 0x101_0101)[0 := next]
  }

  class Machine {
    const mem: array<Frame>
    const lo: nat                      // the first frame past the kernel
    const hi: nat                      // PHYSTOP
    const data: nat                    // the virtual page where the kernel's data starts
    var freelist: Word                 // the kernel address of the first free frame, or 0
    ghost var free: seq<nat>

    ghost predicate Valid()
      reads this, mem
    {
      FreeChain(mem[..], freelist, free, lo, hi)
    }

    /** Before kinit1: nothing is free. */
    constructor (m: array<Frame>, end: nat, top: nat, dataPage: nat)
      requires 0 < end <= top <= TOPFRAME && top <= m.Length
      ensures Valid() && free == [] && mem == m && lo == end && hi == top && data == dataPage
    {
      mem, lo, hi, data, freelist, free := m, end, top, dataPage, 0, [];
    }

    ghost predicate InRange(all: set<nat>) {
      forall f: nat :: f in all ==> lo <= f < hi
    }

    /** Free a frame; the "kfree" panic is for frames outside the allocator's range. */
    method Kfree(f: nat) returns (ok: bool)
      requires Valid() && f !in free
      modifies this`freelist, this`free, mem
      ensures Valid()
      ensures ok <==> lo <= f < hi
      ensures !ok ==> mem[..] == old(mem[..]) && free == old(free)
      ensures ok ==> f < TOPFRAME && freelist == Va(f)
      ensures ok ==> free == [f] + old(free) && f < mem.Length && mem[..] == old(mem[..])[f := Junk(old(freelist))]
    {
      hide Junk;
      if f < lo || f >= hi {
        return false;
      }
      ChainPush(mem[..], freelist, free, lo, hi, f, Junk(freelist));
      mem[f] := Junk(freelist);
      freelist := Va(f);
      free := [f] + free;
      ok := true;
    }

    /** The first free frame, or 0. */
    method Kalloc() returns (f: nat)
      requires Valid()
      modifies this`freelist, this`free
      ensures Valid()
      ensures f == 0 <==> old(free) == []
      ensures f == 0 ==> free == old(free)
      ensures f != 0 ==> lo <= f < hi && f < TOPFRAME && f == old(free)[0] && free == old(free)[1..]
      ensures f != 0 ==> Elements(free) == Elements(old(free)) - {f} && f in old(free)
    {
      if freelist == 0 {
        return 0;
      }
      ChainPop(mem[..], freelist, free, lo, hi);
      f := (freelist - KERNBASE) / PGSIZE;
      assert f == free[0];
      freelist := mem[f][0];
      free := free[1..];
    }

    /** The frames wholly inside a stretch of kernel memory become free. */
    method Freerange(vstart: nat, vend: nat)
      requires Valid() && KERNBASE + lo * PGSIZE <= vstart && vend <= KERNBASE + hi * PGSIZE
      requires forall f: nat :: Inside(f, vstart, vend) ==> f !in free
      modifies this`freelist, this`free, mem
      ensures Valid()
      ensures forall f: nat :: f in free <==> f in old(free) || Inside(f, vstart, vend)
    {
      hide FreeChain, Inside;
      var p := (vstart + PGSIZE - 1) / PGSIZE * PGSIZE;
      ghost var k0 := RoundUp(vstart);
      ghost var k := k0;
      while p + PGSIZE <= vend
        invariant k0 <= k && p == KERNBASE + k * PGSIZE && (k0 < k ==> p <= vend) && Valid()
        invariant forall f: nat :: f in free <==> f in old(free) || k0 <= f < k
        decreases vend - p
      {
        InsideFrom(k, vstart, vend);
        FrameBounds(k, lo, hi, vstart, vend);
        var ok := Kfree((p - KERNBASE) / PGSIZE);
        assert ok;
        p := p + PGSIZE;
        k := k + 1;
      }
      forall f: nat ensures k0 <= f < k <==> Inside(f, vstart, vend) {
        InsideFrom(f, vstart, vend);
      }
    }

    /** The page table for va: pt is its frame. A missing table is made, empty, if alloc is set and a frame is free. */
    method Walkpgdir(pd: nat, va: nat, alloc: bool, ghost loose: set<nat>, ghost all: set<nat>) returns (ok: bool, pt: nat)
      requires Valid() && InRange(all) && Holds(mem[..], Elements(free), loose, pd, all) && va < U32
      modifies this`freelist, this`free, mem
      ensures Valid() && Holds(mem[..], Elements(free), loose, pd, all)
      ensures !alloc || !ok ==> mem[..] == old(mem[..]) && free == old(free)
      ensures !alloc ==> (ok <==> Present(mem[pd][va / PGSIZE / ENTRIES]))
      ensures !ok ==> !Present(mem[pd][va / PGSIZE / ENTRIES]) && (alloc ==> free == [])
      ensures ok ==> Present(mem[pd][va / PGSIZE / ENTRIES]) && pt == FrameOf(mem[pd][va / PGSIZE / ENTRIES]) && pt < mem.Length
      ensures SamePtes(old(mem[..]), mem[..], pd) && Kept(old(mem[..]), mem[..], pd, all, 0, 0)
      ensures HandKept(old(mem[..]), mem[..], loose)
      ensures ok ==> var k := va / PGSIZE / ENTRIES;
        if Present(old(mem[pd])[k]) then mem[..] == old(mem[..]) && free == old(free)
        else pt < PAGES && mem[pd] == old(mem[pd])[k := MakeEntry(pt, 6)] && mem[pt] == ZeroFrame()
    {
      hide FreeChain, Holds, SamePtes, Kept, Junk, MakeEntry;
      ghost var m: Memory := mem[..];
      KeptSelf(m, Elements(free), loose, pd, all);
      var k := va / 0x40_0000;
      assert k == va / PGSIZE / ENTRIES;
      var pde := mem[pd][k];
      if Present(pde) {
        pt := FrameOf(pde);
        TableOwned(m, Elements(free), loose, pd, all, k);
        ok := true;
      } else {
        if !alloc {
          return false, 0;
        }
        ghost var was := Elements(free);
        pt := Kalloc();
        if pt == 0 {
          return false, 0;
        }
        HoldsTake(m, was, loose, pd, all, pt);
        TableStep(m, Elements(free), loose, pd, all, k, pt, freelist, free, lo, hi);
        mem[pt] := ZeroFrame();
        mem[pd] := mem[pd][k := MakeEntry(pt, 6)];
        assert mem[..] == m[pt := ZeroFrame()][pd := m[pd][k := MakeEntry(pt, 6)]];
        ok := true;
      }
    }

    /** One turn of mappages: virtual page va / PGSIZE gets an entry for frame pf. */
    method MapPage(pd: nat, va: nat, pf: nat, perm: nat, ghost loose: set<nat>, ghost all: set<nat>) returns (r: Mapped)
      requires Valid() && InRange(all) && Holds(mem[..], Elements(free), loose, pd, all)
      requires va < U32 && pf < PAGES && perm < PGSIZE && (va / PGSIZE < UPAGES ==> pf in loose)
      modifies this`freelist, this`free, mem
      ensures Valid() && Holds(mem[..], Elements(free), Rest(loose, va / PGSIZE, pf, if r.Done? then 1 else 0), pd, all)
      ensures r.Remap? <==> Present(PteAt(old(mem[..]), pd, va / PGSIZE))
      ensures r.NoMemory? ==> free == []
      ensures Mapping(old(mem[..]), mem[..], pd, va / PGSIZE, pf, perm, if r.Done? then 1 else 0)
      ensures Kept(old(mem[..]), mem[..], pd, all, 0, 0) && HandKept(old(mem[..]), mem[..], loose)
      ensures Dirs(old(mem[..]), mem[..], pd, va / PGSIZE, if r.Done? then 1 else 0)
      ensures r.NoMemory? ==> !Present(mem[pd][va / PGSIZE / ENTRIES])
    {
      hide FreeChain, Holds, SamePtes, Kept, MakeEntry, PteAt, Mapping, Elements, Dirs;
      ghost var m: Memory := mem[..];
      RootOwned(m, Elements(free), loose, pd, all);
      MappingNone(m, pd, va / PGSIZE, pf, perm);
      var ok, pt := Walkpgdir(pd, va, true, loose, all);
      ghost var n: Memory := mem[..];
      var v := va / PGSIZE;
      assert v % ENTRIES == va / PGSIZE % ENTRIES && v < PAGES;
      SamePteAt(m, n, pd, v);
      DirsSelf(m, pd, v);
      if !ok {
        MappingSame(m, n, pd, v, pf, perm);
        NoTablePte(n, pd, v);
        return NoMemory;
      }
      TableEntry(n, pd, v);
      if Present(mem[pt][v % ENTRIES]) {
        MappingSame(m, n, pd, v, pf, perm);
        return Remap;
      }
      DirsWalked(m, n, pd, v);
      MapStep(n, Elements(free), loose, pd, all, v, pf, perm, freelist, free, lo, hi);
      mem[pt] := mem[pt][v % ENTRIES := MakeEntry(pf, perm)];
      assert mem[..] == n[pt := n[pt][v % ENTRIES := MakeEntry(pf, perm)]];
      assert mem[pd] == n[pd];
      KeptTrans(m, n, mem[..], pd, all, 0, 0);
      MappingAfter(m, n, mem[..], pd, v, pf, perm);
      DirsSame(m, n, mem[..], pd, v);
      r := Done;
    }

    /** mappages: the pages of va..va + size get entries for the frames from pa on, until a table is wanted and memory is
        out or, a panic, until a page that is mapped already. */
    method Mappages(pd: nat, va: nat, size: nat, pa: nat, perm: nat, ghost loose: set<nat>, ghost all: set<nat>)
      returns (r: Mapped, ghost done: nat)
      requires Valid() && InRange(all) && Holds(mem[..], Elements(free), loose, pd, all)
      requires 0 < size && va + size <= U32 && pa % PGSIZE == 0 && pa / PGSIZE + Pages(va, size) <= PAGES && perm < PGSIZE
      requires forall k: nat :: k < Pages(va, size) ==> Given(loose, va / PGSIZE, pa / PGSIZE, k)
      modifies this`freelist, this`free, mem
      ensures Valid() && Holds(mem[..], Elements(free), Rest(loose, va / PGSIZE, pa / PGSIZE, done), pd, all)
      ensures done <= Pages(va, size) && (r.Done? <==> done == Pages(va, size)) && (r.NoMemory? ==> free == [])
      ensures forall v: nat :: va / PGSIZE <= v < va / PGSIZE + done ==> !Present(PteAt(old(mem[..]), pd, v))
      ensures r.Remap? ==> Present(PteAt(old(mem[..]), pd, va / PGSIZE + done))
      ensures Mapping(old(mem[..]), mem[..], pd, va / PGSIZE, pa / PGSIZE, perm, done)
      ensures Kept(old(mem[..]), mem[..], pd, all, 0, 0) && HandKept(old(mem[..]), mem[..], loose)
      ensures Dirs(old(mem[..]), mem[..], pd, va / PGSIZE, done)
      ensures r.NoMemory? ==> va / PGSIZE + done < PAGES && !Present(mem[pd][(va / PGSIZE + done) / ENTRIES])
    {
      hide HandKept, FreeChain, Holds, Kept, MakeEntry, PteAt, Mapping, Elements, Rest, Dirs;
      ghost var m: Memory := mem[..];
      ghost var first := va / PGSIZE;
      ghost var pf := pa / PGSIZE;
      RestNone(loose, first, pf);
      KeptSelf(m, Elements(free), loose, pd, all);
      MappingNone(m, pd, first, pf, perm);
      HandSelf(m, loose);
      DirsSelf(m, pd, first);
      var a := va / PGSIZE * PGSIZE;
      var last := (va + size - 1) / PGSIZE * PGSIZE;
      var pb := pa;
      done := 0;
      while true
        invariant a == (first + done) * PGSIZE <= last && pb == (pf + done) * PGSIZE && done < Pages(va, size)
        invariant Valid() && Holds(mem[..], Elements(free), Rest(loose, first, pf, done), pd, all)
        invariant Mapping(m, mem[..], pd, first, pf, perm, done) && Kept(m, mem[..], pd, all, 0, 0) && HandKept(m, mem[..], loose)
        invariant forall v: nat :: first <= v < first + done ==> !Present(PteAt(m, pd, v))
        invariant Dirs(m, mem[..], pd, first, done)
        decreases last - a
      {
        ghost var n: Memory := mem[..];
        ghost var hand := Rest(loose, first, pf, done);
        assert Given(loose, first, pf, done);
        InHand(loose, first, pf, done, done);
        MappingAt(m, n, pd, first, pf, perm, done, first + done);
        r := MapPage(pd, a, pb / PGSIZE, perm, hand, all);
        HandNext(m, n, mem[..], loose, pd, all, first, pf, perm, done);
        KeptTrans(m, n, mem[..], pd, all, 0, 0);
        MappingNext(m, n, mem[..], pd, first, pf, perm, done, if r.Done? then 1 else 0);
        RestNext(loose, first, pf, done, if r.Done? then 1 else 0);
        DirsNext(m, n, mem[..], pd, first, done, if r.Done? then 1 else 0);
        if !r.Done? {
          return;
        }
        done := done + 1;
        if a == last {
          return;
        }
        a := a + PGSIZE;
        pb := pb + PGSIZE;
      }
    }

    /** Free the frame of user page v and clear its entry. */
    method FreePage(pd: nat, v: nat, pt: nat, ghost loose: set<nat>, ghost all: set<nat>)
      requires Valid() && InRange(all) && Holds(mem[..], Elements(free), loose, pd, all)
      requires v < UPAGES && Present(mem[pd][v / ENTRIES]) && pt == FrameOf(mem[pd][v / ENTRIES]) && Present(PteAt(mem[..], pd, v))
      modifies this`freelist, this`free, mem
      ensures Valid() && Holds(mem[..], Elements(free), loose, pd, all)
      ensures mem[pd] == old(mem[pd])
      ensures forall u: nat :: u < PAGES ==> PteAt(mem[..], pd, u) == if u == v then 0 else PteAt(old(mem[..]), pd, u)
      ensures Kept(old(mem[..]), mem[..], pd, all, v, v + 1)
    {
      hide FreeChain, Holds, Kept, PteAt, Elements, Junk;
      ghost var n: Memory := mem[..];
      ghost var head := freelist;
      RootOwned(n, Elements(free), loose, pd, all);
      assert n[pd] == mem[pd];
      UnmapStep(n, Elements(free), loose, pd, all, v, freelist, free, lo, hi);
      TableEntry(n, pd, v);
      var f := FrameOf(mem[pt][v % ENTRIES]);
      var freed := Kfree(f);
      assert freed;
      mem[pt] := mem[pt][v % ENTRIES := 0];
      assert mem[..] == n[f := Junk(head)][pt := n[pt][v % ENTRIES := 0]];
    }

    /** One turn of deallocuvm where there is a table: the page goes, if it is mapped. */
    method DropPage(pd: nat, v: nat, pt: nat, ghost m: Memory, ghost first: nat, ghost end: nat, ghost loose: set<nat>, ghost all: set<nat>)
      requires Valid() && InRange(all) && Holds(mem[..], Elements(free), loose, pd, all) && first <= v < end && v < UPAGES
      requires Present(mem[pd][v / ENTRIES]) && pt == FrameOf(mem[pd][v / ENTRIES]) && pt < mem.Length
      requires Kept(m, mem[..], pd, all, first, end) && Unmapped(m, mem[..], pd, first, Least(v, end))
      modifies this`freelist, this`free, mem
      ensures Valid() && Holds(mem[..], Elements(free), loose, pd, all) && mem[pd] == old(mem[pd])
      ensures Kept(m, mem[..], pd, all, first, end) && Unmapped(m, mem[..], pd, first, Least(v + 1, end))
    {
      hide FreeChain, Holds, Kept, PteAt, Unmapped, Elements, Junk;
      ghost var n: Memory := mem[..];
      RootOwned(n, Elements(free), loose, pd, all);
      assert n[pd] == mem[pd];
      TableEntry(n, pd, v);
      if Present(mem[pt][v % ENTRIES]) {
        FreePage(pd, v, pt, loose, all);
        UnmappedOne(m, n, mem[..], pd, first, v, end);
        KeptButOne(n, mem[..], pd, all, v, first, end);
        KeptTrans(m, n, mem[..], pd, all, first, end);
      } else {
        UnmappedSkip(m, n, pd, first, v, end);
      }
    }

    /** Free the user pages from newsz, rounded up, to oldsz. Where the directory has no table the loop jumps over the
        table's whole range. The "kfree" panic for physical address 0 is not reached. */
    method Deallocuvm(pd: nat, oldsz: nat, newsz: nat, ghost loose: set<nat>, ghost all: set<nat>) returns (sz: nat)
      requires Valid() && InRange(all) && Holds(mem[..], Elements(free), loose, pd, all) && oldsz <= KERNBASE
      modifies this`freelist, this`free, mem
      ensures Valid() && Holds(mem[..], Elements(free), loose, pd, all)
      ensures sz == if newsz >= oldsz then oldsz else newsz
      ensures mem[pd] == old(mem[pd])
      ensures Unmapped(old(mem[..]), mem[..], pd, Up(newsz), Up(oldsz))
      ensures Kept(old(mem[..]), mem[..], pd, all, Up(newsz), Up(oldsz))
    {
      hide FreeChain, Holds, Kept, PteAt, Unmapped, Elements, Junk, Present, FrameOf, SamePtes, HandKept, Up, Least;
      ghost var m: Memory := mem[..];
      KeptSelf(m, Elements(free), loose, pd, all);
      KeptWider(m, m, pd, all, Up(newsz), Up(oldsz));
      UnmappedNone(m, pd, Up(newsz), Up(oldsz));
      if newsz >= oldsz {
        UpMonotone(oldsz, newsz);
        return oldsz;
      }
      ghost var first := Up(newsz);
      ghost var end := Up(oldsz);
      var a := (newsz + PGSIZE - 1) / PGSIZE * PGSIZE;
      RoundedUp(newsz);
      UnmappedTo(m, m, pd, first, Least(first, end));
      while a < oldsz
        invariant first * PGSIZE <= a && a % PGSIZE == 0 && mem[pd] == m[pd]
        invariant Valid() && Holds(mem[..], Elements(free), loose, pd, all)
        invariant Kept(m, mem[..], pd, all, first, end)
        invariant Unmapped(m, mem[..], pd, first, Least(a / PGSIZE, end))
        decreases oldsz - a
      {
        ghost var n: Memory := mem[..];
        var v := a / PGSIZE;
        UpAbove(oldsz, a);
        PageOn(a);
        var ok, pt := Walkpgdir(pd, a, false, loose, all);
        if !ok {
          AbsentTable(m, n, pd, first, v, end);
          TableEnd(a);
          a := (a / 0x40_0000 + 1) * 0x40_0000 - PGSIZE;
        } else {
          DropPage(pd, v, pt, m, first, end, loose, all);
        }
        PageOn(a);
        a := a + PGSIZE;
      }
      UpBelow(oldsz, a);
      sz := newsz;
    }

    /** freevm's loop over the directory, and the directory itself. */
    method FreeTables(pd: nat, ghost loose: set<nat>, ghost all: set<nat>)
      requires Valid() && InRange(all) && pd < mem.Length && Leaving(mem[pd], 0, Elements(free), loose, pd, all)
      modifies this`freelist, this`free, mem
      ensures Valid() && Elements(free) == all - loose
      ensures Outside(old(mem[..]), mem[..], all)
    {
      hide FreeChain, Elements, Junk, Tables, Outside, FrameOf, Present, Leaving;
      ghost var m: Memory := mem[..];
      OutsideSelf(m, all);
      ghost var dir := mem[pd];
      var i := 0;
      while i < ENTRIES
        invariant i <= ENTRIES && Valid() && mem[pd] == dir && Outside(m, mem[..], all)
        invariant Leaving(dir, i, Elements(free), loose, pd, all)
      {
        ghost var n: Memory := mem[..];
        NextTable(dir, i, Elements(free), loose, pd, all);
        if Present(mem[pd][i]) {
          PushElements(FrameOf(mem[pd][i]), free);
          var ok := Kfree(FrameOf(mem[pd][i]));
          assert ok;
          OutsideOne(m, n, FrameOf(dir[i]), mem[..], all);
        }
        i := i + 1;
      }
      ghost var n: Memory := mem[..];
      LastFrame(dir, Elements(free), loose, pd, all);
      PushElements(pd, free);
      var ok := Kfree(pd);
      assert ok;
      OutsideOne(m, n, pd, mem[..], all);
    }

    /** Free an address space: afterwards its frames are free, all of them, and so the free frames are exactly those of all
        that the caller does not hold. */
    method Freevm(pd: nat, ghost loose: set<nat>, ghost all: set<nat>)
      requires Valid() && InRange(all) && Holds(mem[..], Elements(free), loose, pd, all)
      modifies this`freelist, this`free, mem
      ensures Valid() && Elements(free) == all - loose
      ensures Outside(old(mem[..]), mem[..], all)
    {
      hide FreeChain, Holds, Kept, PteAt, Unmapped, Elements, Outside, Leaving;
      ghost var m: Memory := mem[..];
      RootOwned(m, Elements(free), loose, pd, all);
      var sz := Deallocuvm(pd, KERNBASE, 0, loose, all);
      ghost var n: Memory := mem[..];
      KeptOutside(m, n, pd, all, Up(0), Up(KERNBASE));
      TablesLeft(m, n, Elements(free), loose, pd, all);
      assert n[pd] == mem[pd];
      FreeTables(pd, loose, all);
      OutsideTrans(m, n, mem[..], all);
    }

    /** A new directory with the kernel's mappings and no user page, made of frames that were free; or 0, and the free
        frames are what they were. None of the kernel's ranges overlap, so no "remap" panic. */
    method Setupkvm() returns (pd: nat)
      requires Valid() && DataOk(data)
      modifies this`freelist, this`free, mem
      ensures Valid() && Outside(old(mem[..]), mem[..], Elements(old(free)))
      ensures pd == 0 ==> Elements(free) == Elements(old(free))
      ensures pd != 0 ==> Holds(mem[..], Elements(free), {}, pd, Elements(old(free))) && KernelUpTo(mem[..], pd, data, 4)
      ensures pd != 0 ==> TablesFor(mem[..], pd, 0)
      ensures pd == 0 <==> |Elements(old(free))| < KERNELFRAMES
    {
      hide FreeChain, Holds, Kept, PteAt, Elements, Outside, KernelUpTo, Mapping, Rest, KernelTables, TablesFor;
      ghost var m: Memory := mem[..];
      ghost var all := Elements(free);
      FreeInRange(m, freelist, free, lo, hi);
      OutsideSelf(m, all);
      ghost var was := free;
      pd := Kalloc();
      if pd == 0 {
        return;
      }
      FreshSpace(m, freelist, free, lo, hi, pd, all);
      mem[pd] := ZeroFrame();
      OutsideOne(m, m, pd, mem[..], all);
      var k := 0;
      while k < 4
        invariant k <= 4 && Valid() && Outside(m, mem[..], all)
        invariant Holds(mem[..], Elements(free), {}, pd, all) && KernelUpTo(mem[..], pd, data, k)
        invariant KernelTables(mem[..], pd, data, k)
      {
        ghost var n: Memory := mem[..];
        var ok := MapRange(pd, k, all);
        OutsideTrans(m, n, mem[..], all);
        if !ok {
          ghost var o: Memory := mem[..];
          Freevm(pd, {}, all);
          OutsideTrans(m, o, mem[..], all);
          return 0;
        }
        k := k + 1;
      }
      KernelComplete(mem[..], pd, data, Elements(free), all);
    }

    /** One turn of setupkvm's loop. */
    method MapRange(pd: nat, k: nat, ghost all: set<nat>) returns (ok: bool)
      requires Valid() && DataOk(data) && InRange(all) && k < 4
      requires Holds(mem[..], Elements(free), {}, pd, all) && KernelUpTo(mem[..], pd, data, k) && KernelTables(mem[..], pd, data, k)
      modifies this`freelist, this`free, mem
      ensures Valid() && Outside(old(mem[..]), mem[..], all) && Holds(mem[..], Elements(free), {}, pd, all)
      ensures ok ==> KernelUpTo(mem[..], pd, data, k + 1) && KernelTables(mem[..], pd, data, k + 1)
      ensures !ok ==> |all| < KERNELFRAMES
    {
      hide FreeChain, Holds, Kept, PteAt, Elements, Outside, KernelUpTo, Mapping, Rest, Present, Kmap, Pages, KernelFrom, Dirs, KernelTables;
      ghost var n: Memory := mem[..];
      var range := Kmap(data, k);
      RangeOk(data, k);
      RangeUnmapped(n, pd, data, k);
      var r, done := Mappages(pd, range.virt, (range.end + U32 - range.start) % U32, range.start, range.perm, {}, all);
      RestKernel(range.virt / PGSIZE, range.start / PGSIZE, done);
      KeptOutside(n, mem[..], pd, all, 0, 0);
      assert !r.Remap?;
      if r.NoMemory? {
        KernelShort(n, mem[..], pd, data, k, done, Elements(free), all);
        return false;
      }
      KernelNext(n, mem[..], pd, data, k);
      TablesNext(n, mem[..], pd, data, k);
      ok := true;
    }

    /** A new user page in a frame of its own, with the given bytes. */
    method AddPage(pd: nat, va: nat, bytes: Frame, perm: nat, ghost all: set<nat>) returns (r: Added)
      requires Valid() && InRange(all) && Holds(mem[..], Elements(free), {}, pd, all)
      requires va < KERNBASE && va % PGSIZE == 0 && perm < PGSIZE
      modifies this`freelist, this`free, mem
      ensures Valid() && Kept(old(mem[..]), mem[..], pd, all, 0, 0)
      ensures r.Page? ==> OneMore(old(mem[..]), mem[..], pd, va / PGSIZE, bytes, perm)
      ensures !r.Page? ==> SamePtes(old(mem[..]), mem[..], pd)
      ensures r.Clash? ==> Present(PteAt(old(mem[..]), pd, va / PGSIZE))
      ensures r.Page? ==> !Present(PteAt(old(mem[..]), pd, va / PGSIZE))
      ensures r.NoTable? ==> lo <= r.f < hi
      ensures Holds(mem[..], Elements(free), if r.NoTable? || r.Clash? then {r.f} else {}, pd, all)
      ensures Dirs(old(mem[..]), mem[..], pd, va / PGSIZE, if r.Page? then 1 else 0)
      ensures r.NoFrame? || r.NoTable? ==> free == []
      ensures r.NoTable? ==> !Present(mem[pd][va / PGSIZE / ENTRIES])
    {
      hide FreeChain, Holds, Kept, PteAt, Elements, Mapping, MakeEntry, Present, SamePtes, OneMore, Rest, HandKept, Dirs;
      ghost var m: Memory := mem[..];
      KeptSelf(m, Elements(free), {}, pd, all);
      ghost var was := Elements(free);
      DirsSelf(m, pd, va / PGSIZE);
      var f := Kalloc();
      if f == 0 {
        return NoFrame;
      }
      HoldsTake(m, was, {}, pd, all, f);
      assert {} + {f} == {f};
      HandWrite(m, Elements(free), pd, all, f, bytes, freelist, free, lo, hi);
      mem[f] := bytes;
      ghost var n: Memory := mem[..];
      OnePage(va, f);
      var c, done := Mappages(pd, va, PGSIZE, f * PGSIZE, perm, {f}, all);
      KeptTrans(m, n, mem[..], pd, all, 0, 0);
      SamePteAt(m, n, pd, va / PGSIZE);
      DirsFrom(m, n, mem[..], pd, va / PGSIZE, done);
      if c.Done? {
        PageAdded(m, n, mem[..], pd, va / PGSIZE, f, bytes, perm);
        return Page;
      }
      PageNotAdded(m, n, mem[..], pd, va / PGSIZE, f, perm);
      RestNone({f}, va / PGSIZE, f);
      r := if c.Remap? then Clash(f) else NoTable(f);
    }

    /** allocuvm: grow from oldsz to newsz. On success the new pages are zeroed, writable user pages in frames of their own;
        out of memory, the pages of the range are given up again. Pages outside the range stay as they were. */
    method Allocuvm(pd: nat, oldsz: nat, newsz: nat, ghost all: set<nat>) returns (r: Grown)
      requires Valid() && InRange(all) && Holds(mem[..], Elements(free), {}, pd, all)
      modifies this`freelist, this`free, mem
      ensures Valid() && Outside(old(mem[..]), mem[..], all)
      ensures newsz >= KERNBASE ==> r.Refused? && mem[..] == old(mem[..]) && free == old(free)
      ensures newsz < KERNBASE && newsz < oldsz ==> r == Size(oldsz) && mem[..] == old(mem[..]) && free == old(free)
      ensures oldsz <= newsz < KERNBASE ==> !r.Refused? && (r.Size? ==> r == Size(newsz))
      ensures !r.Panic? ==> Holds(mem[..], Elements(free), {}, pd, all)
      ensures oldsz <= newsz < KERNBASE && r.Size? ==>
        NewPages(old(mem[..]), mem[..], pd, Up(oldsz), Up(newsz)) && Kept(old(mem[..]), mem[..], pd, all, 0, 0)
      ensures r.NoMem? ==>
        Unmapped(old(mem[..]), mem[..], pd, Up(oldsz), Up(newsz)) && Kept(old(mem[..]), mem[..], pd, all, Up(oldsz), Up(newsz))
      ensures r.Panic? ==> Up(oldsz) <= r.v < Up(newsz) && r.v < PAGES && Present(PteAt(old(mem[..]), pd, r.v))
      ensures oldsz <= newsz < KERNBASE ==> Growth(old(mem[..]), pd, Up(oldsz), Up(newsz), |old(free)|, r)
    {
      hide FreeChain, Holds, Kept, PteAt, Elements, Unmapped, NewPages, OneMore, Present, SamePtes, Outside, Dirs, Needs, Growth;
      ghost var m: Memory := mem[..];
      RootOwned(m, Elements(free), {}, pd, all);
      KeptSelf(m, Elements(free), {}, pd, all);
      OutsideSelf(m, all);
      if newsz >= KERNBASE {
        return Refused;
      }
      if newsz < oldsz {
        return Size(oldsz);
      }
      ghost var first := Up(oldsz);
      NoNewPages(m, pd, first);
      UpMonotone(oldsz, newsz);
      DirsSelf(m, pd, first);
      NeedsNothing(m, pd, first);
      var a := (oldsz + PGSIZE - 1) / PGSIZE * PGSIZE;
      while a < newsz
        invariant a % PGSIZE == 0 && first <= a / PGSIZE <= Up(newsz)
        invariant Valid() && Holds(mem[..], Elements(free), {}, pd, all)
        invariant NewPages(m, mem[..], pd, first, a / PGSIZE) && Kept(m, mem[..], pd, all, 0, 0)
        invariant Dirs(m, mem[..], pd, first, a / PGSIZE - first) && |old(free)| == |free| + Needs(m, pd, first, a / PGSIZE)
        decreases newsz - a
      {
        UpAbove(newsz, a);
        ghost var n: Memory := mem[..];
        ghost var was := free;
        FreeCount(n, freelist, free, lo, hi);
        var one := AddPage(pd, a, ZeroFrame(), 6, all);
        KeptTrans(m, n, mem[..], pd, all, 0, 0);
        FreeCount(mem[..], freelist, free, lo, hi);
        if !one.Page? {
          GrowthFails(m, n, mem[..], pd, first, a / PGSIZE, Up(newsz), |old(free)|, Elements(was), Elements(free), one, all);
        }
        if one.Clash? {
          NewPagesAt(m, n, pd, first, a / PGSIZE);
          KeptOutside(m, mem[..], pd, all, 0, 0);
          return Panic(a / PGSIZE);
        }
        if !one.Page? {
          ghost var o: Memory := mem[..];
          NewPagesSame(m, n, o, pd, first, a / PGSIZE);
          GiveUp(pd, oldsz, newsz, one, all);
          KeptWider(m, o, pd, all, first, Up(newsz));
          KeptTrans(m, o, mem[..], pd, all, first, Up(newsz));
          KeptOutside(m, mem[..], pd, all, first, Up(newsz));
          UnmappedNew(m, o, mem[..], pd, first, a / PGSIZE, Up(newsz));
          return NoMem;
        }
        NewPagesNext(m, n, mem[..], pd, all, first, a / PGSIZE);
        NeedsNext(m, n, pd, first, a / PGSIZE);
        AddedFrames(n, Elements(was), mem[..], Elements(free), pd, all, a / PGSIZE, ZeroFrame(), 6);
        DirsNext(m, n, mem[..], pd, first, a / PGSIZE - first, 1);
        a := a + PGSIZE;
      }
      UpBelow(newsz, a);
      GrowthDone(m, mem[..], pd, first, Up(newsz), |old(free)|, |free|, Size(newsz));
      KeptOutside(m, mem[..], pd, all, 0, 0);
      r := Size(newsz);
    }

    /** allocuvm without memory: the pages of the range go, and the frame that found no table, if there is one. */
    method GiveUp(pd: nat, oldsz: nat, newsz: nat, one: Added, ghost all: set<nat>)
      requires Valid() && InRange(all) && oldsz <= newsz < KERNBASE && (one.NoFrame? || (one.NoTable? && lo <= one.f < hi))
      requires Holds(mem[..], Elements(free), if one.NoTable? then {one.f} else {}, pd, all)
      modifies this`freelist, this`free, mem
      ensures Valid() && Holds(mem[..], Elements(free), {}, pd, all)
      ensures Unmapped(old(mem[..]), mem[..], pd, Up(oldsz), Up(newsz)) && Kept(old(mem[..]), mem[..], pd, all, Up(oldsz), Up(newsz))
    {
      hide FreeChain, Holds, Kept, PteAt, Elements, Unmapped, SamePtes, Junk;
      ghost var m: Memory := mem[..];
      var sz := Deallocuvm(pd, newsz, oldsz, if one.NoTable? then {one.f} else {}, all);
      if one.NoTable? {
        ghost var n: Memory := mem[..];
        ghost var head := freelist;
        HandFreed(n, Elements(free), pd, all, one.f, free, head);
        PushElements(one.f, free);
        var ok := Kfree(one.f);
        assert ok;
        assert mem[..] == n[one.f := Junk(head)];
        KeptWider(n, mem[..], pd, all, Up(oldsz), Up(newsz));
        KeptTrans(m, n, mem[..], pd, all, Up(oldsz), Up(newsz));
        UnmappedSame(m, n, mem[..], pd, Up(oldsz), Up(newsz));
      }
    }

    /** copyuvm: a copy of the first sz bytes of an address space, in frames that were free; held are the free frames and
        the parent's. Without memory the frames are free again, except that a page whose table could not be made is lost. */
    method Copyuvm(parent: nat, sz: nat, ghost held: set<nat>) returns (r: Copied, ghost lost: set<nat>)
      requires Valid() && DataOk(data) && InRange(held) && sz <= KERNBASE
      requires Holds(mem[..], Elements(free), {}, parent, held)
      modifies this`freelist, this`free, mem
      ensures Valid() && Outside(old(mem[..]), mem[..], Elements(old(free)))
      ensures r.Copy? ==> Holds(mem[..], Elements(free), {}, r.d, Elements(old(free)))
      ensures r.Copy? ==> CopyOf(old(mem[..]), parent, mem[..], r.d, Up(sz), data)
      ensures r.NoCopy? ==> Elements(free) == Elements(old(free)) - lost && lost <= Elements(old(free))
      ensures r.NoCopy? ==> |lost| == if r.noTable then 1 else 0
      ensures !r.Missing? ==> (r.Copy? <==> FramesFor(Up(sz)) <= |old(free)|) && (r.NoCopy? && r.noTable <==> Strands(|old(free)|, Up(sz)))
      ensures r.Missing? ==> r.v < Up(sz) && r.v < PAGES && parent < mem.Length && !Present(PteAt(old(mem[..]), parent, r.v))
      ensures CopyEnds(old(mem[..]), parent, Up(sz), |old(free)|, r)
    {
      hide FreeChain, Holds, Kept, PteAt, Elements, OneMore, Present, SamePtes, Outside, CopyOf, KernelUpTo, Dirs, TablesFor, FramesFor, Strands, CopyEnds;
      ghost var m: Memory := mem[..];
      ghost var all := Elements(free);
      FreeInRange(m, freelist, free, lo, hi);
      lost := {};
      UpMonotone(sz, KERNBASE);
      RootOwned(m, all, {}, parent, held);
      FreeCount(m, freelist, free, lo, hi);
      var d := Setupkvm();
      if d == 0 {
        TooFew(|all|, Up(sz));
        CopyNotBegun(m, parent, Up(sz), |all|);
        return NoCopy(false), {};
      }
      NothingCopied(m, parent, mem[..], d, data);
      var i := 0;
      while i < sz
        invariant i % PGSIZE == 0 && i / PGSIZE <= Up(sz)
        invariant Valid() && Outside(m, mem[..], all) && Holds(mem[..], Elements(free), {}, d, all)
        invariant CopyOf(m, parent, mem[..], d, i / PGSIZE, data) && TablesFor(mem[..], d, i / PGSIZE)
      {
        UpAbove(sz, i);
        ghost var n: Memory := mem[..];
        var v := i / PGSIZE;
        ParentView(m, n, all, Elements(free), d, parent, held);
        SamePteAt(m, n, parent, v);
        var ok, pt := Walkpgdir(parent, i, false, all - Elements(free), held);
        if !ok {
          NoTablePte(n, parent, v);
          CopyMisses(m, parent, n, d, v, Up(sz), data, Elements(free), all);
          return Missing(v), {};
        }
        TableEntry(n, parent, v);
        var pte := mem[pt][i / PGSIZE % ENTRIES];
        if !Present(pte) {
          CopyMisses(m, parent, n, d, v, Up(sz), data, Elements(free), all);
          return Missing(v), {};
        }
        PageOwned(m, all, {}, parent, held, v);
        SameOutside(m, n, all, FrameOf(pte));
        var one := AddPage(d, i, mem[FrameOf(pte)], Flags(pte), all);
        NotYet(m, parent, n, d, v, data);
        AddedOutside(m, n, mem[..], d, all);
        if one.NoFrame? || one.NoTable? {
          ghost var o: Memory := mem[..];
          lost := if one.NoTable? then {one.f} else {};
          CopyShort(m, parent, n, o, d, v, Up(sz), data, Elements(free), lost, all);
          CopyStops(m, parent, n, o, d, v, Up(sz), data, Elements(free), lost, all);
          HandInAll(o, Elements(free), lost, d, all);
          Freevm(d, lost, all);
          OutsideTrans(m, o, mem[..], all);
          return NoCopy(one.NoTable?), lost;
        }
        OneCopied(m, parent, n, mem[..], d, all, v, data);
        TablesMore(n, mem[..], d, v);
        i := i + PGSIZE;
      }
      UpBelow(sz, i);
      CopyComplete(m, parent, mem[..], d, Up(sz), data, Elements(free), all);
      CopyDone(m, parent, mem[..], d, Up(sz), data, |all|);
      r := Copy(d);
    }

    /** Freeing a copy puts the free frames back exactly as they were; only a failed copy loses a frame. */
    method CopyThenFree(parent: nat, sz: nat, ghost held: set<nat>) returns (copied: bool, ghost lost: set<nat>)
      requires Valid() && DataOk(data) && InRange(held) && sz <= KERNBASE
      requires Holds(mem[..], Elements(free), {}, parent, held)
      requires forall v: nat :: v < Up(sz) && v < PAGES ==> Present(PteAt(mem[..], parent, v))
      modifies this`freelist, this`free, mem
      ensures Valid() && Outside(old(mem[..]), mem[..], Elements(old(free)))
      ensures Elements(free) == Elements(old(free)) - lost && |lost| == if Strands(|old(free)|, Up(sz)) then 1 else 0
      ensures copied <==> FramesFor(Up(sz)) <= |old(free)|
    {
      hide FreeChain, Holds, PteAt, Elements, Outside, CopyOf, FramesFor, Strands;
      ghost var m: Memory := mem[..];
      ghost var all := Elements(free);
      FreeInRange(m, freelist, free, lo, hi);
      var r;
      r, lost := Copyuvm(parent, sz, held);
      copied := r.Copy?;
      if copied {
        ghost var n: Memory := mem[..];
        Freevm(r.d, {}, all);
        OutsideTrans(m, n, mem[..], all);
        lost := {};
      }
    }
  }

  datatype Mapped = Done | NoMemory | Remap

  /** The frames in hand after k pages from first on were mapped to the frames from pf on: those of user pages are gone. */
  ghost function Rest(loose: set<nat>, first: nat, pf: nat, k: nat): set<nat> {
    if k == 0 then loose else Rest(loose, first, pf, k - 1) - if first + k - 1 < UPAGES then {pf + k - 1} else {}
  }

  /** k pages from first on were mapped to the frames from pf on, and nothing else changed. */
  ghost predicate Mapping(m: Memory, n: Memory, pd: nat, first: nat, pf: nat, perm: nat, k: nat) {
    pd < |m| && pd < |n| && first + k <= PAGES && pf + k <= PAGES && perm < PGSIZE &&
    forall u: nat :: u < PAGES ==>
      PteAt(n, pd, u) == if first <= u < first + k then MakeEntry(pf + u - first, perm) else PteAt(m, pd, u)
  }

  datatype Added = Page | NoFrame | NoTable(f: nat) | Clash(f: nat)

  /** From m to n page v was added, with these bytes and flags, and nothing else changed. */
  ghost predicate OneMore(m: Memory, n: Memory, pd: nat, v: nat, bytes: Frame, perm: nat) {
    pd < |m| && pd < |n| && v < UPAGES && perm < PGSIZE && PageIs(n, pd, v, bytes, perm) &&
    forall u: nat :: u < PAGES && u != v ==> PteAt(n, pd, u) == PteAt(m, pd, u)
  }

  ghost predicate PageIs(m: Memory, pd: nat, v: nat, bytes: Frame, perm: nat) {
    pd < |m| && v < UPAGES &&
    var e := PteAt(m, pd, v);
    Present(e) && Flags(e) == (if perm % 2 == 1 then perm else perm + 1) && FrameOf(e) < |m| && m[FrameOf(e)] == bytes
  }

  /** Writing a frame in hand. */
  lemma HandWrite(m: Memory, fs: set<nat>, pd: nat, all: set<nat>, f: nat, bytes: Frame, head: Word, free: seq<nat>, lo: nat, hi: nat)
    requires Holds(m, fs, {f}, pd, all) && FreeChain(m, head, free, lo, hi) && fs == Elements(free)
    ensures f < |m| && f != pd
    ensures Holds(m[f := bytes], fs, {f}, pd, all) && FreeChain(m[f := bytes], head, free, lo, hi)
    ensures SamePtes(m, m[f := bytes], pd) && Kept(m, m[f := bytes], pd, all, 0, 0)
  {
    hide PteAt;
    var n := m[f := bytes];
    HoldsWrite(m, fs, {f}, pd, all, f, bytes);
    assert f in all && f !in fs;
    ChainSame(m, n, head, free, lo, hi);
    hide FreeChain;
    forall v: nat | v < UPAGES && Present(PteAt(m, pd, v))
      ensures FrameOf(PteAt(m, pd, v)) < |m| && n[FrameOf(PteAt(m, pd, v))] == m[FrameOf(PteAt(m, pd, v))]
    {
      PageOwned(m, fs, {f}, pd, all, v);
    }
    hide Holds, Present, FrameOf;
  }

  lemma OnePage(va: nat, f: nat)
    requires va % PGSIZE == 0 && va < KERNBASE && f < TOPFRAME
    ensures va + PGSIZE <= U32 && f * PGSIZE % PGSIZE == 0 && f * PGSIZE / PGSIZE == f && Pages(va, PGSIZE) == 1
    ensures f + 1 <= PAGES && va / PGSIZE < UPAGES && forall k: nat :: k < 1 ==> Given({f}, va / PGSIZE, f, k)
    ensures Rest({f}, va / PGSIZE, f, 1) == {}
  {
    assert Rest({f}, va / PGSIZE, f, 1) == Rest({f}, va / PGSIZE, f, 0) - {f};
  }

  lemma PageAdded(m: Memory, n: Memory, o: Memory, pd: nat, v: nat, f: nat, bytes: Frame, perm: nat)
    requires SamePtes(m, n, pd) && Mapping(n, o, pd, v, f, perm, 1) && HandKept(n, o, {f}) && f < |n| && n[f] == bytes && v < UPAGES
    ensures OneMore(m, o, pd, v, bytes, perm)
  {
    hide PteAt;
  }

  lemma PageNotAdded(m: Memory, n: Memory, o: Memory, pd: nat, v: nat, f: nat, perm: nat)
    requires SamePtes(m, n, pd) && Mapping(n, o, pd, v, f, perm, 0)
    ensures SamePtes(m, o, pd)
  {
    hide PteAt;
  }

  datatype Grown = Size(sz: nat) | Refused | NoMem | Panic(v: nat)

  /** The pages from first to end are new: zeroed, present, writable and the user's. The other entries are the same. */
  ghost predicate NewPages(m: Memory, n: Memory, pd: nat, first: nat, end: nat) {
    pd < |m| && pd < |n| && (forall v: nat :: first <= v < end ==> PageIs(n, pd, v, ZeroFrame(), 7)) &&
    (forall v: nat :: first <= v < end && v < PAGES ==> !Present(PteAt(m, pd, v))) &&
    forall u: nat :: u < PAGES && !(first <= u < end) ==> PteAt(n, pd, u) == PteAt(m, pd, u)
  }

  lemma NoNewPages(m: Memory, pd: nat, first: nat)
    requires pd < |m|
    ensures NewPages(m, m, pd, first, first)
  {}

  lemma NewPagesAt(m: Memory, n: Memory, pd: nat, first: nat, v: nat)
    requires NewPages(m, n, pd, first, v) && v < PAGES
    ensures pd < |m| && pd < |n| && PteAt(n, pd, v) == PteAt(m, pd, v)
  {
    hide PteAt;
  }

  lemma NewPagesSame(m: Memory, n: Memory, o: Memory, pd: nat, first: nat, v: nat)
    requires NewPages(m, n, pd, first, v) && SamePtes(n, o, pd)
    ensures pd < |m| && pd < |o| && forall u: nat :: u < PAGES && !(first <= u < v) ==> PteAt(o, pd, u) == PteAt(m, pd, u)
  {
    hide PteAt;
  }

  lemma NewPagesNext(m: Memory, n: Memory, o: Memory, pd: nat, all: set<nat>, first: nat, v: nat)
    requires NewPages(m, n, pd, first, v) && OneMore(n, o, pd, v, ZeroFrame(), 6) && Kept(n, o, pd, all, 0, 0) && first <= v
    requires v < PAGES && !Present(PteAt(n, pd, v))
    ensures NewPages(m, o, pd, first, v + 1)
  {
    hide PteAt, ZeroFrame, Present, FrameOf, Flags;
    forall u: nat | first <= u < v + 1 ensures PageIs(o, pd, u, ZeroFrame(), 7) {
      if u < v { assert PageIs(n, pd, u, ZeroFrame(), 7); }
    }
  }

  /** Whatever was added to the range is gone again. */
  lemma UnmappedNew(m: Memory, n: Memory, o: Memory, pd: nat, first: nat, v: nat, end: nat)
    requires Unmapped(n, o, pd, first, end) && v <= end && pd < |m|
    requires pd < |n| && forall u: nat :: u < PAGES && !(first <= u < v) ==> PteAt(n, pd, u) == PteAt(m, pd, u)
    ensures Unmapped(m, o, pd, first, end)
  {
    hide PteAt, Present;
  }

  lemma UnmappedSame(m: Memory, n: Memory, o: Memory, pd: nat, first: nat, end: nat)
    requires Unmapped(m, n, pd, first, end) && SamePtes(n, o, pd)
    ensures Unmapped(m, o, pd, first, end)
  {
    hide PteAt, Present;
  }

  /** A frame in hand is freed. */
  lemma HandFreed(m: Memory, fs: set<nat>, pd: nat, all: set<nat>, f: nat, free: seq<nat>, head: Word)
    requires Holds(m, fs, {f}, pd, all) && fs == Elements(free)
    ensures f < |m| && f != pd && f !in free && f in all
    ensures var n := m[f := Junk(head)];
            Holds(n, Elements([f] + free), {}, pd, all) && SamePtes(m, n, pd) && Kept(m, n, pd, all, 0, 0)
  {
    hide PteAt, Junk;
    assert {} + {f} == {f};
    assert f !in fs && f in all;
    var n := m[f := Junk(head)];
    FreedHolds(m, fs, {}, pd, all, f, Junk(head), free);
    forall v: nat | v < UPAGES && Present(PteAt(m, pd, v))
      ensures FrameOf(PteAt(m, pd, v)) < |m| && n[FrameOf(PteAt(m, pd, v))] == m[FrameOf(PteAt(m, pd, v))]
    {
      PageOwned(m, fs, {f}, pd, all, v);
    }
    hide Holds, Present, FrameOf;
  }

  /** A copy, no copy because no page or, noTable, no page table could be had, or the panic for a page the parent lacks. */
  datatype Copied = Copy(d: nat) | NoCopy(noTable: bool) | Missing(v: nat)

  /** In n the address space d maps the first k pages that parent maps in m, with the same bytes and flags, no other user
      page, and the kernel. */
  ghost predicate CopyOf(m: Memory, parent: nat, n: Memory, d: nat, k: nat, data: nat) {
    parent < |m| && d < |n| && k <= UPAGES &&
    (forall v: nat :: v < k ==> PageCopied(m, parent, n, d, v)) &&
    forall u: nat :: k <= u < PAGES ==> PteAt(n, d, u) == KernelPte(data, u)
  }

  ghost predicate PageCopied(m: Memory, parent: nat, n: Memory, d: nat, v: nat) {
    parent < |m| && v < PAGES && Present(PteAt(m, parent, v)) && FrameOf(PteAt(m, parent, v)) < |m| &&
    PageIs(n, d, v, m[FrameOf(PteAt(m, parent, v))], Flags(PteAt(m, parent, v)))
  }

  /** A copied page has the parent's flags and bytes, in a frame that was free, is free no more, and is no other page's. */
  lemma CopiedPage(m: Memory, parent: nat, n: Memory, d: nat, k: nat, data: nat, fs: set<nat>, all: set<nat>, v: nat)
    requires CopyOf(m, parent, n, d, k, data) && Holds(n, fs, {}, d, all) && v < k
    ensures FrameOf(PteAt(m, parent, v)) < |m| && Flags(PteAt(n, d, v)) == Flags(PteAt(m, parent, v))
    ensures var f := FrameOf(PteAt(n, d, v));
            f < |n| && n[f] == m[FrameOf(PteAt(m, parent, v))] && f in all && f !in fs &&
            forall u: nat :: u < k && u != v ==> FrameOf(PteAt(n, d, u)) != f
  {
    assert PageCopied(m, parent, n, d, v);
    var e := PteAt(m, parent, v);
    assert e == PGSIZE * (e / PGSIZE) + e % PGSIZE;
    assert e % 2 == e % PGSIZE % 2;
    hide PteAt;
    PageOwned(n, fs, {}, d, all, v);
    forall u: nat | u < k && u != v ensures FrameOf(PteAt(n, d, u)) != FrameOf(PteAt(n, d, v)) {
      assert PageCopied(m, parent, n, d, u);
    }
  }

  lemma HandInAll(m: Memory, free: set<nat>, loose: set<nat>, pd: nat, all: set<nat>)
    requires Holds(m, free, loose, pd, all)
    ensures loose <= all
  {
    hide Owns, Once;
    forall x | x in loose ensures x in all {}
  }

  lemma NothingCopied(m: Memory, parent: nat, n: Memory, d: nat, data: nat)
    requires KernelUpTo(n, d, data, 4) && parent < |m|
    ensures CopyOf(m, parent, n, d, 0, data)
  {
    hide PteAt, MakeEntry;
  }

  lemma NotYet(m: Memory, parent: nat, n: Memory, d: nat, v: nat, data: nat)
    requires CopyOf(m, parent, n, d, v, data) && v < UPAGES
    ensures d < |n| && !Present(PteAt(n, d, v))
  {
    hide PteAt;
    assert KernelPte(data, v) == 0;
  }

  lemma OneCopied(m: Memory, parent: nat, n: Memory, o: Memory, d: nat, all: set<nat>, v: nat, data: nat)
    requires CopyOf(m, parent, n, d, v, data) && v < UPAGES && Kept(n, o, d, all, 0, 0)
    requires Present(PteAt(m, parent, v)) && FrameOf(PteAt(m, parent, v)) < |m|
    requires OneMore(n, o, d, v, m[FrameOf(PteAt(m, parent, v))], Flags(PteAt(m, parent, v)))
    ensures CopyOf(m, parent, o, d, v + 1, data)
  {
    hide PteAt, FrameOf, Flags, Present, KernelPte;
    forall u: nat | u < v + 1 ensures PageCopied(m, parent, o, d, u) {
      if u < v { assert PageCopied(m, parent, n, d, u); }
    }
  }

  lemma SameOutside(m: Memory, n: Memory, all: set<nat>, f: nat)
    requires Outside(m, n, all) && f !in all && f < |m|
    ensures f < |n| && n[f] == m[f]
  {}

  lemma AddedOutside(m: Memory, n: Memory, o: Memory, pd: nat, all: set<nat>)
    requires Outside(m, n, all) && Kept(n, o, pd, all, 0, 0)
    ensures Outside(m, o, all)
  {
    KeptOutside(n, o, pd, all, 0, 0);
    OutsideTrans(m, n, o, all);
  }

  /** While the child is built, the parent still owns its frames; those taken for the child are not free any more. */
  lemma ParentView(m: Memory, n: Memory, all: set<nat>, fs: set<nat>, d: nat, parent: nat, held: set<nat>)
    requires Holds(m, all, {}, parent, held) && Outside(m, n, all) && Holds(n, fs, {}, d, all)
    ensures Holds(n, fs, all - fs, parent, held) && SamePtes(m, n, parent)
  {
    hide PteAt;
    assert fs <= all by {
      hide Owns, Once;
      forall x | x in fs ensures x in all {}
    }
    RootOwned(m, all, {}, parent, held);
    assert n[parent] == m[parent];
    forall v: nat | v < PAGES ensures PteAt(n, parent, v) == PteAt(m, parent, v) {
      SameTables(m, n, all, parent, held, v);
    }
    HoldsSame(m, n, all, {}, parent, held);
    assert fs + (all - fs) == all;
    hide Once, Owns;
  }

  lemma SameTables(m: Memory, n: Memory, all: set<nat>, parent: nat, held: set<nat>, v: nat)
    requires Holds(m, all, {}, parent, held) && Outside(m, n, all) && v < PAGES && n[parent] == m[parent]
    ensures PteAt(n, parent, v) == PteAt(m, parent, v)
  {
    if Present(m[parent][v / ENTRIES]) {
      TableOwned(m, all, {}, parent, held, v / ENTRIES);
    }
  }

  /** A size in pages, rounded up. */
  function Up(sz: nat): nat {
    (sz + PGSIZE - 1) / PGSIZE
  }

  /** It is the least number of pages that hold so many bytes. */
  lemma UpLeast(sz: nat, n: nat)
    ensures Up(sz) <= n <==> sz <= n * PGSIZE
  {
    assert sz + PGSIZE - 1 == Up(sz) * PGSIZE + (sz + PGSIZE - 1) % PGSIZE;
  }

  function Least(x: nat, y: nat): nat {
    if x < y then x else y
  }

  lemma UpMonotone(x: nat, y: nat)
    requires x <= y
    ensures Up(x) <= Up(y)
  {}

  lemma UpAbove(sz: nat, a: nat)
    requires a < sz && a % PGSIZE == 0 && sz <= KERNBASE
    ensures a / PGSIZE < Up(sz) <= UPAGES
  {}

  lemma UpBelow(sz: nat, a: nat)
    requires a >= sz && a % PGSIZE == 0
    ensures a / PGSIZE >= Up(sz) && Least(a / PGSIZE, Up(sz)) == Up(sz)
  {}

  /** PGROUNDUP */
  lemma RoundedUp(sz: nat)
    ensures var a := (sz + PGSIZE - 1) / PGSIZE * PGSIZE;
            a == Up(sz) * PGSIZE && a % PGSIZE == 0 && a / PGSIZE == Up(sz)
    ensures forall end: nat :: Least(Up(sz), end) <= Up(sz)
  {}

  lemma PageOn(a: nat)
    requires a % PGSIZE == 0
    ensures (a + PGSIZE) % PGSIZE == 0 && (a + PGSIZE) / PGSIZE == a / PGSIZE + 1
    ensures forall first: nat :: first * PGSIZE <= a ==> first <= a / PGSIZE
  {}

  /** PGADDR(PDX(a) + 1, 0, 0) is the first address past the table of a. */
  lemma TableEnd(a: nat)
    ensures var b := (a / 0x40_0000 + 1) * 0x40_0000;
            a < b && b % PGSIZE == 0 && b / PGSIZE == (a / PGSIZE / ENTRIES + 1) * ENTRIES
  {
    assert a / 0x40_0000 == a / PGSIZE / ENTRIES;
  }

  /** The pages from first to end are not mapped; the other entries are the same. */
  ghost predicate Unmapped(m: Memory, n: Memory, pd: nat, first: nat, end: nat) {
    pd < |m| && pd < |n| && forall u: nat :: u < PAGES ==>
      if first <= u < end then !Present(PteAt(n, pd, u)) else PteAt(n, pd, u) == PteAt(m, pd, u)
  }

  lemma UnmappedTo(m: Memory, n: Memory, pd: nat, first: nat, end: nat)
    requires pd < |m| && n == m && end <= first
    ensures Unmapped(m, n, pd, first, end)
  {}

  lemma UnmappedNone(m: Memory, pd: nat, first: nat, end: nat)
    requires pd < |m|
    ensures end <= first ==> Unmapped(m, m, pd, first, end)
    ensures forall e: nat :: e <= first ==> Unmapped(m, m, pd, first, e)
  {}

  lemma AbsentTable(m: Memory, n: Memory, pd: nat, first: nat, v: nat, end: nat)
    requires Unmapped(m, n, pd, first, Least(v, end)) && v < PAGES && !Present(n[pd][v / ENTRIES])
    ensures Unmapped(m, n, pd, first, Least((v / ENTRIES + 1) * ENTRIES, end))
  {
    forall u: nat | v <= u < (v / ENTRIES + 1) * ENTRIES && u < PAGES ensures !Present(PteAt(n, pd, u)) {
      assert u / ENTRIES == v / ENTRIES;
    }
  }

  lemma UnmappedOne(m: Memory, n: Memory, o: Memory, pd: nat, first: nat, v: nat, end: nat)
    requires Unmapped(m, n, pd, first, Least(v, end)) && first <= v < end && pd < |o|
    requires forall u: nat :: u < PAGES ==> PteAt(o, pd, u) == if u == v then 0 else PteAt(n, pd, u)
    ensures Unmapped(m, o, pd, first, Least(v + 1, end))
  {
    hide PteAt;
  }

  lemma UnmappedSkip(m: Memory, n: Memory, pd: nat, first: nat, v: nat, end: nat)
    requires Unmapped(m, n, pd, first, Least(v, end)) && v < PAGES && !Present(PteAt(n, pd, v))
    ensures Unmapped(m, n, pd, first, Least(v + 1, end))
  {
    hide PteAt;
  }

  /** Freeing the frame of a page and clearing its entry. */
  lemma UnmapStep(m: Memory, fs: set<nat>, loose: set<nat>, pd: nat, all: set<nat>, v: nat,
                  head: Word, free: seq<nat>, lo: nat, hi: nat)
    requires Holds(m, fs, loose, pd, all) && FreeChain(m, head, free, lo, hi) && fs == Elements(free)
    requires v < UPAGES && Present(m[pd][v / ENTRIES]) && Present(PteAt(m, pd, v))
    requires forall f: nat :: f in all ==> lo <= f < hi
    ensures var pt := FrameOf(m[pd][v / ENTRIES]);
            var f := FrameOf(PteAt(m, pd, v));
            f < |m| && pt < |m| && f != pd && f != pt && pt != pd && lo <= f < hi && f !in free &&
            var o := m[f := Junk(head)][pt := m[pt][v % ENTRIES := 0]];
            Holds(o, Elements([f] + free), loose, pd, all) && FreeChain(o, Va(f), [f] + free, lo, hi) && o[pd] == m[pd] &&
            (forall u: nat :: u < PAGES ==> PteAt(o, pd, u) == if u == v then 0 else PteAt(m, pd, u)) &&
            Kept(m, o, pd, all, v, v + 1)
  {
    hide Junk, PteAt, Kept, Va, FreeChain, Holds;
    PageOwned(m, fs, loose, pd, all, v);
    TableOwned(m, fs, loose, pd, all, v / ENTRIES);
    HoldsUnmap(m, fs, loose, pd, all, v);
    var pt := FrameOf(m[pd][v / ENTRIES]);
    var f := FrameOf(PteAt(m, pd, v));
    var n := m[pt := m[pt][v % ENTRIES := 0]];
    var o := n[f := Junk(head)];
    assert o == m[f := Junk(head)][pt := m[pt][v % ENTRIES := 0]];
    FreedHolds(n, fs, loose, pd, all, f, Junk(head), free);
    FreedChain(m, o, head, free, lo, hi, f, pt);
    FreedKept(m, o, fs, loose, pd, all, v, f, pt);
  }

  lemma FreedHolds(n: Memory, fs: set<nat>, loose: set<nat>, pd: nat, all: set<nat>, f: nat, data: Frame, free: seq<nat>)
    requires Holds(n, fs, loose + {f}, pd, all) && fs == Elements(free) && f !in loose
    ensures f < |n| && f != pd && Holds(n[f := data], Elements([f] + free), loose, pd, all) && SamePtes(n, n[f := data], pd)
  {
    hide PteAt, Once, Owns;
    HoldsWrite(n, fs, loose + {f}, pd, all, f, data);
    HoldsTake(n[f := data], fs, loose + {f}, pd, all, f);
    assert Elements([f] + free) == fs + {f} && loose + {f} - {f} == loose;
  }

  lemma FreedChain(m: Memory, o: Memory, head: Word, free: seq<nat>, lo: nat, hi: nat, f: nat, pt: nat)
    requires FreeChain(m, head, free, lo, hi) && lo <= f < hi && f !in free && pt !in free && f < |m| && pt != f && |o| == |m|
    requires forall x: nat :: x < |m| && x != f && x != pt ==> o[x] == m[x]
    requires o[f] == Junk(head)
    ensures FreeChain(o, Va(f), [f] + free, lo, hi)
  {
    ChainPush(m, head, free, lo, hi, f, Junk(head));
    hide Va, NextFree;
    ChainSame(m[f := Junk(head)], o, Va(f), [f] + free, lo, hi);
  }

  lemma FreedKept(m: Memory, o: Memory, fs: set<nat>, loose: set<nat>, pd: nat, all: set<nat>, v: nat, f: nat, pt: nat)
    requires Holds(m, fs, loose, pd, all) && v < UPAGES && Present(PteAt(m, pd, v)) && f == FrameOf(PteAt(m, pd, v))
    requires Present(m[pd][v / ENTRIES]) && pt == FrameOf(m[pd][v / ENTRIES]) && f in all && pt in all && |o| == |m|
    requires forall x: nat :: x < |m| && x != f && x != pt ==> o[x] == m[x]
    requires forall u: nat :: u < PAGES ==> PteAt(o, pd, u) == if u == v then 0 else PteAt(m, pd, u)
    ensures Kept(m, o, pd, all, v, v + 1)
  {
    hide PteAt;
    forall u: nat | u < UPAGES && u != v && Present(PteAt(m, pd, u))
      ensures FrameOf(PteAt(m, pd, u)) < |m| && o[FrameOf(PteAt(m, pd, u))] == m[FrameOf(PteAt(m, pd, u))]
    {
      PageOwned(m, fs, loose, pd, all, u);
    }
    hide Holds, FrameOf, Present;
  }

  // ----- giving back the tables

  ghost predicate Outside(m: Memory, n: Memory, all: set<nat>) {
    |n| == |m| && forall f: nat :: f < |m| && f !in all ==> n[f] == m[f]
  }

  lemma KeptOutside(m: Memory, n: Memory, pd: nat, all: set<nat>, from: nat, to: nat)
    requires Kept(m, n, pd, all, from, to)
    ensures Outside(m, n, all)
  {
    hide PteAt;
  }

  lemma OutsideSelf(m: Memory, all: set<nat>)
    ensures Outside(m, m, all)
  {}

  lemma OutsideTrans(m: Memory, n: Memory, o: Memory, all: set<nat>)
    requires Outside(m, n, all) && Outside(n, o, all)
    ensures Outside(m, o, all)
  {}

  lemma OutsideOne(m: Memory, n: Memory, x: nat, o: Memory, all: set<nat>)
    requires Outside(m, n, all) && x in all && |o| == |n| && forall f: nat :: f < |n| && f != x ==> o[f] == n[f]
    ensures Outside(m, o, all)
  {}

  lemma PushElements(f: nat, free: seq<nat>)
    ensures Elements([f] + free) == Elements(free) + {f}
    ensures f in Elements(free) <==> f in free
  {}

  /** The tables that the directory names from entry i on. */
  ghost function Tables(dir: Frame, i: nat): set<nat>
    requires i <= ENTRIES
    decreases ENTRIES - i
  {
    if i == ENTRIES then {}
    else Tables(dir, i + 1) + if Present(dir[i]) then {FrameOf(dir[i])} else {}
  }

  lemma {:induction false} TablesIn(dir: Frame, i: nat, x: nat)
    requires i <= ENTRIES
    ensures x in Tables(dir, i) <==> exists k: nat :: i <= k < ENTRIES && Present(dir[k]) && FrameOf(dir[k]) == x
    decreases ENTRIES - i
  {
    hide Present, FrameOf;
    if i < ENTRIES {
      TablesIn(dir, i + 1, x);
      if x in Tables(dir, i) && x !in Tables(dir, i + 1) { assert Present(dir[i]) && FrameOf(dir[i]) == x; }
    }
  }

  /** With i entries done, what is left to free is the tables from entry i on, each once, and the directory. */
  ghost predicate Leaving(dir: Frame, i: nat, free: set<nat>, loose: set<nat>, pd: nat, all: set<nat>) {
    i <= ENTRIES && free + loose + Tables(dir, i) + {pd} == all && free !! loose &&
    pd !in free && pd !in loose && pd !in Tables(dir, i) && free !! Tables(dir, i) && loose !! Tables(dir, i) &&
    forall k: nat, j: nat :: i <= k < j < ENTRIES && Present(dir[k]) && Present(dir[j]) ==> FrameOf(dir[k]) != FrameOf(dir[j])
  }

  /** With every user page gone, an address space is its directory and tables. */
  lemma TablesLeft(m: Memory, n: Memory, free: set<nat>, loose: set<nat>, pd: nat, all: set<nat>)
    requires Holds(n, free, loose, pd, all) && Unmapped(m, n, pd, Up(0), Up(KERNBASE))
    ensures Leaving(n[pd], 0, free, loose, pd, all)
  {
    hide PteAt;
    assert Up(KERNBASE) == UPAGES && Up(0) == 0;
    RootOwned(n, free, loose, pd, all);
    forall x: nat ensures Owns(n, pd, x) <==> x == pd || x in Tables(n[pd], 0) {
      TablesIn(n[pd], 0, x);
      if Owns(n, pd, x) {
        var s: nat :| Refers(n, pd, s, x);
        if 0 < s <= ENTRIES { assert Present(n[pd][s - 1]) && FrameOf(n[pd][s - 1]) == x; }
      }
      if x in Tables(n[pd], 0) {
        var k: nat :| 0 <= k < ENTRIES && Present(n[pd][k]) && FrameOf(n[pd][k]) == x;
        assert Refers(n, pd, k + 1, x);
      }
    }
    if pd in Tables(n[pd], 0) {
      TablesIn(n[pd], 0, pd);
      var k: nat :| 0 <= k < ENTRIES && Present(n[pd][k]) && FrameOf(n[pd][k]) == pd;
      TableOwned(n, free, loose, pd, all, k);
    }
    forall k: nat, j: nat | 0 <= k < j < ENTRIES && Present(n[pd][k]) && Present(n[pd][j]) ensures FrameOf(n[pd][k]) != FrameOf(n[pd][j]) {
      TableOwned(n, free, loose, pd, all, j);
    }
    LeavingBy(n[pd], free, loose, pd, all, n);
  }

  lemma LeavingBy(dir: Frame, free: set<nat>, loose: set<nat>, pd: nat, all: set<nat>, n: Memory)
    requires Holds(n, free, loose, pd, all) && pd !in Tables(dir, 0)
    requires forall x: nat :: Owns(n, pd, x) <==> x == pd || x in Tables(dir, 0)
    requires forall k: nat, j: nat :: 0 <= k < j < ENTRIES && Present(dir[k]) && Present(dir[j]) ==> FrameOf(dir[k]) != FrameOf(dir[j])
    ensures Leaving(dir, 0, free, loose, pd, all)
  {
    hide Owns, Tables, Once, Present, FrameOf;
    assert Owns(n, pd, pd);
    forall x: nat ensures x in all <==> x in free + loose + Tables(dir, 0) + {pd} {}
    forall x: nat | x in Tables(dir, 0) ensures x !in free && x !in loose { assert Owns(n, pd, x); }
  }

  lemma NextTable(dir: Frame, i: nat, free: set<nat>, loose: set<nat>, pd: nat, all: set<nat>)
    requires Leaving(dir, i, free, loose, pd, all) && i < ENTRIES
    ensures if Present(dir[i]) then FrameOf(dir[i]) in all && FrameOf(dir[i]) !in free && FrameOf(dir[i]) != pd &&
                                    Leaving(dir, i + 1, free + {FrameOf(dir[i])}, loose, pd, all)
            else Leaving(dir, i + 1, free, loose, pd, all)
  {
    if Present(dir[i]) {
      var x := FrameOf(dir[i]);
      TablesIn(dir, i + 1, x);
      hide FrameOf, Present;
      assert x in Tables(dir, i) && x !in Tables(dir, i + 1);
    }
  }

  lemma LastFrame(dir: Frame, free: set<nat>, loose: set<nat>, pd: nat, all: set<nat>)
    requires Leaving(dir, ENTRIES, free, loose, pd, all)
    ensures free + {pd} == all - loose && pd !in free && pd in all
  {}

  // ----- the kernel's mappings

  datatype Range = Range(virt: Word, start: Word, end: Word, perm: nat)

  ghost predicate DataOk(data: nat) {
    0x8_0100 < data < 0x8_E000
  }

  /** The table of kernel mappings, by virtual address and physical range. */
  function Kmap(data: nat, k: nat): (r: Range)
    requires 0x8_0100 < data < 0x8_E000 && k < 4
  {
    if k == 0 then Range(KERNBASE, 0, 0x10_0000, 2)
    else if k == 1 then Range(0x8010_0000, 0x10_0000, data * PGSIZE - KERNBASE, 0)
    else if k == 2 then Range(data * PGSIZE, data * PGSIZE - KERNBASE, 0xE00_0000, 2)
    else Range(0xFE00_0000, 0xFE00_0000, 0, 2)
  }

  /** What a kernel page maps: physical memory from KERNBASE on, read-only between the low memory and the kernel's data,
      and devices at their own addresses. */
  function KernelPte(data: nat, u: nat): Word {
    if u < 0x8_0000 then 0
    else if u < 0x8_0100 then MakeEntry(u - 0x8_0000, 2)
    else if u < data && u < PAGES then MakeEntry(u - 0x8_0000, 0)
    else if u < 0x8_E000 then MakeEntry(u - 0x8_0000, 2)
    else if 0xF_E000 <= u < PAGES then MakeEntry(u, 2)
    else 0
  }

  function KernelFrom(data: nat, k: nat): nat {
    if k == 0 then 0x8_0000 else if k == 1 then 0x8_0100 else if k == 2 then data else if k == 3 then 0xF_E000 else PAGES
  }

  /** The first k ranges are mapped, and nothing above or below them. */
  ghost predicate KernelUpTo(m: Memory, pd: nat, data: nat, k: nat) {
    pd < |m| && forall u: nat :: u < PAGES ==> PteAt(m, pd, u) == if u < KernelFrom(data, k) then KernelPte(data, u) else 0
  }

  lemma RangeOk(data: nat, k: nat)
    requires DataOk(data) && k < 4
    ensures var r := Kmap(data, k);
            var size := (r.end + U32 - r.start) % U32;
            0 < size && r.virt + size <= U32 && r.start % PGSIZE == 0 && r.start / PGSIZE + Pages(r.virt, size) <= PAGES &&
            r.perm < PGSIZE && KernelFrom(data, k) + Pages(r.virt, size) <= PAGES &&
            r.virt / PGSIZE >= UPAGES && r.virt / PGSIZE == KernelFrom(data, k) &&
            KernelFrom(data, k) + Pages(r.virt, size) <= KernelFrom(data, k + 1) &&
            (k != 2 ==> KernelFrom(data, k) + Pages(r.virt, size) == KernelFrom(data, k + 1)) &&
            (k == 2 ==> KernelFrom(data, k) + Pages(r.virt, size) == 0x8_E000) &&
            forall j: nat :: j < Pages(r.virt, size) ==> Given({}, r.virt / PGSIZE, r.start / PGSIZE, j)
  {}

  lemma RangeUnmapped(m: Memory, pd: nat, data: nat, k: nat)
    requires KernelUpTo(m, pd, data, k)
    ensures pd < |m| && forall u: nat :: KernelFrom(data, k) <= u < PAGES ==> !Present(PteAt(m, pd, u))
  {
    hide PteAt;
  }

  lemma {:induction false} RestKernel(first: nat, pf: nat, k: nat)
    requires first >= UPAGES
    ensures Rest({}, first, pf, k) == {}
  {
    if k > 0 { RestKernel(first, pf, k - 1); }
  }

  lemma KernelNext(m: Memory, n: Memory, pd: nat, data: nat, k: nat)
    requires DataOk(data) && k < 4 && KernelUpTo(m, pd, data, k)
    requires var r := Kmap(data, k);
             var size := (r.end + U32 - r.start) % U32;
             0 < size && Mapping(m, n, pd, r.virt / PGSIZE, r.start / PGSIZE, r.perm, Pages(r.virt, size))
    ensures KernelUpTo(n, pd, data, k + 1)
  {
    var r := Kmap(data, k);
    RangeOk(data, k);
    hide PteAt, MakeEntry, Pages;
    var count := Pages(r.virt, (r.end + U32 - r.start) % U32);
    assert k != 3 ==> r.start / PGSIZE == KernelFrom(data, k) - 0x8_0000;
    forall u: nat | u < PAGES ensures PteAt(n, pd, u) == if u < KernelFrom(data, k + 1) then KernelPte(data, u) else 0 {
      MappingAt(m, n, pd, KernelFrom(data, k), r.start / PGSIZE, r.perm, count, u);
    }
  }

  lemma FreeInRange(m: Memory, head: Word, free: seq<nat>, lo: nat, hi: nat)
    requires FreeChain(m, head, free, lo, hi)
    ensures forall f: nat :: f in Elements(free) ==> lo <= f < hi <= |m|
  {}

  /** A zeroed frame, just taken from the free list, is an address space that maps nothing. */
  lemma FreshSpace(m: Memory, head: Word, free: seq<nat>, lo: nat, hi: nat, pd: nat, all: set<nat>)
    requires FreeChain(m, head, free, lo, hi) && lo <= pd < hi && pd in all && Elements(free) == all - {pd}
    requires forall f: nat :: f in all ==> f < |m|
    ensures pd < |m|
    ensures var n := m[pd := ZeroFrame()];
            Holds(n, Elements(free), {}, pd, all) && FreeChain(n, head, free, lo, hi) &&
            (forall data: nat :: KernelUpTo(n, pd, data, 0)) && forall data: nat :: KernelTables(n, pd, data, 0)
  {
    var n := m[pd := ZeroFrame()];
    hide Holds, KernelUpTo, KernelTables, ZeroFrame;
    FreshFrame(m, head, free, lo, hi, pd, ZeroFrame(), all);
    hide FreeChain, Elements;
    EmptySpace(n, pd);
    FreshHolds(n, Elements(free), pd, all);
  }

  lemma FreshFrame(m: Memory, head: Word, free: seq<nat>, lo: nat, hi: nat, pd: nat, data: Frame, all: set<nat>)
    requires FreeChain(m, head, free, lo, hi) && lo <= pd < hi && Elements(free) == all - {pd}
    ensures pd < |m| && FreeChain(m[pd := data], head, free, lo, hi)
  {
    assert pd !in free by { assert pd !in Elements(free); }
    ChainSame(m, m[pd := data], head, free, lo, hi);
  }

  lemma FreshHolds(n: Memory, free: set<nat>, pd: nat, all: set<nat>)
    requires pd < |n| && pd in all && free == all - {pd} && forall f: nat :: f in all ==> f < |n|
    requires forall s: nat, f: nat :: Refers(n, pd, s, f) <==> s == 0 && f == pd
    ensures Holds(n, free, {}, pd, all)
  {
    hide Refers;
    forall f: nat ensures Owns(n, pd, f) <==> f == pd {
      if f == pd { assert Refers(n, pd, 0, pd); }
    }
    hide Owns;
  }

  lemma EmptySpace(n: Memory, pd: nat)
    requires pd < |n| && n[pd] == ZeroFrame()
    ensures forall s: nat, f: nat :: Refers(n, pd, s, f) <==> s == 0 && f == pd
    ensures forall data: nat :: KernelUpTo(n, pd, data, 0)
    ensures forall data: nat :: KernelTables(n, pd, data, 0)
  {
    assert !Present(0);
    forall u: nat | u < PAGES ensures PteAt(n, pd, u) == 0 {}
    hide PteAt, Present;
    forall s: nat, f: nat ensures Refers(n, pd, s, f) <==> s == 0 && f == pd {}
  }

  lemma KeptWider(m: Memory, n: Memory, pd: nat, all: set<nat>, from: nat, to: nat)
    requires Kept(m, n, pd, all, 0, 0)
    ensures Kept(m, n, pd, all, from, to)
  {
    hide PteAt, Present, FrameOf;
  }

  lemma KeptButOne(m: Memory, n: Memory, pd: nat, all: set<nat>, v: nat, from: nat, to: nat)
    requires Kept(m, n, pd, all, v, v + 1) && from <= v < to
    ensures Kept(m, n, pd, all, from, to)
  {
    hide PteAt, Present, FrameOf;
  }

  /** The number of pages that va..va + size touches. */
  function Pages(va: nat, size: nat): nat
    requires 0 < size
  {
    (va + size - 1) / PGSIZE - va / PGSIZE + 1
  }

  /** The frame for page first + k, if that is a user page, is in hand. */
  ghost predicate Given(loose: set<nat>, first: nat, pf: nat, k: nat) {
    first + k < UPAGES ==> pf + k in loose
  }

  lemma RestNone(loose: set<nat>, first: nat, pf: nat)
    ensures Rest(loose, first, pf, 0) == loose
  {}

  lemma RestNext(loose: set<nat>, first: nat, pf: nat, k: nat, one: nat)
    requires one <= 1
    ensures Rest(Rest(loose, first, pf, k), first + k, pf + k, one) == Rest(loose, first, pf, k + one)
  {}

  /** The frames in hand are not written. */
  ghost predicate HandKept(m: Memory, n: Memory, loose: set<nat>) {
    |n| == |m| && forall f: nat :: f in loose && f < |m| ==> n[f] == m[f]
  }

  lemma HandSelf(m: Memory, loose: set<nat>)
    ensures HandKept(m, m, loose)
  {}

  lemma {:induction false} LeftHand(loose: set<nat>, first: nat, pf: nat, k: nat, x: nat) returns (j: nat)
    requires x in loose && x !in Rest(loose, first, pf, k)
    ensures j < k && x == pf + j && first + j < UPAGES
  {
    if x in Rest(loose, first, pf, k - 1) {
      j := k - 1;
    } else {
      j := LeftHand(loose, first, pf, k - 1, x);
    }
  }

  /** A frame that left the hand is a mapped page by now. */
  lemma HandNext(m: Memory, n: Memory, o: Memory, loose: set<nat>, pd: nat, all: set<nat>, first: nat, pf: nat, perm: nat, k: nat)
    requires HandKept(m, n, loose) && HandKept(n, o, Rest(loose, first, pf, k)) && Kept(n, o, pd, all, 0, 0)
    requires Mapping(m, n, pd, first, pf, perm, k)
    ensures HandKept(m, o, loose)
  {
    hide PteAt, MakeEntry;
    forall x: nat | x in loose && x < |m| ensures o[x] == m[x] {
      if x !in Rest(loose, first, pf, k) {
        var j := LeftHand(loose, first, pf, k, x);
        MappingAt(m, n, pd, first, pf, perm, k, first + j);
      }
    }
  }

  lemma {:induction false} InHand(loose: set<nat>, first: nat, pf: nat, k: nat, j: nat)
    requires k <= j
    ensures pf + j in loose ==> pf + j in Rest(loose, first, pf, k)
  {
    if k > 0 { InHand(loose, first, pf, k - 1, j); }
  }

  lemma MappingAt(m: Memory, n: Memory, pd: nat, first: nat, pf: nat, perm: nat, k: nat, u: nat)
    requires Mapping(m, n, pd, first, pf, perm, k) && u < PAGES
    ensures pd < |m| && pd < |n| && PteAt(n, pd, u) == if first <= u < first + k then MakeEntry(pf + u - first, perm) else PteAt(m, pd, u)
  {
    hide PteAt;
  }

  lemma MappingNext(m: Memory, n: Memory, o: Memory, pd: nat, first: nat, pf: nat, perm: nat, k: nat, one: nat)
    requires Mapping(m, n, pd, first, pf, perm, k) && Mapping(n, o, pd, first + k, pf + k, perm, one) && one <= 1
    ensures Mapping(m, o, pd, first, pf, perm, k + one)
  {
    hide PteAt;
  }

  lemma SamePteAt(m: Memory, n: Memory, pd: nat, v: nat)
    requires SamePtes(m, n, pd) && v < PAGES
    ensures pd < |m| && pd < |n| && PteAt(n, pd, v) == PteAt(m, pd, v)
  {}

  lemma MappingNone(m: Memory, pd: nat, first: nat, pf: nat, perm: nat)
    requires pd < |m| && first <= PAGES && pf <= PAGES && perm < PGSIZE
    ensures Mapping(m, m, pd, first, pf, perm, 0)
  {}

  lemma MappingSame(m: Memory, n: Memory, pd: nat, first: nat, pf: nat, perm: nat)
    requires SamePtes(m, n, pd) && first <= PAGES && pf <= PAGES && perm < PGSIZE
    ensures Mapping(m, n, pd, first, pf, perm, 0)
  {
    hide PteAt;
  }

  lemma MappingAfter(m: Memory, n: Memory, o: Memory, pd: nat, v: nat, pf: nat, perm: nat)
    requires SamePtes(m, n, pd) && Mapping(n, o, pd, v, pf, perm, 1)
    ensures Mapping(m, o, pd, v, pf, perm, 1)
  {
    hide PteAt;
  }

  lemma NoTablePte(m: Memory, pd: nat, v: nat)
    requires pd < |m| && v < PAGES && !Present(m[pd][v / ENTRIES])
    ensures !Present(PteAt(m, pd, v))
  {}

  lemma TableEntry(m: Memory, pd: nat, v: nat)
    requires pd < |m| && v < PAGES && Present(m[pd][v / ENTRIES]) && FrameOf(m[pd][v / ENTRIES]) < |m|
    ensures PteAt(m, pd, v) == m[FrameOf(m[pd][v / ENTRIES])][v % ENTRIES]
  {}

  /** Writing the entry. */
  lemma MapStep(m: Memory, fs: set<nat>, loose: set<nat>, pd: nat, all: set<nat>, v: nat, pf: nat, perm: nat,
                head: Word, free: seq<nat>, lo: nat, hi: nat)
    requires Holds(m, fs, loose, pd, all) && FreeChain(m, head, free, lo, hi) && fs == Elements(free)
    requires v < PAGES && pf < PAGES && perm < PGSIZE && (v < UPAGES ==> pf in loose)
    requires Present(m[pd][v / ENTRIES]) && !Present(PteAt(m, pd, v))
    ensures var pt := FrameOf(m[pd][v / ENTRIES]);
            pt < |m| &&
            var n := m[pt := m[pt][v % ENTRIES := MakeEntry(pf, perm)]];
            Holds(n, fs, Rest(loose, v, pf, 1), pd, all) && FreeChain(n, head, free, lo, hi) &&
            Mapping(m, n, pd, v, pf, perm, 1) && Kept(m, n, pd, all, 0, 0) && HandKept(m, n, loose) && n[pd] == m[pd]
  {
    var w := MakeEntry(pf, perm);
    hide MakeEntry;
    HoldsMap(m, fs, loose, pd, all, v, w);
    hide PteAt, Present, FrameOf;
    assert Rest(loose, v, pf, 1) == if v < UPAGES then loose - {pf} else loose;
    var pt := FrameOf(m[pd][v / ENTRIES]);
    var n := m[pt := m[pt][v % ENTRIES := w]];
    ChainSame(m, n, head, free, lo, hi);
    forall u: nat | u < UPAGES && Present(PteAt(m, pd, u))
      ensures FrameOf(PteAt(m, pd, u)) < |m| && n[FrameOf(PteAt(m, pd, u))] == m[FrameOf(PteAt(m, pd, u))]
    {
      PageOwned(m, fs, loose, pd, all, u);
    }
  }

  /** From m to n the address space may gain pages. The pages outside from..to that it had keep their entries and their
      bytes, and so does every frame outside all. */
  ghost predicate Kept(m: Memory, n: Memory, pd: nat, all: set<nat>, from: nat, to: nat) {
    |n| == |m| && pd < |m| && (forall f: nat :: f < |m| && f !in all ==> n[f] == m[f]) &&
    (forall v: nat :: v < PAGES && !(from <= v < to) && Present(PteAt(m, pd, v)) ==> PteAt(n, pd, v) == PteAt(m, pd, v)) &&
    forall v: nat :: v < UPAGES && !(from <= v < to) && Present(PteAt(m, pd, v)) ==>
      FrameOf(PteAt(m, pd, v)) < |m| && n[FrameOf(PteAt(m, pd, v))] == m[FrameOf(PteAt(m, pd, v))]
  }

  lemma KeptSelf(m: Memory, free: set<nat>, loose: set<nat>, pd: nat, all: set<nat>)
    requires Holds(m, free, loose, pd, all)
    ensures pd < |m| && Kept(m, m, pd, all, 0, 0) && SamePtes(m, m, pd)
  {
    hide PteAt;
    forall v: nat | v < UPAGES && Present(PteAt(m, pd, v)) ensures FrameOf(PteAt(m, pd, v)) < |m| {
      PageOwned(m, free, loose, pd, all, v);
    }
  }

  lemma KeptTrans(m: Memory, n: Memory, o: Memory, pd: nat, all: set<nat>, from: nat, to: nat)
    requires Kept(m, n, pd, all, from, to) && Kept(n, o, pd, all, from, to)
    ensures Kept(m, o, pd, all, from, to)
  {
    hide PteAt, Present, FrameOf;
  }

  /** Attaching a frame just allocated as a table. */
  lemma TableStep(m: Memory, fs: set<nat>, loose: set<nat>, pd: nat, all: set<nat>, k: nat, pt: nat,
                  head: Word, free: seq<nat>, lo: nat, hi: nat)
    requires Holds(m, fs, loose + {pt}, pd, all) && FreeChain(m, head, free, lo, hi) && fs == Elements(free)
    requires k < ENTRIES && !Present(m[pd][k]) && lo <= pt < hi && pt !in loose
    ensures pt < |m| && pt != pd
    ensures var n := m[pt := ZeroFrame()][pd := m[pd][k := MakeEntry(pt, 6)]];
            Holds(n, fs, loose, pd, all) && SamePtes(m, n, pd) && Kept(m, n, pd, all, 0, 0) && FreeChain(n, head, free, lo, hi) &&
            Present(n[pd][k]) && FrameOf(n[pd][k]) == pt && HandKept(m, n, loose)
  {
    hide MakeEntry, ZeroFrame, PteAt;
    HoldsTable(m, fs, loose + {pt}, pd, all, k, pt);
    assert loose + {pt} - {pt} == loose;
    var n := m[pt := ZeroFrame()][pd := m[pd][k := MakeEntry(pt, 6)]];
    RootOwned(m, fs, loose + {pt}, pd, all);
    ChainSame(m, n, head, free, lo, hi);
    forall v: nat | v < UPAGES && Present(PteAt(m, pd, v))
      ensures FrameOf(PteAt(m, pd, v)) < |m| && n[FrameOf(PteAt(m, pd, v))] == m[FrameOf(PteAt(m, pd, v))]
    {
      PageOwned(m, fs, loose + {pt}, pd, all, v);
    }
  }

  lemma RootOwned(m: Memory, free: set<nat>, loose: set<nat>, pd: nat, all: set<nat>)
    requires Holds(m, free, loose, pd, all)
    ensures pd < |m| && pd in all && pd !in free && pd !in loose && Owns(m, pd, pd)
  {
    assert Refers(m, pd, 0, pd);
  }

  /** The frame at kernel address KERNBASE + f * PGSIZE lies between the two addresses. */
  predicate Inside(f: nat, vstart: nat, vend: nat) {
    vstart <= KERNBASE + f * PGSIZE && KERNBASE + f * PGSIZE + PGSIZE <= vend
  }

  /** The first frame at or after a kernel address. */
  lemma RoundUp(vstart: nat) returns (k: nat)
    requires KERNBASE <= vstart
    ensures (vstart + PGSIZE - 1) / PGSIZE * PGSIZE == KERNBASE + k * PGSIZE
    ensures forall f: nat :: k <= f <==> vstart <= KERNBASE + f * PGSIZE
  {
    k := (vstart + PGSIZE - 1) / PGSIZE - KERNBASE / PGSIZE;
  }

  lemma InsideFrom(f: nat, vstart: nat, vend: nat)
    ensures Inside(f, vstart, vend) <==> vstart <= KERNBASE + f * PGSIZE && KERNBASE + f * PGSIZE + PGSIZE <= vend
    ensures (KERNBASE + f * PGSIZE - KERNBASE) / PGSIZE == f
  {}

  lemma FrameBounds(k: nat, lo: nat, hi: nat, vstart: nat, vend: nat)
    requires Inside(k, vstart, vend) && KERNBASE + lo * PGSIZE <= vstart && vend <= KERNBASE + hi * PGSIZE
    ensures lo <= k < hi
  {}

  // ----- which tables there are

  /** The pages from first on lie in the part of memory that table e maps. */
  predicate Covers(first: nat, count: nat, e: nat) {
    0 < count && first / ENTRIES <= e <= (first + count - 1) / ENTRIES
  }

  /** From m to n the directory has gained the tables for these pages, and no other. */
  ghost predicate Dirs(m: Memory, n: Memory, pd: nat, first: nat, count: nat) {
    pd < |m| && pd < |n| &&
    forall e: nat :: e < ENTRIES ==> (Present(n[pd][e]) <==> Present(m[pd][e]) || Covers(first, count, e))
  }

  lemma DirsSelf(m: Memory, pd: nat, first: nat)
    requires pd < |m|
    ensures Dirs(m, m, pd, first, 0)
  {}

  lemma DirsWalked(m: Memory, n: Memory, pd: nat, v: nat)
    requires pd < |m| && pd < |n| && v < PAGES
    requires (n[pd] == m[pd] && Present(m[pd][v / ENTRIES])) || exists w: Word :: Present(w) && n[pd] == m[pd][v / ENTRIES := w]
    ensures Dirs(m, n, pd, v, 1)
  {}

  lemma DirsSame(m: Memory, n: Memory, o: Memory, pd: nat, v: nat)
    requires Dirs(m, n, pd, v, 1) && pd < |o| && o[pd] == n[pd]
    ensures Dirs(m, o, pd, v, 1)
  {}

  lemma DirsFrom(m: Memory, n: Memory, o: Memory, pd: nat, first: nat, count: nat)
    requires pd < |m| && Dirs(n, o, pd, first, count) && n[pd] == m[pd]
    ensures Dirs(m, o, pd, first, count)
  {}

  lemma DirsNext(m: Memory, n: Memory, o: Memory, pd: nat, first: nat, done: nat, d: nat)
    requires Dirs(m, n, pd, first, done) && Dirs(n, o, pd, first + done, d) && d <= 1
    ensures Dirs(m, o, pd, first, done + d)
  {
    hide Present;
  }

  function KernelTo(data: nat, k: nat): nat {
    if k == 0 then 0x8_0100 else if k == 1 then data else if k == 2 then 0x8_E000 else PAGES
  }

  /** One of the first k kernel ranges needs table e. */
  predicate RangeTable(data: nat, e: nat, k: nat) {
    k > 0 && (RangeTable(data, e, k - 1) ||
              (KernelFrom(data, k - 1) < KernelTo(data, k - 1) &&
               KernelFrom(data, k - 1) / ENTRIES <= e <= (KernelTo(data, k - 1) - 1) / ENTRIES))
  }

  ghost predicate KernelTables(m: Memory, pd: nat, data: nat, k: nat) {
    pd < |m| && forall e: nat :: e < ENTRIES ==> (Present(m[pd][e]) <==> RangeTable(data, e, k))
  }

  /** The tables are the kernel's and those of the first v user pages. */
  ghost predicate TablesFor(m: Memory, pd: nat, v: nat) {
    pd < |m| && forall e: nat :: e < ENTRIES ==> (Present(m[pd][e]) <==> KernelTable(e) || e * ENTRIES < v)
  }

  lemma RangeTables(data: nat, e: nat, k: nat)
    requires DataOk(data) && e < ENTRIES && k <= 4
    ensures RangeTable(data, e, k) ==> KernelTable(e)
    ensures RangeTable(data, e, 4) <==> KernelTable(e)
  {
    assert RangeTable(data, e, 1) <==> e == 512;
    assert RangeTable(data, e, 2) <==> 512 <= e <= (data - 1) / ENTRIES;
    assert RangeTable(data, e, 3) <==> 512 <= e < 568;
    assert RangeTable(data, e, 4) <==> 512 <= e < 568 || 1016 <= e < 1024;
  }

  lemma KernelRange(data: nat, k: nat)
    requires DataOk(data) && k < 4
    ensures var r := Kmap(data, k);
            var size := (r.end + U32 - r.start) % U32;
            0 < size && r.virt / PGSIZE == KernelFrom(data, k) && KernelFrom(data, k) + Pages(r.virt, size) == KernelTo(data, k)
    ensures UPAGES <= KernelFrom(data, k) < KernelTo(data, k) <= PAGES
  {}

  lemma TablesNext(m: Memory, n: Memory, pd: nat, data: nat, k: nat)
    requires DataOk(data) && k < 4 && KernelTables(m, pd, data, k)
    requires var r := Kmap(data, k);
             var size := (r.end + U32 - r.start) % U32;
             0 < size && Dirs(m, n, pd, r.virt / PGSIZE, Pages(r.virt, size))
    ensures KernelTables(n, pd, data, k + 1)
  {
    KernelRange(data, k);
    hide Present, Kmap, Pages, KernelFrom, KernelTo;
  }

  /** Out of memory while the kernel's pages are mapped, there were fewer frames than a kernel-only space takes. */
  lemma KernelShort(m: Memory, n: Memory, pd: nat, data: nat, k: nat, done: nat, free: set<nat>, all: set<nat>)
    requires DataOk(data) && k < 4 && KernelTables(m, pd, data, k) && KernelUpTo(m, pd, data, k) && Holds(n, free, {}, pd, all) && free == {}
    requires var r := Kmap(data, k);
             var size := (r.end + U32 - r.start) % U32;
             0 < size && done < Pages(r.virt, size) && Dirs(m, n, pd, r.virt / PGSIZE, done) &&
             Mapping(m, n, pd, r.virt / PGSIZE, r.start / PGSIZE, r.perm, done) &&
             r.virt / PGSIZE + done < PAGES && !Present(n[pd][(r.virt / PGSIZE + done) / ENTRIES])
    ensures |all| < KERNELFRAMES
  {
    hide Holds, Kmap, Pages, PteAt, MakeEntry;
    KernelRange(data, k);
    var first := KernelFrom(data, k);
    var missing := (first + done) / ENTRIES;
    forall e: nat | e < ENTRIES && Present(n[pd][e]) ensures KernelTable(e) {
      RangeTables(data, e, k);
      if Covers(first, done, e) { RangeTables(data, e, k + 1); }
    }
    RangeTables(data, missing, k + 1);
    FrameCount(n, free, {}, pd, all);
    NoUserPages(m, n, pd, data, k, first, Kmap(data, k).start / PGSIZE, Kmap(data, k).perm, done);
    SlotsBelow(n, pd, missing);
  }

  lemma NoUserPages(m: Memory, n: Memory, pd: nat, data: nat, k: nat, first: nat, pf: nat, perm: nat, done: nat)
    requires KernelUpTo(m, pd, data, k) && Mapping(m, n, pd, first, pf, perm, done) && first >= UPAGES
    ensures forall u: nat :: u < UPAGES ==> !Present(PteAt(n, pd, u))
  {
    hide PteAt, MakeEntry;
  }

  lemma KernelComplete(m: Memory, pd: nat, data: nat, free: set<nat>, all: set<nat>)
    requires DataOk(data) && KernelTables(m, pd, data, 4) && KernelUpTo(m, pd, data, 4) && Holds(m, free, {}, pd, all)
    ensures TablesFor(m, pd, 0) && |all| >= KERNELFRAMES
  {
    hide Holds, PteAt, MakeEntry;
    forall e: nat | e < ENTRIES ensures Present(m[pd][e]) <==> KernelTable(e) { RangeTables(data, e, 4); }
    forall u: nat | u < UPAGES ensures !Present(PteAt(m, pd, u)) { assert KernelPte(data, u) == 0; }
    FrameCount(m, free, {}, pd, all);
    SlotCount(m, pd, 0);
  }

  // ----- how many frames growing takes

  /** allocuvm runs out of memory exactly if there are fewer frames than it takes, and otherwise panics exactly at the first
      page of the range that is mapped already. */
  ghost predicate Growth(m: Memory, pd: nat, first: nat, end: nat, frames: nat, r: Grown) {
    pd < |m| && first <= end <= PAGES &&
    (r.NoMem? <==> frames < GrowthCost(m, pd, first, end)) &&
    (r.Panic? <==> !r.NoMem? && FirstMapped(m, pd, first, end) < end) &&
    (r.Panic? ==> r.v == FirstMapped(m, pd, first, end))
  }

  /** The tables that pages first to v - 1 need and the directory does not name. */
  ghost function Lacking(m: Memory, pd: nat, first: nat, v: nat): (r: set<nat>)
    requires pd < |m| && first <= v
  {
    set e: nat | e < ENTRIES && Covers(first, v - first, e) && !Present(m[pd][e])
  }

  /** The frames that pages first to v - 1 take: one each, and one for each table that is lacking. */
  ghost function Needs(m: Memory, pd: nat, first: nat, v: nat): (r: nat)
    requires pd < |m| && first <= v
  {
    v - first + |Lacking(m, pd, first, v)|
  }

  /** The first of these pages that is mapped already, or end. */
  function FirstMapped(m: Memory, pd: nat, first: nat, end: nat): (v: nat)
    requires pd < |m| && first <= end <= PAGES
    ensures first <= v <= end && (v < end ==> Present(PteAt(m, pd, v))) && forall u: nat :: first <= u < v ==> !Present(PteAt(m, pd, u))
    decreases end - first
  {
    if first == end || Present(PteAt(m, pd, first)) then first else FirstMapped(m, pd, first + 1, end)
  }

  /** What it takes to add these pages, up to the frame in hand when one is found mapped. */
  ghost function GrowthCost(m: Memory, pd: nat, first: nat, end: nat): nat
    requires pd < |m| && first <= end <= PAGES
  {
    var stop := FirstMapped(m, pd, first, end);
    Needs(m, pd, first, stop) + if stop < end then 1 else 0
  }

  lemma NeedsNothing(m: Memory, pd: nat, first: nat)
    requires pd < |m|
    ensures Needs(m, pd, first, first) == 0
  {
    assert Lacking(m, pd, first, first) == {};
  }

  lemma NeedsMonotone(m: Memory, pd: nat, first: nat, v: nat, w: nat)
    requires pd < |m| && first <= v <= w
    ensures Needs(m, pd, first, v) <= Needs(m, pd, first, w)
  {
    hide Present;
    SubsetSize(Lacking(m, pd, first, v), Lacking(m, pd, first, w));
  }

  /** One page more takes a frame, and another one if its table is not there yet. */
  lemma NeedsNext(m: Memory, n: Memory, pd: nat, first: nat, v: nat)
    requires first <= v < PAGES && Dirs(m, n, pd, first, v - first)
    ensures Needs(m, pd, first, v + 1) == Needs(m, pd, first, v) + 1 + if Present(n[pd][v / ENTRIES]) then 0 else 1
  {
    hide Present, Covers;
    var e := v / ENTRIES;
    assert Present(n[pd][e]) <==> Present(m[pd][e]) || Covers(first, v - first, e);
    var less, more := Lacking(m, pd, first, v), Lacking(m, pd, first, v + 1);
    forall x: nat ensures x in more <==> x in less || (x == e && !Present(n[pd][e])) {
      CoversNext(first, v, x);
    }
    if Present(n[pd][e]) {
      assert more == less;
    } else {
      assert more == less + {e};
    }
  }

  lemma CoversNext(first: nat, v: nat, x: nat)
    requires first <= v
    ensures Covers(first, v + 1 - first, x) <==> Covers(first, v - first, x) || x == v / ENTRIES
  {}

  lemma AddedFrames(n: Memory, fs: set<nat>, o: Memory, gs: set<nat>, pd: nat, all: set<nat>, v: nat, bytes: Frame, perm: nat)
    requires Holds(n, fs, {}, pd, all) && Holds(o, gs, {}, pd, all) && v < UPAGES
    requires OneMore(n, o, pd, v, bytes, perm) && !Present(PteAt(n, pd, v)) && Dirs(n, o, pd, v, 1)
    ensures |fs| == |gs| + 1 + if Present(n[pd][v / ENTRIES]) then 0 else 1
  {
    hide Holds, PteAt, Once, Target, Present, OneMore, Dirs;
    FrameCount(n, fs, {}, pd, all);
    FrameCount(o, gs, {}, pd, all);
    AddedSlots(n, o, pd, v, bytes, perm);
    var e := v / ENTRIES;
    var more := {ENTRIES + 1 + v} + if Present(n[pd][e]) then {} else {1 + e};
    assert Slots(o, pd) == Slots(n, pd) + more && Slots(n, pd) !! more;
  }

  lemma AddedSlots(n: Memory, o: Memory, pd: nat, v: nat, bytes: Frame, perm: nat)
    requires v < UPAGES && OneMore(n, o, pd, v, bytes, perm) && !Present(PteAt(n, pd, v)) && Dirs(n, o, pd, v, 1)
    ensures pd < |n| && pd < |o|
    ensures forall s: nat :: s in Slots(o, pd) <==>
              s in Slots(n, pd) || s == ENTRIES + 1 + v || (s == 1 + v / ENTRIES && !Present(n[pd][v / ENTRIES]))
    ensures ENTRIES + 1 + v !in Slots(n, pd) && (!Present(n[pd][v / ENTRIES]) ==> 1 + v / ENTRIES !in Slots(n, pd))
  {
    hide PteAt, Present;
  }

  lemma SameFrames(n: Memory, fs: set<nat>, o: Memory, gs: set<nat>, loose: set<nat>, pd: nat, all: set<nat>, v: nat)
    requires Holds(n, fs, {}, pd, all) && Holds(o, gs, loose, pd, all) && SamePtes(n, o, pd) && Dirs(n, o, pd, v, 0)
    ensures |fs| == |gs| + |loose|
  {
    hide Holds, PteAt, Once;
    FrameCount(n, fs, {}, pd, all);
    FrameCount(o, gs, loose, pd, all);
    forall s: nat ensures s in Slots(o, pd) <==> s in Slots(n, pd) {}
    assert Slots(o, pd) == Slots(n, pd);
  }

  /** allocuvm has added the pages up to v, and the next one fails. */
  lemma GrowthStops(m: Memory, n: Memory, pd: nat, first: nat, v: nat, end: nat, frames: nat, left: nat, one: Added)
    requires pd < |m| && first <= v < end <= PAGES && Dirs(m, n, pd, first, v - first)
    requires forall u: nat :: first <= u < v ==> !Present(PteAt(m, pd, u))
    requires frames == left + Needs(m, pd, first, v) && PteAt(n, pd, v) == PteAt(m, pd, v)
    requires one.NoFrame? ==> left == 0
    requires one.NoTable? ==> left == 1 && !Present(n[pd][v / ENTRIES])
    requires one.Clash? ==> left > 0 && Present(PteAt(n, pd, v))
    requires !one.Page?
    ensures one.Clash? ==> FirstMapped(m, pd, first, end) == v && GrowthCost(m, pd, first, end) <= frames
    ensures !one.Clash? ==> frames < GrowthCost(m, pd, first, end)
  {
    hide PteAt, Present;
    var stop := FirstMapped(m, pd, first, end);
    NeedsNext(m, n, pd, first, v);
    if !one.Clash? {
      if stop > v { NeedsMonotone(m, pd, first, v + 1, stop); }
      else if one.NoTable? { NoTablePte(n, pd, v); }
    }
  }

  lemma GrowthFails(m: Memory, n: Memory, o: Memory, pd: nat, first: nat, v: nat, end: nat, frames: nat, fs: set<nat>, gs: set<nat>,
                    one: Added, all: set<nat>)
    requires NewPages(m, n, pd, first, v) && first <= v < end <= PAGES && Dirs(m, n, pd, first, v - first) && frames == |fs| + Needs(m, pd, first, v)
    requires Holds(n, fs, {}, pd, all) && Holds(o, gs, if one.NoTable? || one.Clash? then {one.f} else {}, pd, all)
    requires SamePtes(n, o, pd) && Dirs(n, o, pd, v, 0) && !one.Page?
    requires one.NoFrame? || one.NoTable? ==> gs == {}
    requires one.NoTable? ==> !Present(o[pd][v / ENTRIES])
    requires one.Clash? ==> Present(PteAt(n, pd, v))
    ensures Growth(m, pd, first, end, frames, if one.Clash? then Panic(v) else NoMem)
  {
    hide Holds, PteAt, Present, Needs, GrowthCost, FirstMapped;
    var loose := if one.NoTable? || one.Clash? then {one.f} else {};
    SameFrames(n, fs, o, gs, loose, pd, all, v);
    forall u: nat | first <= u < v ensures !Present(PteAt(m, pd, u)) {}
    GrowthStops(m, n, pd, first, v, end, frames, |fs|, one);
  }

  /** It has added them all. */
  lemma GrowthDone(m: Memory, n: Memory, pd: nat, first: nat, end: nat, frames: nat, left: nat, r: Grown)
    requires NewPages(m, n, pd, first, end) && first <= end <= PAGES && frames == left + Needs(m, pd, first, end) && r.Size?
    ensures Growth(m, pd, first, end, frames, r)
  {
    hide PteAt, Present, Needs;
    assert FirstMapped(m, pd, first, end) == end;
  }

  // ----- how many frames a copy takes

  /** The frames of an address space with v user pages from 0 on. */
  function FramesFor(v: nat): nat {
    KERNELFRAMES + v + UserTables(v)
  }

  /** With so many free frames a copy of so many pages gets a frame for a page whose table it then cannot get. */
  predicate Strands(frames: nat, pages: nat) {
    frames > KERNELFRAMES && (frames - KERNELFRAMES - 1) % (ENTRIES + 1) == 0 && (frames - KERNELFRAMES - 1) / (ENTRIES + 1) * ENTRIES < pages
  }

  lemma FreeCount(m: Memory, head: Word, free: seq<nat>, lo: nat, hi: nat)
    requires FreeChain(m, head, free, lo, hi)
    ensures |Elements(free)| == |free|
  {
    ElementsExact(free);
  }

  lemma TooFew(frames: nat, pages: nat)
    requires frames < KERNELFRAMES
    ensures frames < FramesFor(pages) && !Strands(frames, pages)
  {}

  lemma TablesMore(m: Memory, n: Memory, d: nat, v: nat)
    requires TablesFor(m, d, v) && Dirs(m, n, d, v, 1)
    ensures TablesFor(n, d, v + 1)
  {
    hide Present;
  }

  /** So many frames does a space with v copied pages hold. */
  lemma CopyCount(m: Memory, parent: nat, n: Memory, d: nat, v: nat, data: nat, free: set<nat>, loose: set<nat>, all: set<nat>)
    requires CopyOf(m, parent, n, d, v, data) && TablesFor(n, d, v) && Holds(n, free, loose, d, all)
    ensures |all| == |free| + |loose| + FramesFor(v)
  {
    hide Holds, PteAt, MakeEntry, FrameOf, Flags;
    forall u: nat | u < UPAGES ensures Present(PteAt(n, d, u)) <==> u < v {
      if u < v {
        assert PageCopied(m, parent, n, d, u);
      } else {
        assert KernelPte(data, u) == 0;
      }
    }
    FrameCount(n, free, loose, d, all);
    SlotCount(n, d, v);
  }

  lemma SameCopy(m: Memory, parent: nat, n: Memory, o: Memory, d: nat, v: nat, data: nat, all: set<nat>)
    requires CopyOf(m, parent, n, d, v, data) && SamePtes(n, o, d) && Kept(n, o, d, all, 0, 0)
    ensures CopyOf(m, parent, o, d, v, data)
  {
    hide PteAt, KernelPte;
    forall u: nat | u < v ensures PageCopied(m, parent, o, d, u) {
      assert PageCopied(m, parent, n, d, u);
    }
  }

  /** The copy stops at page v: without a frame for the page, or with one but without a table. */
  lemma CopyShort(m: Memory, parent: nat, n: Memory, o: Memory, d: nat, v: nat, pages: nat, data: nat,
                  free: set<nat>, lost: set<nat>, all: set<nat>)
    requires CopyOf(m, parent, n, d, v, data) && TablesFor(n, d, v) && v < pages && v < UPAGES
    requires SamePtes(n, o, d) && Kept(n, o, d, all, 0, 0) && Dirs(n, o, d, v, 0)
    requires Holds(o, free, lost, d, all) && free == {} && |lost| <= 1 && (lost != {} ==> !Present(o[d][v / ENTRIES]))
    ensures |all| < FramesFor(pages) && (Strands(|all|, pages) <==> lost != {})
  {
    hide Holds, PteAt, Present, CopyOf, Kept, SamePtes;
    SameCopy(m, parent, n, o, d, v, data, all);
    assert TablesFor(o, d, v);
    CopyCount(m, parent, o, d, v, data, free, lost, all);
    StrandsAt(v, pages, |lost|);
  }

  /** The first of the parent's pages from v on that is not there, or end. */
  function FirstAbsent(m: Memory, parent: nat, v: nat, end: nat): (u: nat)
    requires parent < |m| && v <= end <= PAGES
    ensures v <= u <= end && (u < end ==> !Present(PteAt(m, parent, u))) && forall w: nat :: v <= w < u ==> Present(PteAt(m, parent, w))
    decreases end - v
  {
    if v == end || !Present(PteAt(m, parent, v)) then v else FirstAbsent(m, parent, v + 1, end)
  }

  /** How a copy of end pages ends: at the first page that is not there, if the frames last so long; whole, if they last and
      all are there; and otherwise for want of frames, having lost one exactly with the numbers of Strands. */
  ghost predicate CopyEnds(m: Memory, parent: nat, end: nat, frames: nat, r: Copied) {
    parent < |m| && end <= PAGES &&
    var stop := FirstAbsent(m, parent, 0, end);
    (r.NoCopy? <==> frames < FramesFor(stop)) && (r.Copy? <==> stop == end && FramesFor(end) <= frames) &&
    (r.Missing? ==> r.v == stop) && (r.NoCopy? ==> (r.noTable <==> Strands(frames, stop)))
  }

  lemma CopyNotBegun(m: Memory, parent: nat, end: nat, frames: nat)
    requires parent < |m| && end <= PAGES && frames < KERNELFRAMES
    ensures CopyEnds(m, parent, end, frames, NoCopy(false))
  {
    TooFew(frames, FirstAbsent(m, parent, 0, end));
  }

  lemma CopyMisses(m: Memory, parent: nat, n: Memory, d: nat, v: nat, end: nat, data: nat, free: set<nat>, all: set<nat>)
    requires CopyOf(m, parent, n, d, v, data) && TablesFor(n, d, v) && Holds(n, free, {}, d, all)
    requires v < end <= PAGES && !Present(PteAt(m, parent, v))
    ensures CopyEnds(m, parent, end, |all|, Missing(v))
  {
    hide Holds, TablesFor, FramesFor, Strands, Present, PteAt;
    CopyComplete(m, parent, n, d, v, data, free, all);
    forall u: nat | u < v ensures Present(PteAt(m, parent, u)) { assert PageCopied(m, parent, n, d, u); }
    assert FirstAbsent(m, parent, 0, end) == v;
  }

  lemma CopyStops(m: Memory, parent: nat, n: Memory, o: Memory, d: nat, v: nat, end: nat, data: nat,
                  free: set<nat>, lost: set<nat>, all: set<nat>)
    requires CopyOf(m, parent, n, d, v, data) && TablesFor(n, d, v) && v < end <= PAGES && v < UPAGES && Present(PteAt(m, parent, v))
    requires SamePtes(n, o, d) && Kept(n, o, d, all, 0, 0) && Dirs(n, o, d, v, 0)
    requires Holds(o, free, lost, d, all) && free == {} && |lost| <= 1 && (lost != {} ==> !Present(o[d][v / ENTRIES]))
    ensures CopyEnds(m, parent, end, |all|, NoCopy(lost != {}))
  {
    hide Holds, TablesFor, FramesFor, Strands, Present, PteAt, Kept, SamePtes, Dirs;
    forall u: nat | u <= v ensures Present(PteAt(m, parent, u)) { if u < v { assert PageCopied(m, parent, n, d, u); } }
    var stop := FirstAbsent(m, parent, 0, end);
    CopyShort(m, parent, n, o, d, v, stop, data, free, lost, all);
  }

  lemma CopyDone(m: Memory, parent: nat, n: Memory, d: nat, end: nat, data: nat, frames: nat)
    requires CopyOf(m, parent, n, d, end, data) && FramesFor(end) <= frames && end <= PAGES
    ensures CopyEnds(m, parent, end, frames, Copy(d))
  {
    hide FramesFor, Strands, Present, PteAt;
    forall u: nat | u < end ensures Present(PteAt(m, parent, u)) { assert PageCopied(m, parent, n, d, u); }
    assert FirstAbsent(m, parent, 0, end) == end;
  }

  lemma StrandsAt(v: nat, pages: nat, extra: nat)
    requires v < pages && extra <= 1 && (extra == 1 ==> v % ENTRIES == 0)
    ensures FramesFor(v) + extra < FramesFor(pages)
    ensures Strands(FramesFor(v) + extra, pages) <==> extra == 1
  {
    var q, r := v / ENTRIES, v % ENTRIES;
    assert v == ENTRIES * q + r;
    assert UserTables(v) == if r == 0 then q else q + 1;
    var x := v + UserTables(v) + extra - 1;
    if extra == 1 {
      assert x == (ENTRIES + 1) * q;
    } else if r == 0 {
      if q > 0 { assert x == (ENTRIES + 1) * (q - 1) + ENTRIES; }
    } else {
      assert x == (ENTRIES + 1) * q + r;
    }
  }

  /** With 66 free frames, or 1025, 2050, ... more, a copy of enough pages loses one. */
  lemma StrandedAt(j: nat, pages: nat)
    requires j * ENTRIES < pages
    ensures Strands(66 + j * (ENTRIES + 1), pages)
  {
    var x := j * (ENTRIES + 1);
    assert x % (ENTRIES + 1) == 0 && x / (ENTRIES + 1) == j;
  }

  lemma CopyComplete(m: Memory, parent: nat, n: Memory, d: nat, pages: nat, data: nat, free: set<nat>, all: set<nat>)
    requires CopyOf(m, parent, n, d, pages, data) && TablesFor(n, d, pages) && Holds(n, free, {}, d, all)
    ensures FramesFor(pages) <= |all| && !Strands(|all|, pages)
  {
    hide Holds, CopyOf, TablesFor;
    CopyCount(m, parent, n, d, pages, data, free, {}, all);
    EnoughNotStranded(|all|, pages);
  }

  lemma EnoughNotStranded(frames: nat, pages: nat)
    requires FramesFor(pages) <= frames
    ensures !Strands(frames, pages)
  {
    if frames > KERNELFRAMES {
      var j := (frames - KERNELFRAMES - 1) / (ENTRIES + 1);
      if (frames - KERNELFRAMES - 1) % (ENTRIES + 1) == 0 {
        assert frames == KERNELFRAMES + 1 + (ENTRIES + 1) * j;
      }
    }
  }
}
