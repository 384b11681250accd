/** Page tables (vm.c): what a page directory maps, and which frames an address space owns. */
module Vm {
  import opened Blocks

  const PGSIZE: nat := 4096
  const ENTRIES: nat := 1024          // entries of a directory or table, words of a frame
  const UPAGES: nat := 0x8_0000       // virtual pages below KERNBASE
  const PAGES: nat := 0x10_0000       // virtual pages
  const KERNBASE: nat := 0x8000_0000
  const TOPFRAME: nat := 0xE000       // PHYSTOP / PGSIZE

  /** A page of physical memory, as 32-bit words. */
  type Frame = f: seq<Word> | |f| == ENTRIES witness seq(ENTRIES, _ => 0)

  type Memory = seq<Frame>

  function ZeroFrame(): (f: Frame)
    ensures forall t :: 0 <= t < ENTRIES ==> f[t] == 0
  {
    seq(ENTRIES, _ => 0)
  }

  // ----- entries

  predicate Present(e: Word) {
    e % 2 == 1
  }

  /** PTE_ADDR as a frame number, and PTE_FLAGS. */
  function FrameOf(e: Word): nat {
    e / PGSIZE
  }

  function Flags(e: Word): nat {
    e % PGSIZE
  }

  lemma EntryParts(frame: nat, q: nat)
    requires q < PGSIZE
    ensures (frame * PGSIZE + q) / PGSIZE == frame && (frame * PGSIZE + q) % PGSIZE == q
    ensures (frame * PGSIZE + q) % 2 == q % 2
  {
    assert frame * PGSIZE + q == 2 * (frame * 2048) + q;
  }

  /** pa | perm | PTE_P */
  function MakeEntry(frame: nat, perm: nat): (e: Word)
    requires frame < PAGES && perm < PGSIZE
    ensures Present(e) && FrameOf(e) == frame && Flags(e) == if perm % 2 == 1 then perm else perm + 1
  {
    var q := if perm % 2 == 1 then perm else perm + 1;
    EntryParts(frame, q);
    frame * PGSIZE + q
  }

  /** The page table entry of virtual page v, 0 where there is no table. */
  function PteAt(m: Memory, pd: nat, v: nat): Word
    requires pd < |m| && v < PAGES
  {
    var e := m[pd][v / ENTRIES];
    if Present(e) && FrameOf(e) < |m| then m[FrameOf(e)][v % ENTRIES] else 0
  }

  lemma SamePage(u: nat, v: nat)
    ensures u == v <==> u / ENTRIES == v / ENTRIES && u % ENTRIES == v % ENTRIES
  {}

  // ----- frames of an address space

  /** The references to frames: 0 is the directory itself, 1 + k its entry k, 1025 + v the page at virtual page v. Pages
      from KERNBASE on are the kernel's and belong to no address space. */
  ghost predicate Refers(m: Memory, pd: nat, s: nat, f: nat) {
    pd < |m| &&
    if s == 0 then f == pd
    else if s <= ENTRIES then Present(m[pd][s - 1]) && f == FrameOf(m[pd][s - 1])
    else s <= ENTRIES + UPAGES && Present(PteAt(m, pd, s - 1 - ENTRIES)) && f == FrameOf(PteAt(m, pd, s - 1 - ENTRIES))
  }

  ghost predicate Owns(m: Memory, pd: nat, f: nat) {
    exists s: nat :: Refers(m, pd, s, f)
  }

  ghost predicate Once(m: Memory, pd: nat) {
    forall s: nat, t: nat, f: nat :: Refers(m, pd, s, f) && Refers(m, pd, t, f) ==> s == t
  }

  /** The frames of all are, each in one way, free, in hand (loose), or owned once by the address space pd. */
  ghost predicate Holds(m: Memory, free: set<nat>, loose: set<nat>, pd: nat, all: set<nat>) {
    pd < |m| && Once(m, pd) && free !! loose &&
    (forall f: nat :: f in all ==> f < |m|) &&
    (forall f: nat :: f in all <==> f in free || f in loose || Owns(m, pd, f)) &&
    (forall f: nat :: f in free || f in loose ==> !Owns(m, pd, f))
  }

  ghost predicate SamePtes(m: Memory, n: Memory, pd: nat) {
    pd < |m| && pd < |n| && forall v: nat :: v < PAGES ==> PteAt(n, pd, v) == PteAt(m, pd, v)
  }

  /** A table that the directory names. */
  lemma TableOwned(m: Memory, free: set<nat>, loose: set<nat>, pd: nat, all: set<nat>, k: nat)
    requires Holds(m, free, loose, pd, all) && k < ENTRIES && Present(m[pd][k])
    ensures var pt := FrameOf(m[pd][k]);
            pt < |m| && pt != pd && Owns(m, pd, pt) && pt in all && pt !in free && pt !in loose &&
            forall j: nat :: j < ENTRIES && j != k && Present(m[pd][j]) ==> FrameOf(m[pd][j]) != pt
  {
    var pt := FrameOf(m[pd][k]);
    assert Refers(m, pd, k + 1, pt);
    assert Refers(m, pd, 0, pd);
    assert Owns(m, pd, pt);
    assert pt in all;
    forall j: nat | j < ENTRIES && j != k && Present(m[pd][j]) ensures FrameOf(m[pd][j]) != pt {
      assert Refers(m, pd, j + 1, FrameOf(m[pd][j]));
    }
  }

  /** A page that the address space maps. */
  lemma PageOwned(m: Memory, free: set<nat>, loose: set<nat>, pd: nat, all: set<nat>, v: nat)
    requires Holds(m, free, loose, pd, all) && v < UPAGES && Present(PteAt(m, pd, v))
    ensures var f := FrameOf(PteAt(m, pd, v));
            f < |m| && f != pd && Owns(m, pd, f) && f in all && f !in free && f !in loose &&
            (forall k: nat :: k < ENTRIES && Present(m[pd][k]) ==> FrameOf(m[pd][k]) != f) &&
            (forall u: nat :: u < UPAGES && u != v && Present(PteAt(m, pd, u)) ==> FrameOf(PteAt(m, pd, u)) != f)
  {
    var f := FrameOf(PteAt(m, pd, v));
    assert Refers(m, pd, v + 1 + ENTRIES, f);
    assert Refers(m, pd, 0, pd);
    assert Owns(m, pd, f);
    assert f in all;
    forall k: nat | k < ENTRIES && Present(m[pd][k]) ensures FrameOf(m[pd][k]) != f {
      assert Refers(m, pd, k + 1, FrameOf(m[pd][k]));
    }
    forall u: nat | u < UPAGES && u != v && Present(PteAt(m, pd, u)) ensures FrameOf(PteAt(m, pd, u)) != f {
      assert Refers(m, pd, u + 1 + ENTRIES, FrameOf(PteAt(m, pd, u)));
    }
  }

  // ----- what writes do to the mapping

  /** Writing a frame that is neither the directory nor a table changes no entry. */
  lemma OtherFrame(m: Memory, pd: nat, x: nat, data: Frame)
    requires pd < |m| && x < |m| && x != pd
    requires forall k: nat :: k < ENTRIES && Present(m[pd][k]) ==> FrameOf(m[pd][k]) != x
    ensures SamePtes(m, m[x := data], pd)
  {}

  /** A new, empty table maps nothing. */
  lemma NewTable(m: Memory, pd: nat, k: nat, pt: nat)
    requires pd < |m| && k < ENTRIES && !Present(m[pd][k]) && pt < |m| && pt != pd && pt < PAGES
    requires forall j: nat :: j < ENTRIES && Present(m[pd][j]) ==> FrameOf(m[pd][j]) != pt && FrameOf(m[pd][j]) != pd
    ensures SamePtes(m, m[pt := ZeroFrame()][pd := m[pd][k := MakeEntry(pt, 6)]], pd)
  {
    hide MakeEntry, ZeroFrame;
  }

  /** Writing an entry changes that page's mapping and no other. */
  lemma SetPte(m: Memory, pd: nat, v: nat, w: Word)
    requires pd < |m| && v < PAGES && Present(m[pd][v / ENTRIES])
    requires var pt := FrameOf(m[pd][v / ENTRIES]);
             pt < |m| && pt != pd && forall j: nat :: j < ENTRIES && j != v / ENTRIES && Present(m[pd][j]) ==> FrameOf(m[pd][j]) != pt
    ensures var pt := FrameOf(m[pd][v / ENTRIES]);
            var n := m[pt := m[pt][v % ENTRIES := w]];
            n[pd] == m[pd] && forall u: nat :: u < PAGES ==> PteAt(n, pd, u) == if u == v then w else PteAt(m, pd, u)
  {
    hide Present, FrameOf;
    var pt := FrameOf(m[pd][v / ENTRIES]);
    var n := m[pt := m[pt][v % ENTRIES := w]];
    forall u: nat | u < PAGES ensures PteAt(n, pd, u) == if u == v then w else PteAt(m, pd, u) {
      SamePage(u, v);
    }
  }

  // ----- what writes do to ownership

  lemma HoldsSame(m: Memory, n: Memory, free: set<nat>, loose: set<nat>, pd: nat, all: set<nat>)
    requires Holds(m, free, loose, pd, all) && |n| == |m| && n[pd] == m[pd] && SamePtes(m, n, pd)
    ensures Holds(n, free, loose, pd, all)
  {
    hide Present, FrameOf;
    forall s: nat, f: nat ensures Refers(n, pd, s, f) <==> Refers(m, pd, s, f) {}
    forall f: nat ensures Owns(n, pd, f) <==> Owns(m, pd, f) {
      if Owns(m, pd, f) { var s: nat :| Refers(m, pd, s, f); assert Refers(n, pd, s, f); }
      if Owns(n, pd, f) { var s: nat :| Refers(n, pd, s, f); assert Refers(m, pd, s, f); }
    }
    hide Refers, PteAt, SamePtes;
  }

  /** One more reference, to a frame in hand. */
  lemma HoldsMore(m: Memory, n: Memory, free: set<nat>, loose: set<nat>, pd: nat, all: set<nat>, r: nat, x: nat)
    requires Holds(m, free, loose, pd, all) && |n| == |m| && x in loose
    requires forall f: nat :: !Refers(m, pd, r, f)
    requires forall s: nat, f: nat :: Refers(n, pd, s, f) <==> Refers(m, pd, s, f) || (s == r && f == x)
    ensures Holds(n, free, loose - {x}, pd, all)
  {
    hide Refers;
    forall f: nat ensures Owns(n, pd, f) <==> Owns(m, pd, f) || f == x {
      if Owns(m, pd, f) { var s: nat :| Refers(m, pd, s, f); assert Refers(n, pd, s, f); }
      if Owns(n, pd, f) { var s: nat :| Refers(n, pd, s, f); assert Refers(m, pd, s, f) || f == x; }
      if f == x { assert Refers(n, pd, r, x); }
    }
    OnceMore(m, n, pd, r, x);
    hide Once, Owns;
  }

  lemma OnceMore(m: Memory, n: Memory, pd: nat, r: nat, x: nat)
    requires Once(m, pd) && !Owns(m, pd, x)
    requires forall s: nat, f: nat :: Refers(n, pd, s, f) <==> Refers(m, pd, s, f) || (s == r && f == x)
    ensures Once(n, pd)
  {
    hide Refers;
    forall s: nat, t: nat, f: nat | Refers(n, pd, s, f) && Refers(n, pd, t, f) ensures s == t {
      if f == x {
        assert !Refers(m, pd, s, x) && !Refers(m, pd, t, x);
      }
    }
  }

  /** One reference less: the frame comes to hand. */
  lemma HoldsLess(m: Memory, n: Memory, free: set<nat>, loose: set<nat>, pd: nat, all: set<nat>, r: nat, x: nat)
    requires Holds(m, free, loose, pd, all) && |n| == |m| && Refers(m, pd, r, x)
    requires forall s: nat, f: nat :: Refers(n, pd, s, f) <==> Refers(m, pd, s, f) && s != r
    ensures Holds(n, free, loose + {x}, pd, all)
  {
    forall f: nat | Refers(m, pd, r, f) ensures f == x {}
    hide Refers;
    assert Owns(m, pd, x);
    forall f: nat ensures Owns(n, pd, f) <==> Owns(m, pd, f) && f != x {
      if Owns(m, pd, f) && f != x { var s: nat :| Refers(m, pd, s, f); assert Refers(n, pd, s, f); }
      if Owns(n, pd, f) { var s: nat :| Refers(n, pd, s, f); assert Refers(m, pd, s, f); }
    }
    hide Owns;
  }

  /** The directory gains a table. */
  lemma HoldsTable(m: Memory, free: set<nat>, loose: set<nat>, pd: nat, all: set<nat>, k: nat, pt: nat)
    requires Holds(m, free, loose, pd, all) && k < ENTRIES && !Present(m[pd][k]) && pt in loose && pt < PAGES
    ensures pt < |m| && pt != pd
    ensures var n := m[pt := ZeroFrame()][pd := m[pd][k := MakeEntry(pt, 6)]];
            Holds(n, free, loose - {pt}, pd, all) && SamePtes(m, n, pd)
  {
    hide MakeEntry, ZeroFrame, Once;
    assert pt in all;
    var n := m[pt := ZeroFrame()][pd := m[pd][k := MakeEntry(pt, 6)]];
    assert Refers(m, pd, 0, pd) && !Refers(m, pd, 0, pt);
    forall j: nat | j < ENTRIES && Present(m[pd][j]) ensures FrameOf(m[pd][j]) != pt && FrameOf(m[pd][j]) != pd {
      TableOwned(m, free, loose, pd, all, j);
    }
    NewTable(m, pd, k, pt);
    forall s: nat, f: nat ensures Refers(n, pd, s, f) <==> Refers(m, pd, s, f) || (s == k + 1 && f == pt) {
      if 0 < s <= ENTRIES && s != k + 1 { assert n[pd][s - 1] == m[pd][s - 1]; }
    }
    HoldsMore(m, n, free, loose, pd, all, k + 1, pt);
  }

  /** A page that was not mapped gets an entry: a user page maps a frame in hand, a kernel page any frame. */
  lemma HoldsMap(m: Memory, free: set<nat>, loose: set<nat>, pd: nat, all: set<nat>, v: nat, w: Word)
    requires Holds(m, free, loose, pd, all) && v < PAGES && Present(m[pd][v / ENTRIES]) && !Present(PteAt(m, pd, v)) && Present(w)
    requires v < UPAGES ==> FrameOf(w) in loose
    ensures var pt := FrameOf(m[pd][v / ENTRIES]);
            pt < |m| && pt != pd && pt in all && pt !in free && pt !in loose &&
            var n := m[pt := m[pt][v % ENTRIES := w]];
            Holds(n, free, if v < UPAGES then loose - {FrameOf(w)} else loose, pd, all) && n[pd] == m[pd] &&
            forall u: nat :: u < PAGES ==> PteAt(n, pd, u) == if u == v then w else PteAt(m, pd, u)
  {
    TableOwned(m, free, loose, pd, all, v / ENTRIES);
    SetPte(m, pd, v, w);
    var pt := FrameOf(m[pd][v / ENTRIES]);
    var n := m[pt := m[pt][v % ENTRIES := w]];
    hide PteAt, Once, Owns, FrameOf, Present;
    if v < UPAGES {
      forall s: nat, f: nat ensures Refers(n, pd, s, f) <==> Refers(m, pd, s, f) || (s == v + 1 + ENTRIES && f == FrameOf(w)) {}
      HoldsMore(m, n, free, loose, pd, all, v + 1 + ENTRIES, FrameOf(w));
    } else {
      HoldsKernel(m, n, free, loose, pd, all);
    }
  }

  /** Only user pages count as owned. */
  lemma HoldsKernel(m: Memory, n: Memory, free: set<nat>, loose: set<nat>, pd: nat, all: set<nat>)
    requires Holds(m, free, loose, pd, all) && |n| == |m| && n[pd] == m[pd]
    requires forall u: nat :: u < UPAGES ==> PteAt(n, pd, u) == PteAt(m, pd, u)
    ensures Holds(n, free, loose, pd, all)
  {
    hide Present, FrameOf, PteAt;
    forall s: nat, f: nat ensures Refers(n, pd, s, f) <==> Refers(m, pd, s, f) {}
    hide Refers;
    forall f: nat ensures Owns(n, pd, f) <==> Owns(m, pd, f) {
      if Owns(m, pd, f) { var s: nat :| Refers(m, pd, s, f); assert Refers(n, pd, s, f); }
      if Owns(n, pd, f) { var s: nat :| Refers(n, pd, s, f); assert Refers(m, pd, s, f); }
    }
    hide Owns;
  }

  /** A user page loses its entry. */
  lemma HoldsUnmap(m: Memory, free: set<nat>, loose: set<nat>, pd: nat, all: set<nat>, v: nat)
    requires Holds(m, free, loose, pd, all) && v < UPAGES && Present(m[pd][v / ENTRIES]) && Present(PteAt(m, pd, v))
    ensures var pt := FrameOf(m[pd][v / ENTRIES]);
            pt < |m| && pt != pd && pt in all && pt !in free &&
            var n := m[pt := m[pt][v % ENTRIES := 0]];
            Holds(n, free, loose + {FrameOf(PteAt(m, pd, v))}, pd, all) && n[pd] == m[pd] &&
            forall u: nat :: u < PAGES ==> PteAt(n, pd, u) == if u == v then 0 else PteAt(m, pd, u)
  {
    TableOwned(m, free, loose, pd, all, v / ENTRIES);
    SetPte(m, pd, v, 0);
    var pt := FrameOf(m[pd][v / ENTRIES]);
    var n := m[pt := m[pt][v % ENTRIES := 0]];
    assert !Present(0);
    hide PteAt, Once, Owns, FrameOf, Present;
    forall s: nat, f: nat ensures Refers(n, pd, s, f) <==> Refers(m, pd, s, f) && s != v + 1 + ENTRIES {}
    HoldsLess(m, n, free, loose, pd, all, v + 1 + ENTRIES, FrameOf(PteAt(m, pd, v)));
  }

  /** Frames pass between the free list and the hand. */
  lemma HoldsTake(m: Memory, free: set<nat>, loose: set<nat>, pd: nat, all: set<nat>, x: nat)
    requires Holds(m, free, loose, pd, all)
    ensures x in free ==> x !in loose && Holds(m, free - {x}, loose + {x}, pd, all)
    ensures x in loose ==> Holds(m, free + {x}, loose - {x}, pd, all)
  {
    hide Owns, Once;
  }

  /** Writing a frame that is free or in hand, or a user page, changes no mapping and no ownership. */
  lemma HoldsWrite(m: Memory, free: set<nat>, loose: set<nat>, pd: nat, all: set<nat>, x: nat, data: Frame)
    requires Holds(m, free, loose, pd, all) && (x in free || x in loose)
    ensures x < |m| && x != pd && Holds(m[x := data], free, loose, pd, all) && SamePtes(m, m[x := data], pd)
  {
    hide Once;
    assert Refers(m, pd, 0, pd) && !Refers(m, pd, 0, x);
    forall k: nat | k < ENTRIES && Present(m[pd][k]) ensures FrameOf(m[pd][k]) != x {
      assert !Refers(m, pd, k + 1, x);
    }
    OtherFrame(m, pd, x, data);
    HoldsSame(m, m[x := data], free, loose, pd, all);
  }
}
