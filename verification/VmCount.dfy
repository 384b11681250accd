/** How many frames an address space takes: its directory, its tables and its user pages (vm.c). */
module VmCount {
  import opened Blocks
  import opened Seqs
  import opened Vm

  /** Reference s of an address space leads to a frame. */
  predicate Named(m: Memory, pd: nat, s: nat)
    requires pd < |m|
  {
    s == 0 || (0 < s <= ENTRIES && Present(m[pd][s - 1])) ||
    (ENTRIES < s <= ENTRIES + UPAGES && Present(PteAt(m, pd, s - 1 - ENTRIES)))
  }

  function Target(m: Memory, pd: nat, s: nat): nat
    requires pd < |m|
  {
    if s == 0 then pd else if s <= ENTRIES then FrameOf(m[pd][s - 1])
    else if s <= ENTRIES + UPAGES then FrameOf(PteAt(m, pd, s - 1 - ENTRIES)) else 0
  }

  ghost function Slots(m: Memory, pd: nat): (r: set<nat>)
    requires pd < |m|
  {
    set s: nat | s <= ENTRIES + UPAGES && Named(m, pd, s)
  }

  lemma NamedRefers(m: Memory, pd: nat, s: nat, f: nat)
    requires pd < |m|
    ensures Refers(m, pd, s, f) <==> Named(m, pd, s) && f == Target(m, pd, s)
  {}

  /** As many frames as references, if each frame is referenced once. */
  lemma {:induction false} TargetCount(m: Memory, pd: nat, slots: set<nat>, frames: set<nat>)
    requires pd < |m| && Once(m, pd) && forall s :: s in slots ==> Named(m, pd, s)
    requires forall f: nat :: f in frames <==> exists s :: s in slots && f == Target(m, pd, s)
    ensures |frames| == |slots|
    decreases slots
  {
    hide Named, Target, Refers;
    if slots != {} {
      var s :| s in slots;
      var f := Target(m, pd, s);
      forall t | t in slots && t != s ensures Target(m, pd, t) != f {
        NamedRefers(m, pd, s, f);
        NamedRefers(m, pd, t, f);
      }
      forall g: nat ensures g in frames - {f} <==> exists t :: t in slots - {s} && g == Target(m, pd, t) {
        if g in frames && g != f {
          var t :| t in slots && g == Target(m, pd, t);
          assert t in slots - {s};
        }
      }
      assert f in frames;
      TargetCount(m, pd, slots - {s}, frames - {f});
    } else {
      forall f: nat ensures f !in frames {}
      assert frames == {};
    }
  }

  /** The frames of all are the free ones, those in hand, and one for each reference. */
  lemma FrameCount(m: Memory, free: set<nat>, loose: set<nat>, pd: nat, all: set<nat>)
    requires Holds(m, free, loose, pd, all)
    ensures |all| == |free| + |loose| + |Slots(m, pd)|
  {
    hide Named, Target, Once;
    var owned := all - free - loose;
    forall f: nat ensures f in owned <==> exists s :: s in Slots(m, pd) && f == Target(m, pd, s) {
      if f in owned {
        assert Owns(m, pd, f);
        var s: nat :| Refers(m, pd, s, f);
        NamedRefers(m, pd, s, f);
        SlotRange(m, pd, s, f);
        assert s in Slots(m, pd) && f == Target(m, pd, s);
      }
      if s: nat :| s in Slots(m, pd) && f == Target(m, pd, s) {
        NamedRefers(m, pd, s, f);
        assert Owns(m, pd, f);
      }
    }
    TargetCount(m, pd, Slots(m, pd), owned);
    assert all == free + loose + owned;
  }

  lemma SlotRange(m: Memory, pd: nat, s: nat, f: nat)
    requires Refers(m, pd, s, f)
    ensures s <= ENTRIES + UPAGES
  {}

  ghost function Interval(a: nat, b: nat): (r: set<nat>)
    requires a <= b
    ensures forall x: nat :: x in r <==> a <= x < b
    ensures |r| == b - a
    decreases b
  {
    if a == b then {} else Interval(a, b - 1) + {b - 1}
  }

  /** The tables a kernel-only address space has: for the 224 MB from KERNBASE on and the last 32 MB. */
  predicate KernelTable(e: nat) {
    512 <= e < 568 || 1016 <= e < ENTRIES
  }

  /** Tables for the first v user pages. */
  function UserTables(v: nat): nat {
    (v + ENTRIES - 1) / ENTRIES
  }

  const KERNELFRAMES: nat := 65

  /** Three intervals, one after the other. */
  ghost function Three(a: nat, b: nat, c: nat, d: nat, e: nat): (r: set<nat>)
    requires a <= b <= c <= d <= e
    ensures forall s: nat :: s in r <==> s < a || b <= s < c || d <= s < e
    ensures |r| == a + (c - b) + (e - d)
  {
    var x, y, z := Interval(0, a), Interval(b, c), Interval(d, e);
    assert x !! y && (x + y) !! z;
    x + y + z
  }

  /** Reference numbers: the directory and t tables from the first on, the kernel's tables, and v user pages. */
  ghost function Parts(t: nat, v: nat): (r: set<nat>)
    requires t <= 512
    ensures forall s: nat :: s in r <==> s < 1 + t || 513 <= s < 569 || 1017 <= s < 1025 + v
    ensures |r| == KERNELFRAMES + t + v
  {
    Three(1 + t, 513, 569, 1017, 1025 + v)
  }

  /** The references of an address space with these tables and the first v user pages. */
  lemma SlotCount(m: Memory, pd: nat, v: nat)
    requires pd < |m| && v <= UPAGES
    requires forall e: nat :: e < ENTRIES ==> (Present(m[pd][e]) <==> KernelTable(e) || e * ENTRIES < v)
    requires forall u: nat :: u < UPAGES ==> (Present(PteAt(m, pd, u)) <==> u < v)
    ensures |Slots(m, pd)| == KERNELFRAMES + v + UserTables(v)
  {
    hide Present, PteAt, Parts;
    TableNumber(v, 0);
    var parts := Parts(UserTables(v), v);
    forall s: nat ensures s in Slots(m, pd) <==> s in parts {
      if 0 < s <= ENTRIES { TableNumber(v, s - 1); }
    }
    assert Slots(m, pd) == parts;
  }

  lemma TableNumber(v: nat, e: nat)
    requires v <= UPAGES
    ensures e * ENTRIES < v <==> e < UserTables(v)
    ensures UserTables(v) <= 512
  {}

  /** With some kernel table missing, and no user page, there are fewer. */
  lemma SlotsBelow(m: Memory, pd: nat, missing: nat)
    requires pd < |m| && missing < ENTRIES && KernelTable(missing) && !Present(m[pd][missing])
    requires forall e: nat :: e < ENTRIES && Present(m[pd][e]) ==> KernelTable(e)
    requires forall u: nat :: u < UPAGES ==> !Present(PteAt(m, pd, u))
    ensures |Slots(m, pd)| < KERNELFRAMES
  {
    hide Present, PteAt, Parts;
    var parts := Parts(0, 0);
    assert Slots(m, pd) <= parts - {missing + 1};
    SubsetSize(Slots(m, pd), parts - {missing + 1});
  }
}
