/** The join-order optimizer (qo_manager.cc): a dynamic program over sets of relations kept as bitmaps.
    What joining costs is an uninterpreted estimate. */
module QoManager {
  import opened Blocks
  import opened Options
  import opened Seqs

  // ----- bitmaps as sets of relations

  const WIDTH: nat := 32             // 8 * sizeof(int)

  ghost function Rels(bitmap: nat): (r: set<nat>)
    ensures forall i: nat :: i in r <==> i < WIDTH && Bit(bitmap, i)
  {
    set i: nat | i < WIDTH && Bit(bitmap, i)
  }

  /** AddRelToBitmap and RemoveRelFromBitmap add and remove one relation. */
  lemma BitmapOps(bitmap: nat, r: nat)
    requires r < WIDTH
    ensures Rels(OrBit(bitmap, r)) == Rels(bitmap) + {r}
    ensures Rels(AndNotBit(bitmap, r)) == Rels(bitmap) - {r}
  {
    hide Bit, OrBit, AndNotBit;
    forall i: nat ensures i in Rels(OrBit(bitmap, r)) <==> i in Rels(bitmap) + {r} { BitOps(bitmap, r, i); }
    forall i: nat ensures i in Rels(AndNotBit(bitmap, r)) <==> i in Rels(bitmap) - {r} { BitOps(bitmap, r, i); }
  }

  /** Numbers below 2^w that agree on w bits are equal. */
  lemma {:induction false} SameBits(x: nat, y: nat, w: nat)
    requires x < Pow2(w) && y < Pow2(w) && forall i: nat :: i < w ==> (Bit(x, i) <==> Bit(y, i))
    ensures x == y
  {
    if w > 0 {
      assert Bit(x, 0) <==> Bit(y, 0);
      forall i: nat | i < w - 1 ensures Bit(x / 2, i) <==> Bit(y / 2, i) {
        assert Bit(x, i + 1) <==> Bit(y, i + 1);
      }
      Halves(x);
      Halves(y);
      SameBits(x / 2, y / 2, w - 1);
    }
  }

  lemma SameRels(x: nat, y: nat)
    requires x < Pow2(WIDTH) && y < Pow2(WIDTH) && Rels(x) == Rels(y)
    ensures x == y
  {
    hide Bit;
    forall i: nat | i < WIDTH ensures Bit(x, i) <==> Bit(y, i) {
      assert i in Rels(x) <==> i in Rels(y);
    }
    SameBits(x, y, WIDTH);
  }

  lemma BitmapBounds(bitmap: nat, r: nat)
    requires r < WIDTH && bitmap < Pow2(WIDTH)
    ensures OrBit(bitmap, r) < Pow2(WIDTH) && AndNotBit(bitmap, r) < Pow2(WIDTH)
  {
    BitOpsBound(bitmap, r, WIDTH);
  }

  lemma NoRels()
    ensures Rels(0) == {} && 0 < Pow2(WIDTH)
  {
    hide Bit;
    forall i: nat ensures !Bit(0, i) { NoBits(i); }
    PowPositive(WIDTH);
  }

  lemma {:induction false} PowPositive(k: nat)
    ensures 0 < Pow2(k)
  {
    if k > 0 { PowPositive(k - 1); }
  }

  /** ConvertBitmapToVec: the relations of the bitmap in increasing order. */
  method ConvertBitmapToVec(bitmap: nat) returns (vec: seq<nat>)
    ensures forall r: nat :: r in vec <==> r in Rels(bitmap)
    ensures forall i, j :: 0 <= i < j < |vec| ==> vec[i] < vec[j]
  {
    hide Bit;
    vec := [];
    var i := 0;
    while i < WIDTH
      invariant 0 <= i <= WIDTH
      invariant forall r: nat :: r in vec <==> r < i && Bit(bitmap, r)
      invariant forall p, q :: 0 <= p < q < |vec| ==> vec[p] < vec[q]
    {
      if Bit(bitmap, i) {
        assert forall p :: 0 <= p < |vec| ==> vec[p] in vec;
        vec := vec + [i];
      }
      i := i + 1;
    }
  }

  // ----- the table of the dynamic program

  datatype AttrStat = AttrStat(numTuples: real, maxValue: real, minValue: real)

  type Stats = map<nat, AttrStat>

  /** What is known about joining a set of relations: the last relation joined, the bitmap of the others,
      the estimates, and the statistics of the attributes they rest on. */
  datatype CostElem = CostElem(joins: nat, newRelIndex: nat, numTuples: real, cost: real, indexAttr: int, indexCond: int, attrs: Stats)

  datatype Estimate = Estimate(cost: real, numTuples: real, indexAttr: int, indexCond: int, attrs: Stats)

  datatype QoRel = QoRel(relIdx: nat, indexAttr: int, indexCond: int)

  /** The estimates: of one relation, and of joining a relation to a set that was joined at best as given.
      FLT_MAX is where a search for the cheapest starts. */
  datatype Costs = Costs(base: nat -> Estimate, join: (CostElem, nat, nat) -> Estimate, fltMax: real)

  type Table = seq<map<nat, CostElem>>

  /** A set of k of the n relations. */
  ghost predicate Subset(bitmap: nat, n: nat, k: nat) {
    bitmap < Pow2(WIDTH) && |Rels(bitmap)| == k && forall r :: r in Rels(bitmap) ==> r < n
  }

  function Elem(joins: nat, r: nat, e: Estimate): CostElem {
    CostElem(joins, r, e.numTuples, e.cost, e.indexAttr, e.indexCond, e.attrs)
  }

  /** The estimate for bitmap with r joined last, given the best ways of joining the others. */
  function LastJoined(c: Costs, level: map<nat, CostElem>, bitmap: nat, r: nat): Estimate
    requires AndNotBit(bitmap, r) in level
  {
    c.join(level[AndNotBit(bitmap, r)], AndNotBit(bitmap, r), r)
  }

  /** e is the cheapest way to join the set, over the choice of the last relation; of equally cheap ones the
      relation with the smallest index. */
  ghost predicate Cheapest(c: Costs, level: map<nat, CostElem>, bitmap: nat, e: CostElem) {
    e.newRelIndex in Rels(bitmap) && (forall r :: r in Rels(bitmap) ==> AndNotBit(bitmap, r) in level) &&
    e == Elem(AndNotBit(bitmap, e.newRelIndex), e.newRelIndex, LastJoined(c, level, bitmap, e.newRelIndex)) &&
    forall r :: r in Rels(bitmap) ==>
      e.cost <= LastJoined(c, level, bitmap, r).cost && (r < e.newRelIndex ==> e.cost < LastJoined(c, level, bitmap, r).cost)
  }

  ghost predicate BaseLevel(c: Costs, n: nat, level: map<nat, CostElem>) {
    (forall b :: b in level <==> Subset(b, n, 1)) &&
    forall b :: b in level ==> IsBase(c, b, level[b])
  }

  ghost predicate IsBase(c: Costs, b: nat, e: CostElem) {
    e.newRelIndex in Rels(b) && e == Elem(0, e.newRelIndex, c.base(e.newRelIndex))
  }

  /** Level k holds, for every set of k + 1 relations, the cheapest way to join it. */
  ghost predicate LevelOk(c: Costs, n: nat, t: Table, k: nat) {
    k < |t| &&
    if k == 0 then BaseLevel(c, n, t[0])
    else (forall b :: b in t[k] <==> Subset(b, n, k + 1)) && forall b :: b in t[k] ==> Cheapest(c, t[k - 1], b, t[k][b])
  }

  lemma RemoveOne(bitmap: nat, n: nat, k: nat, r: nat)
    requires Subset(bitmap, n, k) && r in Rels(bitmap) && n <= WIDTH
    ensures k > 0 && Subset(AndNotBit(bitmap, r), n, k - 1)
  {
    BitmapOps(bitmap, r);
    BitmapBounds(bitmap, r);
    assert |Rels(bitmap) - {r}| == |Rels(bitmap)| - 1;
  }

  lemma AddOne(bitmap: nat, n: nat, k: nat, r: nat)
    requires Subset(bitmap, n, k) && r !in Rels(bitmap) && r < n <= WIDTH
    ensures Subset(OrBit(bitmap, r), n, k + 1) && AndNotBit(OrBit(bitmap, r), r) == bitmap
  {
    BitmapOps(bitmap, r);
    BitmapBounds(bitmap, r);
    BitmapOps(OrBit(bitmap, r), r);
    BitmapBounds(OrBit(bitmap, r), r);
    SameRels(AndNotBit(OrBit(bitmap, r), r), bitmap);
  }

  /** Putting back what was taken out. */
  lemma PutBack(bitmap: nat, r: nat)
    requires bitmap < Pow2(WIDTH) && r in Rels(bitmap)
    ensures OrBit(AndNotBit(bitmap, r), r) == bitmap
  {
    BitmapOps(bitmap, r);
    BitmapBounds(bitmap, r);
    BitmapOps(AndNotBit(bitmap, r), r);
    BitmapBounds(AndNotBit(bitmap, r), r);
    SameRels(OrBit(AndNotBit(bitmap, r), r), bitmap);
  }

  function Put(level: map<nat, CostElem>, bitmap: nat, e: CostElem): map<nat, CostElem> {
    level[bitmap := e]
  }

  /** Any nonempty set of relations can be joined last relation first; the list holds each set once. */
  ghost predicate AllOnce(list: seq<nat>, n: nat, k: nat) {
    NoDup(list) && forall b: nat :: b in list <==> Subset(b, n, k)
  }

  /** The left-deep order joined as it stands: the estimates of its first k relations. */
  ghost function Joined(c: Costs, order: seq<nat>, sets: seq<nat>, k: nat): CostElem
    requires 0 < k <= |order| && |sets| == |order| + 1
  {
    if k == 1 then Elem(0, order[0], c.base(order[0]))
    else Elem(sets[k - 1], order[k - 1], c.join(Joined(c, order, sets, k - 1), sets[k - 1], order[k - 1]))
  }

  /** sets[k] is the bitmap of the first k relations of the order. */
  ghost predicate Prefixes(n: nat, order: seq<nat>, sets: seq<nat>) {
    |sets| == |order| + 1 && |order| <= n <= WIDTH && sets[0] == 0 &&
    forall k :: 0 <= k < |order| ==> order[k] < n && order[k] !in Rels(sets[k]) && sets[k + 1] == OrBit(sets[k], order[k])
  }

  /** No left-deep order is estimated at FLT_MAX or more. */
  ghost predicate Finite(c: Costs, n: nat) {
    forall order: seq<nat>, sets: seq<nat> ::
      Prefixes(n, order, sets) && 0 < |order| ==> Joined(c, order, sets, |order|).cost < c.fltMax
  }

  /** e is the estimate of joining the relations of b in some order. */
  ghost predicate Attained(c: Costs, n: nat, k: nat, b: nat, e: CostElem) {
    exists order: seq<nat>, sets: seq<nat> :: AttainedBy(c, n, k, b, e, order, sets)
  }

  ghost predicate AttainedBy(c: Costs, n: nat, k: nat, b: nat, e: CostElem, order: seq<nat>, sets: seq<nat>) {
    Prefixes(n, order, sets) && |order| == k && 0 < k && sets[k] == b && e == Joined(c, order, sets, k)
  }

  lemma {:induction false} JoinedPrefix(c: Costs, order: seq<nat>, sets: seq<nat>, r: nat, b: nat, k: nat)
    requires 0 < k <= |order| && |sets| == |order| + 1
    ensures Joined(c, order + [r], sets + [b], k) == Joined(c, order, sets, k)
  {
    if k > 1 { JoinedPrefix(c, order, sets, r, b, k - 1); }
  }

  /** An order followed by one more relation. */
  lemma AttainedNext(c: Costs, n: nat, k: nat, b: nat, e: CostElem, r: nat)
    requires Attained(c, n, k, b, e) && r < n && r !in Rels(b)
    ensures Attained(c, n, k + 1, OrBit(b, r), Elem(b, r, c.join(e, b, r)))
  {
    hide Bit, OrBit, Rels;
    var order: seq<nat>, sets: seq<nat> :| AttainedBy(c, n, k, b, e, order, sets);
    JoinedPrefix(c, order, sets, r, OrBit(b, r), k);
    PrefixesNext(n, order, sets, r);
    assert AttainedBy(c, n, k + 1, OrBit(b, r), Elem(b, r, c.join(e, b, r)), order + [r], sets + [OrBit(b, r)]);
  }

  lemma PrefixesNext(n: nat, order: seq<nat>, sets: seq<nat>, r: nat)
    requires Prefixes(n, order, sets) && r < n && r !in Rels(sets[|order|]) && n <= WIDTH
    ensures Prefixes(n, order + [r], sets + [OrBit(sets[|order|], r)])
  {
    hide Bit, OrBit;
    PrefixSets(n, order, sets, |order|);
    AddOne(sets[|order|], n, |order|, r);
    assert |order| < n by { SubsetOf(sets[|order|] , n, |order|, r); }
  }

  lemma SubsetOf(b: nat, n: nat, k: nat, r: nat)
    requires Subset(b, n, k) && r < n && r !in Rels(b)
    ensures k < n
  {
    assert Rels(b) + {r} <= Below(n);
    SubsetSize(Rels(b) + {r}, Below(n));
  }

  /** Every entry of the table is the estimate of some order. */
  lemma {:induction false} EntryAttained(c: Costs, n: nat, t: Table, k: nat, b: nat)
    requires (forall i :: 0 <= i <= k ==> LevelOk(c, n, t, i)) && k < |t| && b in t[k] && n <= WIDTH
    ensures Attained(c, n, k + 1, b, t[k][b])
  {
    hide Bit, OrBit, AndNotBit, Rels, Attained, Subset;
    assert LevelOk(c, n, t, k);
    if k == 0 {
      BaseAttained(c, n, b, t[0][b]);
    } else {
      var e := t[k][b];
      assert Cheapest(c, t[k - 1], b, e);
      var r := e.newRelIndex;
      EntryAttained(c, n, t, k - 1, e.joins);
      TakeOut(b, n, k + 1, r);
      AttainedNext(c, n, k, e.joins, t[k - 1][e.joins], r);
    }
  }

  lemma TakeOut(b: nat, n: nat, k: nat, r: nat)
    requires Subset(b, n, k) && r in Rels(b) && n <= WIDTH
    ensures r < n && r !in Rels(AndNotBit(b, r)) && OrBit(AndNotBit(b, r), r) == b
  {
    hide Bit, OrBit, AndNotBit;
    BitmapOps(b, r);
    PutBack(b, r);
  }

  lemma BaseAttained(c: Costs, n: nat, b: nat, e: CostElem)
    requires Subset(b, n, 1) && IsBase(c, b, e) && n <= WIDTH
    ensures Attained(c, n, 1, b, e)
  {
    hide Bit, OrBit, AndNotBit;
    var r := e.newRelIndex;
    TakeOut(b, n, 1, r);
    RemoveOne(b, n, 1, r);
    NoRels();
    assert |Rels(AndNotBit(b, r))| == 0;
    SameRels(AndNotBit(b, r), 0);
    assert AttainedBy(c, n, 1, b, e, [r], [0, b]);
  }

  /** Joining any relation of a set last to the best way of joining the others costs less than FLT_MAX. */
  lemma FiniteAt(c: Costs, n: nat, t: Table, k: nat, b: nat, r: nat)
    requires Finite(c, n) && n <= WIDTH && 0 < k <= |t| && Subset(b, n, k + 1) && r in Rels(b)
    requires (forall i :: 0 <= i < k ==> LevelOk(c, n, t, i)) && AndNotBit(b, r) in t[k - 1]
    ensures LastJoined(c, t[k - 1], b, r).cost < c.fltMax
  {
    hide Bit, OrBit, AndNotBit, Rels, Subset, LevelOk, Prefixes, Joined;
    var s := AndNotBit(b, r);
    EntryAttained(c, n, t, k - 1, s);
    TakeOut(b, n, k + 1, r);
    AttainedNext(c, n, k, s, t[k - 1][s], r);
    var e := Elem(s, r, c.join(t[k - 1][s], s, r));
    var order: seq<nat>, sets: seq<nat> :| AttainedBy(c, n, k + 1, b, e, order, sets);
  }

  class Manager {
    const nRels: nat
    const costs: Costs
    var optcost: Table

    constructor (n: nat, c: Costs)
      requires 0 < n <= WIDTH && Finite(c, n)
      ensures nRels == n && costs == c && |optcost| == n && forall i :: 0 <= i < n ==> optcost[i] == map[]
    {
      nRels, costs := n, c;
      optcost := seq(n, _ => map[]);
    }

    ghost predicate Sized()
      reads this
    {
      0 < nRels <= WIDTH && |optcost| == nRels && Finite(costs, nRels)
    }

    method InitializeBaseCases()
      requires Sized() && optcost[0] == map[]
      modifies this
      ensures Sized() && BaseLevel(costs, nRels, optcost[0])
      ensures forall k :: 0 < k < nRels ==> optcost[k] == old(optcost)[k]
    {
      hide Subset, Finite, BaseLevel, OrBit;
      NoBases(costs);
      var i := 0;
      while i < nRels
        invariant 0 <= i <= nRels && Sized() && BaseLevel(costs, i, optcost[0])
        invariant forall k :: 0 < k < nRels ==> optcost[k] == old(optcost)[k]
      {
        var relBitmap := OrBit(0, i);
        AddBase(costs, i, optcost[0]);
        optcost := optcost[0 := Put(optcost[0], relBitmap, Elem(0, i, costs.base(i)))];
        i := i + 1;
      }
    }

    /** The cheapest way to join a set, over the relation joined last. */
    method CalculateOptJoin(relsInJoin: nat, relSize: nat)
      requires Sized() && 0 < relSize < nRels && Subset(relsInJoin, nRels, relSize + 1)
      requires forall k :: 0 <= k < relSize ==> LevelOk(costs, nRels, optcost, k)
      modifies this
      ensures Sized()
      ensures relsInJoin in optcost[relSize]
      ensures optcost == old(optcost)[relSize := Put(old(optcost)[relSize], relsInJoin, optcost[relSize][relsInJoin])]
      ensures Cheapest(costs, optcost[relSize - 1], relsInJoin, optcost[relSize][relsInJoin])
    {
      hide Bit, OrBit, AndNotBit, LevelOk, Subset, Best, Finite, Cheapest;
      var relsInJoinVec := ConvertBitmapToVec(relsInJoin);
      var costTable := CostElem(0, 0, 0.0, costs.fltMax, -1, -1, map[]);
      var i := 0;
      var level := optcost[relSize - 1];
      SubsetsBelow(costs, nRels, optcost, relSize, relsInJoin);
      while i < |relsInJoinVec|
        invariant 0 <= i <= |relsInJoinVec| && optcost == old(optcost)
        invariant if i == 0 then costTable.cost == costs.fltMax else Best(costs, level, relsInJoin, relsInJoinVec[..i], costTable)
      {
        var r := relsInJoinVec[i];
        assert r in relsInJoinVec;
        var subJoin := AndNotBit(relsInJoin, r);
        var e := costs.join(level[subJoin], subJoin, r);
        FiniteAt(costs, nRels, optcost, relSize, relsInJoin, r);
        BestStep(costs, level, relsInJoin, relsInJoinVec, i, costTable);
        if e.cost < costTable.cost {
          costTable := CostElem(subJoin, r, e.numTuples, e.cost, e.indexAttr, e.indexCond, e.attrs);
        }
        i := i + 1;
      }
      assert relsInJoinVec[..i] == relsInJoinVec;
      BestIsCheapest(costs, nRels, level, relsInJoin, relsInJoinVec, relSize + 1, costTable);
      optcost := optcost[relSize := Put(optcost[relSize], relsInJoin, costTable)];
    }

    /** Every set of relations is reached, each once and smaller ones first; the order read back from the
        table is a permutation of the relations and the only answer these costs admit. */
    method Compute() returns (relOrder: seq<QoRel>, costEst: real, tupleEst: real)
      requires Sized() && forall k :: 0 <= k < nRels ==> optcost[k] == map[]
      modifies this
      ensures Sized() && forall k :: 0 <= k < nRels ==> LevelOk(costs, nRels, optcost, k)
      ensures Planned(optcost, nRels, relOrder, costEst, tupleEst) && Answer(costs, nRels, relOrder, costEst, tupleEst)
    {
      hide Subset, LevelOk, BaseLevel, OrBit, AndNotBit, Bit, Finite, AllOnce, Planned;
      InitializeBaseCases();
      LevelZero(costs, nRels, optcost);
      var allSubsets := Singles();
      var i := 1;
      while i < nRels
        invariant 1 <= i <= nRels && Sized()
        invariant forall k :: 0 <= k < i ==> LevelOk(costs, nRels, optcost, k)
        invariant forall k :: i <= k < nRels ==> optcost[k] == map[]
        invariant AllOnce(allSubsets, nRels, i)
      {
        allSubsets := NextSize(allSubsets, i);
        i := i + 1;
      }
      relOrder, costEst, tupleEst := Backtrace();
      assert Solved(costs, nRels, optcost);
    }

    /** The bitmaps of the single relations. */
    method Singles() returns (allSubsets: seq<nat>)
      requires Sized()
      ensures AllOnce(allSubsets, nRels, 1)
    {
      hide Subset, Bit, OrBit;
      allSubsets := [];
      var i := 0;
      NoSingles();
      while i < nRels
        invariant 0 <= i <= nRels && AllOnce(allSubsets, i, 1)
      {
        MoreSingles(allSubsets, i);
        allSubsets := allSubsets + [OrBit(0, i)];
        i := i + 1;
      }
    }

    /** One round of Compute: from the sets of i relations to those of i + 1. */
    method NextSize(allSubsets: seq<nat>, i: nat) returns (allNewSubsets: seq<nat>)
      requires Sized() && 0 < i < nRels && optcost[i] == map[] && AllOnce(allSubsets, nRels, i)
      requires forall k :: 0 <= k < i ==> LevelOk(costs, nRels, optcost, k)
      modifies this
      ensures Sized() && forall k :: 0 <= k < nRels && k != i ==> optcost[k] == old(optcost)[k]
      ensures forall k :: 0 <= k <= i ==> LevelOk(costs, nRels, optcost, k)
      ensures AllOnce(allNewSubsets, nRels, i + 1)
    {
      hide Subset, LevelOk, OrBit, AndNotBit, Bit, Finite, Cheapest, Reached;
      allNewSubsets := [];
      var it := 0;
      NoneReached(costs, optcost, nRels, i, allSubsets);
      while it < |allSubsets|
        invariant 0 <= it <= |allSubsets| && Sized()
        invariant forall k :: 0 <= k < nRels && k != i ==> optcost[k] == old(optcost)[k]
        invariant Reached(costs, optcost, nRels, i, allSubsets, it, 0, allNewSubsets)
      {
        var j := 0;
        while j < nRels
          invariant 0 <= j <= nRels && Sized()
          invariant forall k :: 0 <= k < nRels && k != i ==> optcost[k] == old(optcost)[k]
          invariant Reached(costs, optcost, nRels, i, allSubsets, it, j, allNewSubsets)
        {
          var relsInJoin := allSubsets[it];
          var newRelsInJoin := OrBit(relsInJoin, j);
          var isInOptCost1 := newRelsInJoin in optcost[i - 1];
          var isInOptCost2 := newRelsInJoin in optcost[i];
          ghost var before := optcost;
          ReachStep(costs, optcost, nRels, i, allSubsets, it, j, allNewSubsets, old(optcost));
          if !Bit(relsInJoin, j) && !isInOptCost1 && !isInOptCost2 {
            forall k | 0 <= k < i ensures LevelOk(costs, nRels, optcost, k) {
              LevelSame(costs, nRels, old(optcost), optcost, k);
            }
            CalculateOptJoin(newRelsInJoin, i);
            ReachNew(costs, before, optcost, nRels, i, allSubsets, it, j, allNewSubsets);
            allNewSubsets := allNewSubsets + [newRelsInJoin];
          }
          j := j + 1;
        }
        ReachRow(costs, optcost, nRels, i, allSubsets, it, allNewSubsets);
        it := it + 1;
      }
      ReachedAll(costs, old(optcost), optcost, nRels, i, allSubsets, allNewSubsets);
    }

    /** From the set of all relations backwards, each entry names the relation joined last. */
    method Backtrace() returns (relOrder: seq<QoRel>, costEst: real, tupleEst: real)
      requires Sized() && forall k :: 0 <= k < nRels ==> LevelOk(costs, nRels, optcost, k)
      ensures Planned(optcost, nRels, relOrder, costEst, tupleEst)
    {
      hide Subset, LevelOk, OrBit, AndNotBit, Bit, Finite;
      var relsInJoin := 0;
      var i := 0;
      NoneOfNone();
      while i < nRels
        invariant 0 <= i <= nRels && Subset(relsInJoin, i, i)
      {
        FullStep(relsInJoin, i);
        relsInJoin := OrBit(relsInJoin, i);
        i := i + 1;
      }
      InLevel(costs, nRels, optcost, nRels - 1, relsInJoin);
      costEst := optcost[nRels - 1][relsInJoin].cost;
      tupleEst := optcost[nRels - 1][relsInJoin].numTuples;
      relOrder := [];
      ghost var sets, all := [relsInJoin], relsInJoin;
      i := 0;
      while i < nRels
        invariant 0 <= i <= nRels && |relOrder| == i
        invariant Subset(relsInJoin, nRels, nRels - i)
        invariant Traced(optcost, nRels, relOrder, sets, relsInJoin)
        invariant sets[i] == all && (i == 0 ==> relsInJoin == all)
      {
        var index := nRels - i - 1;
        InLevel(costs, nRels, optcost, index, relsInJoin);
        var e := optcost[index][relsInJoin];
        TraceStep(costs, nRels, optcost, relOrder, sets, relsInJoin);
        relOrder := [QoRel(e.newRelIndex, e.indexAttr, e.indexCond)] + relOrder;
        sets := [e.joins] + sets;
        relsInJoin := e.joins;
        i := i + 1;
      }
      TracedAll(optcost, nRels, relOrder, sets, relsInJoin, costEst, tupleEst);
    }
  }

  /** e is the first of the cheapest ways to join the set with one of these relations last. */
  ghost predicate Best(c: Costs, level: map<nat, CostElem>, bitmap: nat, vec: seq<nat>, e: CostElem) {
    (forall r :: r in Rels(bitmap) ==> AndNotBit(bitmap, r) in level) && (forall r :: r in vec ==> r in Rels(bitmap)) &&
    e.newRelIndex in vec &&
    e == Elem(AndNotBit(bitmap, e.newRelIndex), e.newRelIndex, LastJoined(c, level, bitmap, e.newRelIndex)) &&
    forall r :: r in vec ==>
      e.cost <= LastJoined(c, level, bitmap, r).cost && (r < e.newRelIndex ==> e.cost < LastJoined(c, level, bitmap, r).cost)
  }

  lemma BestStep(c: Costs, level: map<nat, CostElem>, bitmap: nat, vec: seq<nat>, i: nat, e: CostElem)
    requires i < |vec| && (forall p, q :: 0 <= p < q < |vec| ==> vec[p] < vec[q])
    requires (forall r :: r in Rels(bitmap) ==> AndNotBit(bitmap, r) in level) && (forall r :: r in vec ==> r in Rels(bitmap))
    requires if i == 0 then AndNotBit(bitmap, vec[0]) in level && LastJoined(c, level, bitmap, vec[0]).cost < e.cost
             else Best(c, level, bitmap, vec[..i], e)
    ensures var r := vec[i];
            r in Rels(bitmap) && AndNotBit(bitmap, r) in level &&
            var n := LastJoined(c, level, bitmap, r);
            Best(c, level, bitmap, vec[..i + 1], if n.cost < e.cost then Elem(AndNotBit(bitmap, r), r, n) else e)
  {
    hide Bit, AndNotBit;
    assert vec[i] in vec;
    var n := LastJoined(c, level, bitmap, vec[i]);
    assert vec[..i + 1] == vec[..i] + [vec[i]];
    forall r | r in vec[..i] ensures r < vec[i] {
      var p := Position(vec[..i], r);
      assert vec[p] == r;
    }
  }

  lemma BestIsCheapest(c: Costs, n: nat, level: map<nat, CostElem>, bitmap: nat, vec: seq<nat>, k: nat, e: CostElem)
    requires 0 < k && Subset(bitmap, n, k) && forall r: nat :: r in vec <==> r in Rels(bitmap)
    requires vec != [] ==> Best(c, level, bitmap, vec, e)
    ensures Cheapest(c, level, bitmap, e)
  {
    var some: nat :| some in Rels(bitmap);
    assert some in vec;
  }

  lemma NoBases(c: Costs)
    ensures BaseLevel(c, 0, map[])
  {
    forall b: nat ensures !Subset(b, 0, 1) {
      if forall r :: r in Rels(b) ==> r < 0 {
        assert Rels(b) == {};
      }
    }
  }

  /** One more relation, one more set of one relation. */
  lemma NewSingle(i: nat, b: nat)
    requires i < WIDTH
    ensures Subset(b, i + 1, 1) <==> Subset(b, i, 1) || b == OrBit(0, i)
    ensures !Subset(OrBit(0, i), i, 1)
  {
    hide Bit, OrBit;
    SingleRel(i);
    assert i in Rels(OrBit(0, i));
    if Subset(b, i + 1, 1) && !Subset(b, i, 1) {
      var r: nat :| r in Rels(b) && r >= i;
      assert |Rels(b) - {r}| == 0;
      assert Rels(b) == {i};
      SameRels(b, OrBit(0, i));
    }
  }

  lemma AddBase(c: Costs, i: nat, level: map<nat, CostElem>)
    requires BaseLevel(c, i, level) && i < WIDTH
    ensures BaseLevel(c, i + 1, Put(level, OrBit(0, i), Elem(0, i, c.base(i))))
  {
    hide Bit, OrBit, Subset, Rels, Elem;
    SingleRel(i);
    var e := Elem(0, i, c.base(i));
    assert IsBase(c, OrBit(0, i), e) by { NewBase(c, i); }
    hide IsBase;
    var now := Put(level, OrBit(0, i), e);
    forall b: nat ensures b in now <==> Subset(b, i + 1, 1) {
      NewSingle(i, b);
    }
    forall b | b in now ensures IsBase(c, b, now[b]) {
      if b != OrBit(0, i) { assert now[b] == level[b]; }
    }
  }

  lemma NewBase(c: Costs, i: nat)
    requires i < WIDTH
    ensures IsBase(c, OrBit(0, i), Elem(0, i, c.base(i)))
  {
    hide Bit, OrBit, Rels;
    SingleRel(i);
    assert i in Rels(OrBit(0, i));
  }

  lemma SingleRel(r: nat)
    requires r < WIDTH
    ensures Rels(OrBit(0, r)) == {r} && OrBit(0, r) < Pow2(WIDTH)
  {
    NoRels();
    BitmapOps(0, r);
    BitmapBounds(0, r);
  }

  lemma SubsetsBelow(c: Costs, n: nat, t: Table, k: nat, bitmap: nat)
    requires 0 < k && LevelOk(c, n, t, k - 1) && Subset(bitmap, n, k + 1) && n <= WIDTH
    ensures forall r :: r in Rels(bitmap) ==> AndNotBit(bitmap, r) in t[k - 1]
  {
    hide Bit, AndNotBit;
    forall r | r in Rels(bitmap) ensures AndNotBit(bitmap, r) in t[k - 1] {
      RemoveOne(bitmap, n, k + 1, r);
    }
  }

  lemma NoSingles()
    ensures AllOnce([], 0, 1)
  {
    forall b: nat ensures !Subset(b, 0, 1) {
      if forall r :: r in Rels(b) ==> r < 0 {
        assert Rels(b) == {};
      }
    }
  }

  lemma MoreSingles(list: seq<nat>, i: nat)
    requires AllOnce(list, i, 1) && i < WIDTH
    ensures AllOnce(list + [OrBit(0, i)], i + 1, 1)
  {
    hide Bit, OrBit, Subset, Rels;
    NewSingle(i, OrBit(0, i));
    forall b: nat ensures Subset(b, i + 1, 1) <==> Subset(b, i, 1) || b == OrBit(0, i) {
      NewSingle(i, b);
    }
    assert OrBit(0, i) !in list;
  }

  // ----- one round

  /** b extends one of the first it sets by any relation, or set it by one of the first j. */
  ghost predicate ReachedBy(list: seq<nat>, it: nat, j: nat, n: nat, b: nat) {
    exists p: nat, r: nat :: Extends(list, it, j, n, b, p, r)
  }

  ghost predicate Extends(list: seq<nat>, it: nat, j: nat, n: nat, b: nat, p: nat, r: nat) {
    p < |list| && ((p < it && r < n) || (p == it && r < j)) && r !in Rels(list[p]) && b == OrBit(list[p], r)
  }

  /** What a round has done so far: the new list and the new level hold exactly the sets reached, each once,
      with the cheapest way to join it. */
  ghost predicate Reached(c: Costs, t: Table, n: nat, i: nat, list: seq<nat>, it: nat, j: nat, reached: seq<nat>) {
    0 < i < |t| && NoDup(reached) &&
    (forall b: nat :: b in reached <==> ReachedBy(list, it, j, n, b)) &&
    (forall b: nat :: b in t[i] <==> b in reached) &&
    (forall b :: b in reached ==> Subset(b, n, i + 1)) &&
    forall b :: b in t[i] ==> Cheapest(c, t[i - 1], b, t[i][b])
  }

  lemma NoneReached(c: Costs, t: Table, n: nat, i: nat, list: seq<nat>)
    requires 0 < i < |t| && t[i] == map[]
    ensures Reached(c, t, n, i, list, 0, 0, [])
  {}

  lemma ReachRow(c: Costs, t: Table, n: nat, i: nat, list: seq<nat>, it: nat, reached: seq<nat>)
    requires Reached(c, t, n, i, list, it, n, reached)
    ensures Reached(c, t, n, i, list, it + 1, 0, reached)
  {
    forall b: nat ensures ReachedBy(list, it, n, n, b) <==> ReachedBy(list, it + 1, 0, n, b) {
      if ReachedBy(list, it, n, n, b) {
        var p: nat, r: nat :| Extends(list, it, n, n, b, p, r);
        assert Extends(list, it + 1, 0, n, b, p, r);
      }
      if ReachedBy(list, it + 1, 0, n, b) {
        var p: nat, r: nat :| Extends(list, it + 1, 0, n, b, p, r);
        assert Extends(list, it, n, n, b, p, r);
      }
    }
  }

  /** The next relation gives one more set, or none if it is in the set already. */
  lemma ReachedOneMore(list: seq<nat>, it: nat, j: nat, n: nat, b: nat)
    requires it < |list| && j < n
    ensures ReachedBy(list, it, j + 1, n, b) <==>
            ReachedBy(list, it, j, n, b) || (j !in Rels(list[it]) && b == OrBit(list[it], j))
  {
    if ReachedBy(list, it, j + 1, n, b) {
      var p: nat, r: nat :| Extends(list, it, j + 1, n, b, p, r);
      if !(p == it && r == j) { assert Extends(list, it, j, n, b, p, r); }
    }
    if ReachedBy(list, it, j, n, b) {
      var p: nat, r: nat :| Extends(list, it, j, n, b, p, r);
      assert Extends(list, it, j + 1, n, b, p, r);
    }
    if j !in Rels(list[it]) && b == OrBit(list[it], j) {
      assert Extends(list, it, j + 1, n, b, it, j);
    }
  }

  lemma LevelSame(c: Costs, n: nat, t: Table, u: Table, k: nat)
    requires LevelOk(c, n, t, k) && |u| == |t| && u[k] == t[k] && (k > 0 ==> u[k - 1] == t[k - 1])
    ensures LevelOk(c, n, u, k)
  {}

  lemma ReachStep(c: Costs, t: Table, n: nat, i: nat, list: seq<nat>, it: nat, j: nat, reached: seq<nat>, was: Table)
    requires Reached(c, t, n, i, list, it, j, reached) && it < |list| && j < n <= WIDTH && AllOnce(list, n, i)
    requires LevelOk(c, n, was, i - 1) && |t| == |was| && forall k :: 0 <= k < |t| && k != i ==> t[k] == was[k]
    ensures LevelOk(c, n, t, i - 1)
    ensures var b := OrBit(list[it], j);
            if Bit(list[it], j) || b in t[i - 1] || b in t[i] then Reached(c, t, n, i, list, it, j + 1, reached)
            else Subset(b, n, i + 1)
  {
    hide Bit, OrBit, AndNotBit, Cheapest;
    LevelSame(c, n, was, t, i - 1);
    assert list[it] in list;
    var b := OrBit(list[it], j);
    if j !in Rels(list[it]) {
      AddOne(list[it], n, i, j);
      LevelSizes(c, n, t, i - 1, b);
    }
    forall d: nat ensures ReachedBy(list, it, j + 1, n, d) <==>
                          ReachedBy(list, it, j, n, d) || (j !in Rels(list[it]) && d == OrBit(list[it], j))
    {
      ReachedOneMore(list, it, j, n, d);
    }
  }

  lemma LevelSizes(c: Costs, n: nat, t: Table, k: nat, b: nat)
    requires LevelOk(c, n, t, k)
    ensures b in t[k] <==> Subset(b, n, k + 1)
  {}

  lemma ReachNew(c: Costs, t: Table, u: Table, n: nat, i: nat, list: seq<nat>, it: nat, j: nat, reached: seq<nat>)
    requires Reached(c, t, n, i, list, it, j, reached) && it < |list| && j < n <= WIDTH
    requires var b := OrBit(list[it], j);
             !Bit(list[it], j) && b !in t[i] && Subset(b, n, i + 1) && |u| == |t| &&
             b in u[i] && u == t[i := Put(t[i], b, u[i][b])] && Cheapest(c, u[i - 1], b, u[i][b])
    ensures Reached(c, u, n, i, list, it, j + 1, reached + [OrBit(list[it], j)])
  {
    hide Bit, OrBit, AndNotBit, Cheapest, Subset;
    var b := OrBit(list[it], j);
    forall d: nat ensures ReachedBy(list, it, j + 1, n, d) <==> ReachedBy(list, it, j, n, d) || d == b {
      ReachedOneMore(list, it, j, n, d);
    }
  }

  /** A round reaches every set of the next size. */
  lemma ReachedAll(c: Costs, was: Table, t: Table, n: nat, i: nat, list: seq<nat>, reached: seq<nat>)
    requires Reached(c, t, n, i, list, |list|, 0, reached) && AllOnce(list, n, i) && n <= WIDTH
    requires |t| == |was| && (forall k :: 0 <= k < |t| && k != i ==> t[k] == was[k]) && forall k :: 0 <= k < i ==> LevelOk(c, n, was, k)
    ensures AllOnce(reached, n, i + 1) && forall k :: 0 <= k <= i ==> LevelOk(c, n, t, k)
  {
    hide Bit, OrBit, AndNotBit, Cheapest;
    forall b: nat | Subset(b, n, i + 1) ensures b in reached {
      var r: nat :| r in Rels(b);
      RemoveOne(b, n, i + 1, r);
      PutBack(b, r);
      BitmapOps(b, r);
      var p := Position(list, AndNotBit(b, r));
      assert Extends(list, |list|, 0, n, b, p, r);
    }
    forall k | 0 <= k < i ensures LevelOk(c, n, t, k) {
      LevelSame(c, n, was, t, k);
    }
  }

  lemma LevelZero(c: Costs, n: nat, t: Table)
    requires |t| > 0 && BaseLevel(c, n, t[0])
    ensures LevelOk(c, n, t, 0)
  {}

  // ----- reading the order back

  lemma NoneOfNone()
    ensures Subset(0, 0, 0)
  {
    NoRels();
  }

  lemma FullStep(bitmap: nat, i: nat)
    requires Subset(bitmap, i, i) && i < WIDTH
    ensures Subset(OrBit(bitmap, i), i + 1, i + 1)
  {
    BitmapOps(bitmap, i);
    BitmapBounds(bitmap, i);
    assert i !in Rels(bitmap);
  }

  lemma InLevel(c: Costs, n: nat, t: Table, k: nat, b: nat)
    requires LevelOk(c, n, t, k) && Subset(b, n, k + 1)
    ensures b in t[k]
  {}

  /** The entries that order and sets lead through, from the set b on: each joins its relation to the set before. */
  ghost predicate Traced(t: Table, n: nat, order: seq<QoRel>, sets: seq<nat>, b: nat) {
    |order| <= n == |t| && |sets| == |order| + 1 && sets[0] == b &&
    forall q :: 0 <= q < |order| ==> TracedAt(t, n - |order| + q, order[q], sets[q], sets[q + 1])
  }

  ghost predicate TracedAt(t: Table, k: nat, o: QoRel, before: nat, after: nat) {
    k < |t| && after in t[k] &&
    t[k][after].joins == before && t[k][after].newRelIndex == o.relIdx &&
    t[k][after].indexAttr == o.indexAttr && t[k][after].indexCond == o.indexCond &&
    o.relIdx !in Rels(before) && Rels(after) == Rels(before) + {o.relIdx}
  }

  lemma TraceStep(c: Costs, n: nat, t: Table, order: seq<QoRel>, sets: seq<nat>, b: nat)
    requires |t| == n <= WIDTH && |order| < n && Subset(b, n, n - |order|) && LevelOk(c, n, t, n - |order| - 1)
    requires Traced(t, n, order, sets, b) && b in t[n - |order| - 1]
    ensures var e := t[n - |order| - 1][b];
            Subset(e.joins, n, n - |order| - 1) &&
            Traced(t, n, [QoRel(e.newRelIndex, e.indexAttr, e.indexCond)] + order, [e.joins] + sets, e.joins)
  {
    hide Bit, OrBit, AndNotBit;
    var k := n - |order| - 1;
    var e := t[k][b];
    var o := QoRel(e.newRelIndex, e.indexAttr, e.indexCond);
    TraceEntry(c, n, t, k, b);
    assert TracedAt(t, k, o, e.joins, b);
    hide LevelOk, Subset, TracedAt, Rels;
    TraceOne(n, t, order, sets, b, o, e.joins);
  }

  lemma TraceOne(n: nat, t: Table, order: seq<QoRel>, sets: seq<nat>, b: nat, o: QoRel, before: nat)
    requires Traced(t, n, order, sets, b) && |order| < n && TracedAt(t, n - |order| - 1, o, before, b)
    ensures Traced(t, n, [o] + order, [before] + sets, before)
  {
    hide TracedAt;
    var order', sets' := [o] + order, [before] + sets;
    forall q | 0 <= q < |order'| ensures TracedAt(t, n - |order'| + q, order'[q], sets'[q], sets'[q + 1]) {
      if q > 0 { assert TracedAt(t, n - |order| + (q - 1), order[q - 1], sets[q - 1], sets[q]); }
    }
  }

  lemma TraceEntry(c: Costs, n: nat, t: Table, k: nat, b: nat)
    requires LevelOk(c, n, t, k) && Subset(b, n, k + 1) && b in t[k] && n <= WIDTH
    ensures var e := t[k][b];
            Subset(e.joins, n, k) && e.newRelIndex !in Rels(e.joins) && Rels(b) == Rels(e.joins) + {e.newRelIndex}
  {
    hide Bit, OrBit, AndNotBit;
    var e := t[k][b];
    var r := e.newRelIndex;
    if k == 0 {
      NoRels();
      assert IsBase(c, b, e);
      assert |Rels(b) - {r}| == 0;
    } else {
      assert Cheapest(c, t[k - 1], b, e);
      RemoveOne(b, n, k + 1, r);
      BitmapOps(b, r);
    }
  }

  /** The order is a permutation of the relations, and the table entry of each of its prefixes is where the
      prefix's last relation comes from; the estimates are those of the whole set. */
  ghost predicate Planned(t: Table, n: nat, order: seq<QoRel>, cost: real, tuples: real) {
    |order| == n && (forall q :: 0 <= q < n ==> order[q].relIdx < n) &&
    (forall p, q :: 0 <= p < q < n ==> order[p].relIdx != order[q].relIdx) &&
    exists sets: seq<nat> :: PlannedBy(t, n, order, cost, tuples, sets)
  }

  ghost predicate PlannedBy(t: Table, n: nat, order: seq<QoRel>, cost: real, tuples: real, sets: seq<nat>) {
    0 < n && |sets| == n + 1 && |order| == n && Rels(sets[0]) == {} && Traced(t, n, order, sets, sets[0]) &&
    n - 1 < |t| && sets[n] in t[n - 1] && cost == t[n - 1][sets[n]].cost && tuples == t[n - 1][sets[n]].numTuples
  }

  /** The sets along a trace only grow, so no relation is joined twice. */
  lemma {:induction false} TraceGrows(t: Table, n: nat, order: seq<QoRel>, sets: seq<nat>, b: nat, p: nat, q: nat)
    requires Traced(t, n, order, sets, b) && p < q <= |order|
    ensures order[p].relIdx in Rels(sets[q]) && Rels(sets[p]) <= Rels(sets[q])
  {
    assert TracedAt(t, n - |order| + (q - 1), order[q - 1], sets[q - 1], sets[q]);
    if p < q - 1 { TraceGrows(t, n, order, sets, b, p, q - 1); }
  }

  lemma TracedAll(t: Table, n: nat, order: seq<QoRel>, sets: seq<nat>, b: nat, cost: real, tuples: real)
    requires 0 < n == |order| && Traced(t, n, order, sets, b) && Subset(b, n, 0)
    requires sets[n] in t[n - 1] && Subset(sets[n], n, n) && cost == t[n - 1][sets[n]].cost && tuples == t[n - 1][sets[n]].numTuples
    ensures Planned(t, n, order, cost, tuples)
  {
    forall p, q | 0 <= p < q < n ensures order[p].relIdx != order[q].relIdx {
      TraceGrows(t, n, order, sets, b, p, q);
      assert TracedAt(t, n - |order| + q, order[q], sets[q], sets[q + 1]);
    }
    forall q | 0 <= q < n ensures order[q].relIdx < n {
      TraceGrows(t, n, order, sets, b, q, n);
    }
    assert PlannedBy(t, n, order, cost, tuples, sets);
  }

  function Indices(order: seq<QoRel>): (r: seq<nat>)
    ensures |r| == |order| && forall q :: 0 <= q < |order| ==> r[q] == order[q].relIdx
  {
    seq(|order|, q requires 0 <= q < |order| => order[q].relIdx)
  }

  /** Every relation is in the order once. */
  lemma PlannedIsPermutation(t: Table, n: nat, order: seq<QoRel>, cost: real, tuples: real)
    requires Planned(t, n, order, cost, tuples)
    ensures NoDup(Indices(order)) && forall r: nat :: r in Indices(order) <==> r < n
  {
    AllListed(Indices(order), n);
  }

  // ----- the answer is determined

  /** Every level of the table holds what LevelOk asks for. */
  ghost predicate Solved(c: Costs, n: nat, t: Table) {
    |t| == n && forall k :: 0 <= k < n ==> LevelOk(c, n, t, k)
  }

  /** The answer Compute reads back from the table it filled. */
  ghost predicate Answer(c: Costs, n: nat, order: seq<QoRel>, cost: real, tuples: real) {
    exists t: Table :: Solved(c, n, t) && Planned(t, n, order, cost, tuples)
  }

  lemma SameBase(c: Costs, n: nat, b: nat, e: CostElem, f: CostElem)
    requires Subset(b, n, 1) && IsBase(c, b, e) && IsBase(c, b, f)
    ensures e == f
  {
    hide Bit;
    if e.newRelIndex != f.newRelIndex { SubsetSize({e.newRelIndex, f.newRelIndex}, Rels(b)); }
  }

  lemma SameCheapest(c: Costs, level: map<nat, CostElem>, b: nat, e: CostElem, f: CostElem)
    requires Cheapest(c, level, b, e) && Cheapest(c, level, b, f)
    ensures e == f
  {
    hide Bit, AndNotBit, Rels;
    var x, y := LastJoined(c, level, b, e.newRelIndex), LastJoined(c, level, b, f.newRelIndex);
    assert e.cost == x.cost && f.cost == y.cost && e.cost <= y.cost && f.cost <= x.cost;
  }

  /** The costs leave no choice in filling a level. */
  lemma {:induction false} SameLevel(c: Costs, n: nat, t: Table, u: Table, k: nat)
    requires Solved(c, n, t) && Solved(c, n, u) && k < n
    ensures t[k] == u[k]
  {
    hide Subset, Cheapest, IsBase;
    assert LevelOk(c, n, t, k) && LevelOk(c, n, u, k);
    if k > 0 { SameLevel(c, n, t, u, k - 1); }
    forall b ensures b in t[k] <==> b in u[k] {}
    forall b | b in t[k] ensures t[k][b] == u[k][b] {
      if k == 0 { SameBase(c, n, b, t[0][b], u[0][b]); } else { SameCheapest(c, t[k - 1], b, t[k][b], u[k][b]); }
    }
  }

  lemma OneTable(c: Costs, n: nat, t: Table, u: Table)
    requires Solved(c, n, t) && Solved(c, n, u)
    ensures t == u
  {
    hide LevelOk;
    forall k | 0 <= k < n ensures t[k] == u[k] { SameLevel(c, n, t, u, k); }
  }

  /** A trace is determined by the set it ends in. */
  lemma {:induction false} SameTrace(t: Table, n: nat, order: seq<QoRel>, sets: seq<nat>, q: seq<QoRel>, qsets: seq<nat>, i: nat)
    requires |order| == |q| == n && |sets| == |qsets| == n + 1 && sets[n] == qsets[n] && i <= n
    requires Traced(t, n, order, sets, sets[0]) && Traced(t, n, q, qsets, qsets[0])
    ensures sets[i] == qsets[i] && (i < n ==> order[i] == q[i])
    decreases n - i
  {
    hide Rels;
    if i < n {
      SameTrace(t, n, order, sets, q, qsets, i + 1);
      assert TracedAt(t, n - |order| + i, order[i], sets[i], sets[i + 1]);
      assert TracedAt(t, n - |q| + i, q[i], qsets[i], qsets[i + 1]);
    }
  }

  lemma WholeSet(n: nat, b: nat)
    requires Subset(b, n, n)
    ensures Rels(b) == Below(n)
  {
    hide Bit;
    SubsetSize(Rels(b), Below(n));
  }

  /** The optimizer's order, the access paths it names and the estimates follow from the costs. */
  lemma OneAnswer(c: Costs, n: nat, order: seq<QoRel>, cost: real, tuples: real, q: seq<QoRel>, qcost: real, qtuples: real)
    requires Answer(c, n, order, cost, tuples) && Answer(c, n, q, qcost, qtuples)
    ensures order == q && cost == qcost && tuples == qtuples
  {
    hide Rels, Traced, BaseLevel, Cheapest, Bit;
    var t: Table :| Solved(c, n, t) && Planned(t, n, order, cost, tuples);
    var u: Table :| Solved(c, n, u) && Planned(u, n, q, qcost, qtuples);
    OneTable(c, n, t, u);
    var sets: seq<nat> :| PlannedBy(t, n, order, cost, tuples, sets);
    var qsets: seq<nat> :| PlannedBy(t, n, q, qcost, qtuples, qsets);
    assert LevelOk(c, n, t, n - 1);
    LastSet(c, n, t, sets[n]);
    LastSet(c, n, t, qsets[n]);
    SameRels(sets[n], qsets[n]);
    forall i | 0 <= i < n ensures order[i] == q[i] { SameTrace(t, n, order, sets, q, qsets, i); }
  }

  lemma LastSet(c: Costs, n: nat, t: Table, b: nat)
    requires 0 < n && LevelOk(c, n, t, n - 1) && b in t[n - 1]
    ensures b < Pow2(WIDTH) && Rels(b) == Below(n)
  {
    hide Rels, Bit;
    assert Subset(b, n, n);
    WholeSet(n, b);
  }

  // ----- optimality

  /** Between two ways to join the others that are estimated to give the same tuples, with the same statistics, the
      cheaper one never makes joining the last relation dearer. */
  ghost predicate Monotone(c: Costs) {
    forall e: CostElem, f: CostElem, s, r :: e.cost <= f.cost && e.numTuples == f.numTuples && e.attrs == f.attrs ==>
      c.join(e, s, r).cost <= c.join(f, s, r).cost
  }

  /** How many tuples a set of relations is estimated to give, and its statistics, do not depend on the order. */
  ghost predicate OrderFree(c: Costs, n: nat, size: nat -> (real, Stats)) {
    (forall r: nat :: r < n ==> (c.base(r).numTuples, c.base(r).attrs) == size(OrBit(0, r))) &&
    forall e: CostElem, s: nat, r: nat :: r < n && s < Pow2(WIDTH) && r !in Rels(s) && (e.numTuples, e.attrs) == size(s) ==>
      (c.join(e, s, r).numTuples, c.join(e, s, r).attrs) == size(OrBit(s, r))
  }

  /** CalculateJoin's cost: for every tuple of the others a scan of the new relation or, if some condition has an index for
      it, the tuples the index gives, whichever is cheaper. */
  ghost predicate SourceFormula(c: Costs, index: (nat, nat) -> Option<real>) {
    forall e: CostElem, s, r ::
      c.join(e, s, r).cost ==
      var file := e.cost + e.numTuples * (1.0 + c.base(r).cost);
      if index(s, r).None? then file
      else var ind := e.cost + e.numTuples * index(s, r).value; if file < ind then file else ind
  }

  lemma SourceMonotone(c: Costs, index: (nat, nat) -> Option<real>)
    requires SourceFormula(c, index)
    ensures Monotone(c)
  {}

  lemma {:induction false} PrefixSets(n: nat, order: seq<nat>, sets: seq<nat>, k: nat)
    requires Prefixes(n, order, sets) && k <= |order|
    ensures Subset(sets[k], n, k)
  {
    hide Bit, OrBit, AndNotBit;
    if k == 0 {
      NoRels();
    } else {
      PrefixSets(n, order, sets, k - 1);
      AddOne(sets[k - 1], n, k - 1, order[k - 1]);
    }
  }

  lemma {:induction false} JoinedSize(c: Costs, n: nat, size: nat -> (real, Stats), order: seq<nat>, sets: seq<nat>, k: nat)
    requires OrderFree(c, n, size) && Prefixes(n, order, sets) && 0 < k <= |order|
    ensures (Joined(c, order, sets, k).numTuples, Joined(c, order, sets, k).attrs) == size(sets[k])
  {
    hide Bit, OrBit, Rels;
    if k > 1 {
      JoinedSize(c, n, size, order, sets, k - 1);
      PrefixSets(n, order, sets, k - 1);
    }
  }

  /** The table's entry for a set is the estimate of an order of the set, and no left-deep order is estimated cheaper. */
  lemma {:induction false} NoOrderIsCheaper(c: Costs, n: nat, t: Table, size: nat -> (real, Stats), order: seq<nat>, sets: seq<nat>, k: nat)
    requires Monotone(c) && OrderFree(c, n, size) && Prefixes(n, order, sets) && 0 < k <= |order|
    requires |t| == n && forall i :: 0 <= i < n ==> LevelOk(c, n, t, i)
    ensures sets[k] in t[k - 1] && Attained(c, n, k, sets[k], t[k - 1][sets[k]])
    ensures t[k - 1][sets[k]].cost <= Joined(c, order, sets, k).cost
  {
    hide Bit, OrBit, AndNotBit, Subset, Attained, OrderFree, Rels, LevelOk, Cheapest;
    PrefixSets(n, order, sets, k);
    InLevel(c, n, t, k - 1, sets[k]);
    EntryAttained(c, n, t, k - 1, sets[k]);
    if k == 1 {
      FirstEntry(c, n, t, order, sets);
    } else {
      NoOrderIsCheaper(c, n, t, size, order, sets, k - 1);
      LastEntry(c, n, t, size, order, sets, k);
    }
  }

  lemma FirstEntry(c: Costs, n: nat, t: Table, order: seq<nat>, sets: seq<nat>)
    requires Prefixes(n, order, sets) && 0 < |order| && |t| == n && LevelOk(c, n, t, 0) && sets[1] in t[0]
    ensures t[0][sets[1]].cost <= Joined(c, order, sets, 1).cost
  {
    hide Bit, OrBit, AndNotBit, Subset;
    BitmapOps(0, order[0]);
    NoRels();
    assert IsBase(c, sets[1], t[0][sets[1]]);
  }

  lemma LastEntry(c: Costs, n: nat, t: Table, size: nat -> (real, Stats), order: seq<nat>, sets: seq<nat>, k: nat)
    requires Monotone(c) && OrderFree(c, n, size) && Prefixes(n, order, sets) && 1 < k <= |order|
    requires |t| == n && forall i :: 0 <= i < n ==> LevelOk(c, n, t, i)
    requires sets[k] in t[k - 1] && sets[k - 1] in t[k - 2] && t[k - 2][sets[k - 1]].cost <= Joined(c, order, sets, k - 1).cost
    ensures t[k - 1][sets[k]].cost <= Joined(c, order, sets, k).cost
  {
    hide Bit, OrBit, AndNotBit, Subset, OrderFree, Rels, LevelOk, Monotone;
    var b, s, r := sets[k], sets[k - 1], order[k - 1];
    PrefixSets(n, order, sets, k - 1);
    AddOne(s, n, k - 1, r);
    AddsBit(s, n, k - 1, r);
    CheapestAt(c, n, t, k - 1, b, r);
    var e, f := t[k - 2][s], Joined(c, order, sets, k - 1);
    EntrySize(c, n, t, size, k - 2, s);
    JoinedSize(c, n, size, order, sets, k - 1);
    MonotoneAt(c, e, f, s, r);
  }

  lemma AddsBit(s: nat, n: nat, k: nat, r: nat)
    requires Subset(s, n, k) && r < n <= WIDTH
    ensures r in Rels(OrBit(s, r))
  {
    BitmapOps(s, r);
  }

  lemma MonotoneAt(c: Costs, e: CostElem, f: CostElem, s: nat, r: nat)
    requires Monotone(c) && e.cost <= f.cost && e.numTuples == f.numTuples && e.attrs == f.attrs
    ensures c.join(e, s, r).cost <= c.join(f, s, r).cost
  {}

  lemma EntrySize(c: Costs, n: nat, t: Table, size: nat -> (real, Stats), k: nat, b: nat)
    requires OrderFree(c, n, size) && (forall i :: 0 <= i <= k ==> LevelOk(c, n, t, i)) && k < |t| && b in t[k] && n <= WIDTH
    ensures (t[k][b].numTuples, t[k][b].attrs) == size(b)
  {
    hide OrderFree, LevelOk, Prefixes, Joined;
    EntryAttained(c, n, t, k, b);
    var order: seq<nat>, sets: seq<nat> :| AttainedBy(c, n, k + 1, b, t[k][b], order, sets);
    AttainedSize(c, n, size, k + 1, b, t[k][b], order, sets);
  }

  lemma AttainedSize(c: Costs, n: nat, size: nat -> (real, Stats), k: nat, b: nat, e: CostElem, order: seq<nat>, sets: seq<nat>)
    requires OrderFree(c, n, size) && AttainedBy(c, n, k, b, e, order, sets)
    ensures (e.numTuples, e.attrs) == size(b)
  {
    hide OrderFree, Joined;
    JoinedSize(c, n, size, order, sets, k);
  }

  lemma CheapestAt(c: Costs, n: nat, t: Table, k: nat, b: nat, r: nat)
    requires LevelOk(c, n, t, k) && 0 < k && b in t[k] && r in Rels(b)
    ensures AndNotBit(b, r) in t[k - 1] && t[k][b].cost <= LastJoined(c, t[k - 1], b, r).cost
  {
    assert Cheapest(c, t[k - 1], b, t[k][b]);
  }

  /** So for the costs CalculateJoin computes, wherever its tuple estimates do not depend on the order. */
  lemma SourceOptimal(c: Costs, index: (nat, nat) -> Option<real>, n: nat, t: Table, size: nat -> (real, Stats), order: seq<nat>, sets: seq<nat>)
    requires SourceFormula(c, index) && OrderFree(c, n, size) && Prefixes(n, order, sets) && 0 < n == |order|
    requires |t| == n && forall i :: 0 <= i < n ==> LevelOk(c, n, t, i)
    ensures sets[n] in t[n - 1] && Attained(c, n, n, sets[n], t[n - 1][sets[n]])
    ensures t[n - 1][sets[n]].cost <= Joined(c, order, sets, n).cost
  {
    hide SourceFormula, OrderFree, Prefixes, LevelOk, Attained, Joined;
    SourceMonotone(c, index);
    OrderSets(n, order, sets);
    NoOrderIsCheaper(c, n, t, size, order, sets, n);
  }

  lemma OrderSets(n: nat, order: seq<nat>, sets: seq<nat>)
    requires Prefixes(n, order, sets)
    ensures |sets| == |order| + 1
  {}

  // ----- an instance: a query without conditions

  /** The product of the numbers of tuples of the relations of b below w. */
  function Product(tuples: nat -> real, b: nat, w: nat): real {
    if w == 0 then 1.0 else (if Bit(b, w - 1) then tuples(w - 1) else 1.0) * Product(tuples, b, w - 1)
  }

  lemma {:induction false} ProductSame(tuples: nat -> real, b: nat, d: nat, w: nat)
    requires forall i: nat :: i < w ==> (Bit(b, i) <==> Bit(d, i))
    ensures Product(tuples, b, w) == Product(tuples, d, w)
  {
    hide Bit;
    if w > 0 { ProductSame(tuples, b, d, w - 1); }
  }

  lemma {:induction false} ProductAdd(tuples: nat -> real, b: nat, r: nat, w: nat)
    requires r < w <= WIDTH && !Bit(b, r)
    ensures Product(tuples, OrBit(b, r), w) == tuples(r) * Product(tuples, b, w)
  {
    hide Bit, OrBit;
    forall i: nat ensures Bit(OrBit(b, r), i) <==> Bit(b, i) || i == r { BitOps(b, r, i); }
    if r == w - 1 {
      ProductSame(tuples, OrBit(b, r), b, w - 1);
    } else {
      ProductAdd(tuples, b, r, w - 1);
      Swap(if Bit(b, w - 1) then tuples(w - 1) else 1.0, tuples(r), Product(tuples, b, w - 1));
    }
  }

  lemma Swap(x: real, y: real, z: real)
    ensures x * (y * z) == y * (x * z)
  {
    assert x * (y * z) == (x * y) * z && y * (x * z) == (y * x) * z && x * y == y * x;
  }

  lemma {:induction false} ProductNone(tuples: nat -> real, w: nat)
    ensures Product(tuples, 0, w) == 1.0
  {
    hide Bit;
    NoBits(w);
    if w > 0 {
      NoBits(w - 1);
      ProductNone(tuples, w - 1);
    }
  }

  /** What the source computes for a query without conditions, over relations of so many pages and tuples. */
  function ProductCosts(pages: nat -> real, tuples: nat -> real, stats: nat -> AttrStat, fltMax: real): Costs {
    Costs((r: nat) => Estimate(pages(r), tuples(r), -1, -1, map[r := stats(r)]),
          (e: CostElem, s: nat, r: nat) =>
            Estimate(e.cost + e.numTuples * (1.0 + pages(r)), tuples(r) * e.numTuples, -1, -1, e.attrs[r := stats(r)]),
          fltMax)
  }

  ghost function StatsOf(stats: nat -> AttrStat, b: nat): Stats {
    map r: nat | r in Rels(b) :: stats(r)
  }

  ghost function SizeOf(tuples: nat -> real, stats: nat -> AttrStat): nat -> (real, Stats) {
    (b: nat) => (Product(tuples, b, WIDTH), StatsOf(stats, b))
  }

  ghost function NoIndex(): (nat, nat) -> Option<real> {
    (s: nat, r: nat) => None
  }

  /** There the hypotheses of SourceOptimal hold. */
  lemma ProductOrderFree(pages: nat -> real, tuples: nat -> real, stats: nat -> AttrStat, fltMax: real, n: nat)
    requires n <= WIDTH
    ensures var c := ProductCosts(pages, tuples, stats, fltMax);
            SourceFormula(c, NoIndex()) && OrderFree(c, n, SizeOf(tuples, stats))
  {
    hide Rels, OrBit, Product, StatsOf;
    var c, size := ProductCosts(pages, tuples, stats, fltMax), SizeOf(tuples, stats);
    forall e: CostElem, s: nat, r: nat | r < n && s < Pow2(WIDTH) && r !in Rels(s) && (e.numTuples, e.attrs) == size(s)
      ensures (c.join(e, s, r).numTuples, c.join(e, s, r).attrs) == size(OrBit(s, r))
    {
      JoinSize(pages, tuples, stats, fltMax, e, s, r);
    }
    forall r: nat | r < n ensures (c.base(r).numTuples, c.base(r).attrs) == size(OrBit(0, r)) {
      SizeOne(tuples, stats, r);
    }
  }

  lemma JoinSize(pages: nat -> real, tuples: nat -> real, stats: nat -> AttrStat, fltMax: real, e: CostElem, s: nat, r: nat)
    requires r < WIDTH && r !in Rels(s) && (e.numTuples, e.attrs) == SizeOf(tuples, stats)(s)
    ensures var f := ProductCosts(pages, tuples, stats, fltMax).join(e, s, r);
            (f.numTuples, f.attrs) == SizeOf(tuples, stats)(OrBit(s, r))
  {
    hide Rels, OrBit, Product, StatsOf;
    SizeAdds(tuples, stats, s, r);
    var x, y := e.numTuples, Product(tuples, s, WIDTH);
    assert x == y && e.attrs == StatsOf(stats, s);
    assert tuples(r) * x == tuples(r) * y;
    var f := ProductCosts(pages, tuples, stats, fltMax).join(e, s, r);
    assert f.numTuples == tuples(r) * x;
    assert f.attrs == e.attrs[r := stats(r)];
    var z := SizeOf(tuples, stats)(OrBit(s, r));
    assert f.numTuples == z.0 && f.attrs == z.1;
  }

  lemma SizeAdds(tuples: nat -> real, stats: nat -> AttrStat, s: nat, r: nat)
    requires r < WIDTH && r !in Rels(s)
    ensures Product(tuples, OrBit(s, r), WIDTH) == tuples(r) * Product(tuples, s, WIDTH)
    ensures StatsOf(stats, OrBit(s, r)) == StatsOf(stats, s)[r := stats(r)]
  {
    hide Bit, OrBit, Product;
    ProductAdd(tuples, s, r, WIDTH);
    BitmapOps(s, r);
  }

  lemma SizeOne(tuples: nat -> real, stats: nat -> AttrStat, r: nat)
    requires r < WIDTH
    ensures Product(tuples, OrBit(0, r), WIDTH) == tuples(r) && StatsOf(stats, OrBit(0, r)) == map[r := stats(r)]
  {
    hide Bit, OrBit, Product;
    NoRels();
    ProductNone(tuples, WIDTH);
    SizeAdds(tuples, stats, 0, r);
    assert StatsOf(stats, 0) == map[];
  }
}
