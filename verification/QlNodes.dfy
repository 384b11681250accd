/** The query nodes as the iterators they are: OpenIt, GetNext and CloseIt on a tree of relation, select,
    join and project nodes, each with its own buffer and position. */
module QlNodes {
  import opened Options
  import opened QlPlan

  datatype Next = Tuple(data: Bytes) | EndOfInput

  function Depth(p: Plan): nat {
    match p
    case Rel(_) => 0
    case Sel(q, _) => 1 + Depth(q)
    case Join(q, _, _) => 1 + Depth(q)
    case Proj(q, _) => 1 + Depth(q)
  }

  function WidthOf(cat: Catalog, p: Plan): nat
    requires PlanOk(cat, p)
  {
    Width(cat.lens, Attrs(cat, p))
  }

  /** What a node has left to return, from its own state and what its children have left. */
  ghost predicate Left(cat: Catalog, cmp: Comparator, p: Plan, pos: nat, gotFirstTuple: bool, buffer: Bytes,
                       todo: seq<Bytes>, outer: seq<Bytes>, inner: seq<Bytes>)
    requires PlanOk(cat, p) && RelationsOk(cat)
  {
    match p
    case Rel(r) => pos <= |cat.rels[r].rows| && todo == cat.rels[r].rows[pos..]
    case Sel(q, cs) => AllWide(outer, WidthOf(cat, q)) && todo == Filter(cmp, cs, outer, WidthOf(cat, q))
    case Proj(q, keep) => AllWide(outer, WidthOf(cat, q)) && todo == ReconstructAll(cat.lens, Attrs(cat, q), outer, keep)
    case Join(q, r, cs) =>
      var rows, m, n := cat.rels[r].rows, WidthOf(cat, q), WidthOf(cat, p);
      AllInTuple(cs, n) && m <= n && AllWide(rows, n - m) && AllWide(outer, m) && AllWide(inner, n - m) &&
      if gotFirstTuple then
        m <= |buffer| && todo == JoinOne(cmp, cs, buffer[..m], inner, n) + JoinAll(cmp, cs, outer, rows, m, n)
      else inner == rows && todo == JoinAll(cmp, cs, outer, rows, m, n)
  }

  lemma LeftAtStart(cat: Catalog, cmp: Comparator, p: Plan, buffer: Bytes, outer: seq<Bytes>, inner: seq<Bytes>)
    requires PlanOk(cat, p) && RelationsOk(cat)
    requires p.Join? ==> p.r < |cat.rels| && inner == cat.rels[p.r].rows
    requires !p.Rel? ==> PlanOk(cat, p.prev) && outer == Rows(cat, cmp, p.prev)
    ensures Left(cat, cmp, p, 0, false, buffer, Rows(cat, cmp, p), outer, inner)
  {
    if p.Join? {
      assert RelationOk(cat, cat.rels[p.r]) && PlanOk(cat, p.prev);
      WidthJoin(cat.lens, Attrs(cat, p.prev), AttrsOf(cat, p.r));
    }
  }

  lemma PrevOk(cat: Catalog, p: Plan)
    requires PlanOk(cat, p) && RelationsOk(cat)
    ensures !p.Rel? ==> PlanOk(cat, p.prev)
    ensures p.Join? ==> p.r < |cat.rels| && PlanOk(cat, Rel(p.r))
  {
    if p.Join? { assert RelationOk(cat, cat.rels[p.r]); }
  }

  lemma RelRows(cat: Catalog, cmp: Comparator, r: nat)
    requires RelationsOk(cat) && PlanOk(cat, Rel(r))
    ensures r < |cat.rels| && Rows(cat, cmp, Rel(r)) == cat.rels[r].rows
  {}

  /** The node has the children its plan asks for; todo is what GetNext will still return. */
  class Node {
    const cat: Catalog
    const cmp: Comparator
    const plan: Plan
    const prev: Node?
    const inner: Node?
    var pos: nat
    var gotFirstTuple: bool
    var buffer: Bytes
    ghost const repr: set<Node>
    ghost var isOpen: bool
    ghost var todo: seq<Bytes>

    /** The tree below this node, with no node in it twice. */
    ghost predicate Shape()
      decreases repr
    {
      this in repr && PlanOk(cat, plan) && RelationsOk(cat) &&
      (plan.Rel? <==> prev == null) && (plan.Join? <==> inner != null) &&
      repr == {this} + (if prev == null then {} else prev.repr) + (if inner == null then {} else inner.repr) &&
      (prev != null ==>
         prev in repr && this !in prev.repr && prev.plan == plan.prev && prev.cat == cat && prev.cmp == cmp && prev.Shape()) &&
      (inner != null ==>
         inner in repr && this !in inner.repr && inner.plan == Rel(plan.r) && inner.cat == cat && inner.cmp == cmp &&
         prev.repr !! inner.repr && inner.Shape())
    }

    lemma Parts()
      requires Shape()
      ensures this in repr && PlanOk(cat, plan) && RelationsOk(cat)
      ensures (plan.Rel? <==> prev == null) && (plan.Join? <==> inner != null)
      ensures prev != null ==>
                prev.Shape() && this !in prev.repr && prev.repr < repr && prev in repr && prev in prev.repr &&
                prev.plan == plan.prev && prev.cat == cat && prev.cmp == cmp
      ensures inner != null ==>
                inner.Shape() && this !in inner.repr && inner.repr < repr && inner in repr && inner in inner.repr &&
                prev.repr !! inner.repr && inner.plan == Rel(plan.r) && inner.cat == cat && inner.cmp == cmp
    {}

    ghost predicate Valid()
      requires Shape()
      reads repr
      decreases repr
    {
      isOpen &&
      Left(cat, cmp, plan, pos, gotFirstTuple, buffer, todo, if prev == null then [] else prev.todo, if inner == null then [] else inner.todo) &&
      (prev != null ==> prev.Valid()) && (inner != null ==> inner.Valid())
    }

    /** No scan below is open, which opening one demands. */
    ghost predicate Closed()
      requires Shape()
      reads repr
      decreases repr
    {
      !isOpen && (prev != null ==> prev.Closed()) && (inner != null ==> inner.Closed())
    }

    constructor (catalog: Catalog, comparator: Comparator, p: Plan)
      requires PlanOk(catalog, p) && RelationsOk(catalog)
      ensures Shape() && Closed() && fresh(repr) && cat == catalog && cmp == comparator && plan == p
      decreases Depth(p), p.Join?
    {
      hide PlanOk, RelationsOk;
      PrevOk(catalog, p);
      cat, cmp, plan := catalog, comparator, p;
      pos, gotFirstTuple, buffer, isOpen, todo := 0, false, [], false, [];
      match p {
        case Rel(_) =>
          prev, inner := null, null;
          repr := {this};
        case Join(q, r, _) =>
          var a := new Node(catalog, comparator, q);
          var b := new Node(catalog, comparator, Rel(r));
          prev, inner := a, b;
          repr := {this} + a.repr + b.repr;
        case Sel(q, _) =>
          var a := new Node(catalog, comparator, q);
          prev, inner := a, null;
          repr := {this} + a.repr;
        case Proj(q, _) =>
          var a := new Node(catalog, comparator, q);
          prev, inner := a, null;
          repr := {this} + a.repr;
      }
    }

    /** Opened, a node is about to return all the rows of its plan. */
    method OpenIt()
      requires Shape() && Closed()
      modifies repr
      ensures Valid() && todo == Rows(cat, cmp, plan)
      decreases repr
    {
      hide Left, PlanOk, RelationsOk, Rows, Shape;
      Parts();
      PrevOk(cat, plan);
      if prev != null {
        prev.OpenIt();
      }
      if inner != null {
        inner.OpenIt();
        RelRows(cat, cmp, plan.r);
      }
      pos, gotFirstTuple, isOpen := 0, false, true;
      todo := Rows(cat, cmp, plan);
      LeftAtStart(cat, cmp, plan, buffer, if prev == null then [] else prev.todo, if inner == null then [] else inner.todo);
    }

    /** Called until the end of input, GetNext returns the tuples that are left one by one. */
    method GetNext() returns (next: Next)
      requires Shape() && Valid()
      modifies repr
      ensures Valid() && Returned(old(todo), next, todo)
      decreases repr, 3
    {
      hide Left, Shape;
      Parts();
      match plan {
        case Rel(_) => next := GetNextRel();
        case Sel(_, _) => next := GetNextSel();
        case Join(_, _, _) => next := GetNextJoin();
        case Proj(_, _) => next := GetNextProj();
      }
    }

    method GetNextRel() returns (next: Next)
      requires Shape() && Valid() && plan.Rel?
      modifies this
      ensures Valid() && Returned(old(todo), next, todo)
      decreases repr, 2
    {
      Parts();
      if pos == |cat.rels[plan.r].rows| {
        return EndOfInput;
      }
      next := Tuple(cat.rels[plan.r].rows[pos]);
      pos := pos + 1;
      todo := todo[1..];
    }

    method GetNextSel() returns (next: Next)
      requires Shape() && Valid() && plan.Sel?
      modifies repr
      ensures Valid() && Returned(old(todo), next, todo)
      decreases repr, 2
    {
      hide Shape, Rows, CheckAll, PlanOk, Left;
      Parts();
      while true
        invariant Valid() && todo == old(todo)
        decreases |prev.todo|
      {
        SelStep(cat, cmp, plan, pos, gotFirstTuple, buffer, todo, prev.todo, []);
        var got := prev.GetNext();
        if got.EndOfInput? {
          return EndOfInput;
        }
        buffer := got.data;
        if CheckAll(cmp, plan.conds, buffer) {
          break;
        }
      }
      todo := todo[1..];
      next := Tuple(buffer);
    }

    method GetNextProj() returns (next: Next)
      requires Shape() && Valid() && plan.Proj?
      modifies repr
      ensures Valid() && Returned(old(todo), next, todo)
      decreases repr, 2
    {
      hide Shape, Rows, PlanOk, Left, Reconstruct, Attrs, Known;
      Parts();
      ProjStep(cat, cmp, plan, pos, gotFirstTuple, buffer, todo, prev.todo, []);
      var got := prev.GetNext();
      if got.EndOfInput? {
        return EndOfInput;
      }
      buffer := got.data;
      var data := ReconstructRec(cat.lens, Attrs(cat, plan.prev), buffer, plan.keep);
      todo := todo[1..];
      next := Tuple(data);
    }

    /** The nested loop, until a joined tuple meets the conditions. */
    method GetNextJoin() returns (next: Next)
      requires Shape() && Valid() && plan.Join?
      modifies repr
      ensures Valid() && Returned(old(todo), next, todo)
      decreases repr, 2
    {
      hide Shape, Rows, PlanOk, Left, CheckAll, RelationsOk;
      Parts();
      if !gotFirstTuple {
        OuterStep(cat, cmp, plan, pos, gotFirstTuple, buffer, todo, prev.todo, inner.todo);
        var got := prev.GetNext();
        if got.EndOfInput? {
          return EndOfInput;
        }
        buffer := got.data;
      }
      gotFirstTuple := true;
      while true
        invariant Valid() && todo == old(todo) && gotFirstTuple
        decreases |prev.todo|, |inner.todo|
      {
        var ended := Advance();
        if ended {
          return EndOfInput;
        }
        if CheckAll(cmp, plan.conds, buffer) {
          break;
        }
      }
      todo := todo[1..];
      next := Tuple(buffer);
    }

    /** What is left if these tuples are. */
    ghost predicate Remains(ts: seq<Bytes>)
      requires Shape()
      reads repr
    {
      Parts();
      isOpen && (prev != null ==> prev.Valid()) && (inner != null ==> inner.Valid()) &&
      Left(cat, cmp, plan, pos, gotFirstTuple, buffer, ts, if prev == null then [] else prev.todo, if inner == null then [] else inner.todo)
    }

    /** The next pair of tuples is in the buffer; when the inner relation is exhausted, the next outer tuple
        starts it over. */
    method Advance() returns (ended: bool)
      requires Shape() && Valid() && plan.Join? && gotFirstTuple
      modifies repr
      ensures todo == old(todo) && gotFirstTuple
      ensures ended ==> todo == [] && Valid()
      ensures !ended ==>
                AllInTuple(plan.conds, |buffer|) &&
                (|prev.todo| < old(|prev.todo|) || (|prev.todo| == old(|prev.todo|) && |inner.todo| < old(|inner.todo|))) &&
                if CheckAll(cmp, plan.conds, buffer) then todo != [] && todo[0] == buffer && Remains(todo[1..]) else Remains(todo)
      decreases repr, 1
    {
      hide Shape, Rows, PlanOk, Left, CheckAll, RelationsOk, AllInTuple, Known, Width, Attrs;
      Parts();
      PrevOk(cat, plan);
      InnerStep(cat, cmp, plan, pos, buffer, todo, prev.todo, inner.todo);
      var got := inner.GetNext();
      if got.EndOfInput? {
        ended := Restart();
        if ended {
          return;
        }
        InnerStep(cat, cmp, plan, pos, buffer, todo, prev.todo, inner.todo);
        got := inner.GetNext();
        if got.EndOfInput? {
          NothingLeft(cat, cmp, plan, pos, buffer, todo, prev.todo, inner.todo);
          return true;
        }
      }
      ended := false;
      buffer := buffer[..Width(cat.lens, Attrs(cat, plan.prev))] + got.data;
    }

    method Restart() returns (ended: bool)
      requires Shape() && Valid() && plan.Join? && gotFirstTuple && inner.todo == []
      modifies repr
      ensures Valid() && todo == old(todo) && gotFirstTuple && plan.r < |cat.rels|
      ensures ended ==> todo == []
      ensures !ended ==> |prev.todo| < old(|prev.todo|) && inner.todo == cat.rels[plan.r].rows
      decreases repr, 0
    {
      hide Shape, Rows, PlanOk, Left, RelationsOk;
      Parts();
      PrevOk(cat, plan);
      RelRows(cat, cmp, plan.r);
      OuterStep(cat, cmp, plan, pos, gotFirstTuple, buffer, todo, prev.todo, inner.todo);
      var got := prev.GetNext();
      if got.EndOfInput? {
        return true;
      }
      ended := false;
      buffer := got.data;
      inner.CloseIt();
      inner.OpenIt();
    }

    /** An open node closes every scan below it. */
    method CloseIt()
      requires Shape() && Valid()
      modifies repr
      ensures Closed()
      decreases repr
    {
      Parts();
      if prev != null {
        prev.CloseIt();
      }
      if inner != null {
        inner.CloseIt();
      }
      gotFirstTuple, isOpen := false, false;
    }
  }

  lemma SelStep(cat: Catalog, cmp: Comparator, p: Plan, pos: nat, got: bool, buffer: Bytes,
                todo: seq<Bytes>, outer: seq<Bytes>, inner: seq<Bytes>)
    requires PlanOk(cat, p) && RelationsOk(cat) && p.Sel? && Left(cat, cmp, p, pos, got, buffer, todo, outer, inner)
    ensures outer == [] ==> todo == []
    ensures outer != [] ==>
              AllInTuple(p.conds, |outer[0]|) &&
              if CheckAll(cmp, p.conds, outer[0])
              then todo != [] && todo[0] == outer[0] && Left(cat, cmp, p, pos, got, outer[0], todo[1..], outer[1..], inner)
              else Left(cat, cmp, p, pos, got, outer[0], todo, outer[1..], inner)
  {}

  lemma ProjStep(cat: Catalog, cmp: Comparator, p: Plan, pos: nat, got: bool, buffer: Bytes,
                 todo: seq<Bytes>, outer: seq<Bytes>, inner: seq<Bytes>)
    requires PlanOk(cat, p) && RelationsOk(cat) && p.Proj? && Left(cat, cmp, p, pos, got, buffer, todo, outer, inner)
    ensures QlPlan.Named(cat, p.prev) && Known(cat.lens, Attrs(cat, p.prev))
    ensures forall i :: 0 <= i < |p.keep| ==> p.keep[i] in Attrs(cat, p.prev)
    ensures outer == [] ==> todo == []
    ensures outer != [] ==>
              |outer[0]| == Width(cat.lens, Attrs(cat, p.prev)) && todo != [] &&
              todo[0] == Reconstruct(cat.lens, Attrs(cat, p.prev), outer[0], p.keep) &&
              Left(cat, cmp, p, pos, got, outer[0], todo[1..], outer[1..], inner)
  {}

  /** With no inner tuples left, or none begun, the next outer tuple starts the inner relation over. */
  lemma OuterStep(cat: Catalog, cmp: Comparator, p: Plan, pos: nat, got: bool, buffer: Bytes,
                  todo: seq<Bytes>, outer: seq<Bytes>, inner: seq<Bytes>)
    requires PlanOk(cat, p) && RelationsOk(cat) && p.Join? && Left(cat, cmp, p, pos, got, buffer, todo, outer, inner)
    requires got ==> inner == []
    ensures outer == [] ==> todo == [] && (got ==> Left(cat, cmp, p, pos, true, buffer, todo, outer, inner))
    ensures p.r < |cat.rels| && (!got ==> inner == cat.rels[p.r].rows)
    ensures outer != [] ==> Left(cat, cmp, p, pos, true, outer[0], todo, outer[1..], cat.rels[p.r].rows)
  {
    if outer != [] {
      assert outer[0][..WidthOf(cat, p.prev)] == outer[0];
    }
  }

  lemma InnerStep(cat: Catalog, cmp: Comparator, p: Plan, pos: nat, buffer: Bytes,
                  todo: seq<Bytes>, outer: seq<Bytes>, inner: seq<Bytes>)
    requires PlanOk(cat, p) && RelationsOk(cat) && p.Join? && Left(cat, cmp, p, pos, true, buffer, todo, outer, inner)
    ensures QlPlan.Named(cat, p.prev) && Known(cat.lens, Attrs(cat, p.prev)) && Width(cat.lens, Attrs(cat, p.prev)) <= |buffer|
    ensures inner != [] ==>
              var t := buffer[..Width(cat.lens, Attrs(cat, p.prev))] + inner[0];
              AllInTuple(p.conds, |t|) &&
              if CheckAll(cmp, p.conds, t)
              then todo != [] && todo[0] == t && Left(cat, cmp, p, pos, true, t, todo[1..], outer, inner[1..])
              else Left(cat, cmp, p, pos, true, t, todo, outer, inner[1..])
  {
    hide JoinAll, CheckAll, Width;
    PrevOk(cat, p);
    if inner != [] {
      var m := Width(cat.lens, Attrs(cat, p.prev));
      assert (buffer[..m] + inner[0])[..m] == buffer[..m];
    }
  }

  lemma NothingLeft(cat: Catalog, cmp: Comparator, p: Plan, pos: nat, buffer: Bytes,
                    todo: seq<Bytes>, outer: seq<Bytes>, inner: seq<Bytes>)
    requires PlanOk(cat, p) && RelationsOk(cat) && p.Join? && Left(cat, cmp, p, pos, true, buffer, todo, outer, inner)
    requires inner == [] && p.r < |cat.rels| && cat.rels[p.r].rows == []
    ensures todo == []
  {
    var n := WidthOf(cat, p);
    JoinNothing(cmp, p.conds, outer, WidthOf(cat, p.prev), n);
  }

  lemma {:induction false} JoinNothing(cmp: Comparator, cs: seq<Cond>, ts: seq<Bytes>, m: nat, n: nat)
    requires AllInTuple(cs, n) && m <= n && AllWide(ts, m)
    ensures JoinAll(cmp, cs, ts, [], m, n) == []
  {
    if ts != [] { JoinNothing(cmp, cs, ts[1..], m, n); }
  }

  /** What GetNext returns of the tuples that were left, and what is left then. */
  predicate Returned(before: seq<Bytes>, next: Next, after: seq<Bytes>) {
    if before == [] then next.EndOfInput? && after == []
    else next == Tuple(before[0]) && after == before[1..]
  }

  /** For each kept attribute, its offset in the buffer is summed up anew and its bytes are appended. */
  method ReconstructRec(lens: seq<nat>, attrs: seq<nat>, buffer: Bytes, keep: seq<nat>) returns (data: Bytes)
    requires Known(lens, attrs) && |buffer| == Width(lens, attrs) && forall i :: 0 <= i < |keep| ==> keep[i] in attrs
    ensures data == Reconstruct(lens, attrs, buffer, keep)
  {
    hide Reconstruct, Width, IndexToOffset;
    data := [];
    var i := 0;
    while i < |keep|
      invariant 0 <= i <= |keep| && Reconstruct(lens, attrs, buffer, keep) == data + Reconstruct(lens, attrs, buffer, keep[i..])
    {
      var bufIdx := 0;
      var j := 0;
      OffsetFrom(lens, attrs, keep[i], 0);
      while attrs[j] != keep[i]
        invariant 0 <= j < |attrs| && keep[i] in attrs[j..]
        invariant IndexToOffset(lens, attrs, keep[i]).value == bufIdx + IndexToOffset(lens, attrs[j..], keep[i]).value
        decreases |attrs| - j
      {
        OffsetFrom(lens, attrs, keep[i], j);
        bufIdx := bufIdx + lens[attrs[j]];
        j := j + 1;
      }
      OffsetFrom(lens, attrs, keep[i], j);
      ReconstructFrom(lens, attrs, buffer, keep, i);
      data := data + buffer[bufIdx..bufIdx + lens[keep[i]]];
      i := i + 1;
    }
    ReconstructEnd(lens, attrs, buffer, keep);
  }

  lemma OffsetFrom(lens: seq<nat>, attrs: seq<nat>, a: nat, j: nat)
    requires Known(lens, attrs) && j < |attrs| && a in attrs[j..]
    ensures attrs[0..] == attrs
    ensures attrs[j] == a ==> IndexToOffset(lens, attrs[j..], a) == Some(0)
    ensures attrs[j] != a ==> j + 1 < |attrs| && a in attrs[j + 1..] && IndexToOffset(lens, attrs[j..], a).value == lens[attrs[j]] + IndexToOffset(lens, attrs[j + 1..], a).value
  {
    assert attrs[j..][1..] == attrs[j + 1..] && attrs[j..][0] == attrs[j];
  }

  lemma ReconstructFrom(lens: seq<nat>, attrs: seq<nat>, t: Bytes, keep: seq<nat>, i: nat)
    requires Known(lens, attrs) && |t| == Width(lens, attrs) && i < |keep| && forall k :: 0 <= k < |keep| ==> keep[k] in attrs
    ensures Reconstruct(lens, attrs, t, keep[i..]) == Field(lens, attrs, t, keep[i]) + Reconstruct(lens, attrs, t, keep[i + 1..])
  {
    assert keep[i..][0] == keep[i] && keep[i..][1..] == keep[i + 1..];
  }

  lemma ReconstructEnd(lens: seq<nat>, attrs: seq<nat>, t: Bytes, keep: seq<nat>)
    requires Known(lens, attrs) && |t| == Width(lens, attrs) && forall k :: 0 <= k < |keep| ==> keep[k] in attrs
    ensures Reconstruct(lens, attrs, t, keep[|keep|..]) == [] && keep[0..] == keep
  {}

  /** RunSelect: opening the top node, fetching until the end of input, closing it, gives the rows of the plan. */
  method RunSelect(topNode: Node) returns (rows: seq<Bytes>)
    requires topNode.Shape() && topNode.Closed()
    modifies topNode.repr
    ensures rows == Rows(topNode.cat, topNode.cmp, topNode.plan) && topNode.Closed()
  {
    hide PlanOk, RelationsOk, Rows, Node.Valid, Node.Closed;
    topNode.OpenIt();
    ghost var all := topNode.todo;
    rows := [];
    var next := topNode.GetNext();
    while next.Tuple?
      invariant topNode.Valid() && (if next.Tuple? then all == rows + [next.data] + topNode.todo else all == rows && topNode.todo == [])
      decreases |topNode.todo|, next.Tuple?
    {
      rows := rows + [next.data];
      next := topNode.GetNext();
    }
    topNode.CloseIt();
  }
}
