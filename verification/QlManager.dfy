/** The QL manager sets up a query (ql_manager.cc): it assigns every condition to a relation and builds the
    left-deep plan node by node, with the relations in the order of the query or of the optimizer. */
module QlManager {
  import opened Options
  import opened Seqs
  import opened QlPlan
  import opened QlQuery

  datatype Rc = Ok | AttrNotFound

  function Max(a: nat, b: nat): nat {
    if a < b then b else a
  }

  /** The relations in the order in which the query names them. */
  function Query(n: nat): (o: seq<nat>)
    ensures |o| == n && forall i :: 0 <= i < n ==> o[i] == i
  {
    seq(n, i requires 0 <= i < n => i)
  }

  /** Every attribute of the conditions belongs to some relation. */
  ghost predicate CondsOk(cat: Catalog, conds: seq<Condition>) {
    forall j :: 0 <= j < |conds| ==> CondOk(cat, conds[j])
  }

  ghost predicate CondOk(cat: Catalog, c: Condition) {
    RelOf(cat, c.lhs).Some? && (c.rhs.Attr? ==> RelOf(cat, c.rhs.attr).Some?)
  }

  /** What PrefixAttrs holds, by relation. */
  lemma InPrefix(cat: Catalog, o: seq<nat>, k: nat, a: nat)
    requires Order(cat, o) && k <= |o| && RelOf(cat, a).Some? && RelOf(cat, a).value in o[..k]
    ensures a in PrefixAttrs(cat, o, k)
  {
    var i := Position(o[..k], RelOf(cat, a).value);
    MemberPrefix(cat, o, k, a, i);
  }

  /** A condition checked at o[p] where its other relations are among o[..p + 1]. */
  lemma PlacedAt(cat: Catalog, conds: seq<Condition>, at: Assignment, o: seq<nat>, j: nat, p: nat)
    requires Order(cat, o) && |at| == |conds| && j < |conds| && p < |o| && at[j] == o[p] && CondOk(cat, conds[j])
    requires RelOf(cat, conds[j].lhs).value in o[..p + 1]
    requires conds[j].rhs.Attr? ==> RelOf(cat, conds[j].rhs.attr).value in o[..p + 1]
    ensures Placed(cat, conds, at, o, j)
  {
    forall a | a in Reads(conds[j]) ensures a in PrefixAttrs(cat, o, p + 1) {
      InPrefix(cat, o, p + 1, a);
    }
    assert CheckedAt(cat, conds, at, o, j, p);
  }

  /** The conditions ds test what cs test and what c says, on every tuple of these attributes and however fields compare. */
  ghost predicate AlsoTests(lens: seq<nat>, attrs: seq<nat>, cs: seq<QlPlan.Cond>, c: Condition, ds: seq<QlPlan.Cond>)
    requires Known(lens, attrs) && forall a :: a in Reads(c) ==> a in attrs
  {
    forall cmp: Comparator, t: Bytes {:trigger QlPlan.Holds(lens, cmp, c, attrs, t)} ::
      |t| == Width(lens, attrs) && AllInTuple(cs, |t|) ==>
        AllInTuple(ds, |t|) && (CheckAll(cmp, ds, t) <==> CheckAll(cmp, cs, t) && QlPlan.Holds(lens, cmp, c, attrs, t))
  }

  lemma Compiled(lens: seq<nat>, attrs: seq<nat>, cs: seq<QlPlan.Cond>, c: Condition, d: QlPlan.Cond)
    requires Known(lens, attrs) && Compile(lens, attrs, c) == Some(d)
    ensures forall a :: a in Reads(c) ==> a in attrs
    ensures AlsoTests(lens, attrs, cs, c, cs + [d])
  {
    hide Compile, QlPlan.Holds, Known, Width, Check;
    var some: Bytes := seq(Width(lens, attrs), _ => 0);
    CompileChecks(lens, (o, x, y) => true, c, attrs, some);
    forall cmp: Comparator, t: Bytes | |t| == Width(lens, attrs) && AllInTuple(cs, |t|)
      ensures AllInTuple(cs + [d], |t|) && (CheckAll(cmp, cs + [d], t) <==> CheckAll(cmp, cs, t) && QlPlan.Holds(lens, cmp, c, attrs, t))
    {
      CompileChecks(lens, cmp, c, attrs, t);
      OneCheckMore(cmp, cs, d, t);
    }
  }

  lemma OneCheckMore(cmp: Comparator, cs: seq<QlPlan.Cond>, d: QlPlan.Cond, t: Bytes)
    requires AllInTuple(cs, |t|) && InTuple(d, |t|)
    ensures AllInTuple(cs + [d], |t|) && (CheckAll(cmp, cs + [d], t) <==> CheckAll(cmp, cs, t) && Check(cmp, d, t))
  {
    hide Check, InTuple;
    var ds := cs + [d];
    assert ds[|cs|] == d && forall i :: 0 <= i < |cs| ==> ds[i] == cs[i];
  }

  /** The first i attributes are not a and take offset bytes. */
  ghost predicate Passed(lens: seq<nat>, attrs: seq<nat>, a: nat, i: nat, offset: nat)
    requires Known(lens, attrs) && i <= |attrs|
  {
    Known(lens, attrs[i..]) &&
    var rest := QlPlan.IndexToOffset(lens, attrs[i..], a);
    QlPlan.IndexToOffset(lens, attrs, a) == if rest.None? then None else Some(offset + rest.value)
  }

  lemma NonePassed(lens: seq<nat>, attrs: seq<nat>, a: nat)
    requires Known(lens, attrs)
    ensures Passed(lens, attrs, a, 0, 0)
  {
    hide QlPlan.IndexToOffset, Width;
    assert attrs[0..] == attrs;
  }

  /** The offset counted after one more attribute. */
  lemma PassFirst(lens: seq<nat>, rest: seq<nat>, a: nat)
    requires rest != [] && Known(lens, rest)
    ensures rest[0] < |lens| && Known(lens, rest[1..])
    ensures var after := QlPlan.IndexToOffset(lens, rest[1..], a);
            QlPlan.IndexToOffset(lens, rest, a) ==
            if rest[0] == a then Some(0) else if after.None? then None else Some(lens[rest[0]] + after.value)
  {
    hide Width;
  }

  lemma PassOne(lens: seq<nat>, attrs: seq<nat>, a: nat, i: nat, offset: nat)
    requires Known(lens, attrs) && i < |attrs| && Passed(lens, attrs, a, i, offset)
    ensures attrs[i] < |lens| && attrs[i] in attrs
    ensures attrs[i] == a ==> QlPlan.IndexToOffset(lens, attrs, a) == Some(offset)
    ensures attrs[i] != a ==> Passed(lens, attrs, a, i + 1, offset + lens[attrs[i]])
  {
    hide QlPlan.IndexToOffset, Width;
    PassFirst(lens, attrs[i..], a);
    assert attrs[i..][1..] == attrs[i + 1..];
  }

  lemma AllPassed(lens: seq<nat>, attrs: seq<nat>, a: nat, offset: nat)
    requires Known(lens, attrs) && Passed(lens, attrs, a, |attrs|, offset)
    ensures a !in attrs
  {
    hide Width;
    assert attrs[|attrs|..] == [];
  }

  class Manager {
    const cat: Catalog
    const conds: seq<Condition>
    var conditionToRel: map<nat, nat>

    constructor (catalog: Catalog, conditions: seq<Condition>)
      ensures cat == catalog && conds == conditions && conditionToRel == map[]
    {
      cat, conds, conditionToRel := catalog, conditions, map[];
    }

    /** Every condition has a relation to be checked at. */
    ghost predicate Parsed()
      reads this
    {
      forall j :: 0 <= j < |conds| ==> j in conditionToRel
    }

    /** conditionToRel as a sequence. */
    ghost function At(): (at: Assignment)
      requires Parsed()
      reads this
      ensures |at| == |conds| && forall j :: 0 <= j < |conds| ==> at[j] == conditionToRel[j]
    {
      seq(|conds|, j requires 0 <= j < |conds| && Parsed() reads this => conditionToRel[j])
    }

    /** The part of ParseConditions that places each condition at the later of its relations: in the order of the query
        that is the first relation at which all it reads have been joined. */
    method ParseConditions()
      requires CatalogOk(cat) && CondsOk(cat, conds)
      modifies this
      ensures Parsed() && Order(cat, Query(|cat.rels|)) && Assigned(cat, conds, At(), Query(|cat.rels|))
      ensures AllEarliest(cat, conds, At(), Query(|cat.rels|))
    {
      hide CatalogOk, PrefixAttrs, RelOf, AllEarliest;
      var i := 0;
      while i < |conds|
        invariant 0 <= i <= |conds|
        invariant forall j :: 0 <= j < i ==> j in conditionToRel && conditionToRel[j] == Later(cat, conds[j])
      {
        assert CondOk(cat, conds[i]);
        var relNum1 := RelOf(cat, conds[i].lhs).value;
        if conds[i].rhs.Value? {
          conditionToRel := conditionToRel[i := relNum1];
        } else {
          var relNum2 := RelOf(cat, conds[i].rhs.attr).value;
          conditionToRel := conditionToRel[i := Max(relNum1, relNum2)];
        }
        i := i + 1;
      }
      LaterAssigned(cat, conds, At());
    }

    /** For the order the optimizer chose, each condition moves to the last of its relations in that order: the first one
        at which all it reads have been joined. */
    method RecalcCondToRel(order: seq<nat>)
      requires CatalogOk(cat) && CondsOk(cat, conds) && Parsed() && Order(cat, order) && NoDup(order)
      requires forall r :: 0 <= r < |cat.rels| ==> r in order
      modifies this
      ensures Parsed() && Assigned(cat, conds, At(), order) && AllEarliest(cat, conds, At(), order)
    {
      hide CatalogOk, PrefixAttrs, RelOf, Seen, Earliest, AllEarliest;
      NoneSeen(cat);
      var relsSeen: set<nat> := {};
      var i := 0;
      while i < |order|
        invariant 0 <= i <= |order| && Parsed()
        invariant forall r :: r in relsSeen <==> r in order[..i]
        invariant forall j :: 0 <= j < |conds| && Seen(cat, conds[j], order[..i]) ==> Earliest(cat, conds[j], conditionToRel[j], order, i)
      {
        var relIndex := order[i];
        relsSeen := relsSeen + {relIndex};
        assert order[..i + 1] == order[..i] + [relIndex];
        var j := 0;
        while j < |conds|
          invariant 0 <= j <= |conds| && Parsed()
          invariant forall m :: 0 <= m < j && Seen(cat, conds[m], order[..i + 1]) ==>
                      Earliest(cat, conds[m], conditionToRel[m], order, i + 1)
          invariant forall m :: j <= m < |conds| && Seen(cat, conds[m], order[..i]) ==>
                      Earliest(cat, conds[m], conditionToRel[m], order, i)
        {
          assert CondOk(cat, conds[j]);
          SeenIs(cat, conds[j], order[..i + 1]);
          ghost var was := conditionToRel[j];
          var index1 := RelOf(cat, conds[j].lhs).value;
          if conds[j].rhs.Attr? {
            var index2 := RelOf(cat, conds[j].rhs.attr).value;
            var found1, found2 := index1 in relsSeen, index2 in relsSeen;
            if found1 && found2 && (relIndex == index1 || relIndex == index2) {
              conditionToRel := conditionToRel[j := relIndex];
            }
          } else if index1 == relIndex {
            conditionToRel := conditionToRel[j := relIndex];
          }
          RecalcStep(cat, conds[j], was, conditionToRel[j], order, i);
          j := j + 1;
        }
        i := i + 1;
      }
      SeenEarliest(cat, conds, At(), order);
      EarliestAssigned(cat, conds, At(), order);
    }

    method CountNumConditions(relIndex: nat) returns (numConds: nat)
      requires Parsed()
      ensures numConds == Count(At(), relIndex, |conds|)
    {
      numConds := 0;
      var i := 0;
      while i < |conds|
        invariant 0 <= i <= |conds| && numConds == Count(At(), relIndex, i)
      {
        if conditionToRel[i] == relIndex {
          numConds := numConds + 1;
        }
        i := i + 1;
      }
    }

    /** What building a plan for an order relies on. */
    ghost predicate Ready(o: seq<nat>)
      reads this
    {
      Parsed() && WholePlan(cat, conds, At(), o)
    }

    /** IndexToOffset: where attribute a starts in tuples of these attributes, and its length; None is QL_ATTRNOTFOUND. */
    method IndexToOffset(attrs: seq<nat>, a: nat) returns (r: Option<(nat, nat)>)
      requires Known(cat.lens, attrs)
      ensures r.Some? <==> a in attrs
      ensures r.Some? ==> a < |cat.lens| && r.value.1 == cat.lens[a] && QlPlan.IndexToOffset(cat.lens, attrs, a) == Some(r.value.0)
    {
      hide Passed;
      var offset := 0;
      var i := 0;
      NonePassed(cat.lens, attrs, a);
      while i < |attrs|
        invariant 0 <= i <= |attrs| && Passed(cat.lens, attrs, a, i, offset)
      {
        PassOne(cat.lens, attrs, a, i, offset);
        if attrs[i] == a {
          return Some((offset, cat.lens[attrs[i]]));
        }
        offset := offset + cat.lens[attrs[i]];
        i := i + 1;
      }
      AllPassed(cat.lens, attrs, a, offset);
      r := None;
    }

    /** The condition goes to the top node, its attributes turned into offsets. From then on the node's conditions test
        on every tuple what they tested before, and what the condition says. */
    method AddCondition(node: Plan, condNum: nat) returns (rc: Rc, topNode: Plan)
      requires condNum < |conds| && QlPlan.Named(cat, node) && Known(cat.lens, Attrs(cat, node)) && (node.Sel? || node.Join?)
      ensures rc == Ok <==> forall a :: a in Reads(conds[condNum]) ==> a in Attrs(cat, node)
      ensures rc == Ok <==> Compile(cat.lens, Attrs(cat, node), conds[condNum]).Some?
      ensures rc != Ok ==> topNode == node
      ensures rc == Ok ==>
                Compile(cat.lens, Attrs(cat, node), conds[condNum]).Some? &&
                topNode == node.(conds := node.conds + [Compile(cat.lens, Attrs(cat, node), conds[condNum]).value]) &&
                QlPlan.Named(cat, topNode) && Attrs(cat, topNode) == Attrs(cat, node) &&
                AlsoTests(cat.lens, Attrs(cat, node), node.conds, conds[condNum], topNode.conds)
    {
      topNode := node;
      var condition := conds[condNum];
      assert condition.lhs in Reads(condition) && (condition.rhs.Attr? ==> condition.rhs.attr in Reads(condition));
      var at1 := IndexToOffset(Attrs(cat, node), condition.lhs);
      if at1.None? {
        return AttrNotFound, topNode;
      }
      var cond := QlPlan.Cond(condition.op, at1.value.0, at1.value.1, true, 0, 0, []);
      if condition.rhs.Attr? {
        var at2 := IndexToOffset(Attrs(cat, node), condition.rhs.attr);
        if at2.None? {
          return AttrNotFound, topNode;
        }
        cond := cond.(isValue := false, offset2 := at2.value.0, length2 := at2.value.1);
      } else {
        cond := cond.(data := condition.rhs.data, length2 := |condition.rhs.data|);
      }
      Compiled(cat.lens, Attrs(cat, node), node.conds, condition, cond);
      topNode := node.(conds := node.conds + [cond]);
      rc := Ok;
    }

    /** A select node is put on the first relation when the first condition for it turns up. */
    method SetUpFirstNode(ghost o: seq<nat>, relIndex: nat) returns (rc: Rc, topNode: Plan)
      requires Ready(o) && relIndex == o[0]
      ensures rc == Ok && topNode == PlanFor(cat, conds, At(), o, 1)
    {
      hide CatalogOk, Assigned, PrefixAttrs, Known, Compile;
      FirstAttrs(cat, o);
      topNode := Rel(relIndex);
      var useSelNode := false;
      var i := 0;
      while i < |conds|
        invariant 0 <= i <= |conds|
        invariant var cs := NodeConds(cat.lens, PrefixAttrs(cat, o, 1), conds, At(), o[0], i);
                  useSelNode == (cs != []) && topNode == (if cs == [] then Rel(o[0]) else Sel(Rel(o[0]), cs))
      {
        if conditionToRel[i] == relIndex {
          CompilesHere(cat, conds, At(), o, i, 0);
          if !useSelNode {
            topNode := Sel(topNode, []);
            useSelNode := true;
          }
          var added;
          added, topNode := AddCondition(topNode, i);
        }
        i := i + 1;
      }
      rc := Ok;
    }

    /** With the optimizer's order, the select node is there from the start if it will be needed. */
    method SetUpFirstNodeWithQO(order: seq<nat>) returns (rc: Rc, topNode: Plan)
      requires Ready(order)
      ensures rc == Ok && topNode == PlanFor(cat, conds, At(), order, 1)
    {
      hide CatalogOk, Assigned, PrefixAttrs, Known, Compile;
      FirstAttrs(cat, order);
      var relIndex := order[0];
      topNode := Rel(relIndex);
      var numConds := CountNumConditions(relIndex);
      if numConds > 0 {
        topNode := Sel(topNode, []);
      }
      var i := 0;
      while i < |conds|
        invariant 0 <= i <= |conds|
        invariant var cs := NodeConds(cat.lens, PrefixAttrs(cat, order, 1), conds, At(), order[0], i);
                  topNode == if numConds == 0 then Rel(order[0]) else Sel(Rel(order[0]), cs)
      {
        CountGrows(At(), relIndex, i, |conds|);
        if conditionToRel[i] == relIndex {
          CompilesHere(cat, conds, At(), order, i, 0);
          var added;
          added, topNode := AddCondition(topNode, i);
        }
        i := i + 1;
      }
      forall j | 0 <= j < |conds| && At()[j] == order[0]
        ensures Compile(cat.lens, PrefixAttrs(cat, order, 1), conds[j]).Some?
      {
        CompilesHere(cat, conds, At(), order, j, 0);
      }
      CountsConds(cat, conds, At(), order, 0, |conds|);
      rc := Ok;
    }

    /** JoinRelation and JoinRelationWithQO: a join node over the plan so far, with the conditions that are
        checked at the joined relation. */
    method JoinRelation(currNode: Plan, order: seq<nat>, k: nat) returns (rc: Rc, topNode: Plan)
      requires Ready(order) && 0 < k < |order| && currNode == PlanFor(cat, conds, At(), order, k)
      ensures rc == Ok && topNode == PlanFor(cat, conds, At(), order, k + 1)
    {
      hide CatalogOk, Assigned, PrefixAttrs, Known, Compile, PlanFor;
      JoinAttrs(cat, conds, At(), order, k);
      var relIndex := order[k];
      topNode := Join(currNode, relIndex, []);
      var i := 0;
      while i < |conds|
        invariant 0 <= i <= |conds|
        invariant topNode == Join(currNode, order[k], NodeConds(cat.lens, PrefixAttrs(cat, order, k + 1), conds, At(), order[k], i))
      {
        if conditionToRel[i] == relIndex {
          CompilesHere(cat, conds, At(), order, i, k);
          JoinAttrs(cat, conds, At(), order, k);
          JoinNode(cat, currNode, order[k], topNode.conds);
          var added;
          added, topNode := AddCondition(topNode, i);
        }
        i := i + 1;
      }
      PlanStep(cat, conds, At(), order, k);
      rc := Ok;
    }

    /** The plan in the order of the query, with a projection unless everything is selected. */
    method SetUpNodes(keep: Option<seq<nat>>) returns (rc: Rc, topNode: Plan)
      requires Ready(Query(|cat.rels|))
      ensures rc == Ok && topNode == Projected(PlanFor(cat, conds, At(), Query(|cat.rels|), |cat.rels|), keep)
    {
      hide WholePlan, PlanFor;
      Whole(cat, conds, At(), Query(|cat.rels|));
      ghost var order := Query(|cat.rels|);
      rc, topNode := SetUpFirstNode(order, 0);
      var i := 1;
      while i < |cat.rels|
        invariant 1 <= i <= |cat.rels| && topNode == PlanFor(cat, conds, At(), order, i)
      {
        rc, topNode := JoinRelation(topNode, Query(|cat.rels|), i);
        i := i + 1;
      }
      topNode := Project(topNode, keep);
      rc := Ok;
    }

    /** The plan in the optimizer's order. */
    method SetUpNodesWithQO(order: seq<nat>, keep: Option<seq<nat>>) returns (rc: Rc, topNode: Plan)
      requires Ready(order)
      ensures rc == Ok && topNode == Projected(PlanFor(cat, conds, At(), order, |order|), keep)
    {
      hide WholePlan, PlanFor;
      Whole(cat, conds, At(), order);
      rc, topNode := SetUpFirstNodeWithQO(order);
      var i := 1;
      while i < |order|
        invariant 1 <= i <= |order| && topNode == PlanFor(cat, conds, At(), order, i)
      {
        rc, topNode := JoinRelation(topNode, order, i);
        i := i + 1;
      }
      topNode := Project(topNode, keep);
      rc := Ok;
    }

    /** A projection node to which AddProj adds the selected attributes one by one. */
    method Project(currNode: Plan, keep: Option<seq<nat>>) returns (topNode: Plan)
      ensures topNode == Projected(currNode, keep)
    {
      if keep.None? {
        return currNode;
      }
      topNode := Proj(currNode, []);
      var i := 0;
      while i < |keep.value|
        invariant 0 <= i <= |keep.value| && topNode == Proj(currNode, keep.value[..i])
      {
        topNode := topNode.(keep := topNode.keep + [keep.value[i]]);
        i := i + 1;
      }
      assert keep.value[..i] == keep.value;
    }
  }

  function Projected(p: Plan, keep: Option<seq<nat>>): Plan {
    if keep.None? then p else Proj(p, keep.value)
  }

  lemma Whole(cat: Catalog, conds: seq<Condition>, at: Assignment, o: seq<nat>)
    requires WholePlan(cat, conds, at, o)
    ensures 0 < |o| && |at| == |conds| && Order(cat, o) && forall i: nat :: i <= |o| ==> Known(cat.lens, PrefixAttrs(cat, o, i))
  {}

  lemma FirstAttrs(cat: Catalog, o: seq<nat>)
    requires Order(cat, o) && |o| > 0
    ensures PrefixAttrs(cat, o, 1) == AttrsOf(cat, o[0])
  {
    assert PrefixAttrs(cat, o, 0) == [];
  }

  lemma JoinAttrs(cat: Catalog, conds: seq<Condition>, at: Assignment, o: seq<nat>, k: nat)
    requires WholePlan(cat, conds, at, o) && 0 < k < |o|
    ensures var p := PlanFor(cat, conds, at, o, k);
            QlPlan.Named(cat, p) && Attrs(cat, p) + AttrsOf(cat, o[k]) == PrefixAttrs(cat, o, k + 1) && Known(cat.lens, PrefixAttrs(cat, o, k + 1))
  {
    PlanForOk(cat, conds, at, o, k);
  }

  lemma JoinNode(cat: Catalog, p: Plan, r: nat, cs: seq<Cond>)
    requires QlPlan.Named(cat, p) && r < |cat.rels|
    ensures QlPlan.Named(cat, Join(p, r, cs)) && Attrs(cat, Join(p, r, cs)) == Attrs(cat, p) + AttrsOf(cat, r)
  {}

  lemma PlanStep(cat: Catalog, conds: seq<Condition>, at: Assignment, o: seq<nat>, k: nat)
    requires WholePlan(cat, conds, at, o) && 0 < k < |o|
    ensures PlanFor(cat, conds, at, o, k + 1) ==
            Join(PlanFor(cat, conds, at, o, k), o[k], NodeConds(cat.lens, PrefixAttrs(cat, o, k + 1), conds, at, o[k], |conds|))
  {}

  /** AddCondition finds the attributes of every condition that is checked at this relation. */
  lemma CompilesHere(cat: Catalog, conds: seq<Condition>, at: Assignment, o: seq<nat>, j: nat, p: nat)
    requires WholePlan(cat, conds, at, o) && j < |conds| && p < |o| && at[j] == o[p]
    ensures Known(cat.lens, PrefixAttrs(cat, o, p + 1)) && Compile(cat.lens, PrefixAttrs(cat, o, p + 1), conds[j]).Some?
  {
    hide PrefixAttrs, IndexToOffset, CatalogOk, Assigned;
    CheckedHere(cat, conds, at, o, j, p);
    assert conds[j].lhs in Reads(conds[j]) && (conds[j].rhs.Attr? ==> conds[j].rhs.attr in Reads(conds[j]));
  }

  lemma {:induction false} CountGrows(at: Assignment, r: nat, i: nat, n: nat)
    requires i < n <= |at|
    ensures at[i] == r ==> 0 < Count(at, r, n)
  {
    if i < n - 1 { CountGrows(at, r, i, n - 1); }
  }

  lemma {:induction false} CountsConds(cat: Catalog, conds: seq<Condition>, at: Assignment, o: seq<nat>, p: nat, n: nat)
    requires Order(cat, o) && |at| == |conds| && p < |o| && n <= |conds| && Known(cat.lens, PrefixAttrs(cat, o, p + 1))
    requires forall j :: 0 <= j < |conds| && at[j] == o[p] ==> Compile(cat.lens, PrefixAttrs(cat, o, p + 1), conds[j]).Some?
    ensures Count(at, o[p], n) == |NodeConds(cat.lens, PrefixAttrs(cat, o, p + 1), conds, at, o[p], n)|
  {
    hide Compile, PrefixAttrs, Known;
    if n > 0 { CountsConds(cat, conds, at, o, p, n - 1); }
  }

  function Count(at: Assignment, r: nat, n: nat): nat
    requires n <= |at|
  {
    if n == 0 then 0 else Count(at, r, n - 1) + if at[n - 1] == r then 1 else 0
  }

  /** The relation with the larger index among those a condition reads. */
  function Later(cat: Catalog, c: Condition): nat
    requires RelOf(cat, c.lhs).Some? && (c.rhs.Attr? ==> RelOf(cat, c.rhs.attr).Some?)
  {
    if c.rhs.Value? then RelOf(cat, c.lhs).value else Max(RelOf(cat, c.lhs).value, RelOf(cat, c.rhs.attr).value)
  }

  lemma FirstOnes(n: nat, p: nat, r: nat)
    requires r <= p < n
    ensures r in Query(n)[..p + 1]
  {
    assert Query(n)[..p + 1][r] == r;
  }

  lemma LaterAssigned(cat: Catalog, conds: seq<Condition>, at: Assignment)
    requires CondsOk(cat, conds) && |at| == |conds|
    requires forall j :: 0 <= j < |conds| ==> CondOk(cat, conds[j]) && at[j] == Later(cat, conds[j])
    ensures Order(cat, Query(|cat.rels|)) && Assigned(cat, conds, at, Query(|cat.rels|))
    ensures AllEarliest(cat, conds, at, Query(|cat.rels|))
  {
    hide RelOf, PrefixAttrs, Earliest;
    var o := Query(|cat.rels|);
    forall j | 0 <= j < |conds| ensures Earliest(cat, conds[j], at[j], o, |o|) {
      assert CondOk(cat, conds[j]);
      LaterEarliest(cat, conds[j]);
    }
    EarliestAssigned(cat, conds, at, o);
  }

  lemma LaterEarliest(cat: Catalog, c: Condition)
    requires CondOk(cat, c)
    ensures Earliest(cat, c, Later(cat, c), Query(|cat.rels|), |cat.rels|)
  {
    hide RelOf;
    var o, p := Query(|cat.rels|), Later(cat, c);
    RelOfRange(cat, c.lhs);
    if c.rhs.Attr? { RelOfRange(cat, c.rhs.attr); }
    FirstOnes(|o|, p, RelOf(cat, c.lhs).value);
    if c.rhs.Attr? {
      FirstOnes(|o|, p, RelOf(cat, c.rhs.attr).value);
    }
    assert p !in o[..p];
    assert o[p] == p;
  }

  /** All the relations the condition reads are among these. */
  ghost predicate Seen(cat: Catalog, c: Condition, rels: seq<nat>) {
    CondOk(cat, c) && RelOf(cat, c.lhs).value in rels && (c.rhs.Attr? ==> RelOf(cat, c.rhs.attr).value in rels)
  }

  /** r is the first relation of the order up to which all the relations the condition reads occur, and one of the first k. */
  ghost predicate Earliest(cat: Catalog, c: Condition, r: nat, order: seq<nat>, k: nat)
    requires k <= |order|
  {
    exists p :: 0 <= p < k && order[p] == r && Seen(cat, c, order[..p + 1]) && !Seen(cat, c, order[..p])
  }

  /** Every condition is checked as early as the order allows. */
  ghost predicate AllEarliest(cat: Catalog, conds: seq<Condition>, at: Assignment, order: seq<nat>) {
    |at| == |conds| && forall j :: 0 <= j < |conds| ==> Earliest(cat, conds[j], at[j], order, |order|)
  }

  lemma SeenIs(cat: Catalog, c: Condition, rels: seq<nat>)
    requires CondOk(cat, c)
    ensures Seen(cat, c, rels) <==> RelOf(cat, c.lhs).value in rels && (c.rhs.Attr? ==> RelOf(cat, c.rhs.attr).value in rels)
  {}

  lemma NoneSeen(cat: Catalog)
    ensures forall c :: !Seen(cat, c, [])
  {}

  /** A condition moves to the relation just joined if it reads that relation and all the others it reads are there. */
  lemma RecalcStep(cat: Catalog, c: Condition, was: nat, r: nat, order: seq<nat>, i: nat)
    requires CondOk(cat, c) && NoDup(order) && i < |order|
    requires (Seen(cat, c, order[..i + 1]) && (RelOf(cat, c.lhs).value == order[i] || (c.rhs.Attr? && RelOf(cat, c.rhs.attr).value == order[i])) ==>
                r == order[i])
    requires (!(Seen(cat, c, order[..i + 1]) && (RelOf(cat, c.lhs).value == order[i] || (c.rhs.Attr? && RelOf(cat, c.rhs.attr).value == order[i]))) ==>
                r == was)
    requires Seen(cat, c, order[..i]) ==> Earliest(cat, c, was, order, i)
    ensures Seen(cat, c, order[..i + 1]) ==> Earliest(cat, c, r, order, i + 1)
  {
    hide RelOf;
    assert order[..i + 1] == order[..i] + [order[i]];
    if Seen(cat, c, order[..i]) {
      var p :| 0 <= p < i && order[p] == was && Seen(cat, c, order[..p + 1]) && !Seen(cat, c, order[..p]);
      assert order[i] !in order[..i];
      assert order[p] == r;
    } else if Seen(cat, c, order[..i + 1]) {
      assert order[i] == r;
    }
  }

  lemma EarliestAssigned(cat: Catalog, conds: seq<Condition>, at: Assignment, order: seq<nat>)
    requires CondsOk(cat, conds) && |at| == |conds| && Order(cat, order) && AllEarliest(cat, conds, at, order)
    ensures Assigned(cat, conds, at, order)
  {
    hide RelOf, PrefixAttrs;
    forall j | 0 <= j < |conds| ensures Placed(cat, conds, at, order, j) {
      assert CondOk(cat, conds[j]) && Earliest(cat, conds[j], at[j], order, |order|);
      var p: nat :| p < |order| && order[p] == at[j] && Seen(cat, conds[j], order[..p + 1]);
      PlacedAt(cat, conds, at, order, j, p);
    }
  }

  lemma SeenEarliest(cat: Catalog, conds: seq<Condition>, at: Assignment, order: seq<nat>)
    requires CondsOk(cat, conds) && |at| == |conds| && Order(cat, order) && forall r :: 0 <= r < |cat.rels| ==> r in order
    requires forall j :: 0 <= j < |conds| && Seen(cat, conds[j], order[..|order|]) ==> Earliest(cat, conds[j], at[j], order, |order|)
    ensures AllEarliest(cat, conds, at, order)
  {
    hide RelOf, Earliest;
    assert order[..|order|] == order;
    forall j | 0 <= j < |conds| ensures Earliest(cat, conds[j], at[j], order, |order|) {
      assert CondOk(cat, conds[j]);
      RelOfRange(cat, conds[j].lhs);
      if conds[j].rhs.Attr? { RelOfRange(cat, conds[j].rhs.attr); }
      assert Seen(cat, conds[j], order);
    }
  }

  /** Checked as early as the order allows, a condition is checked among the first k relations exactly if all it reads
      are among them. */
  lemma EarlyIff(cat: Catalog, conds: seq<Condition>, at: Assignment, o: seq<nat>, j: nat, k: nat)
    requires AllEarliest(cat, conds, at, o) && NoDup(o) && j < |conds| && k <= |o|
    ensures at[j] in o[..k] <==> Seen(cat, conds[j], o[..k])
  {
    assert Earliest(cat, conds[j], at[j], o, |o|);
    var p :| 0 <= p < |o| && o[p] == at[j] && Seen(cat, conds[j], o[..p + 1]) && !Seen(cat, conds[j], o[..p]);
    if p < k {
      assert o[..k][p] == at[j];
      assert o[..p + 1] == o[..k][..p + 1];
    } else {
      assert o[..k] == o[..p][..k];
      assert at[j] !in o[..k];
    }
  }

  /** All the conditions that read no more than the first k relations of the order hold for the choice. */
  ghost predicate MeetsSeen(cat: Catalog, cmp: Comparator, conds: seq<Condition>, o: seq<nat>, k: nat, v: Choice)
    requires k <= |o|
  {
    forall j :: 0 <= j < |conds| && Seen(cat, conds[j], o[..k]) ==> Meets(cat, cmp, conds[j], v)
  }

  lemma SatIsMeetsSeen(cat: Catalog, cmp: Comparator, conds: seq<Condition>, at: Assignment, o: seq<nat>, k: nat, v: Choice)
    requires Order(cat, o) && NoDup(o) && k <= |o| && AllEarliest(cat, conds, at, o)
    ensures Sat(cat, cmp, conds, at, o, k, v) <==> MeetsSeen(cat, cmp, conds, o, k, v)
  {
    hide Meets, Seen, Earliest;
    forall j | 0 <= j < |conds| ensures at[j] in o[..k] <==> Seen(cat, conds[j], o[..k]) {
      EarlyIff(cat, conds, at, o, j, k);
    }
    if MeetsSeen(cat, cmp, conds, o, k, v) {
      forall p | 0 <= p < k ensures MeetsAt(cat, cmp, conds, at, o[p], |conds|, v) {
        assert o[..k][p] == o[p];
      }
    }
    if Sat(cat, cmp, conds, at, o, k, v) {
      forall j | 0 <= j < |conds| && Seen(cat, conds[j], o[..k]) ensures Meets(cat, cmp, conds[j], v) {
        var p := Position(o[..k], at[j]);
        assert MeetsAt(cat, cmp, conds, at, o[p], |conds|, v);
      }
    }
  }

  /** Every node tests all that can be tested there: the subtree over the first k relations yields the joined tuples of
      exactly the choices of their rows that meet every condition over these relations. */
  lemma PushedDown(cat: Catalog, cmp: Comparator, conds: seq<Condition>, at: Assignment, o: seq<nat>, k: nat)
    requires WholePlan(cat, conds, at, o) && AllEarliest(cat, conds, at, o) && 0 < k <= |o|
    ensures var p, vs := PlanFor(cat, conds, at, o, k), Chosen(cat, cmp, conds, at, o, k);
            PlanOk(cat, p) && RelationsOk(cat) && AllCover(cat, o, k, vs) && Rows(cat, cmp, p) == Tuples(cat, o, k, vs)
    ensures NoDup(Chosen(cat, cmp, conds, at, o, k))
    ensures forall v :: v in Chosen(cat, cmp, conds, at, o, k) <==> Total(cat, o, k, v) && MeetsSeen(cat, cmp, conds, o, k, v)
  {
    hide CatalogOk, Assigned, PrefixAttrs, Known, Sat, MeetsSeen, Total, Keep, AllCover, AllEarliest;
    PlanYields(cat, cmp, conds, at, o, k);
    ChoicesOnce(cat, o, k);
    KeepOnce(cat, cmp, conds, at, o, k, Choices(cat, o, k));
    forall v ensures v in Chosen(cat, cmp, conds, at, o, k) <==> Total(cat, o, k, v) && MeetsSeen(cat, cmp, conds, o, k, v) {
      KeepMember(cat, cmp, conds, at, o, k, Choices(cat, o, k), v);
      ChoicesAll(cat, o, k, v);
      SatIsMeetsSeen(cat, cmp, conds, at, o, k, v);
    }
  }

  /** The optimizer may choose any order of the relations: the plan set up for it yields the same bag of
      projected rows as the plan in the order of the query. */
  lemma OptimizerKeepsRows(cat: Catalog, cmp: Comparator, conds: seq<Condition>, at: Assignment, bt: Assignment,
                           order: seq<nat>, keep: seq<nat>)
    requires WholePlan(cat, conds, at, Query(|cat.rels|)) && WholePlan(cat, conds, bt, order)
    requires forall r :: 0 <= r < |cat.rels| ==> r in order
    requires forall i :: 0 <= i < |keep| ==> RelOf(cat, keep[i]).Some?
    ensures var p := Projected(PlanFor(cat, conds, at, Query(|cat.rels|), |cat.rels|), Some(keep));
            var q := Projected(PlanFor(cat, conds, bt, order, |order|), Some(keep));
            PlanOk(cat, p) && PlanOk(cat, q) && RelationsOk(cat) &&
            multiset(Rows(cat, cmp, p)) == multiset(Rows(cat, cmp, q))
  {
    hide WholePlan, PrefixAttrs, PlanFor, RelOf, Rows;
    var o := Query(|cat.rels|);
    Whole(cat, conds, at, o);
    Whole(cat, conds, bt, order);
    forall r ensures r in o <==> r in order {
      if r in o { assert o[r] == r; }
      if r in order {
        assert order[Position(order, r)] < |cat.rels|;
        assert o[r] == r;
      }
    }
    assert o[..|o|] == o && order[..|order|] == order;
    forall i | 0 <= i < |keep|
      ensures keep[i] in PrefixAttrs(cat, o, |o|) && keep[i] in PrefixAttrs(cat, order, |order|)
    {
      RelOfRange(cat, keep[i]);
      assert o[RelOf(cat, keep[i]).value] == RelOf(cat, keep[i]).value;
      InPrefix(cat, o, |o|, keep[i]);
      InPrefix(cat, order, |order|, keep[i]);
    }
    PlansAgree(cat, cmp, conds, at, o, bt, order, keep);
  }

  lemma RelOfRange(cat: Catalog, a: nat)
    ensures RelOf(cat, a).Some? ==> RelOf(cat, a).value < |cat.rels|
  {}
}
