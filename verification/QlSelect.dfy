/** A whole select (ql_manager.cc): conditions parsed, the tree built with or without the optimizer, and its rows read. */
module QlSelect {
  import opened Options
  import opened Seqs
  import opened QlPlan
  import opened QlQuery
  import Ql = QlManager
  import Nodes = QlNodes
  import Qo = QoManager

  /** vs are the choices of one row of every relation that meet every condition, each once. */
  ghost predicate Answers(cat: Catalog, cmp: Comparator, conds: seq<Condition>, order: seq<nat>, vs: seq<Choice>) {
    Order(cat, order) && NoDup(vs) && AllCover(cat, order, |order|, vs) &&
    forall v :: v in vs <==> Total(cat, order, |order|, v) && MeetsAll(cat, cmp, conds, v)
  }

  /** Every relation of the query, each once. */
  ghost predicate Permutes(cat: Catalog, order: seq<nat>) {
    NoDup(order) && forall r: nat :: r in order <==> r < |cat.rels|
  }

  /** The rows a select prints: for every answer once, its selected values in the order asked for or, without a select
      list, all values in the order in which the relations are joined. */
  ghost predicate Prints(cat: Catalog, cmp: Comparator, conds: seq<Condition>, keep: Option<seq<nat>>, order: seq<nat>,
                         vs: seq<Choice>, rows: seq<Bytes>) {
    Permutes(cat, order) && Answers(cat, cmp, conds, order, vs) &&
    if keep.None? then rows == Tuples(cat, order, |order|, vs)
    else EachValued(cat, vs, keep.value) && rows == KeptAll(cat, vs, keep.value)
  }

  /** The order in which the optimizer's answer names the relations. */
  ghost predicate Optimizers(costs: Qo.Costs, n: nat, order: seq<nat>) {
    exists rels: seq<Qo.QoRel>, cost: real, tuples: real :: Qo.Answer(costs, n, rels, cost, tuples) && order == Qo.Indices(rels)
  }

  /** Select: with the optimizer the relations are joined in the order it answers, without it in that of the query. */
  method Select(cat: Catalog, cmp: Comparator, conds: seq<Condition>, keep: Option<seq<nat>>, useQO: bool, costs: Qo.Costs)
    returns (rows: seq<Bytes>)
    requires CatalogOk(cat) && Ql.CondsOk(cat, conds) && 0 < |cat.rels| && (useQO ==> |cat.rels| <= Qo.WIDTH && Qo.Finite(costs, |cat.rels|))
    requires keep.Some? ==> forall i :: 0 <= i < |keep.value| ==> RelOf(cat, keep.value[i]).Some?
    ensures exists order: seq<nat>, vs: seq<Choice> ::
      Prints(cat, cmp, conds, keep, order, vs, rows) &&
      if useQO then Optimizers(costs, |cat.rels|, order) else order == Ql.Query(|cat.rels|)
  {
    hide CatalogOk, Ql.CondsOk, PlanFor, PrefixAttrs, Assigned, Permutes, Answers, RelOf, Rows, WholePlan, RelationsOk, PlanOk, Qo.Planned, Qo.Answer,
      Ql.AllEarliest;
    var qlm := new Ql.Manager(cat, conds);
    qlm.ParseConditions();
    var rc, plan;
    ghost var order;
    if useQO {
      var qom := new Qo.Manager(|cat.rels|, costs);
      var qorels, cost, tupleEst := qom.Compute();
      Qo.PlannedIsPermutation(qom.optcost, |cat.rels|, qorels, cost, tupleEst);
      var o := Qo.Indices(qorels);
      assert Optimizers(costs, |cat.rels|, o);
      OrderOk(cat, o);
      qlm.RecalcCondToRel(o);
      IsWhole(cat, conds, qlm.At(), o);
      rc, plan := qlm.SetUpNodesWithQO(o, keep);
      order := o;
    } else {
      var o := Ql.Query(|cat.rels|);
      QueryPermutes(cat);
      IsWhole(cat, conds, qlm.At(), o);
      rc, plan := qlm.SetUpNodes(keep);
      order := o;
    }
    ghost var vs := Chosen(cat, cmp, conds, qlm.At(), order, |order|);
    Answered(cat, cmp, conds, qlm.At(), order, keep);
    var topNode := new Nodes.Node(cat, cmp, plan);
    rows := Nodes.RunSelect(topNode);
    assert Prints(cat, cmp, conds, keep, order, vs, rows);
  }

  /** The costs leave the optimizer one order. */
  lemma OneOrder(costs: Qo.Costs, n: nat, o: seq<nat>, q: seq<nat>)
    requires Optimizers(costs, n, o) && Optimizers(costs, n, q)
    ensures o == q
  {
    hide Qo.Answer;
    var rels: seq<Qo.QoRel>, cost: real, tuples: real :| Qo.Answer(costs, n, rels, cost, tuples) && o == Qo.Indices(rels);
    var rels': seq<Qo.QoRel>, cost': real, tuples': real :| Qo.Answer(costs, n, rels', cost', tuples') && q == Qo.Indices(rels');
    Qo.OneAnswer(costs, n, rels, cost, tuples, rels', cost', tuples');
  }

  /** With a select list any two ways of running a query print the same bag of rows. */
  lemma SameAnswer(cat: Catalog, cmp: Comparator, conds: seq<Condition>, keep: seq<nat>,
                   o: seq<nat>, vs: seq<Choice>, rows: seq<Bytes>, q: seq<nat>, ws: seq<Choice>, rows': seq<Bytes>)
    requires Prints(cat, cmp, conds, Some(keep), o, vs, rows) && Prints(cat, cmp, conds, Some(keep), q, ws, rows')
    ensures multiset(rows) == multiset(rows')
  {
    hide MeetsAll, Total, KeptAll, EachValued, AllCover;
    forall v ensures v in vs <==> v in ws {
      TotalSame(cat, o, q, v);
    }
    SameBag(vs, ws);
    KeptBag(cat, vs, ws, keep);
  }

  lemma OrderOk(cat: Catalog, o: seq<nat>)
    requires NoDup(o) && forall r: nat :: r in o <==> r < |cat.rels|
    ensures Order(cat, o) && Permutes(cat, o) && |o| == |cat.rels|
  {
    hide Elements, Below;
    ElementsExact(o);
    assert Elements(o) == Below(|cat.rels|);
    forall i | 0 <= i < |o| ensures o[i] < |cat.rels| {
      assert o[i] in o;
    }
  }

  lemma QueryPermutes(cat: Catalog)
    ensures Permutes(cat, Ql.Query(|cat.rels|))
  {
    var o := Ql.Query(|cat.rels|);
    forall r: nat ensures r in o <==> r < |cat.rels| {
      if r < |cat.rels| { assert o[r] == r; }
    }
  }

  lemma IsWhole(cat: Catalog, conds: seq<Condition>, at: Assignment, o: seq<nat>)
    requires CatalogOk(cat) && Order(cat, o) && Permutes(cat, o) && 0 < |o| && |at| == |conds| && Assigned(cat, conds, at, o)
    ensures WholePlan(cat, conds, at, o)
  {
    hide CatalogOk, Assigned, PrefixAttrs, Known;
    AllKnown(cat, o);
  }

  /** What the tree for an order yields. */
  lemma Answered(cat: Catalog, cmp: Comparator, conds: seq<Condition>, at: Assignment, o: seq<nat>, keep: Option<seq<nat>>)
    requires WholePlan(cat, conds, at, o) && Permutes(cat, o)
    requires keep.Some? ==> forall i :: 0 <= i < |keep.value| ==> RelOf(cat, keep.value[i]).Some?
    ensures |at| == |conds| && Order(cat, o) && 0 < |o| && forall i: nat :: i <= |o| ==> Known(cat.lens, PrefixAttrs(cat, o, i))
    ensures var vs := Chosen(cat, cmp, conds, at, o, |o|);
            var p := Ql.Projected(PlanFor(cat, conds, at, o, |o|), keep);
            PlanOk(cat, p) && RelationsOk(cat) && Answers(cat, cmp, conds, o, vs) &&
            if keep.None? then Rows(cat, cmp, p) == Tuples(cat, o, |o|, vs)
            else EachValued(cat, vs, keep.value) && Rows(cat, cmp, p) == KeptAll(cat, vs, keep.value)
  {
    hide PrefixAttrs, PlanFor, RelOf, Rows, Chosen, AllCover, Total, MeetsAll, KeptAll, EachValued, CatalogOk, Assigned;
    Ql.Whole(cat, conds, at, o);
    PlanExact(cat, cmp, conds, at, o);
    if keep.Some? {
      assert o[..|o|] == o;
      forall i | 0 <= i < |keep.value| ensures keep.value[i] in PrefixAttrs(cat, o, |o|) {
        Ql.RelOfRange(cat, keep.value[i]);
        Ql.InPrefix(cat, o, |o|, keep.value[i]);
      }
      ProjYields(cat, cmp, conds, at, o, Chosen(cat, cmp, conds, at, o, |o|), keep.value);
    }
  }
}
