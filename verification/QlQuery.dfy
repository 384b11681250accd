/** What a left-deep plan yields: exactly the combinations of rows that satisfy every condition, wherever
    the conditions were pushed and in whatever order the relations are joined. */
module QlQuery {
  import opened Options
  import opened Seqs
  import opened QlPlan

  /** One row number for each of some relations. */
  type Choice = map<nat, nat>

  // ----- the product of the relations, row combination by row combination

  predicate Order(cat: Catalog, o: seq<nat>) {
    forall i :: 0 <= i < |o| ==> o[i] < |cat.rels|
  }

  function ExtendFrom(v: Choice, r: nat, i: nat, n: nat): seq<Choice>
    requires i <= n
    decreases n - i
  {
    if i == n then [] else [v[r := i]] + ExtendFrom(v, r, i + 1, n)
  }

  function Extend(vs: seq<Choice>, r: nat, n: nat): seq<Choice> {
    if vs == [] then [] else ExtendFrom(vs[0], r, 0, n) + Extend(vs[1..], r, n)
  }

  /** All combinations of rows of the first k relations of the order. */
  function Choices(cat: Catalog, o: seq<nat>, k: nat): seq<Choice>
    requires Order(cat, o) && k <= |o|
  {
    if k == 0 then [map[]] else Extend(Choices(cat, o, k - 1), o[k - 1], |cat.rels[o[k - 1]].rows|)
  }

  predicate Covers(cat: Catalog, o: seq<nat>, k: nat, v: Choice)
    requires Order(cat, o) && k <= |o|
  {
    forall i :: 0 <= i < k ==> o[i] in v && v[o[i]] < |cat.rels[o[i]].rows|
  }

  function PrefixAttrs(cat: Catalog, o: seq<nat>, k: nat): seq<nat>
    requires Order(cat, o) && k <= |o|
  {
    if k == 0 then [] else PrefixAttrs(cat, o, k - 1) + AttrsOf(cat, o[k - 1])
  }

  /** The joined tuple of the chosen rows. */
  function Tuple(cat: Catalog, o: seq<nat>, k: nat, v: Choice): Bytes
    requires Order(cat, o) && k <= |o| && Covers(cat, o, k, v)
  {
    if k == 0 then [] else Tuple(cat, o, k - 1, v) + cat.rels[o[k - 1]].rows[v[o[k - 1]]]
  }

  predicate AllCover(cat: Catalog, o: seq<nat>, k: nat, vs: seq<Choice>)
    requires Order(cat, o) && k <= |o|
  {
    forall i :: 0 <= i < |vs| ==> Covers(cat, o, k, vs[i])
  }

  function Tuples(cat: Catalog, o: seq<nat>, k: nat, vs: seq<Choice>): (r: seq<Bytes>)
    requires Order(cat, o) && k <= |o| && AllCover(cat, o, k, vs)
    ensures |r| == |vs|
  {
    if vs == [] then [] else [Tuple(cat, o, k, vs[0])] + Tuples(cat, o, k, vs[1..])
  }

  // ----- the value of an attribute under a choice

  /** The relation an attribute belongs to. */
  function RelOfFrom(cat: Catalog, a: nat, r: nat): (s: Option<nat>)
    requires r <= |cat.rels|
    ensures s.Some? ==> s.value < |cat.rels| && a in AttrsOf(cat, s.value)
    ensures s.None? ==> forall q :: r <= q < |cat.rels| ==> a !in AttrsOf(cat, q)
    decreases |cat.rels| - r
  {
    if r == |cat.rels| then None
    else if a in AttrsOf(cat, r) then Some(r)
    else RelOfFrom(cat, a, r + 1)
  }

  function RelOf(cat: Catalog, a: nat): Option<nat> {
    RelOfFrom(cat, a, 0)
  }

  lemma RelOfExact(cat: Catalog, a: nat, r: nat)
    requires CatalogOk(cat) && r < |cat.rels| && a in AttrsOf(cat, r)
    ensures RelOf(cat, a) == Some(r)
  {
    var s := RelOf(cat, a).value;
    assert RelationOk(cat, cat.rels[r]) && RelationOk(cat, cat.rels[s]);
  }

  predicate Valued(cat: Catalog, v: Choice, a: nat) {
    var r := RelOf(cat, a);
    r.Some? && RelationOk(cat, cat.rels[r.value]) && r.value in v && v[r.value] < |cat.rels[r.value].rows|
  }

  function ValueOf(cat: Catalog, v: Choice, a: nat): Bytes
    requires Valued(cat, v, a)
  {
    var r := RelOf(cat, a).value;
    Field(cat.lens, AttrsOf(cat, r), cat.rels[r].rows[v[r]], a)
  }

  ghost predicate Readable(cat: Catalog, v: Choice, c: Condition) {
    forall a :: a in Reads(c) ==> Valued(cat, v, a)
  }

  /** The chosen rows satisfy the condition. */
  ghost predicate Meets(cat: Catalog, cmp: Comparator, c: Condition, v: Choice) {
    Readable(cat, v, c) && c.lhs in Reads(c) && (c.rhs.Attr? ==> c.rhs.attr in Reads(c)) &&
    cmp(c.op, ValueOf(cat, v, c.lhs), if c.rhs.Value? then c.rhs.data else ValueOf(cat, v, c.rhs.attr))
  }

  // ----- a joined tuple has the chosen values

  lemma {:induction false} TupleWidth(cat: Catalog, o: seq<nat>, k: nat, v: Choice)
    requires CatalogOk(cat) && Order(cat, o) && k <= |o| && Covers(cat, o, k, v)
    ensures Known(cat.lens, PrefixAttrs(cat, o, k)) && |Tuple(cat, o, k, v)| == Width(cat.lens, PrefixAttrs(cat, o, k))
  {
    if k > 0 {
      TupleWidth(cat, o, k - 1, v);
      assert RelationOk(cat, cat.rels[o[k - 1]]);
      WidthJoin(cat.lens, PrefixAttrs(cat, o, k - 1), AttrsOf(cat, o[k - 1]));
    }
  }

  lemma {:induction false} PrefixKnown(cat: Catalog, o: seq<nat>, k: nat)
    requires CatalogOk(cat) && Order(cat, o) && k <= |o|
    ensures Known(cat.lens, PrefixAttrs(cat, o, k))
  {
    if k > 0 {
      PrefixKnown(cat, o, k - 1);
      assert RelationOk(cat, cat.rels[o[k - 1]]);
    }
  }

  lemma {:induction false} MemberPrefix(cat: Catalog, o: seq<nat>, k: nat, a: nat, i: nat)
    requires Order(cat, o) && i < k <= |o| && a in AttrsOf(cat, o[i])
    ensures a in PrefixAttrs(cat, o, k)
  {
    hide AttrsOf;
    if i < k - 1 { MemberPrefix(cat, o, k - 1, a, i); }
  }

  lemma {:induction false} FieldOfTuple(cat: Catalog, o: seq<nat>, k: nat, v: Choice, a: nat)
    requires CatalogOk(cat) && Order(cat, o) && k <= |o| && Covers(cat, o, k, v) && a in PrefixAttrs(cat, o, k)
    ensures Known(cat.lens, PrefixAttrs(cat, o, k)) && |Tuple(cat, o, k, v)| == Width(cat.lens, PrefixAttrs(cat, o, k))
    ensures Valued(cat, v, a) && Field(cat.lens, PrefixAttrs(cat, o, k), Tuple(cat, o, k, v), a) == ValueOf(cat, v, a)
  {
    hide Field, Width, IndexToOffset, RelOf, AttrsOf, Known;
    TupleWidth(cat, o, k, v);
    TupleWidth(cat, o, k - 1, v);
    var r := o[k - 1];
    RelKnown(cat, r);
    FieldJoin(cat.lens, PrefixAttrs(cat, o, k - 1), Tuple(cat, o, k - 1, v), AttrsOf(cat, r), cat.rels[r].rows[v[r]], a);
    if a in PrefixAttrs(cat, o, k - 1) {
      FieldOfTuple(cat, o, k - 1, v, a);
    } else {
      RelOfExact(cat, a, r);
    }
  }

  lemma RelKnown(cat: Catalog, r: nat)
    requires CatalogOk(cat) && r < |cat.rels|
    ensures RelationOk(cat, cat.rels[r]) && Known(cat.lens, AttrsOf(cat, r)) && AllWide(cat.rels[r].rows, Width(cat.lens, AttrsOf(cat, r)))
  {
    assert RelationOk(cat, cat.rels[r]);
  }

  /** On a joined tuple a condition says what it says of the chosen rows. */
  lemma HoldsMeets(cat: Catalog, cmp: Comparator, c: Condition, o: seq<nat>, k: nat, v: Choice)
    requires CatalogOk(cat) && Order(cat, o) && k <= |o| && Covers(cat, o, k, v)
    requires forall a :: a in Reads(c) ==> a in PrefixAttrs(cat, o, k)
    ensures Known(cat.lens, PrefixAttrs(cat, o, k)) && |Tuple(cat, o, k, v)| == Width(cat.lens, PrefixAttrs(cat, o, k))
    ensures Readable(cat, v, c)
    ensures Holds(cat.lens, cmp, c, PrefixAttrs(cat, o, k), Tuple(cat, o, k, v)) <==> Meets(cat, cmp, c, v)
  {
    hide Field, Width, IndexToOffset, RelOf, AttrsOf, Known, Valued, ValueOf, PrefixAttrs, Tuple;
    TupleWidth(cat, o, k, v);
    forall a | a in Reads(c)
      ensures Valued(cat, v, a) && Field(cat.lens, PrefixAttrs(cat, o, k), Tuple(cat, o, k, v), a) == ValueOf(cat, v, a)
    {
      FieldOfTuple(cat, o, k, v, a);
    }
    assert c.lhs in Reads(c) && (c.rhs.Attr? ==> c.rhs.attr in Reads(c));
  }

  // ----- conditions pushed to relations

  /** Which relation each condition is checked at. */
  type Assignment = seq<nat>

  /** Condition j is checked at relation o[p], when all the attributes it reads are there. */
  ghost predicate CheckedAt(cat: Catalog, conds: seq<Condition>, at: Assignment, o: seq<nat>, j: nat, p: nat)
    requires Order(cat, o) && |at| == |conds|
  {
    j < |conds| && p < |o| && at[j] == o[p] && forall a :: a in Reads(conds[j]) ==> a in PrefixAttrs(cat, o, p + 1)
  }

  ghost predicate Placed(cat: Catalog, conds: seq<Condition>, at: Assignment, o: seq<nat>, j: nat)
    requires Order(cat, o) && |at| == |conds|
  {
    exists p :: CheckedAt(cat, conds, at, o, j, p)
  }

  ghost predicate Assigned(cat: Catalog, conds: seq<Condition>, at: Assignment, o: seq<nat>)
    requires Order(cat, o)
  {
    |at| == |conds| && forall j :: 0 <= j < |conds| ==> Placed(cat, conds, at, o, j)
  }

  lemma CheckedHere(cat: Catalog, conds: seq<Condition>, at: Assignment, o: seq<nat>, j: nat, p: nat)
    requires Order(cat, o) && Assigned(cat, conds, at, o) && NoDup(o) && j < |conds| && p < |o| && at[j] == o[p]
    ensures forall a :: a in Reads(conds[j]) ==> a in PrefixAttrs(cat, o, p + 1)
  {
    assert Placed(cat, conds, at, o, j);
    var q :| CheckedAt(cat, conds, at, o, j, q);
    assert q == p;
  }

  /** The compiled conditions of relation r among the first n. */
  function NodeConds(lens: seq<nat>, attrs: seq<nat>, conds: seq<Condition>, at: Assignment, r: nat, n: nat): seq<Cond>
    requires Known(lens, attrs) && n <= |conds| == |at|
  {
    if n == 0 then []
    else
      NodeConds(lens, attrs, conds, at, r, n - 1) +
      (if at[n - 1] == r && Compile(lens, attrs, conds[n - 1]).Some? then [Compile(lens, attrs, conds[n - 1]).value] else [])
  }

  /** The first n conditions that are checked at r hold for the choice. */
  ghost predicate MeetsAt(cat: Catalog, cmp: Comparator, conds: seq<Condition>, at: Assignment, r: nat, n: nat, v: Choice)
    requires n <= |conds| == |at|
  {
    forall j :: 0 <= j < n && at[j] == r ==> Meets(cat, cmp, conds[j], v)
  }

  /** Compiled and checked on the joined tuple, the conditions of relation o[p] say what they say of the choice. */
  lemma {:induction false} NodeCondsCheck(cat: Catalog, cmp: Comparator, conds: seq<Condition>, at: Assignment, o: seq<nat>,
                                          p: nat, n: nat, v: Choice)
    requires CatalogOk(cat) && Order(cat, o) && Assigned(cat, conds, at, o) && NoDup(o) && p < |o| && n <= |conds|
    requires Covers(cat, o, p + 1, v)
    ensures Known(cat.lens, PrefixAttrs(cat, o, p + 1))
    ensures var cs := NodeConds(cat.lens, PrefixAttrs(cat, o, p + 1), conds, at, o[p], n);
            var t := Tuple(cat, o, p + 1, v);
            AllInTuple(cs, |t|) && (CheckAll(cmp, cs, t) <==> MeetsAt(cat, cmp, conds, at, o[p], n, v))
  {
    hide Meets, Check, Compile, PrefixAttrs, Tuple, Known, Order, Covers, Width, Assigned, CatalogOk;
    TupleWidth(cat, o, p + 1, v);
    AssignedSize(cat, conds, at, o);
    if n > 0 {
      NodeCondsCheck(cat, cmp, conds, at, o, p, n - 1, v);
      var attrs, t := PrefixAttrs(cat, o, p + 1), Tuple(cat, o, p + 1, v);
      if at[n - 1] == o[p] {
        CheckedHere(cat, conds, at, o, n - 1, p);
        CompileChecks(cat.lens, cmp, conds[n - 1], attrs, t);
        HoldsMeets(cat, cmp, conds[n - 1], o, p + 1, v);
      }
      hide Holds;
      OneCondMore(cat, cmp, conds, at, o[p], n, v, attrs, t);
    }
  }

  lemma OneCondMore(cat: Catalog, cmp: Comparator, conds: seq<Condition>, at: Assignment, r: nat, n: nat, v: Choice, attrs: seq<nat>, t: Bytes)
    requires 0 < n <= |conds| == |at| && Known(cat.lens, attrs)
    requires var cs := NodeConds(cat.lens, attrs, conds, at, r, n - 1);
             AllInTuple(cs, |t|) && (CheckAll(cmp, cs, t) <==> MeetsAt(cat, cmp, conds, at, r, n - 1, v))
    requires at[n - 1] == r ==>
      var d := Compile(cat.lens, attrs, conds[n - 1]);
      d.Some? && InTuple(d.value, |t|) && (Check(cmp, d.value, t) <==> Meets(cat, cmp, conds[n - 1], v))
    ensures var cs := NodeConds(cat.lens, attrs, conds, at, r, n);
            AllInTuple(cs, |t|) && (CheckAll(cmp, cs, t) <==> MeetsAt(cat, cmp, conds, at, r, n, v))
  {
    hide Meets, Check, Compile, Known, InTuple;
    var before := NodeConds(cat.lens, attrs, conds, at, r, n - 1);
    assert before + [] == before;
    if at[n - 1] == r {
      CheckSnoc(cmp, before, Compile(cat.lens, attrs, conds[n - 1]).value, t);
    }
    hide CheckAll, AllInTuple;
  }

  lemma CheckSnoc(cmp: Comparator, cs: seq<Cond>, c: Cond, t: Bytes)
    requires AllInTuple(cs, |t|) && InTuple(c, |t|)
    ensures AllInTuple(cs + [c], |t|)
    ensures CheckAll(cmp, cs + [c], t) <==> CheckAll(cmp, cs, t) && Check(cmp, c, t)
  {
    if CheckAll(cmp, cs + [c], t) {
      forall i | 0 <= i < |cs| ensures Check(cmp, cs[i], t) {
        assert (cs + [c])[i] == cs[i];
      }
      assert (cs + [c])[|cs|] == c;
    }
  }

  lemma {:induction false} NodeCondsWidth(cat: Catalog, conds: seq<Condition>, at: Assignment, attrs: seq<nat>, r: nat, n: nat)
    requires Known(cat.lens, attrs) && n <= |conds| == |at|
    ensures AllInTuple(NodeConds(cat.lens, attrs, conds, at, r, n), Width(cat.lens, attrs))
  {
    if n > 0 { NodeCondsWidth(cat, conds, at, attrs, r, n - 1); }
  }

  // ----- the left-deep plan

  /** The plan that joins the first k relations of the order, checking each condition where it is assigned. */
  function PlanFor(cat: Catalog, conds: seq<Condition>, at: Assignment, o: seq<nat>, k: nat): Plan
    requires Order(cat, o) && 0 < k <= |o| && |at| == |conds| && forall i: nat :: i <= |o| ==> Known(cat.lens, PrefixAttrs(cat, o, i))
  {
    var cs := NodeConds(cat.lens, PrefixAttrs(cat, o, k), conds, at, o[k - 1], |conds|);
    if k == 1 then (if cs == [] then Rel(o[0]) else Sel(Rel(o[0]), cs))
    else Join(PlanFor(cat, conds, at, o, k - 1), o[k - 1], cs)
  }

  lemma AllKnown(cat: Catalog, o: seq<nat>)
    requires CatalogOk(cat) && Order(cat, o)
    ensures forall i: nat :: i <= |o| ==> Known(cat.lens, PrefixAttrs(cat, o, i))
  {
    forall i: nat | i <= |o| ensures Known(cat.lens, PrefixAttrs(cat, o, i)) {
      PrefixKnown(cat, o, i);
    }
  }

  lemma {:induction false} PlanForOk(cat: Catalog, conds: seq<Condition>, at: Assignment, o: seq<nat>, k: nat)
    requires CatalogOk(cat) && Order(cat, o) && 0 < k <= |o| && |at| == |conds|
    requires forall i: nat :: i <= |o| ==> Known(cat.lens, PrefixAttrs(cat, o, i))
    ensures var p := PlanFor(cat, conds, at, o, k);
            Named(cat, p) && Attrs(cat, p) == PrefixAttrs(cat, o, k) && PlanOk(cat, p)
  {
    hide NodeConds, AttrsOf, Known, Width;
    NodeCondsWidth(cat, conds, at, PrefixAttrs(cat, o, k), o[k - 1], |conds|);
    if k > 1 {
      PlanForOk(cat, conds, at, o, k - 1);
    } else {
      assert PrefixAttrs(cat, o, 0) == [];
      assert PrefixAttrs(cat, o, 1) == AttrsOf(cat, o[0]);
    }
  }

  // ----- what the plan yields

  /** Every condition checked at one of the first k relations holds for the choice. */
  ghost predicate Sat(cat: Catalog, cmp: Comparator, conds: seq<Condition>, at: Assignment, o: seq<nat>, k: nat, v: Choice)
    requires Order(cat, o) && k <= |o| && |at| == |conds|
  {
    forall i :: 0 <= i < k ==> MeetsAt(cat, cmp, conds, at, o[i], |conds|, v)
  }

  ghost function Keep(cat: Catalog, cmp: Comparator, conds: seq<Condition>, at: Assignment, o: seq<nat>, k: nat,
                      vs: seq<Choice>): (r: seq<Choice>)
    requires Order(cat, o) && k <= |o| && |at| == |conds|
    ensures AllCover(cat, o, k, vs) ==> AllCover(cat, o, k, r)
  {
    if vs == [] then []
    else (if Sat(cat, cmp, conds, at, o, k, vs[0]) then [vs[0]] else []) + Keep(cat, cmp, conds, at, o, k, vs[1..])
  }

  lemma {:induction false} KeepJoin(cat: Catalog, cmp: Comparator, conds: seq<Condition>, at: Assignment, o: seq<nat>, k: nat,
                                    a: seq<Choice>, b: seq<Choice>)
    requires Order(cat, o) && k <= |o| && |at| == |conds|
    ensures Keep(cat, cmp, conds, at, o, k, a + b) ==
            Keep(cat, cmp, conds, at, o, k, a) + Keep(cat, cmp, conds, at, o, k, b)
  {
    hide Sat, AllCover;
    if a == [] {
      assert a + b == b;
    } else {
      KeepJoin(cat, cmp, conds, at, o, k, a[1..], b);
      assert (a + b)[0] == a[0] && (a + b)[1..] == a[1..] + b;
      var x := if Sat(cat, cmp, conds, at, o, k, a[0]) then [a[0]] else [];
      var p, q := Keep(cat, cmp, conds, at, o, k, a[1..]), Keep(cat, cmp, conds, at, o, k, b);
      assert x + (p + q) == (x + p) + q;
    }
  }

  lemma {:induction false} TuplesJoin(cat: Catalog, o: seq<nat>, k: nat, a: seq<Choice>, b: seq<Choice>)
    requires Order(cat, o) && k <= |o| && AllCover(cat, o, k, a) && AllCover(cat, o, k, b)
    ensures AllCover(cat, o, k, a + b) && Tuples(cat, o, k, a + b) == Tuples(cat, o, k, a) + Tuples(cat, o, k, b)
  {
    hide Tuple, Covers;
    if a == [] {
      assert a + b == b;
    } else {
      TuplesJoin(cat, o, k, a[1..], b);
      assert (a + b)[0] == a[0] && (a + b)[1..] == a[1..] + b;
    }
  }

  /** A choice for the first k relations extended by a row of the next one. */
  lemma Extended(cat: Catalog, cmp: Comparator, conds: seq<Condition>, at: Assignment, o: seq<nat>, k: nat, v: Choice, i: nat)
    requires CatalogOk(cat) && Order(cat, o) && NoDup(o) && Assigned(cat, conds, at, o) && k < |o| && Covers(cat, o, k, v)
    requires |at| == |conds| && i < |cat.rels[o[k]].rows|
    ensures var w := v[o[k] := i];
            Covers(cat, o, k + 1, w) && Tuple(cat, o, k + 1, w) == Tuple(cat, o, k, v) + cat.rels[o[k]].rows[i]
    ensures var w := v[o[k] := i];
            Sat(cat, cmp, conds, at, o, k + 1, w) <==>
            Sat(cat, cmp, conds, at, o, k, v) && MeetsAt(cat, cmp, conds, at, o[k], |conds|, w)
  {
    hide Meets, PrefixAttrs, CatalogOk, Assigned, RelOf, AttrsOf;
    var w := v[o[k] := i];
    TupleSame(cat, o, k, v, w);
    forall p, j | 0 <= p < k && 0 <= j < |conds| && at[j] == o[p]
      ensures Meets(cat, cmp, conds[j], v) <==> Meets(cat, cmp, conds[j], w)
    {
      CheckedHere(cat, conds, at, o, j, p);
      MeetsSame(cat, cmp, conds[j], o, p + 1, v, w);
    }
    SatStep(cat, cmp, conds, at, o, k, v, w);
  }

  lemma SatStep(cat: Catalog, cmp: Comparator, conds: seq<Condition>, at: Assignment, o: seq<nat>, k: nat, v: Choice, w: Choice)
    requires Order(cat, o) && k < |o| && |at| == |conds|
    requires forall p, j :: 0 <= p < k && 0 <= j < |conds| && at[j] == o[p] ==>
               (Meets(cat, cmp, conds[j], v) <==> Meets(cat, cmp, conds[j], w))
    ensures Sat(cat, cmp, conds, at, o, k + 1, w) <==>
            Sat(cat, cmp, conds, at, o, k, v) && MeetsAt(cat, cmp, conds, at, o[k], |conds|, w)
  {
    hide Meets;
    forall p | 0 <= p < k
      ensures MeetsAt(cat, cmp, conds, at, o[p], |conds|, v) <==> MeetsAt(cat, cmp, conds, at, o[p], |conds|, w) {}
  }

  lemma {:induction false} TupleSame(cat: Catalog, o: seq<nat>, k: nat, v: Choice, w: Choice)
    requires Order(cat, o) && k <= |o| && Covers(cat, o, k, v) && forall i :: 0 <= i < k ==> o[i] in w && w[o[i]] == v[o[i]]
    ensures Covers(cat, o, k, w) && Tuple(cat, o, k, w) == Tuple(cat, o, k, v)
  {
    if k > 0 { TupleSame(cat, o, k - 1, v, w); }
  }

  lemma MeetsSame(cat: Catalog, cmp: Comparator, c: Condition, o: seq<nat>, k: nat, v: Choice, w: Choice)
    requires CatalogOk(cat) && Order(cat, o) && k <= |o| && Covers(cat, o, k, v) && Covers(cat, o, k, w)
    requires forall i :: 0 <= i < k ==> w[o[i]] == v[o[i]]
    requires forall a :: a in Reads(c) ==> a in PrefixAttrs(cat, o, k)
    ensures Meets(cat, cmp, c, v) <==> Meets(cat, cmp, c, w)
  {
    hide Meets, PrefixAttrs;
    HoldsMeets(cat, cmp, c, o, k, v);
    HoldsMeets(cat, cmp, c, o, k, w);
    TupleSame(cat, o, k, v, w);
  }

  /** The conditions checked when relation o[k] joins. */
  function LevelConds(cat: Catalog, conds: seq<Condition>, at: Assignment, o: seq<nat>, k: nat): seq<Cond>
    requires Order(cat, o) && k < |o| && |at| == |conds| && Known(cat.lens, PrefixAttrs(cat, o, k + 1))
  {
    NodeConds(cat.lens, PrefixAttrs(cat, o, k + 1), conds, at, o[k], |conds|)
  }

  ghost predicate Setting(cat: Catalog, conds: seq<Condition>, at: Assignment, o: seq<nat>, k: nat) {
    CatalogOk(cat) && Order(cat, o) && NoDup(o) && Assigned(cat, conds, at, o) && k < |o| && |at| == |conds| &&
    Known(cat.lens, PrefixAttrs(cat, o, k)) && Known(cat.lens, PrefixAttrs(cat, o, k + 1)) &&
    AllInTuple(LevelConds(cat, conds, at, o, k), Width(cat.lens, PrefixAttrs(cat, o, k + 1))) &&
    Width(cat.lens, PrefixAttrs(cat, o, k)) <= Width(cat.lens, PrefixAttrs(cat, o, k + 1)) &&
    AllWide(cat.rels[o[k]].rows, Width(cat.lens, PrefixAttrs(cat, o, k + 1)) - Width(cat.lens, PrefixAttrs(cat, o, k)))
  }

  lemma SettingOk(cat: Catalog, conds: seq<Condition>, at: Assignment, o: seq<nat>, k: nat)
    requires CatalogOk(cat) && Order(cat, o) && NoDup(o) && Assigned(cat, conds, at, o) && k < |o|
    ensures Setting(cat, conds, at, o, k)
  {
    hide CatalogOk, Assigned, NodeConds, AttrsOf;
    assert |at| == |conds| by { AssignedSize(cat, conds, at, o); }
    PrefixKnown(cat, o, k);
    PrefixKnown(cat, o, k + 1);
    RelKnown(cat, o[k]);
    WidthJoin(cat.lens, PrefixAttrs(cat, o, k), AttrsOf(cat, o[k]));
    NodeCondsWidth(cat, conds, at, PrefixAttrs(cat, o, k + 1), o[k], |conds|);
  }

  lemma AssignedSize(cat: Catalog, conds: seq<Condition>, at: Assignment, o: seq<nat>)
    requires Order(cat, o) && Assigned(cat, conds, at, o)
    ensures |at| == |conds|
  {}

  /** The inner loop for one outer tuple: the extensions of its choice that satisfy the conditions so far. */
  lemma {:induction false} InnerLoop(cat: Catalog, cmp: Comparator, conds: seq<Condition>, at: Assignment, o: seq<nat>, k: nat,
                                     v: Choice, i: nat)
    requires Setting(cat, conds, at, o, k) && Covers(cat, o, k, v) && Sat(cat, cmp, conds, at, o, k, v)
    requires i <= |cat.rels[o[k]].rows|
    ensures |Tuple(cat, o, k, v)| == Width(cat.lens, PrefixAttrs(cat, o, k))
    ensures var rows := cat.rels[o[k]].rows;
            var es := ExtendFrom(v, o[k], i, |rows|);
            AllCover(cat, o, k + 1, es) &&
            JoinOne(cmp, LevelConds(cat, conds, at, o, k), Tuple(cat, o, k, v), rows[i..], Width(cat.lens, PrefixAttrs(cat, o, k + 1))) ==
            Tuples(cat, o, k + 1, Keep(cat, cmp, conds, at, o, k + 1, es))
    decreases |cat.rels[o[k]].rows| - i
  {
    hide CatalogOk, Assigned, LevelConds, PrefixAttrs, Sat, Tuple, Covers, CheckAll, MeetsAt, Width, Known;
    var rows := cat.rels[o[k]].rows;
    TupleWidth(cat, o, k, v);
    if i < |rows| {
      InnerLoop(cat, cmp, conds, at, o, k, v, i + 1);
      assert rows[i..][0] == rows[i] && rows[i..][1..] == rows[i + 1..];
      InnerStep(cat, cmp, conds, at, o, k, v, i);
      var es := ExtendFrom(v, o[k], i, |rows|);
      assert es[0] == v[o[k] := i] && es[1..] == ExtendFrom(v, o[k], i + 1, |rows|);
      var w, rest := es[0], Keep(cat, cmp, conds, at, o, k + 1, es[1..]);
      if Sat(cat, cmp, conds, at, o, k + 1, w) {
        assert Keep(cat, cmp, conds, at, o, k + 1, es) == [w] + rest;
        assert ([w] + rest)[1..] == rest;
      } else {
        assert Keep(cat, cmp, conds, at, o, k + 1, es) == rest;
      }
    } else {
      assert rows[i..] == [];
    }
  }

  lemma InnerStep(cat: Catalog, cmp: Comparator, conds: seq<Condition>, at: Assignment, o: seq<nat>, k: nat, v: Choice, i: nat)
    requires Setting(cat, conds, at, o, k) && Covers(cat, o, k, v) && i < |cat.rels[o[k]].rows|
    ensures var w := v[o[k] := i];
            var t := Tuple(cat, o, k, v) + cat.rels[o[k]].rows[i];
            Covers(cat, o, k + 1, w) && Tuple(cat, o, k + 1, w) == t && AllInTuple(LevelConds(cat, conds, at, o, k), |t|) &&
            (Sat(cat, cmp, conds, at, o, k + 1, w) <==>
             Sat(cat, cmp, conds, at, o, k, v) && CheckAll(cmp, LevelConds(cat, conds, at, o, k), t))
  {
    hide CatalogOk, Assigned, PrefixAttrs, Sat, CheckAll, MeetsAt;
    Extended(cat, cmp, conds, at, o, k, v, i);
    NodeCondsCheck(cat, cmp, conds, at, o, k, |conds|, v[o[k] := i]);
  }

  /** A choice that fails an earlier condition has no extension that counts. */
  lemma {:induction false} NoneKept(cat: Catalog, cmp: Comparator, conds: seq<Condition>, at: Assignment, o: seq<nat>, k: nat,
                                    v: Choice, i: nat)
    requires Setting(cat, conds, at, o, k) && Covers(cat, o, k, v) && !Sat(cat, cmp, conds, at, o, k, v)
    requires i <= |cat.rels[o[k]].rows|
    ensures Keep(cat, cmp, conds, at, o, k + 1, ExtendFrom(v, o[k], i, |cat.rels[o[k]].rows|)) == []
    ensures AllCover(cat, o, k + 1, ExtendFrom(v, o[k], i, |cat.rels[o[k]].rows|))
    decreases |cat.rels[o[k]].rows| - i
  {
    hide CatalogOk, Assigned, LevelConds, PrefixAttrs, Sat, Tuple, Covers, CheckAll, MeetsAt;
    var rows := cat.rels[o[k]].rows;
    if i < |rows| {
      NoneKept(cat, cmp, conds, at, o, k, v, i + 1);
      InnerStep(cat, cmp, conds, at, o, k, v, i);
      var es := ExtendFrom(v, o[k], i, |rows|);
      assert es[0] == v[o[k] := i] && es[1..] == ExtendFrom(v, o[k], i + 1, |rows|);
    }
  }

  /** The nested loop over the outer tuples of some choices. */
  lemma {:induction false} OuterLoop(cat: Catalog, cmp: Comparator, conds: seq<Condition>, at: Assignment, o: seq<nat>, k: nat,
                                     vs: seq<Choice>)
    requires Setting(cat, conds, at, o, k) && AllCover(cat, o, k, vs)
    ensures var kept := Keep(cat, cmp, conds, at, o, k, vs);
            var es := Extend(vs, o[k], |cat.rels[o[k]].rows|);
            AllWide(Tuples(cat, o, k, kept), Width(cat.lens, PrefixAttrs(cat, o, k))) && AllCover(cat, o, k + 1, es) &&
            JoinAll(cmp, LevelConds(cat, conds, at, o, k), Tuples(cat, o, k, kept), cat.rels[o[k]].rows,
                    Width(cat.lens, PrefixAttrs(cat, o, k)), Width(cat.lens, PrefixAttrs(cat, o, k + 1))) ==
            Tuples(cat, o, k + 1, Keep(cat, cmp, conds, at, o, k + 1, es))
  {
    hide CatalogOk, Assigned, LevelConds, PrefixAttrs, Sat, Tuple, Covers, CheckAll, MeetsAt, Width, Known;
    if vs != [] {
      var v, n := vs[0], |cat.rels[o[k]].rows|;
      assert Covers(cat, o, k, v);
      OuterLoop(cat, cmp, conds, at, o, k, vs[1..]);
      var e, es := ExtendFrom(v, o[k], 0, n), Extend(vs[1..], o[k], n);
      KeepJoin(cat, cmp, conds, at, o, k + 1, e, es);
      if Sat(cat, cmp, conds, at, o, k, v) {
        InnerLoop(cat, cmp, conds, at, o, k, v, 0);
        assert cat.rels[o[k]].rows[0..] == cat.rels[o[k]].rows;
        TuplesJoin(cat, o, k + 1, Keep(cat, cmp, conds, at, o, k + 1, e), Keep(cat, cmp, conds, at, o, k + 1, es));
      } else {
        NoneKept(cat, cmp, conds, at, o, k, v, 0);
        assert Keep(cat, cmp, conds, at, o, k, vs) == Keep(cat, cmp, conds, at, o, k, vs[1..]);
        assert Keep(cat, cmp, conds, at, o, k + 1, e + es) == Keep(cat, cmp, conds, at, o, k + 1, es);
      }
    }
  }

  lemma {:induction false} ChoicesCover(cat: Catalog, o: seq<nat>, k: nat)
    requires Order(cat, o) && k <= |o|
    ensures AllCover(cat, o, k, Choices(cat, o, k))
  {
    if k > 0 {
      ChoicesCover(cat, o, k - 1);
      ExtendCovers(cat, o, k - 1, Choices(cat, o, k - 1));
    }
  }

  lemma {:induction false} ExtendCovers(cat: Catalog, o: seq<nat>, k: nat, vs: seq<Choice>)
    requires Order(cat, o) && k < |o| && AllCover(cat, o, k, vs)
    ensures AllCover(cat, o, k + 1, Extend(vs, o[k], |cat.rels[o[k]].rows|))
  {
    hide Covers;
    if vs != [] {
      ExtendCovers(cat, o, k, vs[1..]);
      ExtendFromCovers(cat, o, k, vs[0], 0);
    }
  }

  lemma {:induction false} ExtendFromCovers(cat: Catalog, o: seq<nat>, k: nat, v: Choice, i: nat)
    requires Order(cat, o) && k < |o| && Covers(cat, o, k, v) && i <= |cat.rels[o[k]].rows|
    ensures AllCover(cat, o, k + 1, ExtendFrom(v, o[k], i, |cat.rels[o[k]].rows|))
    decreases |cat.rels[o[k]].rows| - i
  {
    if i < |cat.rels[o[k]].rows| { ExtendFromCovers(cat, o, k, v, i + 1); }
  }

  /** The choices of rows of the first k relations that satisfy the conditions checked there. */
  ghost function Chosen(cat: Catalog, cmp: Comparator, conds: seq<Condition>, at: Assignment, o: seq<nat>, k: nat): seq<Choice>
    requires Order(cat, o) && k <= |o| && |at| == |conds|
  {
    Keep(cat, cmp, conds, at, o, k, Choices(cat, o, k))
  }

  /** The plan yields the joined tuples of exactly the choices that satisfy the conditions, in the order of
      the nested loops. */
  lemma {:induction false} PlanYields(cat: Catalog, cmp: Comparator, conds: seq<Condition>, at: Assignment, o: seq<nat>, k: nat)
    requires CatalogOk(cat) && Order(cat, o) && NoDup(o) && Assigned(cat, conds, at, o) && 0 < k <= |o| && |at| == |conds|
    requires forall i: nat :: i <= |o| ==> Known(cat.lens, PrefixAttrs(cat, o, i))
    ensures var p := PlanFor(cat, conds, at, o, k);
            PlanOk(cat, p) && RelationsOk(cat) &&
            AllCover(cat, o, k, Chosen(cat, cmp, conds, at, o, k)) &&
            Rows(cat, cmp, p) == Tuples(cat, o, k, Chosen(cat, cmp, conds, at, o, k))
  {
    hide Assigned, NodeConds, Chosen, AttrsOf, Width, Known, Tuples, Covers;
    PlanForOk(cat, conds, at, o, k);
    SettingOk(cat, conds, at, o, k - 1);
    Steps(cat, cmp, conds, at, o, k);
    if k > 1 {
      PlanForOk(cat, conds, at, o, k - 1);
      PlanYields(cat, cmp, conds, at, o, k - 1);
    } else {
      FirstNode(cat, cmp, conds, at, o);
    }
  }

  lemma {:induction false} JoinEmpty(cmp: Comparator, cs: seq<Cond>, rows: seq<Bytes>, n: nat)
    requires AllInTuple(cs, n) && AllWide(rows, n)
    ensures JoinOne(cmp, cs, [], rows, n) == Filter(cmp, cs, rows, n)
  {
    if rows != [] {
      JoinEmpty(cmp, cs, rows[1..], n);
      assert [] + rows[0] == rows[0];
    }
  }

  lemma {:induction false} FilterNone(cmp: Comparator, rows: seq<Bytes>, n: nat)
    requires AllWide(rows, n)
    ensures Filter(cmp, [], rows, n) == rows
  {
    if rows != [] { FilterNone(cmp, rows[1..], n); }
  }

  /** Joining relation o[k - 1] turns the tuples of the choices of k - 1 relations into those of k. */
  ghost predicate JoinStep(cat: Catalog, cmp: Comparator, conds: seq<Condition>, at: Assignment, o: seq<nat>, k: nat) {
    0 < k <= |o| && Order(cat, o) && |at| == |conds| &&
    Known(cat.lens, PrefixAttrs(cat, o, k - 1)) && Known(cat.lens, PrefixAttrs(cat, o, k)) &&
    AllCover(cat, o, k - 1, Chosen(cat, cmp, conds, at, o, k - 1)) && AllCover(cat, o, k, Chosen(cat, cmp, conds, at, o, k)) &&
    var cs, rows := LevelConds(cat, conds, at, o, k - 1), cat.rels[o[k - 1]].rows;
    var ts := Tuples(cat, o, k - 1, Chosen(cat, cmp, conds, at, o, k - 1));
    var m, n := Width(cat.lens, PrefixAttrs(cat, o, k - 1)), Width(cat.lens, PrefixAttrs(cat, o, k));
    AllInTuple(cs, n) && m <= n && AllWide(ts, m) && AllWide(rows, n - m) &&
    JoinAll(cmp, cs, ts, rows, m, n) == Tuples(cat, o, k, Chosen(cat, cmp, conds, at, o, k))
  }

  lemma Steps(cat: Catalog, cmp: Comparator, conds: seq<Condition>, at: Assignment, o: seq<nat>, k: nat)
    requires 0 < k && Setting(cat, conds, at, o, k - 1)
    ensures JoinStep(cat, cmp, conds, at, o, k)
  {
    hide CatalogOk, Assigned, Keep, Tuples, LevelConds, PrefixAttrs, Width, Known, Covers, AllInTuple, AllWide;
    ChoicesCover(cat, o, k - 1);
    ChoicesCover(cat, o, k);
    OuterLoop(cat, cmp, conds, at, o, k - 1, Choices(cat, o, k - 1));
  }

  /** The first relation, with a select node if any condition is checked there. */
  lemma FirstNode(cat: Catalog, cmp: Comparator, conds: seq<Condition>, at: Assignment, o: seq<nat>)
    requires JoinStep(cat, cmp, conds, at, o, 1) && (forall i: nat :: i <= |o| ==> Known(cat.lens, PrefixAttrs(cat, o, i)))
    requires PlanOk(cat, PlanFor(cat, conds, at, o, 1)) && RelationsOk(cat)
    ensures Rows(cat, cmp, PlanFor(cat, conds, at, o, 1)) == Tuples(cat, o, 1, Chosen(cat, cmp, conds, at, o, 1))
  {
    hide NodeConds, Known, RelationOk, Range, Tuple, Covers, CheckAll;
    assert PrefixAttrs(cat, o, 0) == [] && Width(cat.lens, PrefixAttrs(cat, o, 0)) == 0;
    assert PrefixAttrs(cat, o, 1) == AttrsOf(cat, o[0]);
    FirstChosen(cat, cmp, conds, at, o);
    var cs, n, rows := LevelConds(cat, conds, at, o, 0), Width(cat.lens, AttrsOf(cat, o[0])), cat.rels[o[0]].rows;
    JoinEmpty(cmp, cs, rows, n);
    JoinSingle(cmp, cs, [], rows, 0, n);
    if cs == [] { FilterNone(cmp, rows, n); }
  }

  lemma FirstChosen(cat: Catalog, cmp: Comparator, conds: seq<Condition>, at: Assignment, o: seq<nat>)
    requires Order(cat, o) && |at| == |conds| && AllCover(cat, o, 0, Chosen(cat, cmp, conds, at, o, 0))
    ensures Tuples(cat, o, 0, Chosen(cat, cmp, conds, at, o, 0)) == [[]]
  {
    var e: Choice := map[];
    assert Sat(cat, cmp, conds, at, o, 0, e);
    assert [e][1..] == [];
    assert Keep(cat, cmp, conds, at, o, 0, [e]) == [e];
  }

  lemma JoinSingle(cmp: Comparator, cs: seq<Cond>, t: Bytes, rows: seq<Bytes>, m: nat, n: nat)
    requires AllInTuple(cs, n) && m == |t| <= n && AllWide(rows, n - m)
    ensures JoinAll(cmp, cs, [t], rows, m, n) == JoinOne(cmp, cs, t, rows, n)
  {
    assert JoinAll(cmp, cs, [t], rows, m, n) == JoinOne(cmp, cs, t, rows, n) + JoinAll(cmp, cs, [], rows, m, n);
  }

  // ----- every order yields the same rows

  /** Every condition holds for the choice. */
  ghost predicate MeetsAll(cat: Catalog, cmp: Comparator, conds: seq<Condition>, v: Choice) {
    forall j :: 0 <= j < |conds| ==> Meets(cat, cmp, conds[j], v)
  }

  /** With every condition assigned to some relation of the order, the plan checks them all. */
  lemma SatIsMeetsAll(cat: Catalog, cmp: Comparator, conds: seq<Condition>, at: Assignment, o: seq<nat>, v: Choice)
    requires Order(cat, o) && Assigned(cat, conds, at, o) && |at| == |conds|
    ensures Sat(cat, cmp, conds, at, o, |o|, v) <==> MeetsAll(cat, cmp, conds, v)
  {
    hide Meets;
    if Sat(cat, cmp, conds, at, o, |o|, v) {
      forall j | 0 <= j < |conds| ensures Meets(cat, cmp, conds[j], v) {
        assert Placed(cat, conds, at, o, j);
        var p: nat :| CheckedAt(cat, conds, at, o, j, p);
        assert MeetsAt(cat, cmp, conds, at, o[p], |conds|, v);
      }
    }
  }

  /** A choice of one row for each of the first k relations. */
  ghost predicate Total(cat: Catalog, o: seq<nat>, k: nat, v: Choice)
    requires Order(cat, o) && k <= |o|
  {
    Covers(cat, o, k, v) && forall r :: r in v ==> r in o[..k]
  }

  lemma {:induction false} ExtendFromMember(v: Choice, r: nat, i: nat, n: nat, w: Choice)
    requires i <= n
    ensures w in ExtendFrom(v, r, i, n) <==> r in w && i <= w[r] < n && w == v[r := w[r]]
    decreases n - i
  {
    if i < n {
      ExtendFromMember(v, r, i + 1, n, w);
      var e := ExtendFrom(v, r, i, n);
      assert e == [v[r := i]] + ExtendFrom(v, r, i + 1, n);
      assert e[0] == v[r := i];
    }
  }

  ghost predicate Extends(vs: seq<Choice>, r: nat, n: nat, w: Choice) {
    exists v :: v in vs && w in ExtendFrom(v, r, 0, n)
  }

  lemma {:induction false} ExtendMember(vs: seq<Choice>, r: nat, n: nat, w: Choice)
    ensures w in Extend(vs, r, n) <==> Extends(vs, r, n, w)
  {
    if vs != [] {
      ExtendMember(vs[1..], r, n, w);
      if Extends(vs, r, n, w) && w !in ExtendFrom(vs[0], r, 0, n) {
        var v :| v in vs && w in ExtendFrom(v, r, 0, n);
        assert v in vs[1..];
      }
      if Extends(vs[1..], r, n, w) {
        var v :| v in vs[1..] && w in ExtendFrom(v, r, 0, n);
        assert v in vs;
      }
    }
  }

  lemma ExtendTotal(cat: Catalog, o: seq<nat>, k: nat, v: Choice, w: Choice)
    requires Order(cat, o) && NoDup(o) && 0 < k <= |o| && Total(cat, o, k - 1, v)
    requires w in ExtendFrom(v, o[k - 1], 0, |cat.rels[o[k - 1]].rows|)
    ensures Total(cat, o, k, w)
  {
    ExtendFromMember(v, o[k - 1], 0, |cat.rels[o[k - 1]].rows|, w);
    assert o[..k] == o[..k - 1] + [o[k - 1]];
  }

  lemma TotalExtends(cat: Catalog, o: seq<nat>, k: nat, w: Choice)
    requires Order(cat, o) && NoDup(o) && 0 < k <= |o| && Total(cat, o, k, w)
    ensures Total(cat, o, k - 1, w - {o[k - 1]})
    ensures w in ExtendFrom(w - {o[k - 1]}, o[k - 1], 0, |cat.rels[o[k - 1]].rows|)
  {
    var r := o[k - 1];
    assert o[..k] == o[..k - 1] + [r];
    assert w == (w - {r})[r := w[r]];
    ExtendFromMember(w - {r}, r, 0, |cat.rels[r].rows|, w);
  }

  /** The product holds every choice of one row per relation. */
  lemma {:induction false} ChoicesAll(cat: Catalog, o: seq<nat>, k: nat, w: Choice)
    requires Order(cat, o) && NoDup(o) && k <= |o|
    ensures w in Choices(cat, o, k) <==> Total(cat, o, k, w)
  {
    hide Total;
    if k > 0 {
      var r, vs := o[k - 1], Choices(cat, o, k - 1);
      var n := |cat.rels[r].rows|;
      ExtendMember(vs, r, n, w);
      if w in Choices(cat, o, k) {
        var v :| v in vs && w in ExtendFrom(v, r, 0, n);
        ChoicesAll(cat, o, k - 1, v);
        ExtendTotal(cat, o, k, v, w);
      }
      if Total(cat, o, k, w) {
        TotalExtends(cat, o, k, w);
        ChoicesAll(cat, o, k - 1, w - {r});
        assert Extends(vs, r, n, w);
      }
    } else {
      TotalEmpty(cat, o, w);
    }
  }

  lemma TotalEmpty(cat: Catalog, o: seq<nat>, w: Choice)
    requires Order(cat, o)
    ensures Total(cat, o, 0, w) <==> w == map[]
  {}

  /** ... and holds it once. */
  lemma {:induction false} ChoicesOnce(cat: Catalog, o: seq<nat>, k: nat)
    requires Order(cat, o) && NoDup(o) && k <= |o|
    ensures NoDup(Choices(cat, o, k))
  {
    if k > 0 {
      ChoicesOnce(cat, o, k - 1);
      var vs := Choices(cat, o, k - 1);
      forall v | v in vs ensures o[k - 1] !in v {
        ChoicesAll(cat, o, k - 1, v);
      }
      ExtendOnce(vs, o[k - 1], |cat.rels[o[k - 1]].rows|);
    }
  }

  lemma {:induction false} ExtendOnce(vs: seq<Choice>, r: nat, n: nat)
    requires NoDup(vs) && forall v :: v in vs ==> r !in v
    ensures NoDup(Extend(vs, r, n))
  {
    if vs != [] {
      ExtendOnce(vs[1..], r, n);
      ExtendFromOnce(vs[0], r, 0, n);
      var a, b := ExtendFrom(vs[0], r, 0, n), Extend(vs[1..], r, n);
      forall w | w in a ensures w !in b {
        ExtendMember(vs[1..], r, n, w);
        if w in b {
          var v :| v in vs[1..] && w in ExtendFrom(v, r, 0, n);
          ExtendedOnce(vs[0], r, n, w);
          ExtendedOnce(v, r, n, w);
          assert false;
        }
      }
      NoDupJoin(a, b);
    }
  }

  lemma ExtendedOnce(v: Choice, r: nat, n: nat, w: Choice)
    requires r !in v && w in ExtendFrom(v, r, 0, n)
    ensures v == w - {r}
  {
    ExtendFromMember(v, r, 0, n, w);
  }

  lemma NoDupJoin<T>(a: seq<T>, b: seq<T>)
    requires NoDup(a) && NoDup(b) && forall x :: x in a ==> x !in b
    ensures NoDup(a + b)
  {
    var c := a + b;
    forall i, j | 0 <= i < j < |c| ensures c[i] != c[j] {
      assert i < |a| ==> c[i] in a;
      assert j >= |a| ==> c[j] in b;
    }
  }

  lemma {:induction false} ExtendFromOnce(v: Choice, r: nat, i: nat, n: nat)
    requires i <= n && r !in v
    ensures NoDup(ExtendFrom(v, r, i, n))
    decreases n - i
  {
    if i < n {
      ExtendFromOnce(v, r, i + 1, n);
      var w := v[r := i];
      ExtendFromMember(v, r, i + 1, n, w);
      NoDupJoin([w], ExtendFrom(v, r, i + 1, n));
    }
  }

  lemma {:induction false} KeepMember(cat: Catalog, cmp: Comparator, conds: seq<Condition>, at: Assignment, o: seq<nat>, k: nat,
                                      vs: seq<Choice>, v: Choice)
    requires Order(cat, o) && k <= |o| && |at| == |conds|
    ensures v in Keep(cat, cmp, conds, at, o, k, vs) <==> v in vs && Sat(cat, cmp, conds, at, o, k, v)
  {
    hide Sat, AllCover;
    if vs != [] { KeepMember(cat, cmp, conds, at, o, k, vs[1..], v); }
  }

  lemma {:induction false} KeepOnce(cat: Catalog, cmp: Comparator, conds: seq<Condition>, at: Assignment, o: seq<nat>, k: nat,
                                    vs: seq<Choice>)
    requires Order(cat, o) && k <= |o| && |at| == |conds| && NoDup(vs)
    ensures NoDup(Keep(cat, cmp, conds, at, o, k, vs))
  {
    hide Sat, AllCover;
    if vs != [] {
      KeepOnce(cat, cmp, conds, at, o, k, vs[1..]);
      KeepMember(cat, cmp, conds, at, o, k, vs[1..], vs[0]);
      if Sat(cat, cmp, conds, at, o, k, vs[0]) {
        NoDupJoin([vs[0]], Keep(cat, cmp, conds, at, o, k, vs[1..]));
      } else {
        assert Keep(cat, cmp, conds, at, o, k, vs) == Keep(cat, cmp, conds, at, o, k, vs[1..]);
      }
    }
  }

  /** The whole plan, for some order of the relations. */
  ghost predicate WholePlan(cat: Catalog, conds: seq<Condition>, at: Assignment, o: seq<nat>) {
    CatalogOk(cat) && Order(cat, o) && NoDup(o) && 0 < |o| && |at| == |conds| && Assigned(cat, conds, at, o) &&
    forall i: nat :: i <= |o| ==> Known(cat.lens, PrefixAttrs(cat, o, i))
  }

  /** A plan is exact: it yields the joined tuple of every choice of one row per relation that satisfies
      every condition, once, and nothing else. */
  lemma PlanExact(cat: Catalog, cmp: Comparator, conds: seq<Condition>, at: Assignment, o: seq<nat>)
    requires WholePlan(cat, conds, at, o)
    ensures var p := PlanFor(cat, conds, at, o, |o|);
            PlanOk(cat, p) && RelationsOk(cat) &&
            AllCover(cat, o, |o|, Chosen(cat, cmp, conds, at, o, |o|)) &&
            Rows(cat, cmp, p) == Tuples(cat, o, |o|, Chosen(cat, cmp, conds, at, o, |o|))
    ensures NoDup(Chosen(cat, cmp, conds, at, o, |o|))
    ensures forall v :: v in Chosen(cat, cmp, conds, at, o, |o|) <==> Total(cat, o, |o|, v) && MeetsAll(cat, cmp, conds, v)
  {
    hide CatalogOk, Assigned, PrefixAttrs, Known, Sat, MeetsAll, Total, Keep, AllCover;
    PlanYields(cat, cmp, conds, at, o, |o|);
    ChoicesOnce(cat, o, |o|);
    KeepOnce(cat, cmp, conds, at, o, |o|, Choices(cat, o, |o|));
    forall v ensures v in Chosen(cat, cmp, conds, at, o, |o|) <==> Total(cat, o, |o|, v) && MeetsAll(cat, cmp, conds, v) {
      KeepMember(cat, cmp, conds, at, o, |o|, Choices(cat, o, |o|), v);
      ChoicesAll(cat, o, |o|, v);
      SatIsMeetsAll(cat, cmp, conds, at, o, v);
    }
  }

  // ----- projections

  ghost predicate AllValued(cat: Catalog, v: Choice, keep: seq<nat>) {
    forall i :: 0 <= i < |keep| ==> Valued(cat, v, keep[i])
  }

  /** The projected row of a choice: the chosen values one after the other. */
  ghost function Kept(cat: Catalog, v: Choice, keep: seq<nat>): Bytes
    requires AllValued(cat, v, keep)
  {
    if keep == [] then [] else ValueOf(cat, v, keep[0]) + Kept(cat, v, keep[1..])
  }

  ghost predicate EachValued(cat: Catalog, vs: seq<Choice>, keep: seq<nat>) {
    forall i :: 0 <= i < |vs| ==> AllValued(cat, vs[i], keep)
  }

  ghost function KeptAll(cat: Catalog, vs: seq<Choice>, keep: seq<nat>): (r: seq<Bytes>)
    requires EachValued(cat, vs, keep)
    ensures |r| == |vs|
  {
    if vs == [] then [] else [Kept(cat, vs[0], keep)] + KeptAll(cat, vs[1..], keep)
  }

  lemma {:induction false} ReconstructKeeps(cat: Catalog, o: seq<nat>, k: nat, v: Choice, keep: seq<nat>)
    requires CatalogOk(cat) && Order(cat, o) && k <= |o| && Covers(cat, o, k, v)
    requires forall i :: 0 <= i < |keep| ==> keep[i] in PrefixAttrs(cat, o, k)
    ensures Known(cat.lens, PrefixAttrs(cat, o, k)) && |Tuple(cat, o, k, v)| == Width(cat.lens, PrefixAttrs(cat, o, k))
    ensures AllValued(cat, v, keep)
    ensures Reconstruct(cat.lens, PrefixAttrs(cat, o, k), Tuple(cat, o, k, v), keep) == Kept(cat, v, keep)
  {
    hide CatalogOk, PrefixAttrs, Tuple, Known, Width, Valued, ValueOf, Field, Covers;
    TupleWidth(cat, o, k, v);
    if keep != [] {
      assert keep[0] in PrefixAttrs(cat, o, k);
      FieldOfTuple(cat, o, k, v, keep[0]);
      ReconstructKeeps(cat, o, k, v, keep[1..]);
      forall i | 0 <= i < |keep| ensures Valued(cat, v, keep[i]) {
        if i > 0 { assert keep[1..][i - 1] == keep[i]; }
      }
    }
  }

  lemma {:induction false} ReconstructAllKeeps(cat: Catalog, o: seq<nat>, vs: seq<Choice>, keep: seq<nat>)
    requires CatalogOk(cat) && Order(cat, o) && AllCover(cat, o, |o|, vs)
    requires forall i :: 0 <= i < |keep| ==> keep[i] in PrefixAttrs(cat, o, |o|)
    ensures Known(cat.lens, PrefixAttrs(cat, o, |o|)) && AllWide(Tuples(cat, o, |o|, vs), Width(cat.lens, PrefixAttrs(cat, o, |o|)))
    ensures EachValued(cat, vs, keep)
    ensures ReconstructAll(cat.lens, PrefixAttrs(cat, o, |o|), Tuples(cat, o, |o|, vs), keep) == KeptAll(cat, vs, keep)
  {
    hide CatalogOk, PrefixAttrs, Tuple, Known, Width, AllValued, Covers, Reconstruct, Kept;
    PrefixKnown(cat, o, |o|);
    if vs != [] {
      ReconstructAllKeeps(cat, o, vs[1..], keep);
      ReconstructKeeps(cat, o, |o|, vs[0], keep);
    }
  }

  lemma {:induction false} KeptRemove(cat: Catalog, vs: seq<Choice>, keep: seq<nat>, i: nat)
    requires EachValued(cat, vs, keep) && i < |vs|
    ensures EachValued(cat, vs[..i] + vs[i + 1..], keep)
    ensures multiset(KeptAll(cat, vs, keep)) ==
            multiset{Kept(cat, vs[i], keep)} + multiset(KeptAll(cat, vs[..i] + vs[i + 1..], keep))
  {
    hide AllValued, Kept;
    var r := vs[..i] + vs[i + 1..];
    if i == 0 {
      assert r == vs[1..];
    } else {
      KeptRemove(cat, vs[1..], keep, i - 1);
      assert r[0] == vs[0] && r[1..] == vs[1..][..i - 1] + vs[1..][i..];
    }
  }

  /** Equal bags of choices project to equal bags of rows. */
  lemma {:induction false} KeptBag(cat: Catalog, vs: seq<Choice>, ws: seq<Choice>, keep: seq<nat>)
    requires EachValued(cat, vs, keep) && EachValued(cat, ws, keep) && multiset(vs) == multiset(ws)
    ensures multiset(KeptAll(cat, vs, keep)) == multiset(KeptAll(cat, ws, keep))
    decreases |vs|
  {
    hide EachValued, Kept, KeptAll;
    if vs == [] {
      assert |multiset(ws)| == 0;
      assert ws == [];
    } else {
      assert vs[0] in multiset(ws);
      var i :| 0 <= i < |ws| && ws[i] == vs[0];
      var r := ws[..i] + ws[i + 1..];
      BagWithout(vs, 0);
      assert vs[..0] + vs[1..] == vs[1..];
      BagWithout(ws, i);
      KeptRemove(cat, ws, keep, i);
      KeptRemove(cat, vs, keep, 0);
      SameRest(vs[0], multiset(vs[1..]), multiset(r));
      KeptBag(cat, vs[1..], r, keep);
    }
  }

  lemma BagWithout<T>(s: seq<T>, i: nat)
    requires i < |s|
    ensures multiset(s) == multiset{s[i]} + multiset(s[..i] + s[i + 1..])
  {
    assert s == s[..i] + ([s[i]] + s[i + 1..]);
  }

  lemma SameRest<T>(x: T, a: multiset<T>, b: multiset<T>)
    requires multiset{x} + a == multiset{x} + b
    ensures a == b
  {
    forall y ensures a[y] == b[y] {
      assert (multiset{x} + a)[y] == (multiset{x} + b)[y];
    }
  }

  lemma {:induction false} OnceCount<T>(a: seq<T>, x: T)
    requires NoDup(a)
    ensures multiset(a)[x] == if x in a then 1 else 0
  {
    if a != [] {
      OnceCount(a[1..], x);
      assert a == [a[0]] + a[1..];
      assert a[0] !in a[1..];
    }
  }

  lemma SameBag<T>(a: seq<T>, b: seq<T>)
    requires NoDup(a) && NoDup(b) && forall x :: x in a <==> x in b
    ensures multiset(a) == multiset(b)
  {
    forall x ensures multiset(a)[x] == multiset(b)[x] {
      OnceCount(a, x);
      OnceCount(b, x);
    }
  }

  /** Plan equivalence: whatever the order of the relations and wherever the conditions are checked, the
      same bag of rows comes out of the projection. */
  lemma PlansAgree(cat: Catalog, cmp: Comparator, conds: seq<Condition>, at: Assignment, o: seq<nat>,
                   bt: Assignment, q: seq<nat>, keep: seq<nat>)
    requires WholePlan(cat, conds, at, o) && WholePlan(cat, conds, bt, q) && forall r :: r in o <==> r in q
    requires forall i :: 0 <= i < |keep| ==> keep[i] in PrefixAttrs(cat, o, |o|) && keep[i] in PrefixAttrs(cat, q, |q|)
    ensures var p := Proj(PlanFor(cat, conds, at, o, |o|), keep);
            var p' := Proj(PlanFor(cat, conds, bt, q, |q|), keep);
            PlanOk(cat, p) && PlanOk(cat, p') && RelationsOk(cat) &&
            multiset(Rows(cat, cmp, p)) == multiset(Rows(cat, cmp, p'))
  {
    hide CatalogOk, Assigned, PrefixAttrs, Known, MeetsAll, Total, Chosen, PlanFor, AllCover, Tuples, Rows, KeptAll, EachValued;
    PlanExact(cat, cmp, conds, at, o);
    PlanExact(cat, cmp, conds, bt, q);
    var vs, ws := Chosen(cat, cmp, conds, at, o, |o|), Chosen(cat, cmp, conds, bt, q, |q|);
    forall v ensures v in vs <==> v in ws {
      TotalSame(cat, o, q, v);
    }
    SameBag(vs, ws);
    ProjYields(cat, cmp, conds, at, o, vs, keep);
    ProjYields(cat, cmp, conds, bt, q, ws, keep);
    KeptBag(cat, vs, ws, keep);
  }

  lemma ProjYields(cat: Catalog, cmp: Comparator, conds: seq<Condition>, at: Assignment, o: seq<nat>, vs: seq<Choice>, keep: seq<nat>)
    requires WholePlan(cat, conds, at, o) && AllCover(cat, o, |o|, vs)
    requires PlanOk(cat, PlanFor(cat, conds, at, o, |o|)) && RelationsOk(cat)
    requires Rows(cat, cmp, PlanFor(cat, conds, at, o, |o|)) == Tuples(cat, o, |o|, vs)
    requires forall i :: 0 <= i < |keep| ==> keep[i] in PrefixAttrs(cat, o, |o|)
    ensures EachValued(cat, vs, keep)
    ensures var p := Proj(PlanFor(cat, conds, at, o, |o|), keep);
            PlanOk(cat, p) && Rows(cat, cmp, p) == KeptAll(cat, vs, keep)
  {
    hide CatalogOk, Assigned, PrefixAttrs, Known, PlanFor, AllCover, Tuples, KeptAll, EachValued;
    PlanForOk(cat, conds, at, o, |o|);
    KeptKnown(cat.lens, PrefixAttrs(cat, o, |o|), keep);
    ReconstructAllKeeps(cat, o, vs, keep);
  }

  lemma TotalSame(cat: Catalog, o: seq<nat>, q: seq<nat>, v: Choice)
    requires Order(cat, o) && Order(cat, q) && forall r :: r in o <==> r in q
    ensures Total(cat, o, |o|, v) <==> Total(cat, q, |q|, v)
  {
    assert o[..|o|] == o && q[..|q|] == q;
    if Total(cat, o, |o|, v) {
      forall i | 0 <= i < |q| ensures q[i] in v && v[q[i]] < |cat.rels[q[i]].rows| {
        assert q[i] in o;
      }
    }
    if Total(cat, q, |q|, v) {
      forall i | 0 <= i < |o| ensures o[i] in v && v[o[i]] < |cat.rels[o[i]].rows| {
        assert o[i] in q;
      }
    }
  }
}
