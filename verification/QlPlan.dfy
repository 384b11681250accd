/** Query plans of the QL component as values: what a tree of relation, select, join and project nodes
    yields, tuple by tuple, when it is run without indexes. Attributes are resolved to their index in
    attrEntries; tuples are byte strings. */
module QlPlan {
  import opened Options
  import opened Seqs

  type Bytes = seq<nat>

  datatype Op = Eq | Lt | Gt | Le | Ge | Ne | Intersects

  datatype Operand = Attr(attr: nat) | Value(data: Bytes)

  datatype Condition = Condition(lhs: nat, op: Op, rhs: Operand)

  /** The attributes start..start + count belong to the relation. */
  datatype Relation = Relation(start: nat, count: nat, rows: seq<Bytes>)

  datatype Catalog = Catalog(rels: seq<Relation>, lens: seq<nat>)

  /** How two fields compare is left to the comparators. */
  type Comparator = (Op, Bytes, Bytes) -> bool

  // ----- tuples and their fields

  function Range(start: nat, count: nat): (r: seq<nat>)
    ensures |r| == count && forall i :: 0 <= i < count ==> r[i] == start + i
  {
    if count == 0 then [] else Range(start, count - 1) + [start + count - 1]
  }

  predicate Known(lens: seq<nat>, attrs: seq<nat>) {
    forall i :: 0 <= i < |attrs| ==> attrs[i] < |lens|
  }

  function Width(lens: seq<nat>, attrs: seq<nat>): nat
    requires Known(lens, attrs)
  {
    if attrs == [] then 0 else lens[attrs[0]] + Width(lens, attrs[1..])
  }

  /** IndexToOffset: where attribute a starts in a tuple of these attributes, if it is one of them. */
  function IndexToOffset(lens: seq<nat>, attrs: seq<nat>, a: nat): (r: Option<nat>)
    requires Known(lens, attrs)
    ensures r.Some? <==> a in attrs
    ensures r.Some? ==> a < |lens| && r.value + lens[a] <= Width(lens, attrs)
  {
    if attrs == [] then None
    else if attrs[0] == a then Some(0)
    else
      var r := IndexToOffset(lens, attrs[1..], a);
      if r.None? then None else Some(lens[attrs[0]] + r.value)
  }

  function Field(lens: seq<nat>, attrs: seq<nat>, t: Bytes, a: nat): Bytes
    requires Known(lens, attrs) && a in attrs && |t| == Width(lens, attrs)
  {
    var offset := IndexToOffset(lens, attrs, a).value;
    t[offset..offset + lens[a]]
  }

  lemma {:induction false} WidthJoin(lens: seq<nat>, a: seq<nat>, b: seq<nat>)
    requires Known(lens, a) && Known(lens, b)
    ensures Known(lens, a + b) && Width(lens, a + b) == Width(lens, a) + Width(lens, b)
  {
    if a == [] {
      assert a + b == b;
    } else {
      WidthJoin(lens, a[1..], b);
      assert (a + b)[1..] == a[1..] + b;
    }
  }

  lemma {:induction false} OffsetJoin(lens: seq<nat>, a: seq<nat>, b: seq<nat>, x: nat)
    requires Known(lens, a) && Known(lens, b) && Known(lens, a + b)
    ensures var r := IndexToOffset(lens, a + b, x);
            if x in a then r == IndexToOffset(lens, a, x)
            else if x in b then r.Some? && r.value == Width(lens, a) + IndexToOffset(lens, b, x).value
            else r == None
  {
    if a == [] {
      assert a + b == b;
    } else {
      var c := a + b;
      assert c[0] == a[0] && c[1..] == a[1..] + b;
      OffsetJoin(lens, a[1..], b, x);
      assert x in a <==> x == a[0] || x in a[1..];
      hide Known;
    }
  }

  /** A joined tuple has the fields of its two parts. */
  lemma FieldJoin(lens: seq<nat>, a: seq<nat>, s: Bytes, b: seq<nat>, t: Bytes, x: nat)
    requires Known(lens, a) && Known(lens, b) && Known(lens, a + b)
    requires |s| == Width(lens, a) && |t| == Width(lens, b) && |s + t| == Width(lens, a + b) && x in a + b
    ensures x in a ==> Field(lens, a + b, s + t, x) == Field(lens, a, s, x)
    ensures x !in a ==> x in b && Field(lens, a + b, s + t, x) == Field(lens, b, t, x)
  {
    hide IndexToOffset, Width, Known;
    OffsetJoin(lens, a, b, x);
    if x in a {
      Slices(s, t, IndexToOffset(lens, a, x).value, lens[x]);
    } else {
      WidthJoin(lens, a, b);
      Slices(s, t, IndexToOffset(lens, b, x).value, lens[x]);
    }
  }

  lemma Slices(s: Bytes, t: Bytes, o: nat, n: nat)
    ensures o + n <= |s| ==> (s + t)[o..o + n] == s[o..o + n]
    ensures o + n <= |t| ==> (s + t)[|s| + o..|s| + o + n] == t[o..o + n]
  {}

  // ----- conditions

  /** A condition with its attributes turned into offsets, as in condList. */
  datatype Cond = Cond(op: Op, offset1: nat, length1: nat, isValue: bool, offset2: nat, length2: nat, data: Bytes)

  /** AddCondition: None is QL_ATTRNOTFOUND. */
  function Compile(lens: seq<nat>, attrs: seq<nat>, c: Condition): Option<Cond>
    requires Known(lens, attrs)
  {
    var o1 := IndexToOffset(lens, attrs, c.lhs);
    if o1.None? then None
    else
      match c.rhs
      case Value(data) => Some(Cond(c.op, o1.value, lens[c.lhs], true, 0, |data|, data))
      case Attr(b) =>
        var o2 := IndexToOffset(lens, attrs, b);
        if o2.None? then None else Some(Cond(c.op, o1.value, lens[c.lhs], false, o2.value, lens[b], []))
  }

  predicate InTuple(c: Cond, n: nat) {
    c.offset1 + c.length1 <= n && (!c.isValue ==> c.offset2 + c.length2 <= n)
  }

  predicate Check(cmp: Comparator, c: Cond, t: Bytes)
    requires InTuple(c, |t|)
  {
    cmp(c.op, t[c.offset1..c.offset1 + c.length1], if c.isValue then c.data else t[c.offset2..c.offset2 + c.length2])
  }

  predicate AllInTuple(cs: seq<Cond>, n: nat) {
    forall i :: 0 <= i < |cs| ==> InTuple(cs[i], n)
  }

  /** CheckConditions returns 0. */
  predicate CheckAll(cmp: Comparator, cs: seq<Cond>, t: Bytes)
    requires AllInTuple(cs, |t|)
  {
    forall i :: 0 <= i < |cs| ==> Check(cmp, cs[i], t)
  }

  /** The attributes a condition reads. */
  function Reads(c: Condition): set<nat> {
    {c.lhs} + if c.rhs.Attr? then {c.rhs.attr} else {}
  }

  /** What a condition says of a tuple. */
  predicate Holds(lens: seq<nat>, cmp: Comparator, c: Condition, attrs: seq<nat>, t: Bytes)
    requires Known(lens, attrs) && |t| == Width(lens, attrs) && forall a :: a in Reads(c) ==> a in attrs
  {
    cmp(c.op, Field(lens, attrs, t, c.lhs), if c.rhs.Value? then c.rhs.data else Field(lens, attrs, t, c.rhs.attr))
  }

  /** The offsets that AddCondition computes make CheckConditions test what the condition says. */
  lemma CompileChecks(lens: seq<nat>, cmp: Comparator, c: Condition, attrs: seq<nat>, t: Bytes)
    requires Known(lens, attrs) && |t| == Width(lens, attrs)
    ensures Compile(lens, attrs, c).Some? <==> forall a :: a in Reads(c) ==> a in attrs
    ensures Compile(lens, attrs, c).Some? ==>
              var d := Compile(lens, attrs, c).value;
              InTuple(d, |t|) && (Check(cmp, d, t) <==> Holds(lens, cmp, c, attrs, t))
  {
    hide IndexToOffset, Width, Known;
    assert c.lhs in Reads(c) && (c.rhs.Attr? ==> c.rhs.attr in Reads(c));
  }

  // ----- plans

  datatype Plan =
    | Rel(r: nat)
    | Sel(prev: Plan, conds: seq<Cond>)
    | Join(prev: Plan, r: nat, conds: seq<Cond>)
    | Proj(prev: Plan, keep: seq<nat>)

  /** Relations have their own attributes, and their rows the width of these. */
  ghost predicate CatalogOk(cat: Catalog) {
    RelationsOk(cat) &&
    (forall r, s :: 0 <= r < s < |cat.rels| ==> cat.rels[r].start + cat.rels[r].count <= cat.rels[s].start)
  }

  predicate RelationsOk(cat: Catalog) {
    forall r :: 0 <= r < |cat.rels| ==> RelationOk(cat, cat.rels[r])
  }

  predicate RelationOk(cat: Catalog, rel: Relation) {
    rel.start + rel.count <= |cat.lens| &&
    var attrs := Range(rel.start, rel.count);
    Known(cat.lens, attrs) && forall i :: 0 <= i < |rel.rows| ==> |rel.rows[i]| == Width(cat.lens, attrs)
  }

  function AttrsOf(cat: Catalog, r: nat): (attrs: seq<nat>)
    requires r < |cat.rels|
  {
    Range(cat.rels[r].start, cat.rels[r].count)
  }

  /** attrsInRec of the node. */
  function Attrs(cat: Catalog, p: Plan): seq<nat>
    requires Named(cat, p)
  {
    match p
    case Rel(r) => AttrsOf(cat, r)
    case Sel(q, _) => Attrs(cat, q)
    case Join(q, r, _) => Attrs(cat, q) + AttrsOf(cat, r)
    case Proj(_, keep) => keep
  }

  predicate Named(cat: Catalog, p: Plan) {
    match p
    case Rel(r) => r < |cat.rels|
    case Sel(q, _) => Named(cat, q)
    case Join(q, r, _) => Named(cat, q) && r < |cat.rels|
    case Proj(q, _) => Named(cat, q)
  }

  /** The conditions look inside the tuples and projections keep attributes there are. */
  predicate PlanOk(cat: Catalog, p: Plan) {
    Named(cat, p) && Known(cat.lens, Attrs(cat, p)) &&
    match p
    case Rel(_) => true
    case Sel(q, cs) => PlanOk(cat, q) && AllInTuple(cs, Width(cat.lens, Attrs(cat, p)))
    case Join(q, _, cs) => PlanOk(cat, q) && AllInTuple(cs, Width(cat.lens, Attrs(cat, p)))
    case Proj(q, keep) => PlanOk(cat, q) && forall i :: 0 <= i < |keep| ==> keep[i] in Attrs(cat, q)
  }

  predicate AllWide(ts: seq<Bytes>, n: nat) {
    forall i :: 0 <= i < |ts| ==> |ts[i]| == n
  }

  function Filter(cmp: Comparator, cs: seq<Cond>, ts: seq<Bytes>, n: nat): (r: seq<Bytes>)
    requires AllInTuple(cs, n) && AllWide(ts, n)
    ensures AllWide(r, n)
  {
    if ts == [] then []
    else (if CheckAll(cmp, cs, ts[0]) then [ts[0]] else []) + Filter(cmp, cs, ts[1..], n)
  }

  /** One outer tuple joined with every inner one. */
  function JoinOne(cmp: Comparator, cs: seq<Cond>, t: Bytes, rows: seq<Bytes>, n: nat): (r: seq<Bytes>)
    requires AllInTuple(cs, n) && |t| <= n && AllWide(rows, n - |t|)
    ensures AllWide(r, n)
  {
    if rows == [] then []
    else (if CheckAll(cmp, cs, t + rows[0]) then [t + rows[0]] else []) + JoinOne(cmp, cs, t, rows[1..], n)
  }

  function JoinAll(cmp: Comparator, cs: seq<Cond>, ts: seq<Bytes>, rows: seq<Bytes>, m: nat, n: nat): (r: seq<Bytes>)
    requires AllInTuple(cs, n) && m <= n && AllWide(ts, m) && AllWide(rows, n - m)
    ensures AllWide(r, n)
  {
    if ts == [] then [] else JoinOne(cmp, cs, ts[0], rows, n) + JoinAll(cmp, cs, ts[1..], rows, m, n)
  }

  /** ReconstructRec: the kept fields one after the other. */
  function Reconstruct(lens: seq<nat>, attrs: seq<nat>, t: Bytes, keep: seq<nat>): (r: Bytes)
    requires Known(lens, attrs) && |t| == Width(lens, attrs) && forall i :: 0 <= i < |keep| ==> keep[i] in attrs
    ensures Known(lens, keep) && |r| == Width(lens, keep)
  {
    if keep == [] then []
    else Field(lens, attrs, t, keep[0]) + Reconstruct(lens, attrs, t, keep[1..])
  }

  function ReconstructAll(lens: seq<nat>, attrs: seq<nat>, ts: seq<Bytes>, keep: seq<nat>): (r: seq<Bytes>)
    requires Known(lens, attrs) && AllWide(ts, Width(lens, attrs)) && forall i :: 0 <= i < |keep| ==> keep[i] in attrs
    ensures Known(lens, keep) && AllWide(r, Width(lens, keep)) && |r| == |ts|
    ensures forall i :: 0 <= i < |ts| ==> r[i] == Reconstruct(lens, attrs, ts[i], keep)
  {
    if ts == [] then (assert Known(lens, keep) by { KeptKnown(lens, attrs, keep); } [])
    else [Reconstruct(lens, attrs, ts[0], keep)] + ReconstructAll(lens, attrs, ts[1..], keep)
  }

  lemma KeptKnown(lens: seq<nat>, attrs: seq<nat>, keep: seq<nat>)
    requires Known(lens, attrs) && forall i :: 0 <= i < |keep| ==> keep[i] in attrs
    ensures Known(lens, keep)
  {
    forall i | 0 <= i < |keep| ensures keep[i] < |lens| {
      assert attrs[Position(attrs, keep[i])] == keep[i];
    }
  }

  /** The tuples a plan yields, in order. */
  function Rows(cat: Catalog, cmp: Comparator, p: Plan): (ts: seq<Bytes>)
    requires PlanOk(cat, p) && RelationsOk(cat)
    ensures AllWide(ts, Width(cat.lens, Attrs(cat, p)))
  {
    match p
    case Rel(r) =>
      assert RelationOk(cat, cat.rels[r]);
      cat.rels[r].rows
    case Sel(q, cs) => Filter(cmp, cs, Rows(cat, cmp, q), Width(cat.lens, Attrs(cat, q)))
    case Join(q, r, cs) =>
      assert RelationOk(cat, cat.rels[r]) && PlanOk(cat, q);
      WidthJoin(cat.lens, Attrs(cat, q), AttrsOf(cat, r));
      JoinAll(cmp, cs, Rows(cat, cmp, q), cat.rels[r].rows, Width(cat.lens, Attrs(cat, q)), Width(cat.lens, Attrs(cat, p)))
    case Proj(q, keep) => ReconstructAll(cat.lens, Attrs(cat, q), Rows(cat, cmp, q), keep)
  }
}
