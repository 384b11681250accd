/** The storage allocator of umalloc.c, after section 8.7 of "The C Programming Language", 2nd edition.
    Addresses count header-sized units; the free list is circular, ordered by address, and stored in the
    headers of the free blocks themselves. */
module Umalloc {

  const NULL: nat := 0
  const BASE: nat := 1               // the address of base, below the heap
  const HEADER: nat := 8             // sizeof(Header)
  const UINT: nat := 0x1_0000_0000
  const MIN_UNITS: nat := 4096
  const SIGN: nat := 0x8000_0000     // the first number that is negative as an int

  // ----- request sizes

  /** nunits of malloc, in 32-bit unsigned arithmetic. */
  function Units(nbytes: nat): (n: nat)
    requires nbytes < UINT
    ensures 1 <= n <= UINT / HEADER
  {
    ((nbytes + HEADER - 1) % UINT) / HEADER + 1
  }

  function AtLeast(nu: nat): nat {
    if nu < MIN_UNITS then MIN_UNITS else nu
  }

  /** What morecore asks sbrk for: a byte count in 32-bit unsigned arithmetic, read as an int. */
  function SbrkArg(nu: nat): int {
    var bytes := AtLeast(nu) * HEADER % UINT;
    if bytes < SIGN then bytes else bytes - UINT
  }

  /** sbrk is asked for the units that are needed, and for 32 kilobytes at least, exactly if their bytes make a positive
      int; otherwise it is asked for nothing, or to take memory away. */
  lemma AskedIff(nu: nat)
    requires 0 < nu <= UINT / HEADER
    ensures 0 < SbrkArg(nu) <==> AtLeast(nu) * HEADER < SIGN
    ensures 0 < SbrkArg(nu) ==> SbrkArg(nu) == AtLeast(nu) * HEADER == if nu < 4096 then 32768 else nu * HEADER
  {
    if AtLeast(nu) * HEADER < SIGN {
      assert AtLeast(nu) * HEADER % UINT == AtLeast(nu) * HEADER;
    } else if nu == UINT / HEADER {
      assert AtLeast(nu) * HEADER == UINT;
    } else {
      assert AtLeast(nu) * HEADER % UINT == AtLeast(nu) * HEADER;
    }
  }

  /** The units behind the header hold the bytes asked for, and sbrk is asked for all of them, exactly for requests of
      at most 2^31 - 16 bytes. From there on sbrk gets a count that is not positive, and above 2^32 - 8 rounding up
      wraps around. */
  lemma UnitsHold(nbytes: nat)
    requires nbytes < UINT
    ensures nbytes <= (Units(nbytes) - 1) * HEADER <==> nbytes <= UINT - HEADER
    ensures nbytes <= UINT - HEADER ==> (0 < SbrkArg(Units(nbytes)) <==> nbytes <= SIGN - 2 * HEADER)
    ensures nbytes > UINT - HEADER ==> Units(nbytes) == 1
  {
    AskedIff(Units(nbytes));
  }

  /** For two requests, of 2^32 - 8 and of 2^31 bytes, sbrk is asked for nothing, and to take nearly everything away. */
  lemma HugeRequests()
    ensures Units(UINT - HEADER) == UINT / HEADER && SbrkArg(Units(UINT - HEADER)) == 0
    ensures Units(SIGN) == SIGN / HEADER + 1 && SbrkArg(Units(SIGN)) == HEADER - SIGN
  {}

  // ----- the free list as a value

  datatype Block = Block(at: nat, size: nat)

  predicate Apart(x: Block, y: Block) {
    x.at + x.size <= y.at || y.at + y.size <= x.at
  }

  predicate In(u: nat, b: Block) {
    b.at <= u < b.at + b.size
  }

  /** base first; then the free blocks in address order, no two of them adjacent. */
  ghost predicate Ordered(s: seq<Block>) {
    |s| > 0 && s[0] == Block(BASE, 0) && (forall i :: 0 < i < |s| ==> 0 < s[i].size) && Gaps(s)
  }

  ghost predicate Gaps(s: seq<Block>) {
    forall i :: 0 < i < |s| ==> s[i - 1].at + s[i - 1].size < s[i].at
  }

  lemma {:induction false} Pairwise(s: seq<Block>, i: nat, j: nat)
    requires Gaps(s) && i < j < |s|
    ensures s[i].at + s[i].size < s[j].at
  {
    if i + 1 < j { Pairwise(s, i, j - 1); }
  }

  ghost predicate Covered(s: seq<Block>, u: nat) {
    exists i :: 0 <= i < |s| && In(u, s[i])
  }

  /** The last block below an address. */
  function Below(s: seq<Block>, at: nat): (i: nat)
    requires |s| > 0 && s[0].at < at
    ensures i < |s| && s[i].at < at
    ensures i + 1 < |s| ==> exists j :: i < j < |s| && s[j].at >= at
  {
    if s[|s| - 1].at < at then |s| - 1 else Below(s[..|s| - 1], at)
  }

  lemma BelowExact(s: seq<Block>, at: nat)
    requires Ordered(s) && BASE < at
    ensures var i := Below(s, at); i + 1 < |s| ==> at <= s[i + 1].at
  {
    var i := Below(s, at);
    if i + 1 < |s| { BelowStep(s, at); }
  }

  lemma {:induction false} BelowStep(s: seq<Block>, at: nat)
    requires |s| > 0 && s[0].at < at && Below(s, at) + 1 < |s|
    ensures at <= s[Below(s, at) + 1].at
  {
    if Below(s[..|s| - 1], at) + 1 < |s| - 1 {
      BelowStep(s[..|s| - 1], at);
    }
  }

  /** b in front of the blocks above it, one block with the next if they touch. */
  function MergeUp(b: Block, rest: seq<Block>): (r: seq<Block>)
    ensures r != [] && r[0].at == b.at
  {
    if rest != [] && b.at + b.size == rest[0].at then [Block(b.at, b.size + rest[0].size)] + rest[1..] else [b] + rest
  }

  /** The lower blocks followed by the upper ones, the two in the middle one block if they touch. */
  function MergeDown(low: seq<Block>, up: seq<Block>): seq<Block>
    requires low != [] && up != []
  {
    var n := |low| - 1;
    if low[n].at + low[n].size == up[0].at then low[..n] + ([Block(low[n].at, low[n].size + up[0].size)] + up[1..])
    else low + up
  }

  /** free(): block b joins the list after its lower neighbour, merging with the neighbours it touches. */
  function Insert(s: seq<Block>, b: Block): seq<Block>
    requires |s| > 0 && s[0].at < b.at
  {
    var i := Below(s, b.at);
    MergeDown(s[..i + 1], MergeUp(b, s[i + 1..]))
  }

  /** malloc(): n units are taken from block j, all of it or its tail. */
  function Take(s: seq<Block>, j: nat, n: nat): (Block, seq<Block>)
    requires j < |s| && n <= s[j].size
  {
    if s[j].size == n then (s[j], s[..j] + s[j + 1..])
    else (Block(s[j].at + s[j].size - n, n), s[j := Block(s[j].at, s[j].size - n)])
  }

  function Wrap(i: nat, m: nat): (r: nat)
    requires 0 < m && i < 2 * m
    ensures r < m
  {
    if i >= m then i - m else i
  }

  datatype Found = NotFound | Found(at: nat)

  /** The first block of n units or more, d blocks on from the one after block k, around the circle. */
  function First(s: seq<Block>, k: nat, n: nat, d: nat): (r: Found)
    requires k < |s| && d <= |s|
    ensures r.Found? ==> r.at < |s| && s[r.at].size >= n
    decreases |s| - d
  {
    if d == |s| then NotFound
    else if s[Wrap(k + 1 + d, |s|)].size >= n then Found(Wrap(k + 1 + d, |s|))
    else First(s, k, n, d + 1)
  }

  predicate TooSmall(s: seq<Block>, k: nat, n: nat, e: nat)
    requires k < |s| && e < |s|
  {
    s[Wrap(k + 1 + e, |s|)].size < n
  }

  /** The search fails exactly when no block is large enough. */
  lemma {:induction false} FirstFails(s: seq<Block>, k: nat, n: nat, d: nat)
    requires k < |s| && d <= |s|
    ensures First(s, k, n, d).NotFound? <==> forall e: nat :: d <= e < |s| ==> TooSmall(s, k, n, e)
    decreases |s| - d
  {
    if d < |s| {
      FirstFails(s, k, n, d + 1);
      assert First(s, k, n, d).NotFound? <==> TooSmall(s, k, n, d) && First(s, k, n, d + 1).NotFound?;
    }
  }

  /** How many blocks the search passes over before block j. */
  function Ahead(s: seq<Block>, k: nat, j: nat): (e: nat)
    requires k < |s| && j < |s|
    ensures e < |s| && Wrap(k + 1 + e, |s|) == j
  {
    if j > k then j - k - 1 else j + |s| - k - 1
  }

  /** The search is next-fit: it ends with the block that is large enough and, going around from the rover, the nearest. */
  lemma {:induction false} NextFit(s: seq<Block>, k: nat, n: nat, d: nat, j: nat)
    requires k < |s| && d <= |s| && j < |s| && forall e :: 0 <= e < d ==> TooSmall(s, k, n, e)
    ensures First(s, k, n, d) == Found(j) <==> s[j].size >= n && forall e :: 0 <= e < Ahead(s, k, j) ==> TooSmall(s, k, n, e)
    decreases |s| - d
  {
    var e := Ahead(s, k, j);
    if d < |s| && TooSmall(s, k, n, d) {
      NextFit(s, k, n, d + 1, j);
    } else if d < e {
      assert d < |s| && !TooSmall(s, k, n, d);
      var i := Wrap(k + 1 + d, |s|);
      assert i != j;
    } else if e < d {
      assert TooSmall(s, k, n, e);
    }
  }

  lemma FirstFinds(s: seq<Block>, k: nat, n: nat, j: nat)
    requires k < |s| && j < |s| && s[j].size >= n
    ensures First(s, k, n, 0).Found?
  {
    FirstFails(s, k, n, 0);
    var e := if j > k then j - k - 1 else j + |s| - k - 1;
    assert !TooSmall(s, k, n, e);
  }

  // ----- what insertion and removal do to the list

  /** b lies between two neighbours of the list, touching neither inside. */
  ghost predicate Fits(s: seq<Block>, b: Block) {
    Ordered(s) && BASE < b.at && 0 < b.size && forall i :: 0 <= i < |s| ==> Apart(s[i], b)
  }

  lemma FitsBetween(s: seq<Block>, b: Block)
    requires Fits(s, b)
    ensures |s| > 0 && s[0].at < b.at
    ensures var i := Below(s, b.at);
            s[i].at + s[i].size <= b.at && (i + 1 < |s| ==> b.at + b.size <= s[i + 1].at)
  {
    BelowExact(s, b.at);
  }

  ghost predicate Solid(s: seq<Block>) {
    Gaps(s) && forall i :: 0 <= i < |s| ==> 0 < s[i].size
  }

  lemma OrderedParts(s: seq<Block>, i: nat)
    requires Ordered(s) && i < |s|
    ensures Ordered(s[..i + 1]) && Solid(s[i + 1..])
  {}

  lemma MergeUpSolid(b: Block, rest: seq<Block>)
    requires Solid(rest) && 0 < b.size && (rest != [] ==> b.at + b.size <= rest[0].at)
    ensures Solid(MergeUp(b, rest))
  {}

  lemma MergeDownOrdered(low: seq<Block>, up: seq<Block>)
    requires Ordered(low) && Solid(up) && up != [] && low[|low| - 1].at + low[|low| - 1].size <= up[0].at
    requires |low| == 1 ==> BASE < up[0].at
    ensures Ordered(MergeDown(low, up))
  {}

  lemma InsertOrdered(s: seq<Block>, b: Block)
    requires Fits(s, b)
    ensures Ordered(Insert(s, b))
  {
    hide MergeUp, MergeDown, Below, Ordered, Solid;
    FitsBetween(s, b);
    var i := Below(s, b.at);
    OrderedParts(s, i);
    MergeUpSolid(b, s[i + 1..]);
    MergeDownOrdered(s[..i + 1], MergeUp(b, s[i + 1..]));
  }

  lemma CoveredParts(a: seq<Block>, b: seq<Block>, u: nat)
    ensures Covered(a + b, u) <==> Covered(a, u) || Covered(b, u)
  {
    if Covered(a, u) {
      var i :| 0 <= i < |a| && In(u, a[i]);
      assert (a + b)[i] == a[i];
    }
    if Covered(b, u) {
      var i :| 0 <= i < |b| && In(u, b[i]);
      assert (a + b)[|a| + i] == b[i];
    }
  }

  lemma CoveredOne(b: Block, u: nat)
    ensures Covered([b], u) <==> In(u, b)
  {
    if In(u, b) { assert In(u, [b][0]); }
  }

  lemma MergeUpCovers(b: Block, rest: seq<Block>, u: nat)
    ensures Covered(MergeUp(b, rest), u) <==> In(u, b) || Covered(rest, u)
  {
    hide Covered;
    CoveredOne(b, u);
    if rest != [] && b.at + b.size == rest[0].at {
      var c := Block(b.at, b.size + rest[0].size);
      CoveredParts([c], rest[1..], u);
      CoveredOne(c, u);
      CoveredParts([rest[0]], rest[1..], u);
      CoveredOne(rest[0], u);
      assert rest == [rest[0]] + rest[1..];
    } else {
      CoveredParts([b], rest, u);
    }
  }

  lemma MergeDownCovers(low: seq<Block>, up: seq<Block>, u: nat)
    requires low != [] && up != []
    ensures Covered(MergeDown(low, up), u) <==> Covered(low, u) || Covered(up, u)
  {
    hide Covered;
    var n := |low| - 1;
    if low[n].at + low[n].size == up[0].at {
      var c := Block(low[n].at, low[n].size + up[0].size);
      CoveredParts(low[..n], [c] + up[1..], u);
      CoveredParts([c], up[1..], u);
      CoveredOne(c, u);
      CoveredParts(low[..n], [low[n]], u);
      CoveredOne(low[n], u);
      assert low == low[..n] + [low[n]];
      CoveredParts([up[0]], up[1..], u);
      CoveredOne(up[0], u);
      assert up == [up[0]] + up[1..];
    } else {
      CoveredParts(low, up, u);
    }
  }

  /** Insertion adds exactly the units of the block to the free ones. */
  lemma InsertCovers(s: seq<Block>, b: Block, u: nat)
    requires |s| > 0 && s[0].at < b.at
    ensures Covered(Insert(s, b), u) <==> Covered(s, u) || In(u, b)
  {
    hide Covered, MergeUp, MergeDown;
    var i := Below(s, b.at);
    MergeUpCovers(b, s[i + 1..], u);
    MergeDownCovers(s[..i + 1], MergeUp(b, s[i + 1..]), u);
    CoveredParts(s[..i + 1], s[i + 1..], u);
    assert s == s[..i + 1] + s[i + 1..];
  }

  lemma TakeOrdered(s: seq<Block>, j: nat, n: nat)
    requires Ordered(s) && 0 < j < |s| && 0 < n <= s[j].size
    ensures Ordered(Take(s, j, n).1)
  {}

  /** Taking removes exactly the units of the block that is handed out, which are the last ones of block j. */
  lemma TakeCovers(s: seq<Block>, j: nat, n: nat, u: nat)
    requires Ordered(s) && 0 < j < |s| && 0 < n <= s[j].size
    ensures var (b, t) := Take(s, j, n);
            b == Block(s[j].at + s[j].size - n, n) && (In(u, b) ==> In(u, s[j]) && !Covered(t, u))
    ensures var (b, t) := Take(s, j, n);
            Covered(s, u) <==> Covered(t, u) || In(u, b)
  {
    var (b, t) := Take(s, j, n);
    if In(u, b) {
      forall i | 0 <= i < |t| ensures !In(u, t[i]) {
        if s[j].size == n {
          if i < j { Pairwise(s, i, j); } else { Pairwise(s, j, i + 1); }
        } else {
          if i < j { Pairwise(s, i, j); } else if i > j { Pairwise(s, j, i); }
        }
      }
      assert In(u, s[j]);
    } else if Covered(s, u) {
      var i :| 0 <= i < |s| && In(u, s[i]);
      if s[j].size == n {
        assert In(u, t[if i < j then i else i - 1]);
      } else {
        assert In(u, t[i]);
      }
    }
    if Covered(t, u) {
      var i :| 0 <= i < |t| && In(u, t[i]);
      assert In(u, s[if s[j].size == n && i >= j then i + 1 else i]);
    }
  }

  // ----- the heap: free blocks, live blocks, and the units obtained from the system

  ghost predicate InLive(live: map<nat, nat>, u: nat) {
    exists a :: a in live && In(u, Block(a, live[a]))
  }

  /** Live blocks lie above base within memory, apart from the free blocks and from each other. */
  ghost predicate LiveOk(s: seq<Block>, live: map<nat, nat>, memory: nat) {
    (forall a :: a in live ==> BASE < a && 0 < live[a] && a + live[a] <= memory) &&
    (forall a, i :: a in live && 0 <= i < |s| ==> Apart(s[i], Block(a, live[a]))) &&
    (forall a, c :: a in live && c in live && a != c ==> Apart(Block(a, live[a]), Block(c, live[c])))
  }

  /** Every unit obtained from the system is in a free block or in a live one. */
  ghost predicate Conserved(s: seq<Block>, live: map<nat, nat>, owned: set<nat>) {
    forall u :: u in owned <==> Covered(s, u) || InLive(live, u)
  }

  ghost predicate HeapOk(s: seq<Block>, live: map<nat, nat>, owned: set<nat>, memory: nat) {
    Ordered(s) && BASE < memory && (forall i :: 0 <= i < |s| ==> s[i].at + s[i].size <= memory) &&
    LiveOk(s, live, memory) && Conserved(s, live, owned)
  }

  lemma ApartByUnits(x: Block, y: Block)
    requires 0 < x.size && 0 < y.size && forall u :: In(u, x) ==> !In(u, y)
    ensures Apart(x, y)
  {
    assert !In(if x.at < y.at then y.at else x.at, x) || !In(if x.at < y.at then y.at else x.at, y);
  }

  lemma InsertBounded(s: seq<Block>, b: Block, memory: nat)
    requires Fits(s, b) && b.at + b.size <= memory && forall i :: 0 <= i < |s| ==> s[i].at + s[i].size <= memory
    ensures var t := Insert(s, b); forall i :: 0 <= i < |t| ==> t[i].at + t[i].size <= memory
  {
    hide Insert, Below;
    FitsBetween(s, b);
    InsertOrdered(s, b);
    var t := Insert(s, b);
    forall i | 0 <= i < |t| ensures t[i].at + t[i].size <= memory {
      if i > 0 {
        var u := t[i].at + t[i].size - 1;
        CoveredAt(t, i, u);
        InsertCovers(s, b, u);
      }
    }
  }

  /** Giving a live block back keeps the heap in order and moves its units from live to free. */
  lemma FreeOk(s: seq<Block>, live: map<nat, nat>, owned: set<nat>, memory: nat, a: nat)
    requires HeapOk(s, live, owned, memory) && a in live
    ensures var b := Block(a, live[a]);
            Fits(s, b) && HeapOk(Insert(s, b), live - {a}, owned, memory)
  {
    hide Insert, Covered, InLive;
    var b := Block(a, live[a]);
    var t, rest := Insert(s, b), live - {a};
    InsertOrdered(s, b);
    InsertBounded(s, b, memory);
    forall c, i | c in rest && 0 <= i < |t| ensures Apart(t[i], Block(c, live[c])) {
      if i > 0 {
        forall u | In(u, t[i]) ensures !In(u, Block(c, live[c])) {
          InsertCovers(s, b, u);
          CoveredAt(t, i, u);
          if Covered(s, u) { CoveredApart(s, Block(c, live[c]), u); }
        }
        ApartByUnits(t[i], Block(c, live[c]));
      }
    }
    forall u ensures u in owned <==> Covered(t, u) || InLive(rest, u) {
      InsertCovers(s, b, u);
      LiveWithout(live, a, u);
    }
  }

  lemma CoveredAt(s: seq<Block>, i: nat, u: nat)
    requires i < |s| && In(u, s[i])
    ensures Covered(s, u)
  {}

  lemma CoveredApart(s: seq<Block>, b: Block, u: nat)
    requires Covered(s, u) && forall i :: 0 <= i < |s| ==> Apart(s[i], b)
    ensures !In(u, b)
  {}

  lemma LiveWithout(live: map<nat, nat>, a: nat, u: nat)
    requires a in live
    ensures InLive(live, u) <==> InLive(live - {a}, u) || In(u, Block(a, live[a]))
  {
    var rest := live - {a};
    if InLive(rest, u) {
      var c :| c in rest && In(u, Block(c, rest[c]));
      assert c in live && In(u, Block(c, live[c]));
    }
    if InLive(live, u) && !In(u, Block(a, live[a])) {
      var c :| c in live && In(u, Block(c, live[c]));
      assert c in rest && In(u, Block(c, rest[c]));
    }
  }

  lemma LiveWith(live: map<nat, nat>, a: nat, n: nat, u: nat)
    requires a !in live
    ensures InLive(live[a := n], u) <==> InLive(live, u) || In(u, Block(a, n))
  {
    LiveWithout(live[a := n], a, u);
    assert live[a := n] - {a} == live;
  }

  lemma OrderedGaps(s: seq<Block>)
    requires Ordered(s)
    ensures Gaps(s) && |s| > 0 && s[0] == Block(BASE, 0)
  {}

  /** Handing out n units of a free block moves exactly those units from free to live. */
  lemma TakeOk(s: seq<Block>, live: map<nat, nat>, owned: set<nat>, memory: nat, j: nat, n: nat)
    requires HeapOk(s, live, owned, memory) && 0 < j < |s| && 0 < n <= s[j].size
    ensures var (b, t) := Take(s, j, n);
            b.size == n && b.at !in live && HeapOk(t, live[b.at := n], owned, memory)
  {
    hide Covered, InLive, Ordered;
    var (b, t) := Take(s, j, n);
    TakeOrdered(s, j, n);
    OrderedGaps(s);
    assert Apart(s[0], s[j]) && s[0].at < s[j].at by { Pairwise(s, 0, j); }
    forall i | 0 <= i < |t| ensures Apart(t[i], b) && t[i].at + t[i].size <= memory {
      if s[j].size == n {
        if i < j { Pairwise(s, i, j); } else { Pairwise(s, j, i + 1); }
      } else {
        if i < j { Pairwise(s, i, j); } else if i > j { Pairwise(s, j, i); }
      }
    }
    forall a | a in live ensures Apart(Block(a, live[a]), b) && a != b.at {
      assert Apart(s[j], Block(a, live[a]));
    }
    forall a, i | a in live && 0 <= i < |t| ensures Apart(t[i], Block(a, live[a])) {
      var k := if s[j].size == n && i >= j then i + 1 else i;
      assert Apart(s[k], Block(a, live[a]));
    }
    forall u ensures u in owned <==> Covered(t, u) || InLive(live[b.at := n], u) {
      TakeCovers(s, j, n, u);
      LiveWith(live, b.at, n, u);
    }
  }

  ghost function Span(a: nat, n: nat): (r: set<nat>)
    ensures forall u :: u in r <==> a <= u < a + n
  {
    if n == 0 then {} else Span(a, n - 1) + {a + n - 1}
  }

  /** What sbrk promises: units above base that it has not handed out before. */
  ghost predicate Granted(owned: set<nat>, memory: nat, a: nat, n: nat) {
    BASE < a && a + n <= memory && Span(a, n) !! owned
  }

  /** What sbrk may answer to morecore(nu). Asked for a count that is not positive it answers with the end of memory,
      like after a success, but gives nothing. */
  ghost predicate Answers(owned: set<nat>, memory: nat, nu: nat, grant: nat) {
    grant != NULL ==>
      if 0 < SbrkArg(nu) then Granted(owned, memory, grant, SbrkArg(nu) / HEADER)
      else BASE < grant && forall u :: u in owned ==> u < grant
  }

  /** Units fresh from the system join the heap as one live block. */
  lemma GrowOk(s: seq<Block>, live: map<nat, nat>, owned: set<nat>, memory: nat, a: nat, n: nat)
    requires HeapOk(s, live, owned, memory) && 0 < n && Granted(owned, memory, a, n)
    ensures a !in live && HeapOk(s, live[a := n], owned + Span(a, n), memory)
  {
    hide Covered, InLive;
    var b := Block(a, n);
    forall i | 0 <= i < |s| ensures Apart(s[i], b) {
      if i > 0 {
        forall u | In(u, s[i]) ensures !In(u, b) {
          CoveredAt(s, i, u);
          assert u !in Span(a, n);
        }
        ApartByUnits(s[i], b);
      }
    }
    forall c | c in live ensures Apart(Block(c, live[c]), b) && c != a {
      forall u | In(u, Block(c, live[c])) ensures !In(u, b) {
        LiveAt(live, c, u);
        assert u !in Span(a, n);
      }
      ApartByUnits(Block(c, live[c]), b);
    }
    forall u ensures u in owned + Span(a, n) <==> Covered(s, u) || InLive(live[a := n], u) {
      LiveWith(live, a, n, u);
    }
  }

  lemma LiveAt(live: map<nat, nat>, a: nat, u: nat)
    requires a in live && In(u, Block(a, live[a]))
    ensures InLive(live, u)
  {}

  // ----- the list in memory

  /** The header of block b holds its size and leads to next. */
  predicate Header(ptr: seq<nat>, size: seq<nat>, b: Block, next: nat) {
    b.at < |ptr| && b.at < |size| && size[b.at] == b.size && ptr[b.at] == next
  }

  function NextAt(c: seq<Block>, i: nat, end: nat): nat {
    if i + 1 < |c| then c[i + 1].at else end
  }

  /** The headers of c lead from each block to the next, the last one to end. */
  ghost predicate Chain(ptr: seq<nat>, size: seq<nat>, c: seq<Block>, end: nat) {
    forall i :: 0 <= i < |c| ==> Header(ptr, size, c[i], NextAt(c, i, end))
  }

  lemma NextJoin(a: seq<Block>, b: seq<Block>, i: nat, end: nat)
    requires b != [] && i < |a| + |b|
    ensures NextAt(a + b, i, end) == if i < |a| then NextAt(a, i, b[0].at) else NextAt(b, i - |a|, end)
  {}

  lemma ChainJoin(ptr: seq<nat>, size: seq<nat>, a: seq<Block>, b: seq<Block>, end: nat)
    requires b != []
    ensures Chain(ptr, size, a + b, end) <==> Chain(ptr, size, a, b[0].at) && Chain(ptr, size, b, end)
  {
    hide Header, NextAt;
    var c := a + b;
    forall i | 0 <= i < |c|
      ensures c[i] == (if i < |a| then a[i] else b[i - |a|])
      ensures NextAt(c, i, end) == if i < |a| then NextAt(a, i, b[0].at) else NextAt(b, i - |a|, end)
    {
      NextJoin(a, b, i, end);
    }
    if Chain(ptr, size, c, end) {
      forall i | 0 <= i < |a| ensures Header(ptr, size, a[i], NextAt(a, i, b[0].at)) {
        assert Header(ptr, size, c[i], NextAt(c, i, end));
      }
      forall i | 0 <= i < |b| ensures Header(ptr, size, b[i], NextAt(b, i, end)) {
        assert Header(ptr, size, c[|a| + i], NextAt(c, |a| + i, end));
      }
    }
  }

  lemma ChainOne(ptr: seq<nat>, size: seq<nat>, b: Block, end: nat)
    ensures Chain(ptr, size, [b], end) <==> Header(ptr, size, b, end)
  {
    if Chain(ptr, size, [b], end) { assert Header(ptr, size, [b][0], NextAt([b], 0, end)); }
  }

  /** A header that is not in the chain may change. */
  lemma ChainFrame(ptr: seq<nat>, size: seq<nat>, c: seq<Block>, end: nat, at: nat, p: nat, n: nat)
    requires Chain(ptr, size, c, end) && at < |ptr| && at < |size| && forall i :: 0 <= i < |c| ==> c[i].at != at
    ensures Chain(ptr[at := p], size[at := n], c, end)
  {
    forall i | 0 <= i < |c| ensures Header(ptr[at := p], size[at := n], c[i], NextAt(c, i, end)) {
      assert Header(ptr, size, c[i], NextAt(c, i, end));
    }
  }

  function FirstAt(c: seq<Block>, end: nat): nat {
    if c == [] then end else c[0].at
  }

  /** free(), first test: the header of the freed block takes in its upper neighbour or leads to it. */
  lemma ChainUp(ptr: seq<nat>, size: seq<nat>, rest: seq<Block>, end: nat, b: Block, p: nat, n: nat)
    requires Chain(ptr, size, rest, end) && b.at < |ptr| && b.at < |size| && forall i :: 0 <= i < |rest| ==> rest[i].at != b.at
    requires if rest != [] && b.at + b.size == rest[0].at
             then rest[0].at < |ptr| && rest[0].at < |size| && p == ptr[rest[0].at] && n == b.size + size[rest[0].at]
             else p == FirstAt(rest, end) && n == b.size
    ensures Chain(ptr[b.at := p], size[b.at := n], MergeUp(b, rest), end)
  {
    hide Header, Chain, FirstAt;
    var ptr', size' := ptr[b.at := p], size[b.at := n];
    ChainFrame(ptr, size, rest, end, b.at, p, n);
    HeaderSet(ptr, size, b.at, p, n);
    if rest != [] {
      ChainCons(ptr', size', rest[0], rest[1..], end);
      ChainCons(ptr, size, rest[0], rest[1..], end);
      assert rest == [rest[0]] + rest[1..];
      HeaderAt(ptr, size, rest[0], FirstAt(rest[1..], end));
      if b.at + b.size == rest[0].at {
        ChainCons(ptr', size', Block(b.at, n), rest[1..], end);
      } else {
        FirstIs(rest, end);
        ChainCons(ptr', size', b, rest, end);
      }
    } else {
      ChainCons(ptr', size', b, rest, end);
    }
  }

  lemma FirstIs(c: seq<Block>, end: nat)
    ensures FirstAt(c, end) == if c == [] then end else c[0].at
  {}

  lemma HeaderSet(ptr: seq<nat>, size: seq<nat>, at: nat, p: nat, n: nat)
    requires at < |ptr| && at < |size|
    ensures Header(ptr[at := p], size[at := n], Block(at, n), p)
  {}

  lemma HeaderAt(ptr: seq<nat>, size: seq<nat>, b: Block, next: nat)
    requires Header(ptr, size, b, next)
    ensures b.at < |ptr| && b.at < |size| && ptr[b.at] == next && size[b.at] == b.size
  {}

  lemma ChainCons(ptr: seq<nat>, size: seq<nat>, b: Block, c: seq<Block>, end: nat)
    ensures Chain(ptr, size, [b] + c, end) <==> Header(ptr, size, b, FirstAt(c, end)) && Chain(ptr, size, c, end)
  {
    hide Header, Chain;
    if c == [] {
      assert [b] + c == [b];
      ChainOne(ptr, size, b, end);
      assert Chain(ptr, size, c, end) by { ChainEmpty(ptr, size, end); }
    } else {
      ChainJoin(ptr, size, [b], c, end);
      ChainOne(ptr, size, b, c[0].at);
    }
  }

  lemma ChainEmpty(ptr: seq<nat>, size: seq<nat>, end: nat)
    ensures Chain(ptr, size, [], end)
  {}

  /** free(), second test: the lower neighbour takes in the freed block or leads to it. */
  lemma ChainDown(ptr: seq<nat>, size: seq<nat>, low: seq<Block>, x: nat, up: seq<Block>, end: nat, p: nat, n: nat)
    requires low != [] && up != [] && Chain(ptr, size, low, x) && Chain(ptr, size, up, end)
    requires var l := low[|low| - 1];
             l.at < |ptr| && l.at < |size| && up[0].at < |ptr| && up[0].at < |size| &&
             (forall i :: 0 <= i < |low| - 1 ==> low[i].at != l.at) && (forall i :: 0 <= i < |up| ==> up[i].at != l.at) &&
             if l.at + l.size == up[0].at then p == ptr[up[0].at] && n == l.size + size[up[0].at]
             else p == up[0].at && n == l.size
    ensures var at := low[|low| - 1].at;
            Chain(ptr[at := p], size[at := n], MergeDown(low, up), end)
  {
    hide Header, Chain, FirstAt;
    var k := |low| - 1;
    var l := low[k];
    var ptr', size' := ptr[l.at := p], size[l.at := n];
    ChainJoin(ptr, size, low[..k], [l], x);
    assert low == low[..k] + [l];
    ChainFrame(ptr, size, low[..k], l.at, l.at, p, n);
    ChainFrame(ptr, size, up, end, l.at, p, n);
    HeaderSet(ptr, size, l.at, p, n);
    FirstIs(up, end);
    if l.at + l.size == up[0].at {
      var m := Block(l.at, l.size + up[0].size);
      ChainCons(ptr, size, up[0], up[1..], end);
      ChainCons(ptr', size', up[0], up[1..], end);
      assert up == [up[0]] + up[1..];
      HeaderAt(ptr, size, up[0], FirstAt(up[1..], end));
      ChainCons(ptr', size', m, up[1..], end);
      ChainJoin(ptr', size', low[..k], [m] + up[1..], end);
    } else {
      ChainCons(ptr', size', l, up, end);
      ChainJoin(ptr', size', low[..k], [l] + up, end);
      assert low[..k] + ([l] + up) == low + up;
    }
  }

  /** The search of free() stops at the lower neighbour of the freed block and nowhere else. */
  lemma StopsBelow(s: seq<Block>, i: nat, at: nat)
    requires Ordered(s) && BASE < at && i < |s| && forall j :: 0 <= j < |s| ==> s[j].at != at
    ensures var p, next := s[i].at, s[Wrap(i + 1, |s|)].at;
            i == Below(s, at) <==> (p < at < next) || (p >= next && (at > p || at < next))
  {
    BelowExact(s, at);
    var t := Below(s, at);
    if 0 < i { Pairwise(s, 0, i); }
    if i + 1 < |s| { Pairwise(s, i, i + 1); }
    if i < t { if i + 1 < t { Pairwise(s, i + 1, t); } }
    if t < i { if t + 1 < i { Pairwise(s, t + 1, i); } }
  }

  lemma ChainNext(ptr: seq<nat>, size: seq<nat>, s: seq<Block>, i: nat)
    requires Chain(ptr, size, s, BASE) && i < |s| && s[0].at == BASE
    ensures s[i].at < |ptr| && s[i].at < |size| && size[s[i].at] == s[i].size && ptr[s[i].at] == s[Wrap(i + 1, |s|)].at
  {
    assert Header(ptr, size, s[i], NextAt(s, i, BASE));
  }

  /** Steps around the circle from block i to block t. */
  function Distance(i: nat, t: nat, m: nat): (d: nat)
    requires i < m && t < m
  {
    if i <= t then t - i else t + m - i
  }

  class Allocator {
    const ptr: array<nat>            // the headers, one for each unit of memory
    const size: array<nat>
    var freep: nat
    ghost var blocks: seq<Block>
    ghost var rover: nat
    ghost var live: map<nat, nat>
    ghost var owned: set<nat>

    ghost predicate Formed()
      reads this, ptr, size
    {
      HeapOk(blocks, live, owned, ptr.Length) && rover < |blocks| && freep == blocks[rover].at &&
      Chain(ptr[..], size[..], blocks, BASE) && forall a :: a in live ==> a < size.Length && size[a] == live[a]
    }

    ghost predicate Valid()
      reads this, ptr, size
    {
      ptr != size && ptr.Length == size.Length && BASE < ptr.Length &&
      if freep == NULL then blocks == [] && live == map[] && owned == {} else Formed()
    }

    constructor (memory: nat)
      requires BASE < memory
      ensures Valid() && freep == NULL && ptr.Length == memory && fresh(ptr) && fresh(size)
    {
      ptr := new nat[memory](_ => 0);
      size := new nat[memory](_ => 0);
      freep := NULL;
      blocks, rover, live, owned := [], 0, map[], {};
    }

    /** The search of free(): the last free block below bp, starting from freep. */
    method FindBelow(bp: nat) returns (p: nat)
      requires Valid() && freep != NULL && bp in live
      ensures BASE < bp && p == blocks[Below(blocks, bp)].at
    {
      hide Chain, Ordered, LiveOk, Conserved;
      FreeFacts(blocks, live, owned, ptr.Length, bp);
      ghost var i: nat, t: nat := rover, Below(blocks, bp);
      p := freep;
      ChainNext(ptr[..], size[..], blocks, i);
      StopsBelow(blocks, i, bp);
      while !(bp > p && bp < ptr[p])
        invariant i < |blocks| && p == blocks[i].at && p < ptr.Length && ptr[p] == blocks[Wrap(i + 1, |blocks|)].at
        invariant i == t <==> (p < bp < ptr[p]) || (p >= ptr[p] && (bp > p || bp < ptr[p]))
        decreases Distance(i, t, |blocks|)
      {
        if p >= ptr[p] && (bp > p || bp < ptr[p]) {
          break;
        }
        p := ptr[p];
        i := Wrap(i + 1, |blocks|);
        ChainNext(ptr[..], size[..], blocks, i);
        StopsBelow(blocks, i, bp);
      }
    }

    method Free(ap: nat)
      requires Valid() && 0 < ap && ap - 1 in live
      modifies this`freep, this`blocks, this`rover, this`live, ptr, size
      ensures Valid() && freep != NULL && owned == old(owned) && live == old(live) - {ap - 1}
      ensures var b := Block(ap - 1, old(live)[ap - 1]);
              |old(blocks)| > 0 && BASE < b.at && old(blocks)[0].at == BASE &&
              blocks == Insert(old(blocks), b) && rover == Below(old(blocks), b.at)
    {
      hide Chain, HeapOk, Covered, Insert, Below, Joined, Attached;
      var bp := ap - 1;
      ghost var i := InsertIndex(blocks, live, owned, ptr.Length, bp);
      ghost var b, m := Block(bp, live[bp]), (ptr[..], size[..]);
      FreeOk(blocks, live, owned, ptr.Length, bp);
      var p := FindBelow(bp);
      FreeChain(m.0, m.1, blocks, b, i);
      Join(bp, p);
      freep := p;
      blocks, rover, live := Insert(blocks, b), i, live - {bp};
    }

    /** The two tests of free() and what they do to the headers. */
    method Join(bp: nat, p: nat)
      requires ptr != size && ptr.Length == size.Length && bp < ptr.Length && p < ptr.Length && ptr[p] < ptr.Length
      modifies ptr, size
      ensures (ptr[..], size[..]) == Attached(Joined(old(ptr[..]), old(size[..]), bp, p), bp, p)
      ensures forall a :: 0 <= a < ptr.Length && a != bp && a != p ==> size[a] == old(size[a])
    {
      ghost var m := (ptr[..], size[..]);
      if bp + size[bp] == ptr[p] {
        size[bp], ptr[bp] := size[bp] + size[ptr[p]], ptr[ptr[p]];
      } else {
        ptr[bp] := ptr[p];
      }
      assert (ptr[..], size[..]) == Joined(m.0, m.1, bp, p);
      if p + size[p] == bp {
        size[p], ptr[p] := size[p] + size[bp], ptr[bp];
      } else {
        ptr[p] := bp;
      }
    }

    /** morecore. If sbrk has given nothing and not said so, claimed tells, and the model stops where the source goes on
        to write a header at grant and to take AtLeast(nu) units from there on for its own. */
    method Morecore(nu: nat, grant: nat) returns (p: nat, claimed: bool)
      requires Valid() && freep != NULL && 0 < nu <= UINT / HEADER && Answers(owned, ptr.Length, nu, grant)
      modifies this`freep, this`blocks, this`rover, this`live, this`owned, ptr, size
      ensures Valid() && freep != NULL && live == old(live)
      ensures claimed <==> grant != NULL && AtLeast(nu) * HEADER >= SIGN
      ensures grant == NULL || claimed ==> p == NULL && blocks == old(blocks) && owned == old(owned) && rover == old(rover)
      ensures grant != NULL && !claimed ==>
                p == freep && owned == old(owned) + Span(grant, AtLeast(nu)) && |old(blocks)| > 0 && old(blocks)[0].at < grant &&
                blocks == Insert(old(blocks), Block(grant, AtLeast(nu))) && rover == Below(old(blocks), grant)
    {
      hide HeapOk, Chain, Insert;
      var units := if nu < MIN_UNITS then MIN_UNITS else nu;
      AskedIff(nu);
      if grant == NULL {
        return NULL, false;
      }
      if units * HEADER >= SIGN {
        return NULL, true;
      }
      GrowOk(blocks, live, owned, ptr.Length, grant, units);
      GrantedOutside(blocks, live, owned, ptr.Length, grant, units);
      ChainFrame(ptr[..], size[..], blocks, BASE, grant, ptr[grant], units);
      size[grant] := units;
      assert ptr[..] == old(ptr[..])[grant := ptr[grant]] && size[..] == old(size[..])[grant := units];
      live, owned := live[grant := units], owned + Span(grant, units);
      Free(grant + 1);
      assert old(live)[grant := units] - {grant} == old(live);
      p, claimed := freep, false;
    }

    /** Taking n units from the block after prevp. */
    method Carve(prevp: nat, block: nat, n: nat, ghost j: nat) returns (at: nat)
      requires Valid() && freep != NULL && 0 < j < |blocks| && 0 < n <= blocks[j].size
      requires prevp == blocks[j - 1].at && block == blocks[j].at
      modifies this`freep, this`blocks, this`rover, this`live, ptr, size
      ensures Valid() && freep != NULL && owned == old(owned)
      ensures Handed(old(blocks), old(live), j, n, blocks, live, at, rover)
    {
      hide HeapOk, Chain, Take;
      TakeOk(blocks, live, owned, ptr.Length, j, n);
      TakeFacts(blocks, live, owned, ptr.Length, j, n);
      ghost var b, t := Take(blocks, j, n).0, Take(blocks, j, n).1;
      ChainNext(ptr[..], size[..], blocks, j - 1);
      ChainNext(ptr[..], size[..], blocks, j);
      TakeChain(ptr[..], size[..], blocks, j, n);
      at := block;
      if size[at] == n {
        ptr[prevp] := ptr[at];
      } else {
        size[at] := size[at] - n;
        at := at + size[at];
        size[at] := n;
      }
      assert (ptr[..], size[..]) == Carved(old(ptr[..]), old(size[..]), prevp, block, n);
      freep := prevp;
      blocks, rover, live := t, j - 1, live[at := n];
    }

    /** malloc; grant is what sbrk answers if it is asked. Only a search without success asks it. */
    method Malloc(nbytes: nat, grant: nat) returns (ap: nat, claimed: bool)
      requires Valid() && nbytes < UINT && Answers(owned, ptr.Length, Units(nbytes), grant)
      modifies this`freep, this`blocks, this`rover, this`live, this`owned, ptr, size
      ensures Valid() && freep != NULL
      ensures claimed <==> Claims(if old(freep) == NULL then [Block(BASE, 0)] else old(blocks), Units(nbytes), grant)
      ensures claimed ==> live == old(live) && owned == old(owned) && (old(freep) != NULL ==> blocks == old(blocks) && rover == old(rover))
      ensures !claimed ==> Served(if old(freep) == NULL then [Block(BASE, 0)] else old(blocks), if old(freep) == NULL then 0 else old(rover),
                     old(live), old(owned), Units(nbytes), grant, ap, blocks, live, owned, rover)
    {
      hide HeapOk, Chain, First, Handed, Insert, Served, Granted, Searching, Grown, Ordered;
      var nunits := Units(nbytes);
      if freep == NULL {
        Init();
      }
      ghost var s, k, owned0 := blocks, rover, owned;
      AskedIff(nunits);
      var prevp, grown := freep, false;
      claimed := false;
      SearchStarts(ptr[..], size[..], blocks, live, owned, rover, nunits);
      var p := ptr[prevp];
      ghost var i: nat, d: nat := rover, 0;
      while true
        invariant Valid() && freep != NULL && live == old(live)
        invariant Searching(blocks, rover, nunits, prevp, p, i, d)
        invariant !grown ==> blocks == s && rover == k && owned == owned0
        invariant grown ==> Grown(s, k, owned0, nunits, grant, blocks, rover, owned) && AtLeast(nunits) * HEADER < SIGN
        decreases !grown, |blocks| - d
      {
        ghost var j := SearchGoesOn(ptr[..], size[..], blocks, live, owned, rover, nunits, prevp, p, i, d);
        if size[p] >= nunits {
          ghost var t, r := blocks, rover;
          ap := Carve(prevp, p, nunits, j);
          ServedNow(s, k, old(live), owned0, nunits, grant, t, r, grown, j, ap + 1, blocks, live, owned, rover);
          return ap + 1, false;
        }
        if p == freep {
          GrownFinds(s, k, owned0, nunits, grant, blocks, rover, owned, grown);
          NoneLarge(s, k, nunits);
          p, claimed := Morecore(nunits, grant);
          if claimed {
            return NULL, true;
          }
          if p == NULL {
            ServedNot(s, k, old(live), owned0, nunits, grant);
            return NULL, false;
          }
          GrowsNow(s, k, owned0, nunits, grant, blocks, rover, owned);
          grown := true;
          SearchStarts(ptr[..], size[..], blocks, live, owned, rover, nunits);
          i, d := rover, 0;
        } else {
          i, d := j, d + 1;
        }
        prevp, p := p, ptr[p];
      }
    }

    /** The first call of malloc() makes base the only member of the list. */
    method Init()
      requires Valid() && freep == NULL
      modifies this`freep, this`blocks, this`rover, ptr, size
      ensures Valid() && freep != NULL && blocks == [Block(BASE, 0)] && rover == 0
    {
      freep := BASE;
      ptr[BASE] := BASE;
      size[BASE] := 0;
      blocks, rover := [Block(BASE, 0)], 0;
    }

    /** A client writes into a live block: no header of the allocator is there. */
    method Store(a: nat, u: nat, p: nat, n: nat)
      requires Valid() && a in live && a < u < a + live[a]
      modifies ptr, size
      ensures Valid()
    {
      hide HeapOk, Chain;
      PayloadApart(blocks, live, owned, ptr.Length, a, u);
      ChainFrame(ptr[..], size[..], blocks, BASE, u, p, n);
      ptr[u], size[u] := p, n;
      assert ptr[..] == old(ptr[..])[u := p] && size[..] == old(size[..])[u := n];
    }
  }

  lemma PayloadApart(s: seq<Block>, live: map<nat, nat>, owned: set<nat>, memory: nat, a: nat, u: nat)
    requires HeapOk(s, live, owned, memory) && a in live && a < u < a + live[a]
    ensures u < memory && (forall j :: 0 <= j < |s| ==> s[j].at != u) && forall c :: c in live ==> c != u
  {
    forall j | 0 <= j < |s| ensures s[j].at != u {
      assert Apart(s[j], Block(a, live[a]));
    }
    forall c | c in live ensures c != u {
      assert c != a ==> Apart(Block(a, live[a]), Block(c, live[c]));
    }
  }

  lemma BlocksFacts(s: seq<Block>, live: map<nat, nat>, owned: set<nat>, memory: nat)
    requires HeapOk(s, live, owned, memory)
    ensures Ordered(s) && |s| > 0 && s[0] == Block(BASE, 0) && forall i :: 0 <= i < |s| ==> s[i].at < memory
    ensures forall i, j :: 0 <= i < j < |s| ==> s[i].at != s[j].at
  {
    OrderedDistinct(s);
    forall i | 0 <= i < |s| ensures s[i].at < memory {
      if i > 0 { Pairwise(s, 0, i); }
    }
  }

  lemma FirstUnfold(s: seq<Block>, k: nat, n: nat, d: nat)
    requires k < |s| && d < |s|
    ensures var j := Wrap(k + 1 + d, |s|);
            if s[j].size >= n then First(s, k, n, d) == Found(j)
            else First(s, k, n, d) == First(s, k, n, d + 1)
    ensures First(s, k, n, |s|) == NotFound
  {}

  /** No free block has n units, and sbrk, asked for a count that is not positive, reports success. */
  ghost predicate Claims(s: seq<Block>, n: nat, grant: nat) {
    grant != NULL && AtLeast(n) * HEADER >= SIGN && forall i :: 0 <= i < |s| ==> s[i].size < n
  }

  /** What malloc() does: the first block large enough from the rover on serves the request; only if there
      is none is sbrk asked, once, and unless it refuses the first block of the enlarged list serves it. The
      next search starts at r. */
  ghost predicate Served(s: seq<Block>, k: nat, live: map<nat, nat>, owned: set<nat>, n: nat, grant: nat,
                         ap: nat, t: seq<Block>, now: map<nat, nat>, owns: set<nat>, r: nat) {
    k < |s| &&
    var f := First(s, k, n, 0);
    if f.Found? then ap != NULL && owns == owned && Handed(s, live, f.at, n, t, now, ap - 1, r)
    else if grant == NULL then ap == NULL && t == s && now == live && owns == owned && r == k
    else
      ap != NULL && s[0].at < grant && owns == owned + Span(grant, AtLeast(n)) &&
      ServedFrom(Insert(s, Block(grant, AtLeast(n))), Below(s, grant), live, n, t, now, ap - 1, r)
  }

  ghost predicate ServedFrom(s: seq<Block>, k: nat, live: map<nat, nat>, n: nat, t: seq<Block>, now: map<nat, nat>, at: nat, r: nat) {
    k < |s| && First(s, k, n, 0).Found? && Handed(s, live, First(s, k, n, 0).at, n, t, now, at, r)
  }

  /** The search has tried d blocks from the one after the rover, and p, after prevp, is next. */
  ghost predicate Searching(s: seq<Block>, k: nat, n: nat, prevp: nat, p: nat, i: nat, d: nat) {
    k < |s| && i < |s| && d < |s| && Wrap(k + 1 + d, |s|) == Wrap(i + 1, |s|) &&
    prevp == s[i].at && p == s[Wrap(i + 1, |s|)].at && First(s, k, n, 0) == First(s, k, n, d)
  }

  /** sbrk has been asked, because no block of s was large enough, and has given. */
  ghost predicate Grown(s: seq<Block>, k: nat, owned: set<nat>, n: nat, grant: nat, t: seq<Block>, r: nat, owns: set<nat>) {
    k < |s| && First(s, k, n, 0).NotFound? && grant != NULL && s[0].at < grant && r == Below(s, grant) &&
    owns == owned + Span(grant, AtLeast(n)) && t == Insert(s, Block(grant, AtLeast(n)))
  }

  lemma GrowsNow(s: seq<Block>, k: nat, owned: set<nat>, n: nat, grant: nat, t: seq<Block>, r: nat, owns: set<nat>)
    requires k < |s| && First(s, k, n, 0).NotFound? && grant != NULL && s[0].at < grant && r == Below(s, grant)
    requires owns == owned + Span(grant, AtLeast(n)) && t == Insert(s, Block(grant, AtLeast(n)))
    ensures Grown(s, k, owned, n, grant, t, r, owns)
  {}

  lemma SearchStarts(ptr: seq<nat>, size: seq<nat>, s: seq<Block>, live: map<nat, nat>, owned: set<nat>, k: nat, n: nat)
    requires HeapOk(s, live, owned, |ptr|) && Chain(ptr, size, s, BASE) && k < |s|
    ensures s[k].at < |ptr| && Searching(s, k, n, s[k].at, ptr[s[k].at], k, 0)
  {
    BlocksFacts(s, live, owned, |ptr|);
    ChainNext(ptr, size, s, k);
  }

  /** The next block is large enough and is the one the search finds; or it is the rover's, and none is
      large enough; or the search goes on behind it. */
  lemma SearchGoesOn(ptr: seq<nat>, size: seq<nat>, s: seq<Block>, live: map<nat, nat>, owned: set<nat>, k: nat, n: nat,
                     prevp: nat, p: nat, i: nat, d: nat) returns (j: nat)
    requires HeapOk(s, live, owned, |ptr|) && Chain(ptr, size, s, BASE) && Searching(s, k, n, prevp, p, i, d) && 0 < n
    ensures i < |s| && j == Wrap(i + 1, |s|) && p == s[j].at && p < |ptr| && p < |size| && size[p] == s[j].size
    ensures s[j].size >= n ==> First(s, k, n, 0) == Found(j) && 0 < j && prevp == s[j - 1].at
    ensures k < |s| && d < |s|
    ensures s[j].size < n && p == s[k].at ==> First(s, k, n, 0).NotFound?
    ensures s[j].size < n && p != s[k].at ==> d + 1 < |s| && Searching(s, k, n, p, ptr[p], j, d + 1)
  {
    j := Wrap(i + 1, |s|);
    BlocksFacts(s, live, owned, |ptr|);
    ChainNext(ptr, size, s, j);
    FirstUnfold(s, k, n, d);
    if s[j].size < n && p == s[k].at {
      LastTried(s, k, n, i, d, j);
    }
  }

  lemma ServedNow(s: seq<Block>, k: nat, live: map<nat, nat>, owned: set<nat>, n: nat, grant: nat,
                  t: seq<Block>, r: nat, grown: bool, j: nat, ap: nat, u: seq<Block>, now: map<nat, nat>, owns: set<nat>, v: nat)
    requires if grown then Grown(s, k, owned, n, grant, t, r, owns) else t == s && r == k && owns == owned
    requires r < |t| && First(t, r, n, 0) == Found(j) && 0 < ap && Handed(t, live, j, n, u, now, ap - 1, v)
    ensures Served(s, k, live, owned, n, grant, ap, u, now, owns, v)
  {
    hide First, Insert;
  }

  lemma ServedNot(s: seq<Block>, k: nat, live: map<nat, nat>, owned: set<nat>, n: nat, grant: nat)
    requires k < |s| && First(s, k, n, 0).NotFound? && grant == NULL
    ensures Served(s, k, live, owned, n, grant, NULL, s, live, owned, k)
  {}

  /** Back at the rover, every block has been tried. */
  lemma LastTried(s: seq<Block>, k: nat, n: nat, i: nat, d: nat, j: nat)
    requires k < |s| && d < |s| && j == Wrap(k + 1 + d, |s|) && s[j].at == s[k].at && s[j].size < n
    requires forall a, c :: 0 <= a < c < |s| ==> s[a].at != s[c].at
    requires First(s, k, n, 0) == First(s, k, n, d)
    ensures First(s, k, n, 0).NotFound?
  {
    FirstUnfold(s, k, n, d);
    assert d == |s| - 1;
  }

  /** After sbrk has given there is a block large enough, so it is not asked again. */
  lemma GrownFinds(s: seq<Block>, k: nat, owned: set<nat>, n: nat, grant: nat, t: seq<Block>, r: nat, owns: set<nat>, grown: bool)
    requires grown ==> Grown(s, k, owned, n, grant, t, r, owns)
    requires r < |t| && First(t, r, n, 0).NotFound?
    ensures !grown
  {
    if grown {
      InsertFits(s, Block(grant, AtLeast(n)));
      var j :| 0 <= j < |t| && t[j].size >= n;
      FirstFinds(t, r, n, j);
    }
  }

  lemma InsertFits(s: seq<Block>, b: Block)
    requires |s| > 0 && s[0].at < b.at
    ensures exists j :: 0 <= j < |Insert(s, b)| && Insert(s, b)[j].size >= b.size
  {
    var i := Below(s, b.at);
    var low, up := s[..i + 1], MergeUp(b, s[i + 1..]);
    assert up[0].size >= b.size;
    var t := MergeDown(low, up);
    assert t == Insert(s, b);
    if low[i].at + low[i].size == up[0].at {
      assert Insert(s, b)[i].size >= b.size;
    } else {
      assert Insert(s, b)[i + 1] == up[0];
    }
  }

  /** malloc() fails exactly when no free block is large enough and sbrk refuses; otherwise it hands out a
      block of the size asked for that was not live, and nothing else becomes live. */
  lemma ServedIff(s: seq<Block>, k: nat, live: map<nat, nat>, owned: set<nat>, n: nat, grant: nat,
                  ap: nat, t: seq<Block>, now: map<nat, nat>, owns: set<nat>, r: nat)
    requires Served(s, k, live, owned, n, grant, ap, t, now, owns, r)
    ensures ap == NULL <==> grant == NULL && forall i :: 0 <= i < |s| ==> s[i].size < n
    ensures ap == NULL ==> now == live
    ensures ap != NULL ==> ap - 1 !in live && now == live[ap - 1 := n]
  {
    NoneLarge(s, k, n);
  }

  lemma NoneLarge(s: seq<Block>, k: nat, n: nat)
    requires k < |s|
    ensures First(s, k, n, 0).NotFound? <==> forall i :: 0 <= i < |s| ==> s[i].size < n
  {
    if First(s, k, n, 0).NotFound? {
      forall i | 0 <= i < |s| ensures s[i].size < n {
        if s[i].size >= n { FirstFinds(s, k, n, i); }
      }
    }
  }

  lemma GrantedOutside(s: seq<Block>, live: map<nat, nat>, owned: set<nat>, memory: nat, a: nat, n: nat)
    requires HeapOk(s, live, owned, memory) && 0 < n && Granted(owned, memory, a, n)
    ensures a < memory && a !in live && |s| > 0 && s[0].at < a && forall j :: 0 <= j < |s| ==> s[j].at != a
  {
    GrowOk(s, live, owned, memory, a, n);
    BlocksApart(s, live[a := n], owned + Span(a, n), memory, a);
  }

  /** Memory after malloc() has taken n units of block p, whose predecessor is prevp. */
  function Carved(ptr: seq<nat>, size: seq<nat>, prevp: nat, p: nat, n: nat): (seq<nat>, seq<nat>)
    requires |ptr| == |size| && prevp < |ptr| && p < |ptr| && 0 < n <= size[p] && p + size[p] <= |size|
  {
    if size[p] == n then (ptr[prevp := ptr[p]], size)
    else (ptr, size[p := size[p] - n][p + size[p] - n := n])
  }

  lemma TakeFacts(s: seq<Block>, live: map<nat, nat>, owned: set<nat>, memory: nat, j: nat, n: nat)
    requires HeapOk(s, live, owned, memory) && 0 < j < |s| && 0 < n <= s[j].size
    ensures s[j].at + s[j].size <= memory && BASE <= s[j - 1].at && Ordered(s)
    ensures var (b, t) := Take(s, j, n);
            b == Block(s[j].at + s[j].size - n, n) && j - 1 < |t| && t[j - 1] == s[j - 1] && b.at !in live
    ensures forall c :: c in live ==> c != s[j].at && c != s[j - 1].at && c != s[j].at + s[j].size - n
  {
    TakeOk(s, live, owned, memory, j, n);
    if j > 1 { Pairwise(s, 0, j - 1); }
    forall c | c in live ensures c != s[j].at && c != s[j - 1].at {
      BlocksApart(s, live, owned, memory, c);
    }
  }

  /** malloc() leaves the memory of the list without the units it took. */
  lemma TakeChain(ptr: seq<nat>, size: seq<nat>, s: seq<Block>, j: nat, n: nat)
    requires |ptr| == |size| && Chain(ptr, size, s, BASE) && Ordered(s) && 0 < j < |s| && 0 < n <= s[j].size
    requires s[j].at + s[j].size <= |size| && s[j - 1].at < |ptr| && s[j].at < |ptr| && size[s[j].at] == s[j].size
    ensures var m := Carved(ptr, size, s[j - 1].at, s[j].at, n);
            |m.0| == |m.1| == |ptr| && Chain(m.0, m.1, Take(s, j, n).1, BASE) &&
            m.1[s[j].at + s[j].size - n] == n
  {
    hide Chain, Ordered;
    if s[j].size == n {
      TakeWhole(ptr, size, s, j);
    } else {
      TakeTail(ptr, size, s, j, n);
    }
  }

  lemma ChainAt(ptr: seq<nat>, size: seq<nat>, s: seq<Block>, i: nat)
    requires Chain(ptr, size, s, BASE) && i < |s|
    ensures Header(ptr, size, s[i], NextAt(s, i, BASE))
  {}

  lemma TakeWhole(ptr: seq<nat>, size: seq<nat>, s: seq<Block>, j: nat)
    requires Chain(ptr, size, s, BASE) && Ordered(s) && 0 < j < |s| && s[j - 1].at < |ptr| && s[j].at < |ptr|
    ensures Chain(ptr[s[j - 1].at := ptr[s[j].at]], size, s[..j] + s[j + 1..], BASE)
  {
    hide Ordered, Chain;
    OrderedDistinct(s);
    var t := s[..j] + s[j + 1..];
    var ptr' := ptr[s[j - 1].at := ptr[s[j].at]];
    ChainAt(ptr, size, s, j);
    forall i | 0 <= i < |t| ensures Header(ptr', size, t[i], NextAt(t, i, BASE)) {
      ChainAt(ptr, size, s, if i >= j then i + 1 else i);
    }
    ChainAll(ptr', size, t);
  }

  lemma ChainAll(ptr: seq<nat>, size: seq<nat>, s: seq<Block>)
    requires forall i :: 0 <= i < |s| ==> Header(ptr, size, s[i], NextAt(s, i, BASE))
    ensures Chain(ptr, size, s, BASE)
  {}

  lemma TakeTail(ptr: seq<nat>, size: seq<nat>, s: seq<Block>, j: nat, n: nat)
    requires Chain(ptr, size, s, BASE) && Ordered(s) && 0 < j < |s| && 0 < n < s[j].size
    requires s[j].at + s[j].size <= |size| && s[j].at < |ptr|
    ensures var at := s[j].at;
            Chain(ptr, size[at := s[j].size - n][at + s[j].size - n := n], s[j := Block(at, s[j].size - n)], BASE)
  {
    hide Chain, Ordered, Header, NextAt;
    var t := s[j := Block(s[j].at, s[j].size - n)];
    var size' := size[s[j].at := s[j].size - n][s[j].at + s[j].size - n := n];
    forall i | 0 <= i < |t| ensures Header(ptr, size', t[i], NextAt(t, i, BASE)) {
      TakeTailAt(ptr, size, s, j, n, i);
    }
    ChainAll(ptr, size', t);
  }

  lemma TakeTailAt(ptr: seq<nat>, size: seq<nat>, s: seq<Block>, j: nat, n: nat, i: nat)
    requires Chain(ptr, size, s, BASE) && Ordered(s) && 0 < j < |s| && 0 < n < s[j].size && i < |s|
    requires s[j].at + s[j].size <= |size| && s[j].at < |ptr|
    ensures var t := s[j := Block(s[j].at, s[j].size - n)];
            Header(ptr, size[s[j].at := s[j].size - n][s[j].at + s[j].size - n := n], t[i], NextAt(t, i, BASE))
  {
    hide Chain, Ordered;
    ChainAt(ptr, size, s, i);
    OrderedGaps(s);
    if i < j { Pairwise(s, i, j); } else if i > j { Pairwise(s, j, i); }
  }

  /** Where a live block goes in the free list, and what is known about that place. */
  lemma InsertIndex(s: seq<Block>, live: map<nat, nat>, owned: set<nat>, memory: nat, a: nat) returns (i: nat)
    requires HeapOk(s, live, owned, memory) && a in live
    ensures |s| > 0 && s[0].at == BASE && BASE < a < memory && i == Below(s, a) < |s|
    ensures BASE <= s[i].at && forall c :: c in live ==> c != s[i].at
    ensures forall j :: 0 <= j < |s| ==> s[j].at != a
    ensures var t := Insert(s, Block(a, live[a])); i < |t| && t[i].at == s[i].at
  {
    FreeFacts(s, live, owned, memory, a);
    BlocksApart(s, live, owned, memory, a);
    i := Below(s, a);
    if i > 0 { Pairwise(s, 0, i); }
    var up := MergeUp(Block(a, live[a]), s[i + 1..]);
    assert s[..i + 1][|s[..i + 1]| - 1] == s[i];
  }

  /** n units of block j are handed out; the search will start from its predecessor next time. */
  ghost predicate Handed(s: seq<Block>, live: map<nat, nat>, j: nat, n: nat, t: seq<Block>, now: map<nat, nat>, at: nat, r: nat) {
    0 < j < |s| && r == j - 1 && n <= s[j].size &&
    Take(s, j, n) == (Block(at, n), t) && at !in live && now == live[at := n]
  }

  /** Memory after the first if of free(), with free block p below bp. */
  function Joined(ptr: seq<nat>, size: seq<nat>, bp: nat, p: nat): (r: (seq<nat>, seq<nat>))
    requires |ptr| == |size| && bp < |ptr| && p < |ptr| && ptr[p] < |ptr|
    ensures |r.0| == |r.1| == |ptr|
  {
    if bp + size[bp] == ptr[p] then (ptr[bp := ptr[ptr[p]]], size[bp := size[bp] + size[ptr[p]]])
    else (ptr[bp := ptr[p]], size)
  }

  /** Memory after the second one. */
  function Attached(m: (seq<nat>, seq<nat>), bp: nat, p: nat): (r: (seq<nat>, seq<nat>))
    requires |m.0| == |m.1| && bp < |m.0| && p < |m.0|
    ensures |r.0| == |r.1| == |m.0|
  {
    if p + m.1[p] == bp then (m.0[p := m.0[bp]], m.1[p := m.1[p] + m.1[bp]]) else (m.0[p := bp], m.1)
  }

  lemma JoinedRange(ptr: seq<nat>, size: seq<nat>, s: seq<Block>, i: nat, bp: nat)
    requires Chain(ptr, size, s, BASE) && |ptr| == |size| && i < |s| && s[0].at == BASE
    ensures s[i].at < |ptr| && ptr[s[i].at] < |ptr|
  {
    ChainNext(ptr, size, s, i);
    ChainNext(ptr, size, s, Wrap(i + 1, |s|));
  }

  /** free() leaves the memory of the list with the block inserted. */
  lemma FreeChain(ptr: seq<nat>, size: seq<nat>, s: seq<Block>, b: Block, i: nat)
    requires |ptr| == |size| && Chain(ptr, size, s, BASE) && Fits(s, b) && s[0].at < b.at && i == Below(s, b.at)
    requires b.at < |ptr| && size[b.at] == b.size && forall j :: 0 <= j < |s| ==> s[j].at != b.at
    ensures s[i].at < |ptr| && ptr[s[i].at] < |ptr|
    ensures var m := Attached(Joined(ptr, size, b.at, s[i].at), b.at, s[i].at);
            Chain(m.0, m.1, Insert(s, b), BASE)
  {
    hide Chain, Ordered, MergeDown, MergeUp, Fits, Below, Joined, Attached, FirstAt;
    FitsOrdered(s, b);
    JoinedRange(ptr, size, s, i, b.at);
    OrderedDistinct(s);
    UpDistinct(s, i, b);
    Split(ptr, size, s, i, b);
    ChainNext(ptr, size, s, i);
    JoinChain(ptr, size, s[..i + 1], s[i + 1..], b);
    AttachChain(Joined(ptr, size, b.at, s[i].at), s[..i + 1], FirstAt(s[i + 1..], BASE), MergeUp(b, s[i + 1..]), b.at);
  }

  lemma JoinChain(ptr: seq<nat>, size: seq<nat>, low: seq<Block>, rest: seq<Block>, b: Block)
    requires |ptr| == |size| && low != [] && BASE < b.at < |ptr| && size[b.at] == b.size
    requires Chain(ptr, size, low, FirstAt(rest, BASE)) && Chain(ptr, size, rest, BASE)
    requires (forall i :: 0 <= i < |low| ==> low[i].at != b.at) && (forall i :: 0 <= i < |rest| ==> rest[i].at != b.at)
    ensures var p := low[|low| - 1].at;
            p < |ptr| && ptr[p] == FirstAt(rest, BASE) < |ptr| ==>
              var m := Joined(ptr, size, b.at, p);
              Chain(m.0, m.1, low, FirstAt(rest, BASE)) && Chain(m.0, m.1, MergeUp(b, rest), BASE) && m.1[p] == size[p]
  {
    hide Chain, MergeUp;
    var p := low[|low| - 1].at;
    if p < |ptr| && ptr[p] == FirstAt(rest, BASE) < |ptr| {
      var m := Joined(ptr, size, b.at, p);
      assert size[b.at := b.size] == size;
      ChainUp(ptr, size, rest, BASE, b, m.0[b.at], m.1[b.at]);
      ChainFrame(ptr, size, low, FirstAt(rest, BASE), b.at, m.0[b.at], m.1[b.at]);
    }
  }

  lemma AttachChain(m: (seq<nat>, seq<nat>), low: seq<Block>, x: nat, up: seq<Block>, bp: nat)
    requires |m.0| == |m.1| && low != [] && up != [] && up[0].at == bp && bp < |m.0|
    requires Chain(m.0, m.1, low, x) && Chain(m.0, m.1, up, BASE)
    requires var l := low[|low| - 1];
             l.at < |m.0| && m.1[l.at] == l.size &&
             (forall i :: 0 <= i < |low| - 1 ==> low[i].at != l.at) && (forall i :: 0 <= i < |up| ==> up[i].at != l.at)
    ensures var a := Attached(m, bp, low[|low| - 1].at);
            Chain(a.0, a.1, MergeDown(low, up), BASE)
  {
    hide Chain, MergeDown;
    var p := low[|low| - 1].at;
    HeadOf(m.0, m.1, up, BASE);
    var a := Attached(m, bp, p);
    assert m.1[p := m.1[p]] == m.1;
    ChainDown(m.0, m.1, low, x, up, BASE, a.0[p], a.1[p]);
  }

  lemma FitsOrdered(s: seq<Block>, b: Block)
    requires Fits(s, b)
    ensures Ordered(s) && |s| > 0 && s[0] == Block(BASE, 0)
  {}

  lemma UpDistinct(s: seq<Block>, i: nat, b: Block)
    requires i < |s| && (forall j, k :: 0 <= j < k < |s| ==> s[j].at != s[k].at) && forall j :: 0 <= j < |s| ==> s[j].at != b.at
    ensures var up := MergeUp(b, s[i + 1..]); forall j :: 0 <= j < |up| ==> up[j].at != s[i].at
  {}

  lemma HeadOf(ptr: seq<nat>, size: seq<nat>, c: seq<Block>, end: nat)
    requires Chain(ptr, size, c, end) && c != []
    ensures c[0].at < |ptr| && c[0].at < |size| && size[c[0].at] == c[0].size
  {
    assert Header(ptr, size, c[0], NextAt(c, 0, end));
  }

  lemma OrderedDistinct(s: seq<Block>)
    requires Ordered(s)
    ensures forall i, j :: 0 <= i < j < |s| ==> s[i].at != s[j].at
  {
    forall i, j | 0 <= i < j < |s| ensures s[i].at != s[j].at {
      Pairwise(s, i, j);
    }
  }

  lemma BlocksApart(s: seq<Block>, live: map<nat, nat>, owned: set<nat>, memory: nat, a: nat)
    requires HeapOk(s, live, owned, memory) && a in live
    ensures forall j, c :: 0 <= j < |s| && c in live ==> s[j].at != c
  {
    forall j, c | 0 <= j < |s| && c in live ensures s[j].at != c {
      assert Apart(s[j], Block(c, live[c]));
    }
  }

  lemma FreeFacts(s: seq<Block>, live: map<nat, nat>, owned: set<nat>, memory: nat, a: nat)
    requires HeapOk(s, live, owned, memory) && a in live
    ensures Ordered(s) && |s| > 0 && s[0] == Block(BASE, 0) && BASE < a < memory
    ensures forall j :: 0 <= j < |s| ==> s[j].at != a
  {
    forall j | 0 <= j < |s| ensures s[j].at != a {
      assert Apart(s[j], Block(a, live[a]));
    }
  }

  lemma Split(ptr: seq<nat>, size: seq<nat>, s: seq<Block>, i: nat, b: Block)
    requires Ordered(s) && Chain(ptr, size, s, BASE) && i < |s|
    ensures Chain(ptr, size, s[..i + 1], FirstAt(s[i + 1..], BASE)) && Chain(ptr, size, s[i + 1..], BASE)
    ensures s[0].at == BASE ==> s[Wrap(i + 1, |s|)].at == FirstAt(s[i + 1..], BASE)
  {
    hide Ordered, Header, Chain;
    if i + 1 < |s| {
      ChainJoin(ptr, size, s[..i + 1], s[i + 1..], BASE);
      assert s == s[..i + 1] + s[i + 1..];
    } else {
      assert s[..i + 1] == s;
      ChainEmpty(ptr, size, BASE);
      assert s[i + 1..] == [];
    }
  }
}
