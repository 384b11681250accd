/** Record pages (rm_filehandle.cc, rm_manager.cc): the layout CreateFile computes, and the slots of a page. */
module Rm {
  import opened Blocks

  const PF_PAGE_SIZE: nat := 4092
  const PAGE_HEADER: nat := 8          // nextFreePage and numRecords
  const BODY: nat := 4084
  const NO_FREE_PAGES: int := -1

  /** What follows the page header: the bitmap, then the record slots. */
  type Body = b: seq<Byte> | |b| == BODY witness seq(BODY, _ => 0)

  datatype RmPage = RmPage(nextFreePage: int, numRecords: int, body: Body)

  datatype Header = Header(recordSize: int, numRecordsPerPage: int, numPages: int, firstFreePage: int,
                           bitmapOffset: int, bitmapSize: int)

  datatype Rid = Rid(page: int, slot: int)

  datatype Rc = Ok | BadRecordSize | InvalidFile | InvalidRid | PageError | InvalidBitOperation | InvalidRecord | PageFull |
                Overrun | Eof | InvalidScan

  // ----- the layout

  /** floor(PF_PAGE_SIZE / (recSize + 1/8)) */
  function CalcNumRecPerPage(recSize: int): int
    requires recSize > 0
  {
    (PF_PAGE_SIZE as real / (recSize as real + 0.125)).Floor
  }

  function NumBitsToCharSize(size: int): int {
    if size / 8 * 8 < size then size / 8 + 1 else size / 8
  }

  predicate IsValidFileHeader(h: Header) {
    h.recordSize > 0 && h.numRecordsPerPage > 0 && h.numPages > 0 &&
    h.bitmapOffset + h.bitmapSize + h.recordSize * h.numRecordsPerPage <= PF_PAGE_SIZE
  }

  /** c is the largest number of records of recSize bytes and an eighth that take no more than a page. */
  ghost predicate MostRecords(recSize: int, c: int) {
    0 <= c && c * (8 * recSize + 1) <= 8 * PF_PAGE_SIZE < (c + 1) * (8 * recSize + 1)
  }

  /** b bytes have a bit for each of c records and b - 1 have not. */
  ghost predicate LeastBytes(b: int, c: int) {
    8 * (b - 1) < c <= 8 * b
  }

  /** The header CreateFile writes, for the record sizes it accepts. The bitmap is as long as the number of records
      that would fit without the page header asks for. */
  method CreateFile(recordSize: int) returns (rc: Rc, h: Header)
    ensures rc.Ok? <==> 0 < recordSize <= 4083
    ensures !rc.Ok? ==> rc.BadRecordSize?
    ensures rc.Ok? ==> h.recordSize == recordSize && h.numPages == 1 && h.firstFreePage == NO_FREE_PAGES
    ensures rc.Ok? ==> LayoutOk(h) && IsValidFileHeader(h)
    ensures rc.Ok? ==> exists c :: MostRecords(recordSize, c) && LeastBytes(h.bitmapSize, c)
  {
    h := Header(0, 0, 0, 0, 0, 0);
    if recordSize <= 0 || recordSize > PF_PAGE_SIZE {
      return BadRecordSize, h;
    }
    var numRecordsPerPage := CalcNumRecPerPage(recordSize);
    var bitmapSize := NumBitsToCharSize(numRecordsPerPage);
    var bitmapOffset := PAGE_HEADER;
    var room := PF_PAGE_SIZE - bitmapSize - bitmapOffset;
    assert room / recordSize > 0 <==> recordSize <= room by { QuotientPositive(room, recordSize); }
    RoomForOne(recordSize);
    if room / recordSize <= 0 {
      return BadRecordSize, h;
    }
    h := Header(recordSize, room / recordSize, 1, NO_FREE_PAGES, bitmapOffset, bitmapSize);
    Fits(recordSize);
    CalcBounds(recordSize);
    CharSize(numRecordsPerPage);
    assert MostRecords(recordSize, numRecordsPerPage);
    rc := Ok;
  }

  /** The bitmap has a bit for every slot, and the bitmap and as many slots as possible fit the page. */
  ghost predicate LayoutOk(h: Header) {
    h.bitmapOffset == PAGE_HEADER && h.recordSize > 0 && h.numRecordsPerPage > 0 && h.bitmapSize > 0 &&
    h.numRecordsPerPage <= 8 * h.bitmapSize &&
    h.bitmapSize + h.numRecordsPerPage * h.recordSize <= BODY < h.bitmapSize + (h.numRecordsPerPage + 1) * h.recordSize
  }

  lemma QuotientPositive(a: int, b: int)
    requires b > 0
    ensures a / b > 0 <==> b <= a
    ensures a >= 0 ==> a / b * b <= a < (a / b + 1) * b
  {
    assert a == a / b * b + a % b;
    if a >= 0 && a / b >= 1 {
      assert a / b * b >= 1 * b;
    }
  }

  /** The record count is the largest c with c * (8 * recSize + 1) <= 8 * PF_PAGE_SIZE. */
  lemma CalcBounds(recSize: int)
    requires 0 < recSize <= PF_PAGE_SIZE
    ensures var c := CalcNumRecPerPage(recSize);
            MostRecords(recSize, c)
  {
    var d := recSize as real + 0.125;
    Quotient(4092.0, d);
    Floored(CalcNumRecPerPage(recSize), recSize, 4092.0 / d);
  }

  lemma Floored(c: int, r: int, q: real)
    requires q > 0.0 && q * (r as real + 0.125) == 4092.0 && c as real <= q < c as real + 1.0 && r > 0
    ensures 0 <= c && c * (8 * r + 1) <= 32736 < (c + 1) * (8 * r + 1)
  {
    Scaled(c as real, q, r as real + 0.125);
    Scaled(q, (c + 1) as real, r as real + 0.125);
    ToInt(c, r);
    ToInt(c + 1, r);
  }

  lemma ToInt(c: int, r: int)
    ensures (c as real) * (r as real + 0.125) <= 4092.0 ==> c * (8 * r + 1) <= 32736
    ensures (c as real) * (r as real + 0.125) > 4092.0 ==> c * (8 * r + 1) > 32736
  {
    Cross(c, r);
    var x := c * (8 * r + 1);
    var y := (c as real) * (r as real + 0.125);
    assert 8.0 * y == x as real;
  }

  lemma Quotient(a: real, d: real)
    requires a > 0.0 && d > 0.0
    ensures a / d > 0.0 && a / d * d == a
  {}

  lemma Cross(c: int, r: int)
    ensures 8.0 * ((c as real) * (r as real + 0.125)) == (c * (8 * r + 1)) as real
  {
    assert (c as real) * (r as real + 0.125) == (c * r) as real + 0.125 * c as real;
    Distribute(c, r);
  }

  lemma Distribute(a: int, d: int)
    ensures a * (8 * d + 1) == 8 * (a * d) + a
  {}

  lemma ScaledInt(a: int, b: int, d: int)
    requires d >= 0
    ensures a <= b ==> a * d <= b * d
  {}

  lemma Scaled(a: real, b: real, d: real)
    requires d > 0.0
    ensures a <= b ==> a * d <= b * d
    ensures a < b ==> a * d < b * d
  {}

  lemma CharSize(size: int)
    requires size >= 0
    ensures size <= 8 * NumBitsToCharSize(size) < size + 8
  {}

  /** One record of at most 4083 bytes fits beside its bitmap. */
  lemma RoomForOne(recSize: int)
    requires 0 < recSize <= PF_PAGE_SIZE
    ensures recSize <= PF_PAGE_SIZE - NumBitsToCharSize(CalcNumRecPerPage(recSize)) - PAGE_HEADER <==> recSize <= 4083
  {
    CalcBounds(recSize);
    var c := CalcNumRecPerPage(recSize);
    CharSize(c);
    hide CalcNumRecPerPage, NumBitsToCharSize;
    ScaledInt(9, c, 8 * recSize + 1);
    ScaledInt(9, 8 * recSize + 1, c);
  }

  lemma Fits(recSize: int)
    requires 0 < recSize <= 4083
    ensures var bs := NumBitsToCharSize(CalcNumRecPerPage(recSize));
            var n := (PF_PAGE_SIZE - bs - PAGE_HEADER) / recSize;
            LayoutOk(Header(recSize, n, 1, NO_FREE_PAGES, PAGE_HEADER, bs))
  {
    CalcBounds(recSize);
    RoomForOne(recSize);
    var c := CalcNumRecPerPage(recSize);
    CharSize(c);
    var bs := NumBitsToCharSize(c);
    var n := (PF_PAGE_SIZE - bs - PAGE_HEADER) / recSize;
    QuotientPositive(PF_PAGE_SIZE - bs - PAGE_HEADER, recSize);
    ScaledInt(c + 1, n, recSize);
    Distribute(c + 1, recSize);
    hide CalcNumRecPerPage, NumBitsToCharSize;
  }

  // ----- the slots of a page

  /** The first byte of a slot, counted from the bitmap. */
  function SlotStart(h: Header, slot: int): int {
    h.bitmapSize + slot * h.recordSize
  }

  /** The slots lie one after the other behind the bitmap, inside the page. */
  lemma SlotRange(h: Header, s: int)
    requires LayoutOk(h) && 0 <= s < h.numRecordsPerPage
    ensures h.bitmapSize <= SlotStart(h, s) && SlotStart(h, s) + h.recordSize <= BODY
    ensures forall t: int :: 0 <= t < h.numRecordsPerPage && t != s ==>
      SlotStart(h, t) + h.recordSize <= SlotStart(h, s) || SlotStart(h, s) + h.recordSize <= SlotStart(h, t)
  {
    ScaledInt(0, s, h.recordSize);
    ScaledInt(s + 1, h.numRecordsPerPage, h.recordSize);
    Next(s, h.recordSize);
    forall t: int | 0 <= t < h.numRecordsPerPage && t != s
      ensures SlotStart(h, t) + h.recordSize <= SlotStart(h, s) || SlotStart(h, s) + h.recordSize <= SlotStart(h, t)
    {
      Next(t, h.recordSize);
      ScaledInt(t + 1, s, h.recordSize);
      ScaledInt(s + 1, t, h.recordSize);
    }
  }

  lemma Next(s: int, d: int)
    ensures (s + 1) * d == s * d + d
  {}

  /** The slot just past the last one reaches past the page. */
  lemma PastLast(h: Header)
    requires LayoutOk(h)
    ensures SlotStart(h, h.numRecordsPerPage) + h.recordSize > BODY && 0 < SlotStart(h, h.numRecordsPerPage) <= BODY
    ensures h.bitmapSize < BODY
  {
    Next(h.numRecordsPerPage, h.recordSize);
    ScaledInt(1, h.numRecordsPerPage, h.recordSize);
  }

  function BytesAt(body: Body, start: int, n: int): seq<Byte>
    requires 0 <= start && 0 <= n && start + n <= BODY
  {
    body[start..start + n]
  }

  /** memcpy into a page */
  function PutAt(body: Body, start: int, bytes: seq<Byte>): (r: Body)
    requires 0 <= start && start + |bytes| <= BODY
    ensures forall k :: 0 <= k < BODY ==> r[k] == if start <= k < start + |bytes| then bytes[k - start] else body[k]
  {
    body[..start] + bytes + body[start + |bytes|..]
  }

  /** The number of set bits below n. */
  function CountBits(body: Body, n: nat): (c: nat)
    requires n <= 8 * BODY
    ensures c <= n
  {
    if n == 0 then 0 else CountBits(body, n - 1) + if BitSet(body, n - 1) then 1 else 0
  }

  lemma {:induction false} CountAll(body: Body, n: nat)
    requires n <= 8 * BODY
    ensures CountBits(body, n) == n <==> forall i: nat :: i < n ==> BitSet(body, i)
  {
    hide BitSet;
    if n > 0 { CountAll(body, n - 1); }
  }

  /** Setting a clear bit counts one more, clearing a set one counts one less, and other bits do not matter. */
  lemma {:induction false} CountChange(b: Body, c: Body, n: nat, i: nat)
    requires n <= 8 * BODY && forall j: nat :: j < n && j != i ==> (BitSet(c, j) <==> BitSet(b, j))
    ensures CountBits(c, n) == CountBits(b, n) +
            if i < n && BitSet(c, i) && !BitSet(b, i) then 1 else if i < n && !BitSet(c, i) && BitSet(b, i) then -1 else 0
  {
    hide BitSet;
    if n > 0 { CountChange(b, c, n - 1, i); }
  }

  /** A page's record count is its number of set bits, and the bits behind the last slot's are clear. */
  ghost predicate PageOk(h: Header, p: RmPage) {
    LayoutOk(h) && h.bitmapSize <= BODY && p.numRecords == CountBits(p.body, h.numRecordsPerPage) &&
    forall i: nat :: h.numRecordsPerPage <= i < 8 * h.bitmapSize ==> !BitSet(p.body, i)
  }

  /** Slot s of a page holds a record. */
  predicate Holds(h: Header, p: RmPage, s: int) {
    0 <= s < h.numRecordsPerPage && s / 8 < BODY && BitSet(p.body, s)
  }

  function Record(h: Header, p: RmPage, s: int): seq<Byte>
    requires h.recordSize > 0 && 0 <= SlotStart(h, s) && SlotStart(h, s) + h.recordSize <= BODY
  {
    BytesAt(p.body, SlotStart(h, s), h.recordSize)
  }

  /** CheckBitSet reads the bit for every number up to and including the size; for the slot just past the last one that is
      a bit of the first record when the bitmap has no bit to spare. */
  ghost predicate Phantom(h: Header, p: RmPage, s: int) {
    LayoutOk(h) && s == h.numRecordsPerPage && s / 8 < BODY && BitSet(p.body, s)
  }

  /** Exactly when the bitmap is full to the last bit can the slot past the last one look used. */
  lemma PhantomIff(h: Header, p: RmPage, s: int)
    requires PageOk(h, p)
    ensures Phantom(h, p, s) <==> s == h.numRecordsPerPage == 8 * h.bitmapSize && p.body[h.bitmapSize] % 2 == 1
  {
    PastLast(h);
  }

  // ----- storing, replacing and removing a record

  function Stored(h: Header, p: RmPage, s: nat, bytes: seq<Byte>): RmPage
    requires s / 8 < BODY && 0 <= SlotStart(h, s) && SlotStart(h, s) + |bytes| <= BODY
  {
    RmPage(p.nextFreePage, p.numRecords + 1, PutAt(SetBit(p.body, s), SlotStart(h, s), bytes))
  }

  function Removed(p: RmPage, s: nat): RmPage
    requires s / 8 < BODY
  {
    RmPage(p.nextFreePage, p.numRecords - 1, ClearBit(p.body, s))
  }

  function Replaced(h: Header, p: RmPage, s: nat, bytes: seq<Byte>): RmPage
    requires 0 <= SlotStart(h, s) && SlotStart(h, s) + |bytes| <= BODY
  {
    p.(body := PutAt(p.body, SlotStart(h, s), bytes))
  }

  /** Every slot but s holds what it held. */
  ghost predicate OthersSame(h: Header, p: RmPage, q: RmPage, s: int) {
    LayoutOk(h) && forall t: int :: 0 <= t < h.numRecordsPerPage && t != s ==>
      SlotFits(h, t) && (Holds(h, q, t) <==> Holds(h, p, t)) && Record(h, q, t) == Record(h, p, t)
  }

  ghost predicate SlotFits(h: Header, t: int) {
    h.recordSize > 0 && 0 <= SlotStart(h, t) && SlotStart(h, t) + h.recordSize <= BODY && 0 <= t && t / 8 < BODY
  }

  lemma SlotOk(h: Header, s: int)
    requires LayoutOk(h) && 0 <= s < h.numRecordsPerPage
    ensures SlotFits(h, s) && s / 8 < h.bitmapSize <= BODY
  {
    SlotRange(h, s);
    assert s < 8 * h.bitmapSize;
  }

  /** Bytes of one slot changed: no bit of the bitmap and no byte of another slot did. */
  lemma PutKeeps(h: Header, p: RmPage, s: int, bytes: seq<Byte>)
    requires LayoutOk(h) && 0 <= s < h.numRecordsPerPage && |bytes| == h.recordSize
    ensures SlotFits(h, s) && OthersSame(h, p, Replaced(h, p, s, bytes), s)
    ensures Record(h, Replaced(h, p, s, bytes), s) == bytes
    ensures h.bitmapSize <= BODY && forall i: nat :: i < 8 * h.bitmapSize ==> (BitSet(Replaced(h, p, s, bytes).body, i) <==> BitSet(p.body, i))
  {
    SlotOk(h, s);
    SlotRange(h, s);
    var q := Replaced(h, p, s, bytes);
    var start := SlotStart(h, s);
    forall i: nat | i < 8 * h.bitmapSize ensures BitSet(q.body, i) <==> BitSet(p.body, i) {
      assert i / 8 < h.bitmapSize <= start;
    }
    forall t: int | 0 <= t < h.numRecordsPerPage && t != s
      ensures SlotFits(h, t) && (Holds(h, q, t) <==> Holds(h, p, t)) && Record(h, q, t) == Record(h, p, t)
    {
      SlotOk(h, t);
      hide BitSet, SlotStart;
      assert BytesAt(q.body, SlotStart(h, t), h.recordSize) == BytesAt(p.body, SlotStart(h, t), h.recordSize);
    }
    assert BytesAt(q.body, start, h.recordSize) == bytes;
  }

  /** A bit of the bitmap changed: the bytes of the slots did not. */
  lemma BitKeeps(h: Header, p: RmPage, s: int)
    requires LayoutOk(h) && 0 <= s < h.numRecordsPerPage
    ensures SlotFits(h, s) && s / 8 < BODY
    ensures OthersSame(h, p, Removed(p, s), s) && OthersSame(h, p, p.(body := SetBit(p.body, s)), s)
    ensures forall i: nat :: i < 8 * BODY ==> (BitSet(Removed(p, s).body, i) <==> i != s && BitSet(p.body, i))
    ensures forall i: nat :: i < 8 * BODY ==> (BitSet(SetBit(p.body, s), i) <==> i == s || BitSet(p.body, i))
  {
    SlotOk(h, s);
    forall i: nat | i < 8 * BODY
      ensures (BitSet(Removed(p, s).body, i) <==> i != s && BitSet(p.body, i)) && (BitSet(SetBit(p.body, s), i) <==> i == s || BitSet(p.body, i))
    {
      BitUpdate(p.body, s, i);
    }
    hide BitSet;
    forall t: int | 0 <= t < h.numRecordsPerPage && t != s
      ensures SlotFits(h, t) && Record(h, Removed(p, s), t) == Record(h, p, t) &&
              Record(h, p.(body := SetBit(p.body, s)), t) == Record(h, p, t)
    {
      SlotOk(h, t);
      SlotRange(h, t);
      assert s / 8 < h.bitmapSize <= SlotStart(h, t);
    }
  }

  lemma RemovedOk(h: Header, p: RmPage, s: int)
    requires PageOk(h, p) && Holds(h, p, s)
    ensures s / 8 < BODY && PageOk(h, Removed(p, s)) && OthersSame(h, p, Removed(p, s), s) && !Holds(h, Removed(p, s), s)
  {
    BitKeeps(h, p, s);
    hide BitSet;
    CountChange(p.body, Removed(p, s).body, h.numRecordsPerPage, s);
  }

  lemma ReplacedOk(h: Header, p: RmPage, s: int, bytes: seq<Byte>)
    requires PageOk(h, p) && Holds(h, p, s) && |bytes| == h.recordSize
    ensures SlotFits(h, s)
    ensures var q := Replaced(h, p, s, bytes);
            PageOk(h, q) && OthersSame(h, p, q, s) && Holds(h, q, s) && Record(h, q, s) == bytes
  {
    PutKeeps(h, p, s, bytes);
    SlotOk(h, s);
    hide BitSet;
    CountChange(p.body, Replaced(h, p, s, bytes).body, h.numRecordsPerPage, s);
  }

  lemma OthersTrans(h: Header, p: RmPage, q: RmPage, r: RmPage, s: int)
    requires OthersSame(h, p, q, s) && OthersSame(h, q, r, s)
    ensures OthersSame(h, p, r, s)
  {
    hide Holds, Record, SlotFits, LayoutOk;
  }

  lemma StoredOk(h: Header, p: RmPage, s: int, bytes: seq<Byte>)
    requires PageOk(h, p) && 0 <= s < h.numRecordsPerPage && !Holds(h, p, s) && |bytes| == h.recordSize
    ensures SlotFits(h, s)
    ensures var q := Stored(h, p, s, bytes);
            PageOk(h, q) && OthersSame(h, p, q, s) && Holds(h, q, s) && Record(h, q, s) == bytes
  {
    hide BitSet, SetBit, PutAt, BytesAt, SlotStart, OthersSame;
    SlotOk(h, s);
    BitKeeps(h, p, s);
    var mid := RmPage(p.nextFreePage, p.numRecords + 1, SetBit(p.body, s));
    SameBody(h, p, p.(body := SetBit(p.body, s)), mid, s);
    PutKeeps(h, mid, s, bytes);
    var q := Stored(h, p, s, bytes);
    assert q == Replaced(h, mid, s, bytes);
    OthersTrans(h, p, mid, q, s);
    CountChange(p.body, q.body, h.numRecordsPerPage, s);
  }

  lemma SameBody(h: Header, p: RmPage, q: RmPage, r: RmPage, s: int)
    requires OthersSame(h, p, q, s) && r.body == q.body
    ensures OthersSame(h, p, r, s)
  {}

  function EmptyPage(): RmPage {
    RmPage(NO_FREE_PAGES, 0, seq(BODY, _ => 0))
  }

  lemma {:induction false} NoBitsSet(body: Body, n: nat)
    requires n <= 8 * BODY && forall k :: 0 <= k < BODY ==> body[k] == 0
    ensures CountBits(body, n) == 0 && forall i: nat :: i < n ==> !BitSet(body, i)
  {
    hide Bit;
    if n > 0 {
      NoBitsSet(body, n - 1);
      NoBits((n - 1) % 8);
    }
  }

  lemma EmptyPageOk(h: Header)
    requires LayoutOk(h)
    ensures PageOk(h, EmptyPage()) && forall s :: !Holds(h, EmptyPage(), s)
  {
    PastLast(h);
    NoBitsSet(EmptyPage().body, 8 * BODY);
    NoBitsSet(EmptyPage().body, h.numRecordsPerPage);
  }

  /** Where the bitmap is full to the last bit, any record stored in slot 0 whose first byte is odd makes the slot past the
      last one look used. */
  lemma PhantomStored(h: Header, p: RmPage, bytes: seq<Byte>)
    requires PageOk(h, p) && !Holds(h, p, 0) && |bytes| == h.recordSize && h.numRecordsPerPage == 8 * h.bitmapSize && bytes[0] % 2 == 1
    ensures SlotStart(h, 0) == h.bitmapSize && h.bitmapSize + |bytes| <= BODY
    ensures var q := Stored(h, p, 0, bytes); PageOk(h, q) && Holds(h, q, 0) && Phantom(h, q, h.numRecordsPerPage)
  {
    StoredOk(h, p, 0, bytes);
    SlotRange(h, 0);
    var q := Stored(h, p, 0, bytes);
    assert q.body[h.bitmapSize] == bytes[0];
    hide BitSet, SetBit, Holds;
    PhantomIff(h, q, h.numRecordsPerPage);
  }

  /** So on a new page. */
  lemma PhantomNew(h: Header, bytes: seq<Byte>)
    requires LayoutOk(h) && h.numRecordsPerPage == 8 * h.bitmapSize && |bytes| == h.recordSize && bytes[0] % 2 == 1
    ensures SlotStart(h, 0) == h.bitmapSize && h.bitmapSize + |bytes| <= BODY
    ensures Phantom(h, Stored(h, EmptyPage(), 0, bytes), h.numRecordsPerPage)
  {
    hide PageOk, Holds, Phantom, Stored, EmptyPage, LayoutOk;
    EmptyPageOk(h);
    PhantomStored(h, EmptyPage(), bytes);
  }

  /** A size for which that happens: eight records of 500 bytes, one bitmap byte. */
  lemma PhantomSize()
    ensures CalcNumRecPerPage(500) == 8 && NumBitsToCharSize(8) == 1 && (PF_PAGE_SIZE - 1 - PAGE_HEADER) / 500 == 8
    ensures LayoutOk(Header(500, 8, 1, NO_FREE_PAGES, PAGE_HEADER, 1))
  {
    CalcBounds(500);
  }
}
