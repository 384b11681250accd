/** An open record file (rm_filehandle.cc): a map from record identifiers to bytes, and the list of pages with room. */
module RmFile {
  import opened Blocks
  import opened Rm
  import opened Seqs

  /** Page 0 holds the file header, the others hold records. */
  ghost predicate PagesOk(h: Header, pages: seq<RmPage>) {
    LayoutOk(h) && |pages| > 0 && forall p: nat :: 0 < p < |pages| ==> PageOk(h, pages[p])
  }

  ghost predicate HasRoom(h: Header, pages: seq<RmPage>, p: nat) {
    0 < p < |pages| && pages[p].numRecords != h.numRecordsPerPage
  }

  function NextInList(chain: seq<nat>, i: nat): int {
    if i < |chain| then chain[i] else NO_FREE_PAGES
  }

  /** The free-page list from the header: distinct pages, exactly those that are not full. */
  ghost predicate FreeListOk(h: Header, pages: seq<RmPage>, chain: seq<nat>) {
    NoDup(chain) && h.firstFreePage == NextInList(chain, 0) &&
    (forall p: nat :: p in chain <==> HasRoom(h, pages, p)) &&
    forall i: nat :: i < |chain| && chain[i] < |pages| ==> pages[chain[i]].nextFreePage == NextInList(chain, i + 1)
  }

  /** The file has a record at rid. */
  ghost predicate HasRec(h: Header, pages: seq<RmPage>, rid: Rid) {
    0 < rid.page < |pages| && Rm.Holds(h, pages[rid.page], rid.slot) && SlotFits(h, rid.slot)
  }

  /** The identifier names the slot just past the last one of a page, and its bit, a bit of the first record, is set. */
  ghost predicate PhantomAt(h: Header, pages: seq<RmPage>, rid: Rid) {
    0 < rid.page < |pages| && 0 <= rid.slot && Phantom(h, pages[rid.page], rid.slot)
  }

  /** What an operation on the record at rid answers: the first of its checks that fails, in the order in which it makes
      them. Overrun stands for the slot past the last one when its bit is set: the record would reach past the page. */
  ghost predicate Answered(h: Header, pages: seq<RmPage>, isOpen: bool, rid: Rid, fault: bool, rc: Rc) {
    if !isOpen then rc == InvalidFile
    else if rid.page <= 0 || rid.slot < 0 then rc == InvalidRid
    else if fault || |pages| <= rid.page then rc == PageError
    else if h.numRecordsPerPage < rid.slot then rc == InvalidBitOperation
    else rc == if HasRec(h, pages, rid) then Ok else if PhantomAt(h, pages, rid) then Overrun else InvalidRecord
  }

  ghost function RecAt(h: Header, pages: seq<RmPage>, rid: Rid): seq<Byte>
    requires HasRec(h, pages, rid)
  {
    Record(h, pages[rid.page], rid.slot)
  }

  /** The records of the file. */
  ghost function Contents(h: Header, pages: seq<RmPage>): imap<Rid, seq<Byte>> {
    imap rid: Rid | HasRec(h, pages, rid) :: RecAt(h, pages, rid)
  }

  /** The layout part of a header. */
  ghost predicate SameLayout(h: Header, g: Header) {
    g.recordSize == h.recordSize && g.numRecordsPerPage == h.numRecordsPerPage && g.bitmapOffset == h.bitmapOffset && g.bitmapSize == h.bitmapSize
  }

  /** A change of one slot changes one entry of the map. */
  lemma OneSlot(h: Header, pages: seq<RmPage>, g: Header, now: seq<RmPage>, rid: Rid)
    requires SameLayout(h, g) && |now| == |pages| && 0 < rid.page < |pages| && 0 <= rid.slot < h.numRecordsPerPage
    requires forall p: nat :: p < |pages| && p != rid.page ==> now[p].body == pages[p].body
    requires OthersSame(h, pages[rid.page], now[rid.page], rid.slot) && SlotFits(h, rid.slot)
    ensures Rm.Holds(g, now[rid.page], rid.slot) ==>
      Contents(g, now) == Contents(h, pages)[rid := Record(g, now[rid.page], rid.slot)]
    ensures !Rm.Holds(g, now[rid.page], rid.slot) ==>
      Contents(g, now) == imap r: Rid | r in Contents(h, pages) && r != rid :: Contents(h, pages)[r]
  {
    forall r: Rid | r != rid
      ensures HasRec(g, now, r) <==> HasRec(h, pages, r)
      ensures HasRec(h, pages, r) ==> RecAt(g, now, r) == RecAt(h, pages, r)
    {
      SameSlot(h, pages, g, now, rid, r);
    }
    assert HasRec(g, now, rid) <==> Rm.Holds(g, now[rid.page], rid.slot);
    hide OthersSame, SlotFits, Rm.Holds, Record, SlotStart;
  }

  lemma SameSlot(h: Header, pages: seq<RmPage>, g: Header, now: seq<RmPage>, rid: Rid, r: Rid)
    requires SameLayout(h, g) && |now| == |pages| && 0 < rid.page < |pages| && r != rid
    requires forall p: nat :: p < |pages| && p != rid.page ==> now[p].body == pages[p].body
    requires OthersSame(h, pages[rid.page], now[rid.page], rid.slot)
    ensures HasRec(g, now, r) <==> HasRec(h, pages, r)
    ensures HasRec(h, pages, r) ==> RecAt(g, now, r) == RecAt(h, pages, r)
  {
    if 0 < r.page < |pages| && r.page != rid.page {
      assert now[r.page].body == pages[r.page].body;
    }
  }

  /** A new, empty page adds no record. */
  lemma NewPage(h: Header, pages: seq<RmPage>, g: Header, page: RmPage)
    requires SameLayout(h, g) && PagesOk(h, pages) && page.numRecords == 0 && forall k :: 0 <= k < BODY ==> page.body[k] == 0
    ensures PagesOk(g, pages + [page]) && Contents(g, pages + [page]) == Contents(h, pages)
  {
    PastLast(h);
    NoBitsSet(page.body, h.numRecordsPerPage);
    forall i: nat | i < 8 * BODY ensures !BitSet(page.body, i) { NoBits(i % 8); }
    hide BitSet, CountBits;
    assert PageOk(g, page);
    hide PageOk;
    var now := pages + [page];
    forall p: nat | 0 < p < |now| ensures PageOk(g, now[p]) {
      if p < |pages| { SameLayoutOk(h, g, pages[p]); }
    }
    forall r: Rid
      ensures HasRec(g, now, r) <==> HasRec(h, pages, r)
      ensures HasRec(h, pages, r) ==> RecAt(g, now, r) == RecAt(h, pages, r)
    {
      hide LayoutOk;
      if r.page == |pages| { assert !Rm.Holds(g, page, r.slot); }
    }
  }

  // ----- the free-page list

  lemma ListNew(h: Header, pages: seq<RmPage>, chain: seq<nat>, page: RmPage)
    requires FreeListOk(h, pages, chain) && chain == [] && |pages| > 0
    requires page.nextFreePage == h.firstFreePage && page.numRecords != h.numRecordsPerPage
    ensures FreeListOk(h.(firstFreePage := |pages|, numPages := h.numPages + 1), pages + [page], [|pages|])
  {
    var now := pages + [page];
    forall p: nat ensures p in [|pages|] <==> HasRoom(h, now, p) {
      if p < |pages| { assert p !in chain; }
    }
  }

  lemma EmptyList(h: Header, pages: seq<RmPage>, chain: seq<nat>)
    requires FreeListOk(h, pages, chain) && h.firstFreePage == NO_FREE_PAGES
    ensures chain == []
  {}

  /** The list does not change when a page that is, and stays, on it or off it changes. */
  lemma ListSame(h: Header, pages: seq<RmPage>, chain: seq<nat>, p: nat, q: RmPage)
    requires FreeListOk(h, pages, chain) && 0 < p < |pages| && q.nextFreePage == pages[p].nextFreePage
    requires q.numRecords == h.numRecordsPerPage <==> pages[p].numRecords == h.numRecordsPerPage
    ensures FreeListOk(h, pages[p := q], chain)
  {
    forall x: nat ensures HasRoom(h, pages[p := q], x) <==> HasRoom(h, pages, x) {}
  }

  /** The first page of the list fills up and leaves it. */
  lemma ListPop(h: Header, pages: seq<RmPage>, chain: seq<nat>, q: RmPage)
    requires FreeListOk(h, pages, chain) && chain != [] && chain[0] < |pages| && q.numRecords == h.numRecordsPerPage
    ensures FreeListOk(h.(firstFreePage := pages[chain[0]].nextFreePage), pages[chain[0] := q], chain[1..])
  {
    var p := chain[0];
    var rest := chain[1..];
    var now := pages[p := q];
    assert HasRoom(h, pages, p);
    forall x: nat ensures x in rest <==> HasRoom(h, now, x) {
      assert x in rest <==> x in chain && x != p by {
        if x in chain && x != p { var i :| 0 <= i < |chain| && chain[i] == x; assert rest[i - 1] == x; }
      }
    }
    forall i: nat | i < |rest| && rest[i] < |now| ensures now[rest[i]].nextFreePage == NextInList(rest, i + 1) {
      assert rest[i] == chain[i + 1] != p;
    }
  }

  /** A full page loses a record and becomes the first of the list. */
  lemma ListPush(h: Header, pages: seq<RmPage>, chain: seq<nat>, p: nat, q: RmPage)
    requires FreeListOk(h, pages, chain) && 0 < p < |pages| && pages[p].numRecords == h.numRecordsPerPage
    requires q.numRecords != h.numRecordsPerPage && q.nextFreePage == h.firstFreePage
    ensures FreeListOk(h.(firstFreePage := p), pages[p := q], [p] + chain)
  {
    var now := pages[p := q];
    var list := [p] + chain;
    assert p !in chain;
    forall x: nat ensures x in list <==> HasRoom(h, now, x) {
      assert x in list <==> x == p || x in chain;
    }
    forall i: nat | i < |list| && list[i] < |now| ensures now[list[i]].nextFreePage == NextInList(list, i + 1) {
      if i > 0 { assert list[i] == chain[i - 1] != p; }
    }
  }

  // ----- the file handle

  class FileHandle {
    var openedFH: bool
    var header: Header
    var pages: seq<RmPage>             // the pages as the buffer pool gives them
    var stored: Header                 // the header on page 0
    var headerModified: bool
    ghost var chain: seq<nat>

    /** Nothing sets headerModified, so the stored header stays as it was made. */
    ghost predicate StoredSame()
      reads this
    {
      !headerModified && SameLayout(header, stored) && stored.firstFreePage == NO_FREE_PAGES
    }

    ghost predicate Valid()
      reads this
    {
      PagesOk(header, pages) && FreeListOk(header, pages, chain) && StoredSame()
    }

    /** A file as CreateFile leaves it, opened. */
    constructor (h: Header, page: RmPage)
      requires LayoutOk(h) && h.numPages == 1 && h.firstFreePage == NO_FREE_PAGES
      ensures Valid() && openedFH && Records() == imap[]
    {
      openedFH, headerModified := true, false;
      header, stored, pages, chain := h, h, [page], [];
    }

    /** CloseFile, then OpenFile: the header is the stored one again. Every record is still there, but the list of pages
        with room is in order exactly when there is no such page. */
    method Reopen()
      requires Valid() && openedFH
      modifies this`openedFH, this`header, this`stored
      ensures openedFH == IsValidFileHeader(header) && header == stored == old(stored)
      ensures PagesOk(header, pages) && Records() == old(Records())
      ensures (exists c: seq<nat> :: FreeListOk(header, pages, c)) <==> forall p: nat :: !HasRoom(header, pages, p)
    {
      ghost var h := header;
      var rc := CloseFile();
      rc := OpenFile();
      Reopened(h, header, pages);
    }

    method CloseFile() returns (rc: Rc)
      modifies this`openedFH, this`stored
      ensures rc.Ok? <==> old(openedFH)
      ensures !openedFH && stored == if rc.Ok? && headerModified then header else old(stored)
    {
      if !openedFH {
        return InvalidFile;
      }
      if headerModified {
        stored := header;
      }
      openedFH := false;
      rc := Ok;
    }

    method OpenFile() returns (rc: Rc)
      requires !openedFH
      modifies this`openedFH, this`header
      ensures header == stored && openedFH == IsValidFileHeader(stored) && (rc.Ok? <==> openedFH)
    {
      header := stored;
      openedFH := IsValidFileHeader(header);
      rc := if openedFH then Ok else InvalidFile;
    }

    ghost function Records(): imap<Rid, seq<Byte>>
      reads this
    {
      Contents(header, pages)
    }

    /** The first clear bit among the first size bits. */
    static method GetFirstZeroBit(bitmap: Body, size: nat) returns (rc: Rc, location: nat)
      requires size <= 8 * BODY
      ensures rc.Ok? ==> location < size && !BitSet(bitmap, location) && forall i: nat :: i < location ==> BitSet(bitmap, i)
      ensures !rc.Ok? ==> rc.PageFull? && forall i: nat :: i < size ==> BitSet(bitmap, i)
    {
      hide BitSet;
      location := 0;
      while location < size
        invariant location <= size && forall i: nat :: i < location ==> BitSet(bitmap, i)
      {
        if !BitSet(bitmap, location) {
          return Ok, location;
        }
        location := location + 1;
      }
      rc := PageFull;
    }

    /** CheckBitSet: the bit, for a number that may be as large as the size. */
    static function CheckBitSet(bitmap: Body, size: int, bitnum: int): (r: (Rc, bool))
      requires 0 <= bitnum && size < 8 * BODY
      ensures r.0.Ok? <==> bitnum <= size
    {
      if bitnum > size then (InvalidBitOperation, false) else (Ok, BitSet(bitmap, bitnum))
    }

    /** Look a record up. A slot number beyond the last slot's successor is an invalid bit operation. */
    method GetRec(rid: Rid, fault: bool) returns (rc: Rc, data: seq<Byte>)
      requires Valid()
      ensures Answered(header, pages, openedFH, rid, fault, rc)
      ensures rc.Ok? ==> rid in Records() && data == Records()[rid]
      ensures openedFH && !fault && rid in Records() ==> rc.Ok?
    {
      var found;
      rc, found := Locate(rid, fault);
      data := [];
      if rc.Ok? {
        data := Record(header, pages[rid.page], rid.slot);
      }
    }

    /** The steps GetRec, DeleteRec and UpdateRec share: the page of rid and whether its slot is in use. */
    method Locate(rid: Rid, fault: bool) returns (rc: Rc, found: bool)
      requires Valid()
      ensures found <==> rc.Ok?
      ensures Answered(header, pages, openedFH, rid, fault, rc)
      ensures rc.Ok? ==> openedFH && !fault && HasRec(header, pages, rid)
      ensures openedFH && !fault && HasRec(header, pages, rid) ==> rc.Ok?
      ensures rc.Overrun? <==> openedFH && !fault && PhantomAt(header, pages, rid)
    {
      found := false;
      if !openedFH {
        return InvalidFile, false;
      }
      if !(rid.page > 0 && rid.slot >= 0) {
        return InvalidRid, false;
      }
      if fault || rid.page >= |pages| {
        return PageError, false;
      }
      PastLast(header);
      assert header.numRecordsPerPage < 8 * BODY;
      var (bit, used) := CheckBitSet(pages[rid.page].body, header.numRecordsPerPage, rid.slot);
      if !bit.Ok? {
        return bit, false;
      }
      if !used {
        return InvalidRecord, false;
      }
      if rid.slot == header.numRecordsPerPage {
        return Overrun, false;
      }
      SlotOk(header, rid.slot);
      return Ok, true;
    }

    /** AllocateNewPage: an empty page, first of the list, which was empty. */
    method AllocateNewPage() returns (page: nat)
      requires Valid() && header.firstFreePage == NO_FREE_PAGES
      modifies this`header, this`pages, this`chain
      ensures Valid() && page == |old(pages)| && chain == [page] && header.firstFreePage == page && SameLayout(old(header), header)
      ensures |pages| == |old(pages)| + 1 && Records() == old(Records()) && header.numPages == old(header).numPages + 1
    {
      hide FreeListOk, Contents, PageOk, SameLayout;
      ghost var h := header;
      ghost var was := pages;
      page := |pages|;
      var blank := RmPage(header.firstFreePage, 0, seq(BODY, _ => 0));
      AllocStep(h, was, chain, blank, stored);
      pages := pages + [blank];
      header := header.(numPages := header.numPages + 1);
      header := header.(firstFreePage := page);
      chain := [page];
    }

    /** Insert a record: a new identifier now maps to the bytes and everything else is as it was. Pages do not fail to have
        room; a fault is the page file's. */
    method InsertRec(data: seq<Byte>, fault: bool) returns (rc: Rc, rid: Rid)
      requires Valid() && |data| == header.recordSize
      modifies this`header, this`pages, this`chain
      ensures Valid() && SameLayout(old(header), header)
      ensures rc == if !openedFH then InvalidFile else if fault then PageError else Ok
      ensures !rc.Ok? ==> unchanged(this)
      ensures rc.Ok? ==> rid !in old(Records()) && Records() == old(Records())[rid := data]
      ensures rc.Ok? ==> rid.page == if old(header).firstFreePage == NO_FREE_PAGES then |old(pages)| else old(header).firstFreePage
      ensures rc.Ok? ==> forall s :: 0 <= s < rid.slot ==> Rid(rid.page, s) in old(Records())
      ensures rc.Ok? ==>
                0 < rid.page < |pages| &&
                var c := if old(chain) == [] then [rid.page] else old(chain);
                chain == if pages[rid.page].numRecords == header.numRecordsPerPage then c[1..] else c
    {
      hide BitSet, Stored, FreeListOk, Contents, Rm.Holds, PageOk;
      rid := Rid(0, 0);
      if !openedFH {
        return InvalidFile, rid;
      }
      if fault {
        return PageError, rid;
      }
      var page := header.firstFreePage;
      FirstHasRoom(header, pages, chain);
      if header.firstFreePage == NO_FREE_PAGES {
        EmptyList(header, pages, chain);
        page := AllocateNewPage();
        FirstHasRoom(header, pages, chain);
      }
      RoomForBits(header, pages[page]);
      var bit, slot := GetFirstZeroBit(pages[page].body, header.numRecordsPerPage);
      ghost var h := header;
      ghost var was := pages;
      StoreStep(h, was, chain, page, slot, data);
      TakenBelow(h, was, page, slot);
      var q := Stored(header, pages[page], slot, data);
      pages := pages[page := q];
      rid := Rid(page, slot);
      if q.numRecords == header.numRecordsPerPage {
        header := header.(firstFreePage := q.nextFreePage);
        chain := chain[1..];
      }
      rc := Ok;
    }

    /** Delete a record. With the slot past the last one, a set bit of the first record is taken for a record, and the
        page's count goes wrong: the file stays in order for every other identifier, and only for those. */
    method DeleteRec(rid: Rid, fault: bool) returns (rc: Rc)
      requires Valid()
      modifies this`header, this`pages, this`chain
      ensures rc.Ok? <==> openedFH && !fault && rid in old(Records())
      ensures rc.Ok? ==> Records() == imap r: Rid | r in old(Records()) && r != rid :: old(Records())[r]
      ensures rc.Ok? ==>
                0 < rid.page < |old(pages)| &&
                chain == if old(pages)[rid.page].numRecords == old(header).numRecordsPerPage then [rid.page] + old(chain) else old(chain)
      ensures !rc.Ok? && !rc.Overrun? ==> unchanged(this)
      ensures Valid() <==> !rc.Overrun?
      ensures Answered(old(header), old(pages), openedFH, rid, fault, rc)
      ensures rc.Overrun? ==>
                var q := Removed(old(pages)[rid.page], rid.slot);
                if q.numRecords == old(header).numRecordsPerPage - 1
                then header == old(header).(firstFreePage := rid.page) &&
                     pages == old(pages)[rid.page := q.(nextFreePage := old(header).firstFreePage)]
                else header == old(header) && pages == old(pages)[rid.page := q]
    {
      hide BitSet, FreeListOk, Contents, Removed, ClearBit;
      ghost var h := header;
      ghost var was := pages;
      ContentsIff(h, was, rid);
      var found;
      rc, found := Locate(rid, fault);
      if found {
        RemoveStep(h, was, chain, rid);
        var q := Removed(pages[rid.page], rid.slot);
        if q.numRecords == header.numRecordsPerPage - 1 {
          q := q.(nextFreePage := header.firstFreePage);
          header := header.(firstFreePage := rid.page);
          chain := [rid.page] + chain;
        }
        pages := pages[rid.page := q];
      } else if rc.Overrun? {
        PhantomBit(h, was, rid);
        var q := Removed(pages[rid.page], rid.slot);
        if q.numRecords == header.numRecordsPerPage - 1 {
          q := q.(nextFreePage := header.firstFreePage);
          header := header.(firstFreePage := rid.page);
        }
        PhantomRemoved(h, was, rid, header, q);
        pages := pages[rid.page := q];
      }
    }

    /** Replace the bytes of a record. */
    method UpdateRec(rid: Rid, data: seq<Byte>, fault: bool) returns (rc: Rc)
      requires Valid() && |data| == header.recordSize
      modifies this`pages
      ensures Valid()
      ensures rc.Ok? <==> openedFH && !fault && rid in old(Records())
      ensures Records() == if rc.Ok? then old(Records())[rid := data] else old(Records())
      ensures Answered(header, old(pages), openedFH, rid, fault, rc)
    {
      hide BitSet, FreeListOk, Contents, Replaced;
      ContentsIff(header, pages, rid);
      var found;
      rc, found := Locate(rid, fault);
      if found {
        ReplaceStep(header, pages, chain, rid, data);
        pages := pages[rid.page := Replaced(header, pages[rid.page], rid.slot, data)];
      }
    }
  }

  /** A file whose list is lost: one page with room, as AllocateNewPage makes it. In the open handle the list holds it; in
      the header that is stored, and comes back, no list does. */
  lemma ReopenLoses(h: Header)
    requires LayoutOk(h) && h.firstFreePage == NO_FREE_PAGES
    ensures var pages := [EmptyPage(), EmptyPage()];
            PagesOk(h, pages) && FreeListOk(h.(firstFreePage := 1), pages, [1]) && forall c: seq<nat> :: !FreeListOk(h, pages, c)
  {
    hide PageOk;
    EmptyPageOk(h);
    var pages := [EmptyPage(), EmptyPage()];
    forall p: nat ensures p in [1] <==> HasRoom(h, pages, p) {}
    assert HasRoom(h, pages, 1);
    Reopened(h, h, pages);
  }

  lemma Reopened(h: Header, g: Header, pages: seq<RmPage>)
    requires PagesOk(h, pages) && SameLayout(h, g) && g.firstFreePage == NO_FREE_PAGES
    ensures PagesOk(g, pages) && Contents(g, pages) == Contents(h, pages)
    ensures (exists c: seq<nat> :: FreeListOk(g, pages, c)) <==> forall p: nat :: !HasRoom(g, pages, p)
  {
    hide PageOk;
    forall p: nat | 0 < p < |pages| ensures PageOk(g, pages[p]) { SameLayoutOk(h, g, pages[p]); }
    forall r: Rid ensures HasRec(g, pages, r) <==> HasRec(h, pages, r) {}
    if exists c: seq<nat> :: FreeListOk(g, pages, c) {
      var c: seq<nat> :| FreeListOk(g, pages, c);
      EmptyList(g, pages, c);
      forall p: nat ensures !HasRoom(g, pages, p) { assert p !in c; }
    }
    if forall p: nat :: !HasRoom(g, pages, p) {
      assert FreeListOk(g, pages, []);
    }
  }

  lemma ContentsIff(h: Header, pages: seq<RmPage>, rid: Rid)
    ensures rid in Contents(h, pages) <==> HasRec(h, pages, rid)
  {}

  lemma FirstHasRoom(h: Header, pages: seq<RmPage>, chain: seq<nat>)
    requires FreeListOk(h, pages, chain) && PagesOk(h, pages)
    ensures h.firstFreePage != NO_FREE_PAGES ==>
      chain != [] && chain[0] == h.firstFreePage && HasRoom(h, pages, chain[0]) && PageOk(h, pages[chain[0]])
  {
    if chain != [] { assert chain[0] in chain; }
  }

  lemma RoomForBits(h: Header, p: RmPage)
    requires PageOk(h, p) && p.numRecords != h.numRecordsPerPage
    ensures 0 < h.numRecordsPerPage <= 8 * BODY
    ensures exists i: nat :: i < h.numRecordsPerPage && !BitSet(p.body, i)
  {
    CountAll(p.body, h.numRecordsPerPage);
  }

  lemma AllocStep(h: Header, pages: seq<RmPage>, chain: seq<nat>, page: RmPage, stored: Header)
    requires PagesOk(h, pages) && FreeListOk(h, pages, chain) && h.firstFreePage == NO_FREE_PAGES && SameLayout(h, stored)
    requires page.nextFreePage == NO_FREE_PAGES && page.numRecords == 0 && forall k :: 0 <= k < BODY ==> page.body[k] == 0
    ensures var g := h.(firstFreePage := |pages|, numPages := h.numPages + 1);
            SameLayout(h, g) && SameLayout(g, stored) && PagesOk(g, pages + [page]) && FreeListOk(g, pages + [page], [|pages|]) &&
            Contents(g, pages + [page]) == Contents(h, pages)
  {
    var g := h.(firstFreePage := |pages|, numPages := h.numPages + 1);
    hide FreeListOk, Contents, PageOk;
    NewPage(h, pages, g, page);
    EmptyList(h, pages, chain);
    ListNew(h, pages, chain, page);
  }

  /** The slots below the first clear bit hold records. */
  lemma TakenBelow(h: Header, pages: seq<RmPage>, p: nat, slot: nat)
    requires LayoutOk(h) && 0 < p < |pages| && slot < h.numRecordsPerPage <= 8 * BODY
    requires forall i: nat :: i < slot ==> BitSet(pages[p].body, i)
    ensures forall s :: 0 <= s < slot ==> Rid(p, s) in Contents(h, pages)
  {
    hide BitSet;
    forall s | 0 <= s < slot ensures Rid(p, s) in Contents(h, pages) {
      SlotOk(h, s);
      assert Rm.Holds(h, pages[p], s);
      ContentsIff(h, pages, Rid(p, s));
    }
  }

  /** Storing a record in the first page of the list. */
  lemma StoreStep(h: Header, pages: seq<RmPage>, chain: seq<nat>, p: nat, s: nat, data: seq<Byte>)
    requires PagesOk(h, pages) && FreeListOk(h, pages, chain) && chain != [] && p == chain[0] && HasRoom(h, pages, p)
    requires s < h.numRecordsPerPage <= 8 * BODY && !BitSet(pages[p].body, s) && |data| == h.recordSize
    ensures SlotFits(h, s)
    ensures var q := Stored(h, pages[p], s, data);
            var g := if q.numRecords == h.numRecordsPerPage then h.(firstFreePage := q.nextFreePage) else h;
            PagesOk(g, pages[p := q]) && Rid(p, s) !in Contents(h, pages) &&
            FreeListOk(g, pages[p := q], if q.numRecords == h.numRecordsPerPage then chain[1..] else chain) &&
            Contents(g, pages[p := q]) == Contents(h, pages)[Rid(p, s) := data]
  {
    assert PageOk(h, pages[p]);
    StoredOk(h, pages[p], s, data);
    var q := Stored(h, pages[p], s, data);
    assert q.nextFreePage == pages[p].nextFreePage;
    hide BitSet, Stored;
    ContentsIff(h, pages, Rid(p, s));
    var g := if q.numRecords == h.numRecordsPerPage then h.(firstFreePage := q.nextFreePage) else h;
    if q.numRecords == h.numRecordsPerPage {
      ListPop(h, pages, chain, q);
    } else {
      ListSame(h, pages, chain, p, q);
    }
    SameLayoutOk(h, g, q);
    PagesStep(h, pages, g, p, q);
    OneSlot(h, pages, g, pages[p := q], Rid(p, s));
  }

  lemma SameLayoutOk(h: Header, g: Header, q: RmPage)
    requires SameLayout(h, g) && PageOk(h, q)
    ensures PageOk(g, q)
  {}

  lemma PagesStep(h: Header, pages: seq<RmPage>, g: Header, p: nat, q: RmPage)
    requires SameLayout(h, g) && PagesOk(h, pages) && 0 < p < |pages| && PageOk(g, q)
    ensures PagesOk(g, pages[p := q])
  {
    hide PageOk;
    forall x: nat | 0 < x < |pages| && x != p ensures PageOk(g, pages[x]) {
      SameLayoutOk(h, g, pages[x]);
    }
  }

  /** Removing a record. */
  lemma RemoveStep(h: Header, pages: seq<RmPage>, chain: seq<nat>, rid: Rid)
    requires PagesOk(h, pages) && FreeListOk(h, pages, chain) && HasRec(h, pages, rid)
    ensures var r := Removed(pages[rid.page], rid.slot);
            var full := r.numRecords == h.numRecordsPerPage - 1;
            var q := if full then r.(nextFreePage := h.firstFreePage) else r;
            var g := if full then h.(firstFreePage := rid.page) else h;
            r.numRecords == pages[rid.page].numRecords - 1 &&
            PagesOk(g, pages[rid.page := q]) && FreeListOk(g, pages[rid.page := q], if full then [rid.page] + chain else chain) &&
            Contents(g, pages[rid.page := q]) == imap x: Rid | x in Contents(h, pages) && x != rid :: Contents(h, pages)[x]
  {
    var p: nat := rid.page;
    assert PageOk(h, pages[p]);
    RemovedOk(h, pages[p], rid.slot);
    var r := Removed(pages[p], rid.slot);
    assert r.numRecords == pages[p].numRecords - 1 && r.nextFreePage == pages[p].nextFreePage;
    hide BitSet, Removed;
    var full := r.numRecords == h.numRecordsPerPage - 1;
    var q := if full then r.(nextFreePage := h.firstFreePage) else r;
    var g := if full then h.(firstFreePage := rid.page) else h;
    if full {
      ListPush(h, pages, chain, p, q);
    } else {
      assert pages[p].numRecords <= h.numRecordsPerPage;
      ListSame(h, pages, chain, p, q);
    }
    assert PageOk(h, q);
    SameLayoutOk(h, g, q);
    PagesStep(h, pages, g, p, q);
    OneSlot(h, pages, g, pages[p := q], rid);
  }

  lemma ReplaceStep(h: Header, pages: seq<RmPage>, chain: seq<nat>, rid: Rid, data: seq<Byte>)
    requires PagesOk(h, pages) && FreeListOk(h, pages, chain) && HasRec(h, pages, rid) && |data| == h.recordSize
    ensures var q := Replaced(h, pages[rid.page], rid.slot, data);
            PagesOk(h, pages[rid.page := q]) && FreeListOk(h, pages[rid.page := q], chain) &&
            Contents(h, pages[rid.page := q]) == Contents(h, pages)[rid := data]
  {
    var p: nat := rid.page;
    assert PageOk(h, pages[p]);
    ReplacedOk(h, pages[p], rid.slot, data);
    var q := Replaced(h, pages[p], rid.slot, data);
    assert q.numRecords == pages[p].numRecords && q.nextFreePage == pages[p].nextFreePage;
    hide BitSet, Replaced;
    ListSame(h, pages, chain, p, q);
    PagesStep(h, pages, h, p, q);
    OneSlot(h, pages, h, pages[p := q], rid);
  }

  lemma PhantomBit(h: Header, pages: seq<RmPage>, rid: Rid)
    requires PhantomAt(h, pages, rid)
    ensures 0 <= rid.slot && rid.slot / 8 < BODY
  {}

  /** Taking the slot past the last one for a record spoils the page's count. */
  lemma PhantomRemoved(h: Header, pages: seq<RmPage>, rid: Rid, g: Header, q: RmPage)
    requires PagesOk(h, pages) && PhantomAt(h, pages, rid) && SameLayout(h, g) && rid.slot / 8 < BODY
    requires q.body == Removed(pages[rid.page], rid.slot).body && q.numRecords == Removed(pages[rid.page], rid.slot).numRecords
    ensures !PagesOk(g, pages[rid.page := q])
  {
    var p := pages[rid.page];
    forall i: nat | i < h.numRecordsPerPage ensures BitSet(q.body, i) <==> BitSet(p.body, i) {
      BitUpdate(p.body, rid.slot, i);
    }
    hide BitSet;
    assert PageOk(h, p);
    CountChange(p.body, q.body, h.numRecordsPerPage, rid.slot);
    assert !PageOk(g, q);
    assert pages[rid.page := q][rid.page] == q;
  }
}
