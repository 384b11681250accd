/** Scans of a record file (rm_filescan.cc, and GetNextRecord of rm_filehandle.cc) while the file does not change. */
module RmScan {
  import opened Blocks
  import opened Seqs
  import opened Rm
  import opened RmFile

  const BEGIN_SCAN: int := -1

  /** The records of page p from slot s on, in order. */
  ghost function PageRids(h: Header, page: RmPage, p: nat, s: nat): seq<Rid>
    decreases h.numRecordsPerPage - s
  {
    if s >= h.numRecordsPerPage then []
    else (if Rm.Holds(h, page, s) then [Rid(p, s)] else []) + PageRids(h, page, p, s + 1)
  }

  /** The records of the pages from p on, in order. */
  ghost function FileRids(h: Header, pages: seq<RmPage>, p: nat): seq<Rid>
    decreases |pages| - p
  {
    if p >= |pages| then [] else PageRids(h, pages[p], p, 0) + FileRids(h, pages, p + 1)
  }

  ghost predicate Before(a: Rid, b: Rid) {
    a.page < b.page || (a.page == b.page && a.slot < b.slot)
  }

  ghost predicate Ascending(s: seq<Rid>) {
    forall i, j :: 0 <= i < j < |s| ==> Before(s[i], s[j])
  }

  lemma {:induction false} PageRidsIn(h: Header, page: RmPage, p: nat, s: nat, r: Rid)
    ensures r in PageRids(h, page, p, s) <==> r.page == p && s <= r.slot && Rm.Holds(h, page, r.slot)
    decreases h.numRecordsPerPage - s
  {
    if s < h.numRecordsPerPage { PageRidsIn(h, page, p, s + 1, r); }
  }

  lemma {:induction false} PageAscending(h: Header, page: RmPage, p: nat, s: nat)
    ensures Ascending(PageRids(h, page, p, s))
    decreases h.numRecordsPerPage - s
  {
    if s < h.numRecordsPerPage {
      PageAscending(h, page, p, s + 1);
      forall r | r in PageRids(h, page, p, s + 1) ensures Before(Rid(p, s), r) {
        PageRidsIn(h, page, p, s + 1, r);
      }
      hide Rm.Holds;
    }
  }

  lemma {:induction false} FileRidsIn(h: Header, pages: seq<RmPage>, p: nat, r: Rid)
    ensures r in FileRids(h, pages, p) <==> p <= r.page < |pages| && Rm.Holds(h, pages[r.page], r.slot)
    decreases |pages| - p
  {
    if p < |pages| {
      FileRidsIn(h, pages, p + 1, r);
      PageRidsIn(h, pages[p], p, 0, r);
    }
  }

  lemma {:induction false} FileAscending(h: Header, pages: seq<RmPage>, p: nat)
    ensures Ascending(FileRids(h, pages, p))
    decreases |pages| - p
  {
    if p < |pages| {
      FileAscending(h, pages, p + 1);
      PageAscending(h, pages[p], p, 0);
      forall a, b | a in PageRids(h, pages[p], p, 0) && b in FileRids(h, pages, p + 1) ensures Before(a, b) {
        PageRidsIn(h, pages[p], p, 0, a);
        FileRidsIn(h, pages, p + 1, b);
      }
      AscendingJoin(PageRids(h, pages[p], p, 0), FileRids(h, pages, p + 1));
    }
  }

  lemma AscendingJoin(a: seq<Rid>, b: seq<Rid>)
    requires Ascending(a) && Ascending(b) && forall x, y :: x in a && y in b ==> Before(x, y)
    ensures Ascending(a + b)
  {
    forall i, j | 0 <= i < j < |a| + |b| ensures Before((a + b)[i], (a + b)[j]) {
      if i < |a| <= j { assert a[i] in a && b[j - |a|] in b; }
    }
  }

  /** The order of a scan: every record of the file, once, by page and slot. */
  lemma ScanOrder(h: Header, pages: seq<RmPage>)
    requires PagesOk(h, pages)
    ensures Ascending(FileRids(h, pages, 1)) && NoDup(FileRids(h, pages, 1))
    ensures forall r: Rid :: r in FileRids(h, pages, 1) <==> r in Contents(h, pages)
  {
    FileAscending(h, pages, 1);
    forall r: Rid ensures r in FileRids(h, pages, 1) <==> r in Contents(h, pages) {
      FileRidsIn(h, pages, 1, r);
      ContentsIff(h, pages, r);
      if Rm.Holds(h, if 0 <= r.page < |pages| then pages[r.page] else pages[0], r.slot) { SlotOk(h, r.slot); }
    }
  }

  /** The records that are left on a page are counted by the bits that are left. */
  lemma {:induction false} PageCount(h: Header, page: RmPage, p: nat, s: nat)
    requires LayoutOk(h) && h.numRecordsPerPage <= 8 * BODY && s <= h.numRecordsPerPage
    ensures CountBits(page.body, s) + |PageRids(h, page, p, s)| == CountBits(page.body, h.numRecordsPerPage)
    decreases h.numRecordsPerPage - s
  {
    if s < h.numRecordsPerPage {
      PageCount(h, page, p, s + 1);
      assert Rm.Holds(h, page, s) <==> BitSet(page.body, s);
      hide BitSet;
    }
  }

  // ----- one page, one record

  /** The first record at or after a slot. */
  lemma {:induction false} NextOnPage(h: Header, page: RmPage, p: nat, s: nat, t: nat)
    requires s <= t && forall i: nat :: s <= i < t ==> !Rm.Holds(h, page, i)
    ensures PageRids(h, page, p, s) == PageRids(h, page, p, t) || h.numRecordsPerPage <= t
    ensures h.numRecordsPerPage <= t ==> PageRids(h, page, p, s) == []
    decreases t - s
  {
    hide Rm.Holds;
    if s < t { NextOnPage(h, page, p, s + 1, t); }
  }

  class FileScan {
    const file: FileHandle
    const satisfies: seq<Byte> -> bool       // the comparison with the scan's value; constantly true without one
    var openScan: bool
    var scanEnded: bool
    var scanPage: int
    var scanSlot: int
    var useNextPage: bool
    var numRecOnPage: int
    var numSeenOnPage: int
    var hasPagePinned: bool
    var pinned: int                          // the page this scan has pinned in the pool, or -1
    ghost var todo: seq<Rid>                 // the records not looked at yet

    ghost predicate Valid()
      reads this, file
    {
      file.Valid() && openScan &&
      if scanEnded then todo == [] && pinned == -1 && !hasPagePinned
      else if useNextPage then
        0 <= scanPage && pinned == -1 && !hasPagePinned && todo == FileRids(file.header, file.pages, scanPage + 1)
      else
        pinned == scanPage && hasPagePinned && numRecOnPage != numSeenOnPage &&
        After(file.header, file.pages, Rid(scanPage, scanSlot), numRecOnPage - numSeenOnPage, todo)
    }

    /** OpenScan, for a comparison whose value and offsets are already checked. */
    constructor (f: FileHandle, cmp: seq<Byte> -> bool)
      requires f.Valid()
      ensures file == f && satisfies == cmp && Valid() && !scanEnded && todo == FileRids(f.header, f.pages, 1)
    {
      file, satisfies := f, cmp;
      openScan, scanEnded := true, false;
      numRecOnPage, numSeenOnPage := 0, 0;
      useNextPage := true;
      scanPage, scanSlot := 0, BEGIN_SCAN;
      hasPagePinned, pinned := false, -1;
      todo := FileRids(f.header, f.pages, 1);
    }

    /** GetNextOneBit: the first set bit from start on. */
    static method GetNextOneBit(bitmap: Body, size: nat, start: nat) returns (found: bool, location: nat)
      requires size <= 8 * BODY
      ensures found ==> start <= location < size && BitSet(bitmap, location)
      ensures found ==> forall i: nat :: start <= i < location ==> !BitSet(bitmap, i)
      ensures !found ==> forall i: nat :: start <= i < size ==> !BitSet(bitmap, i)
    {
      hide BitSet;
      location := start;
      while location < size
        invariant start <= location && (location <= size || location == start)
        invariant forall i: nat :: start <= i < location && i < size ==> !BitSet(bitmap, i)
        decreases size - location
      {
        if BitSet(bitmap, location) {
          return true, location;
        }
        location := location + 1;
      }
      found := false;
    }

    /** GetNextRecord on the following pages: those without records are unpinned again. */
    method NextPageRecord() returns (eof: bool, rid: Rid)
      requires file.Valid() && 0 <= scanPage && pinned == -1
      modifies this`pinned
      ensures eof ==> pinned == -1 && FileRids(file.header, file.pages, scanPage + 1) == []
      ensures !eof ==>
        scanPage < rid.page < |file.pages| && pinned == rid.page && HasRec(file.header, file.pages, rid) &&
        FileRids(file.header, file.pages, scanPage + 1) != [] && FileRids(file.header, file.pages, scanPage + 1)[0] == rid &&
        After(file.header, file.pages, rid, file.pages[rid.page].numRecords - 1, FileRids(file.header, file.pages, scanPage + 1)[1..])
    {
      hide BitSet, PageOk, FreeListOk, HasRec, After, FileRids, PageRids, LayoutOk;
      rid := Rid(0, 0);
      PastLast(file.header);
      BitsFit(file.header);
      NoneAfter(file.header, file.pages);
      var page: nat := scanPage + 1;
      while page < |file.pages|
        invariant scanPage < page && pinned == -1
        invariant FileRids(file.header, file.pages, scanPage + 1) == FileRids(file.header, file.pages, page)
        decreases |file.pages| - page
      {
        pinned := page;
        var found, slot := GetNextOneBit(file.pages[page].body, file.header.numRecordsPerPage, 0);
        if found {
          FoundOn(file.header, file.pages, page, slot);
          return false, Rid(page, slot);
        }
        NoneOn(file.header, file.pages, page);
        pinned := -1;
        page := page + 1;
      }
      eof := true;
    }

    /** GetNextRecord on the page the scan is on, where there is another record. */
    method SamePageRecord() returns (rid: Rid)
      requires file.Valid() && After(file.header, file.pages, Rid(scanPage, scanSlot), numRecOnPage - numSeenOnPage, todo)
      requires numRecOnPage != numSeenOnPage
      ensures rid.page == scanPage && HasRec(file.header, file.pages, rid) && todo != [] && todo[0] == rid
      ensures After(file.header, file.pages, rid, numRecOnPage - numSeenOnPage - 1, todo[1..])
    {
      hide BitSet, PageOk, FreeListOk, HasRec, FileRids, PageRids, LayoutOk;
      BitsFit(file.header);
      var found, slot := GetNextOneBit(file.pages[scanPage].body, file.header.numRecordsPerPage, scanSlot + 1);
      FoundAfter(file.header, file.pages, Rid(scanPage, scanSlot), numRecOnPage - numSeenOnPage, todo, found, slot);
      rid := Rid(scanPage, slot);
    }

    /** The next record that satisfies the condition; end of file when there is none. The scan keeps exactly the page it is
        on pinned, and every page it unpins is that one. */
    method GetNextRec() returns (rc: Rc, rid: Rid, data: seq<Byte>)
      requires openScan ==> Valid()
      modifies this
      ensures old(openScan) ==> Valid() && (rc.Ok? || rc.Eof?)
      ensures !old(openScan) ==> unchanged(this) && rc == if scanEnded then Eof else InvalidScan
      ensures rc.Ok? ==>
        rid in file.Records() && data == file.Records()[rid] && satisfies(data) && Skips(file.Records(), satisfies, old(todo), [rid] + todo)
      ensures old(openScan) && rc.Eof? ==> scanEnded && Skips(file.Records(), satisfies, old(todo), [])
    {
      hide HasRec, Contents, FreeListOk, PagesOk, FileRids, PageRids, Skips, After;
      rid, data := Rid(0, 0), [];
      ghost var all := todo;
      SkipsNothing(file.Records(), satisfies, all);
      if scanEnded {
        return Eof, rid, data;
      }
      if !openScan {
        return InvalidScan, rid, data;
      }
      while true
        invariant Valid() && !scanEnded && Skips(file.Records(), satisfies, all, todo)
        decreases |todo|
      {
        ghost var before := todo;
        var eof;
        eof, rid := NextRecord();
        if eof {
          scanEnded := true;
          return Eof, rid, data;
        }
        TheRecord(file.header, file.pages, rid);
        data := Record(file.header, file.pages[rid.page], rid.slot);
        if satisfies(data) {
          return Ok, rid, data;
        }
        SkipsOne(file.Records(), satisfies, all, before, rid, todo);
      }
    }

    /** One record further: the bookkeeping of GetNextRec around GetNextRecord. */
    method NextRecord() returns (eof: bool, rid: Rid)
      requires Valid() && !scanEnded
      modifies this
      ensures !scanEnded && openScan
      ensures eof ==> old(todo) == [] && todo == [] && pinned == -1 && !hasPagePinned
      ensures !eof ==> Valid() && old(todo) == [rid] + todo && HasRec(file.header, file.pages, rid)
    {
      hide FreeListOk, FileRids, PageRids, HasRec, PagesOk, After, FileHandle.StoredSame, FileHandle.Valid;
      if useNextPage {
        eof, rid := NextPageRecord();
        if eof {
          hasPagePinned := false;
          return;
        }
        hasPagePinned := true;
        numRecOnPage := file.pages[rid.page].numRecords;
        useNextPage := false;
        numSeenOnPage := 0;
        if numRecOnPage == 1 {
          scanPage := rid.page;
        }
      } else {
        eof := false;
        rid := SamePageRecord();
      }
      numSeenOnPage := numSeenOnPage + 1;
      if numRecOnPage == numSeenOnPage {
        LastOnPage(file.header, file.pages, rid, todo[1..]);
        useNextPage := true;
        assert pinned == scanPage;
        pinned := -1;
        hasPagePinned := false;
      }
      scanPage := rid.page;
      scanSlot := rid.slot;
      todo := todo[1..];
    }

    /** CloseScan: wherever the scan has stopped, no page of it stays pinned. */
    method CloseScan() returns (rc: Rc)
      requires openScan ==> Valid()
      modifies this`openScan, this`pinned
      ensures !openScan
      ensures old(openScan) ==> rc.Ok? && pinned == -1
      ensures !old(openScan) ==> rc.InvalidScan? && pinned == old(pinned)
    {
      if !openScan {
        return InvalidScan;
      }
      if hasPagePinned {
        assert pinned == scanPage;
        pinned := -1;
      }
      openScan := false;
      rc := Ok;
    }
  }

  /** rest is what remains of todo when some records, none satisfying the condition, are passed over. */
  ghost predicate Skips(records: imap<Rid, seq<Byte>>, satisfies: seq<Byte> -> bool, todo: seq<Rid>, rest: seq<Rid>) {
    |rest| <= |todo| && todo[|todo| - |rest|..] == rest &&
    forall i :: 0 <= i < |todo| - |rest| ==> todo[i] in records && !satisfies(records[todo[i]])
  }

  lemma SkipsNothing(records: imap<Rid, seq<Byte>>, satisfies: seq<Byte> -> bool, todo: seq<Rid>)
    ensures Skips(records, satisfies, todo, todo)
  {}

  lemma SkipsOne(records: imap<Rid, seq<Byte>>, satisfies: seq<Byte> -> bool, todo: seq<Rid>, before: seq<Rid>, rid: Rid, after: seq<Rid>)
    requires Skips(records, satisfies, todo, before) && before == [rid] + after && rid in records && !satisfies(records[rid])
    ensures Skips(records, satisfies, todo, after)
  {
    var k := |todo| - |before|;
    assert todo[k] == before[0];
    assert todo[k + 1..] == todo[k..][1..];
  }

  /** What GetNextOneBit found, as records of the page. */
  lemma NextFound(h: Header, page: RmPage, p: nat, start: nat, found: bool, slot: nat)
    requires LayoutOk(h) && h.numRecordsPerPage <= 8 * BODY
    requires found ==> start <= slot < h.numRecordsPerPage && BitSet(page.body, slot) && forall i: nat :: start <= i < slot ==> !BitSet(page.body, i)
    requires !found ==> forall i: nat :: start <= i < h.numRecordsPerPage ==> !BitSet(page.body, i)
    ensures found ==> Rm.Holds(h, page, slot) && PageRids(h, page, p, start) == [Rid(p, slot)] + PageRids(h, page, p, slot + 1)
    ensures !found ==> PageRids(h, page, p, start) == []
  {
    var t: nat := if found then slot else if start < h.numRecordsPerPage then h.numRecordsPerPage else start;
    forall i: nat | start <= i < t ensures !Rm.Holds(h, page, i) {}
    assert found ==> Rm.Holds(h, page, slot);
    hide BitSet, Rm.Holds, LayoutOk;
    NextOnPage(h, page, p, start, t);
  }

  /** todo is what comes after rid, left records of it on the same page. */
  ghost predicate After(h: Header, pages: seq<RmPage>, rid: Rid, left: int, todo: seq<Rid>) {
    0 < rid.page < |pages| && 0 <= rid.slot &&
    var rest := PageRids(h, pages[rid.page], rid.page, rid.slot + 1);
    todo == rest + FileRids(h, pages, rid.page + 1) && left == |rest|
  }

  lemma BitsFit(h: Header)
    requires LayoutOk(h)
    ensures 0 < h.numRecordsPerPage <= 8 * BODY
  {
    PastLast(h);
  }

  lemma NoneAfter(h: Header, pages: seq<RmPage>)
    ensures forall p: nat :: |pages| <= p ==> FileRids(h, pages, p) == []
  {}

  lemma NoneOn(h: Header, pages: seq<RmPage>, p: nat)
    requires PagesOk(h, pages) && p < |pages| && h.numRecordsPerPage <= 8 * BODY
    requires forall i: nat :: 0 <= i < h.numRecordsPerPage ==> !BitSet(pages[p].body, i)
    ensures FileRids(h, pages, p) == FileRids(h, pages, p + 1)
  {
    hide BitSet, LayoutOk, PageOk;
    NextFound(h, pages[p], p, 0, false, 0);
  }

  lemma FoundOn(h: Header, pages: seq<RmPage>, p: nat, slot: nat)
    requires PagesOk(h, pages) && 0 < p < |pages| && h.numRecordsPerPage <= 8 * BODY && slot < h.numRecordsPerPage
    requires BitSet(pages[p].body, slot) && forall i: nat :: 0 <= i < slot ==> !BitSet(pages[p].body, i)
    ensures HasRec(h, pages, Rid(p, slot)) && FileRids(h, pages, p) != [] && FileRids(h, pages, p)[0] == Rid(p, slot)
    ensures After(h, pages, Rid(p, slot), pages[p].numRecords - 1, FileRids(h, pages, p)[1..])
  {
    hide BitSet, Rm.Holds, FileRids, PageRids, PagesOk, LayoutOk, HasRec, PageOk;
    FoundFirst(h, pages, p, slot);
    Front(Rid(p, slot), PageRids(h, pages[p], p, slot + 1), FileRids(h, pages, p + 1));
  }

  lemma FoundFirst(h: Header, pages: seq<RmPage>, p: nat, slot: nat)
    requires PagesOk(h, pages) && 0 < p < |pages| && h.numRecordsPerPage <= 8 * BODY && slot < h.numRecordsPerPage
    requires BitSet(pages[p].body, slot) && forall i: nat :: 0 <= i < slot ==> !BitSet(pages[p].body, i)
    ensures HasRec(h, pages, Rid(p, slot)) && pages[p].numRecords == 1 + |PageRids(h, pages[p], p, slot + 1)|
    ensures FileRids(h, pages, p) == [Rid(p, slot)] + PageRids(h, pages[p], p, slot + 1) + FileRids(h, pages, p + 1)
  {
    hide BitSet, Rm.Holds, FileRids, PageRids, LayoutOk, HasRec, PageOk;
    NextFound(h, pages[p], p, 0, true, slot);
    RidHasRec(h, pages, Rid(p, slot));
    RecordsCounted(h, pages, p);
    FileUnfold(h, pages, p);
  }

  lemma RecordsCounted(h: Header, pages: seq<RmPage>, p: nat)
    requires PagesOk(h, pages) && 0 < p < |pages| && h.numRecordsPerPage <= 8 * BODY
    ensures pages[p].numRecords == |PageRids(h, pages[p], p, 0)|
  {
    hide BitSet;
    assert PageOk(h, pages[p]);
    PageCount(h, pages[p], p, 0);
  }

  lemma FileUnfold(h: Header, pages: seq<RmPage>, p: nat)
    requires p < |pages|
    ensures FileRids(h, pages, p) == PageRids(h, pages[p], p, 0) + FileRids(h, pages, p + 1)
  {}

  lemma Front(x: Rid, rest: seq<Rid>, more: seq<Rid>)
    ensures (([x] + rest) + more)[0] == x && (([x] + rest) + more)[1..] == rest + more
  {}

  lemma FoundAfter(h: Header, pages: seq<RmPage>, rid: Rid, left: int, todo: seq<Rid>, found: bool, slot: nat)
    requires PagesOk(h, pages) && After(h, pages, rid, left, todo) && left != 0 && h.numRecordsPerPage <= 8 * BODY
    requires found ==> rid.slot < slot < h.numRecordsPerPage && BitSet(pages[rid.page].body, slot)
    requires found ==> forall i: nat :: rid.slot + 1 <= i < slot ==> !BitSet(pages[rid.page].body, i)
    requires !found ==> forall i: nat :: rid.slot + 1 <= i < h.numRecordsPerPage ==> !BitSet(pages[rid.page].body, i)
    ensures found && HasRec(h, pages, Rid(rid.page, slot)) && todo != [] && todo[0] == Rid(rid.page, slot)
    ensures After(h, pages, Rid(rid.page, slot), left - 1, todo[1..])
  {
    hide BitSet, LayoutOk, Rm.Holds, PageOk;
    NextFound(h, pages[rid.page], rid.page, rid.slot + 1, found, slot);
    RidHasRec(h, pages, Rid(rid.page, slot));
    hide PageRids, FileRids;
    Front(Rid(rid.page, slot), PageRids(h, pages[rid.page], rid.page, slot + 1), FileRids(h, pages, rid.page + 1));
  }

  lemma LastOnPage(h: Header, pages: seq<RmPage>, rid: Rid, todo: seq<Rid>)
    requires After(h, pages, rid, 0, todo)
    ensures 0 < rid.page && todo == FileRids(h, pages, rid.page + 1)
  {}

  lemma TheRecord(h: Header, pages: seq<RmPage>, rid: Rid)
    requires HasRec(h, pages, rid)
    ensures 0 < rid.page < |pages| && SlotFits(h, rid.slot)
    ensures rid in Contents(h, pages) && Contents(h, pages)[rid] == Record(h, pages[rid.page], rid.slot)
  {}

  lemma RidHasRec(h: Header, pages: seq<RmPage>, rid: Rid)
    requires PagesOk(h, pages) && 0 < rid.page < |pages| && 0 <= rid.slot && Rm.Holds(h, pages[rid.page], rid.slot)
    ensures HasRec(h, pages, rid) && rid in Contents(h, pages) && Contents(h, pages)[rid] == Record(h, pages[rid.page], rid.slot)
  {
    SlotOk(h, rid.slot);
  }
}
