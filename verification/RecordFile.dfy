/** A table file: pages of fixed-size slots, a bitmap and a count per page, and a list of pages with room. */
module RecordFile {
  import opened Basics
  import opened Bytes

  datatype Page = Page(next: int, num: int, bits: seq<bool>, slots: seq<bytes>)

  // ------------------------------------------------------------- page layout

  const PAGE_SIZE: int := 4096
  const FILE_HEADER_SIZE: int := 20
  const SLOTS_START: int := 12        // log number, then the two fields of the page header
  const MAX_RECORD_SIZE: int := 512

  function PerPage(size: int): int
    requires size > 0
  {
    (8 * (PAGE_SIZE - 1 - FILE_HEADER_SIZE) + 1) / (1 + size * 8)
  }

  function BitmapSize(n: int): int {
    (n + 7) / 8
  }

  function SlotOffset(size: int, n: int, slot: int): int {
    SLOTS_START + BitmapSize(n) + slot * size
  }

  /** For every admitted record size a page holds several records, its bitmap has a bit for each, and the slots
      lie behind the bitmap, inside the page, without overlap; one record more would exceed the space that is set aside
      for bitmap bits and records. */
  lemma {:induction false} LayoutFits(size: int, i: int, j: int)
    requires 1 <= size <= MAX_RECORD_SIZE && 0 <= i < j < PerPage(size)
    ensures PerPage(size) >= 7 && PerPage(size) <= 8 * BitmapSize(PerPage(size))
    ensures SLOTS_START + BitmapSize(PerPage(size)) <= SlotOffset(size, PerPage(size), i)
    ensures SlotOffset(size, PerPage(size), i) + size <= SlotOffset(size, PerPage(size), j)
    ensures SlotOffset(size, PerPage(size), j) + size <= PAGE_SIZE
    ensures (PerPage(size) + 1) * (1 + size * 8) > 8 * (PAGE_SIZE - 1 - FILE_HEADER_SIZE) + 1
  {
    hide PerPage;
    PerPageBounds(size);
    Fit(PerPage(size), size);
    Rows(size, i + 1, j);
    Rows(size, j + 1, PerPage(size));
    Rows(size, 0, i);
  }

  lemma {:induction false} Rows(size: int, i: int, j: int)
    requires i <= j && size >= 0
    ensures i * size <= j * size && (i + 1) * size == i * size + size
    ensures i > 0 ==> i * size == (i - 1) * size + size
  {
  }

  lemma {:induction false} Fit(n: int, size: int)
    requires n >= 0 && n * (1 + size * 8) <= 8 * (PAGE_SIZE - 1 - FILE_HEADER_SIZE) + 1
    ensures SLOTS_START + BitmapSize(n) + n * size <= PAGE_SIZE && n <= 8 * BitmapSize(n)
  {
    assert n * (1 + size * 8) == n + 8 * (n * size);
  }

  lemma {:induction false} PerPageBounds(size: int)
    requires 1 <= size <= MAX_RECORD_SIZE
    ensures PerPage(size) * (1 + size * 8) <= 8 * (PAGE_SIZE - 1 - FILE_HEADER_SIZE) + 1 && PerPage(size) >= 7
    ensures (PerPage(size) + 1) * (1 + size * 8) > 8 * (PAGE_SIZE - 1 - FILE_HEADER_SIZE) + 1
  {
    var d, q, c := 1 + size * 8, PerPage(size), 8 * (PAGE_SIZE - 1 - FILE_HEADER_SIZE) + 1;
    assert c == q * d + c % d;
    assert 7 * d < (q + 1) * d;
  }

  // ------------------------------------------------------------- pages

  ghost function Count(bits: seq<bool>): nat {
    if |bits| == 0 then 0 else Count(bits[..|bits| - 1]) + if bits[|bits| - 1] then 1 else 0
  }

  lemma {:induction false} CountSet(bits: seq<bool>, i: int, b: bool)
    requires 0 <= i < |bits|
    ensures Count(bits[i := b]) == Count(bits) + (if b then 1 else 0) - (if bits[i] then 1 else 0)
  {
    var n := |bits| - 1;
    if i == n {
      assert bits[i := b][..n] == bits[..n];
    } else {
      CountSet(bits[..n], i, b);
      assert bits[i := b][..n] == bits[..n][i := b];
    }
  }

  lemma {:induction false} CountAll(bits: seq<bool>)
    ensures Count(bits) <= |bits|
    ensures Count(bits) == |bits| <==> forall i :: 0 <= i < |bits| ==> bits[i]
    ensures Count(bits) == 0 <==> forall i :: 0 <= i < |bits| ==> !bits[i]
  {
    if |bits| > 0 {
      CountAll(bits[..|bits| - 1]);
    }
  }

  /** The count is the number of set bits, and a full page has no successor. */
  ghost predicate PageOk(p: Page, perPage: int) {
    |p.bits| == |p.slots| == perPage && p.num == Count(p.bits) && (p.num == perPage ==> p.next == NO_PAGE)
  }

  ghost predicate PagesOk(pages: seq<Page>, perPage: int) {
    perPage > 0 && |pages| > 0 && forall i :: 0 < i < |pages| ==> PageOk(pages[i], perPage)
  }

  /** The pages linked from `first` are `list`: each exists, has room, and occurs once. */
  ghost predicate Linked(pages: seq<Page>, perPage: int, first: int, list: seq<int>) {
    && first == (if |list| == 0 then NO_PAGE else list[0])
    && (forall i :: 0 <= i < |list| ==> 0 < list[i] < |pages| && pages[list[i]].num < perPage)
    && (forall i, j :: 0 <= i < j < |list| ==> list[i] != list[j])
    && (forall i, j :: 0 <= i < |list| && 0 <= j < |list| && j == i + 1 ==>
          0 <= list[i] < |pages| && pages[list[i]].next == list[j])
    && (|list| > 0 ==> 0 <= list[|list| - 1] < |pages| && pages[list[|list| - 1]].next == NO_PAGE)
  }

  ghost predicate Occupied(pages: seq<Page>, rid: Rid) {
    0 < rid.pageNo < |pages| && 0 <= rid.slotNo < |pages[rid.pageNo].bits| && pages[rid.pageNo].bits[rid.slotNo]
  }

  ghost function Lookup(pages: seq<Page>, rid: Rid): Option<bytes> {
    if Occupied(pages, rid) && rid.slotNo < |pages[rid.pageNo].slots| then Some(pages[rid.pageNo].slots[rid.slotNo])
        else None
  }

  lemma {:induction false} Replaced(pages: seq<Page>, pages': seq<Page>, rid: Rid, v: Option<bytes>)
    requires 0 < rid.pageNo < |pages| && 0 <= rid.slotNo < |pages[rid.pageNo].bits| == |pages[rid.pageNo].slots|
    requires |pages'| == |pages| && (forall i :: 0 <= i < |pages| && i != rid.pageNo ==> pages'[i] == pages[i])
    requires var p, p' := pages[rid.pageNo], pages'[rid.pageNo];
             && p'.bits == p.bits[rid.slotNo := v.Some?]
             && p'.slots == (if v.Some? then p.slots[rid.slotNo := v.value] else p.slots)
    ensures forall r :: Lookup(pages', r) == if r == rid then v else Lookup(pages, r)
  {
  }

  class RmFileHandle {
    const perPage: int
    var pages: seq<Page>        // page 0 is the file header
    var firstFree: int
    ghost var list: seq<int>

    ghost predicate Valid()
      reads this
    {
      PagesOk(pages, perPage) && Linked(pages, perPage, firstFree, list)
    }

    ghost function Record(rid: Rid): Option<bytes>
      reads this
    {
      Lookup(pages, rid)
    }

    /** Positions a caller may name. */
    ghost predicate InFile(rid: Rid)
      reads this
    {
      0 < rid.pageNo < |pages| && 0 <= rid.slotNo < perPage
    }

    constructor (perPage: int)
      requires perPage > 0
      ensures Valid() && this.perPage == perPage && |pages| == 1 && firstFree == NO_PAGE
      ensures forall r :: Record(r) == None
    {
      this.perPage := perPage;
      pages := [Page(NO_PAGE, 0, [], [])];
      firstFree := NO_PAGE;
      list := [];
    }

    /** A page with room: the first of the list, or a new one. */
    method CreatePageHandle() returns (p: int)
      requires Valid()
      modifies this
      ensures Valid() && |list| > 0 && p == list[0] == firstFree && 0 < p < |pages|
      ensures forall r :: Record(r) == old(Record(r))
      ensures |pages| >= old(|pages|) && pages[..old(|pages|)] == old(pages)
      ensures if old(firstFree) == NO_PAGE
                then p == old(|pages|) && list == [p] && |pages| == p + 1 && pages[p].next == NO_PAGE
                  && pages[p].num == 0
              else pages == old(pages) && list == old(list)
    {
      if firstFree == NO_PAGE {
        ghost var before := pages;
        p := |pages|;
        var bits, slots := seq(perPage, _ => false), seq(perPage, _ => []);
        CountAll(bits);
        pages := pages + [Page(firstFree, 0, bits, slots)];
        firstFree := p;
        list := [p] + list;
        NewPageLookup(before, pages);
        return;
      }
      p := firstFree;
      assert pages[..|pages|] == pages;
    }

    /** The first slot at or behind `from` of page `p` whose bit is `bit`. */
    method FirstBit(bit: bool, p: int, from: int) returns (s: int)
      requires Valid() && 0 < p < |pages| && 0 <= from <= perPage
      ensures from <= s <= perPage && |pages[p].bits| == perPage
      ensures (s < perPage ==> pages[p].bits[s] == bit) && forall i :: from <= i < s ==> pages[p].bits[i] != bit
    {
      s := from;
      assert PageOk(pages[p], perPage);
      while s < perPage && pages[p].bits[s] != bit
        invariant from <= s <= perPage && forall i :: from <= i < s ==> pages[p].bits[i] != bit
      {
        s := s + 1;
      }
    }

    /** A free position. There always is one on a listed page, so the error exit is never taken. */
    method GetFreeRecord() returns (rid: Rid)
      requires Valid()
      modifies this
      ensures Valid() && InFile(rid) && Record(rid) == None && |list| > 0 && rid.pageNo == list[0]
      ensures forall r :: Record(r) == old(Record(r))
      ensures if old(firstFree) == NO_PAGE
                then list == [old(|pages|)] && |pages| == old(|pages|) + 1 && pages[..old(|pages|)] == old(pages)
                   && pages[old(|pages|)].next == NO_PAGE && pages[old(|pages|)].num == 0
              else pages == old(pages) && list == old(list)
      ensures firstFree == rid.pageNo && (old(firstFree) == NO_PAGE || old(firstFree) == rid.pageNo)
    {
      var p := CreatePageHandle();
      var s := FirstBit(false, p, 0);
      CountAll(pages[p].bits);
      rid := Rid(p, s);
    }

    /** Inserts a record at the first free position. */
    method InsertRecord(buf: bytes) returns (rid: Rid)
      requires Valid()
      modifies this
      ensures Valid() && old(Record(rid)) == None
      ensures forall r :: Record(r) == if r == rid then Some(buf) else old(Record(r))
      ensures rid.pageNo == if old(firstFree) == NO_PAGE then old(|pages|) else old(firstFree)
      ensures |pages| == old(|pages|) + (if old(firstFree) == NO_PAGE then 1 else 0)
      ensures 0 < rid.pageNo < |pages|
      ensures pages[rid.pageNo].num == 1 + (if old(firstFree) == NO_PAGE then 0 else old(pages[firstFree].num))
      ensures firstFree == if pages[rid.pageNo].num < perPage then rid.pageNo else if old(firstFree) == NO_PAGE
                then NO_PAGE else old(pages[firstFree].next)
      ensures pages[rid.pageNo].num < perPage ==>
                pages[rid.pageNo].next == if old(firstFree) == NO_PAGE then NO_PAGE else old(pages[firstFree].next)
      ensures forall i :: 0 <= i < old(|pages|) && i != rid.pageNo ==> pages[i] == old(pages[i])
    {
      hide Linked, Count;
      rid := GetFreeRecord();
      ghost var before := pages;
      assert PageOk(before[rid.pageNo], perPage);
      var p := rid.pageNo;
      var page := pages[p];
      CountSet(page.bits, rid.slotNo, true);
      page := page.(slots := page.slots[rid.slotNo := buf], num := page.num + 1);
      if page.num == perPage {
        firstFree := page.next;
        page := page.(next := NO_PAGE);
      }
      page := page.(bits := page.bits[rid.slotNo := true]);
      pages := pages[p := page];
      Replaced(before, pages, rid, Some(buf));
      FillHead(before, pages, perPage, list, p);
      if page.num == perPage {
        list := list[1..];
      }
    }

    /** A positioned insert at `rid` does not fill its page, or the page's own link leads through other pages with
        room only. */
    ghost predicate SafeFill(rid: Rid)
      requires InFile(rid)
      reads this
    {
      || pages[rid.pageNo].num + (if Occupied(pages, rid) then 0 else 1) < perPage
      || exists l :: Linked(pages, perPage, pages[rid.pageNo].next, l) && rid.pageNo !in l
    }

    /** Inserts a record at a given position, over what was there. The free list stays sound exactly if the insert
        is safe; on a listed page, or one without successor, it always is. */
    method InsertRecordAt(rid: Rid, buf: bytes)
      requires Valid() && InFile(rid)
      modifies this
      ensures PagesOk(pages, perPage) && (old(SafeFill(rid)) <==> Valid())
      ensures old(SafeFill(rid)) <==> exists l :: Linked(pages, perPage, firstFree, l)
      ensures old(rid.pageNo in list || pages[rid.pageNo].next == NO_PAGE) ==> Valid()
      ensures forall r :: Record(r) == if r == rid then Some(buf) else old(Record(r))
      ensures |pages| == old(|pages|) && forall i :: 0 <= i < |pages| && i != rid.pageNo ==> pages[i] == old(pages[i])
      ensures pages[rid.pageNo].num == old(pages[rid.pageNo].num) + (if old(Record(rid)) == None then 1 else 0)
      ensures firstFree == if pages[rid.pageNo].num == perPage then old(pages[rid.pageNo].next) else old(firstFree)
    {
      ghost var before, first := pages, firstFree;
      var p := rid.pageNo;
      var page := pages[p];
      assert PageOk(page, perPage);
      var occupied := page.bits[rid.slotNo];
      CountSet(page.bits, rid.slotNo, true);
      CountAll(page.bits);
      page := page.(slots := page.slots[rid.slotNo := buf]);
      if !occupied {
        page := page.(num := page.num + 1, bits := page.bits[rid.slotNo := true]);
      }
      assert page.bits == before[p].bits[rid.slotNo := true];
      if page.num == perPage {
        firstFree := page.next;
        page := page.(next := NO_PAGE);
      }
      pages := pages[p := page];
      Replaced(before, pages, rid, Some(buf));
      list := FillAt(before, pages, perPage, first, firstFree, list, p);
      ListedSafe(before, perPage, first, old(list), p);
    }

    /** A delete at `rid` finds a record, or does not touch the links, or its page is not on the list. */
    ghost predicate SafeDelete(rid: Rid)
      requires InFile(rid)
      reads this
    {
      Occupied(pages, rid) || pages[rid.pageNo].num != perPage - 1 || rid.pageNo !in list
    }

    /** Deletes the record at a position, if there is one. A page that was full gets back on the list, unless the list
        is empty: then it stays unlisted. Deleting an empty slot of a listed page with one free slot puts the page on
        the list again and closes the list to a cycle; in all other cases the list stays sound. */
    method DeleteRecord(rid: Rid)
      requires Valid() && InFile(rid)
      modifies this
      ensures PagesOk(pages, perPage) && (old(SafeDelete(rid)) <==> Valid())
      ensures old(SafeDelete(rid)) <==> exists l :: Linked(pages, perPage, firstFree, l)
      ensures forall r :: Record(r) == if r == rid then None else old(Record(r))
      ensures |pages| == old(|pages|) && forall i :: 0 <= i < |pages| && i != rid.pageNo ==> pages[i] == old(pages[i])
      ensures pages[rid.pageNo].num == old(pages[rid.pageNo].num) - (if old(Record(rid)) == None then 0 else 1)
      ensures old(pages[rid.pageNo].num == perPage) ==>
                && pages[rid.pageNo].next == old(firstFree)
                && firstFree == (if old(firstFree) != NO_PAGE then rid.pageNo else NO_PAGE)
                && list == if old(firstFree) != NO_PAGE then [rid.pageNo] + old(list) else old(list)
    {
      hide Linked, Count;
      ghost var before, first := pages, firstFree;
      var p := rid.pageNo;
      var page := pages[p];
      assert PageOk(page, perPage);
      HeadOf(pages, perPage, firstFree, list);
      CountSet(page.bits, rid.slotNo, false);
      CountAll(page.bits);
      if page.bits[rid.slotNo] {
        page := page.(bits := page.bits[rid.slotNo := false], num := page.num - 1);
      }
      if page.num == perPage - 1 {
        if page.next != firstFree {
          page := page.(next := firstFree);
          firstFree := p;
        } else {
          page := page.(next := NO_PAGE);
        }
      }
      pages := pages[p := page];
      Replaced(before, pages, rid, None);
      if before[p].bits[rid.slotNo] {
        list := Unfill(before, pages, perPage, firstFree, list, p);
      } else {
        assert page.bits == before[p].bits;
        list := Relink(before, pages, perPage, first, firstFree, list, p);
      }
    }

    /** Overwrites a slot, occupied or not. */
    method UpdateRecord(rid: Rid, buf: bytes)
      requires Valid() && InFile(rid)
      modifies `pages
      ensures Valid()
      ensures forall r :: Record(r) == if r == rid && old(Record(rid)).Some? then Some(buf) else old(Record(r))
    {
      ghost var before := pages;
      var page := pages[rid.pageNo];
      assert PageOk(page, perPage);
      pages := pages[rid.pageNo := page.(slots := page.slots[rid.slotNo := buf])];
      SameLinks(before, pages, perPage, firstFree, list, rid.pageNo);
      forall r
        ensures Lookup(pages, r) == if r == rid && Lookup(before, rid).Some? then Some(buf) else Lookup(before, r)
      {
      }
    }

    /** The number of records, from the page counts alone. */
    method GetRecordCount() returns (n: nat)
      requires Valid()
      ensures n == |RidsFrom(pages, 1, 0)|
    {
      n := 0;
      var i := 1;
      ghost var all := RidsFrom(pages, 1, 0);
      while i < |pages|
        invariant 1 <= i <= |pages| && n + |RidsFrom(pages, i, 0)| == |all|
      {
        assert PageOk(pages[i], perPage);
        PageRids(pages, i);
        n := n + pages[i].num;
        i := i + 1;
      }
    }
  }

  // ------------------------------------------------------------- the list under the steps

  lemma {:induction false} HeadOf(pages: seq<Page>, perPage: int, first: int, list: seq<int>)
    requires Linked(pages, perPage, first, list)
    ensures first == (if |list| == 0 then NO_PAGE else list[0]) && (first == NO_PAGE <==> |list| == 0)
  {
  }

  lemma {:induction false} NewPageLookup(pages: seq<Page>, pages': seq<Page>)
    requires |pages'| == |pages| + 1 && pages'[..|pages|] == pages
    requires (forall i :: 0 <= i < |pages'[|pages|].bits| ==> !pages'[|pages|].bits[i])
    ensures forall r :: Lookup(pages', r) == Lookup(pages, r)
  {
    assert forall i :: 0 <= i < |pages| ==> pages'[i] == pages[i];
  }

  lemma {:induction false} SameLinks(
      pages: seq<Page>, pages': seq<Page>, perPage: int, first: int, list: seq<int>, p: int)
    requires PagesOk(pages, perPage) && Linked(pages, perPage, first, list) && 0 < p < |pages| == |pages'|
    requires (forall i :: 0 <= i < |pages| && i != p ==> pages'[i] == pages[i]) && PageOk(pages'[p], perPage)
    requires pages'[p].next == pages[p].next && (pages'[p].num == pages[p].num || pages'[p].num < perPage)
    ensures PagesOk(pages', perPage) && Linked(pages', perPage, first, list)
  {
  }

  /** Page `p`, the head of the list, took one record. */
  lemma {:induction false} FillHead(pages: seq<Page>, pages': seq<Page>, perPage: int, list: seq<int>, p: int)
    requires PagesOk(pages, perPage) && |list| > 0 && list[0] == p && Linked(pages, perPage, p, list)
    requires 0 < p < |pages| == |pages'|
    requires (forall i :: 0 <= i < |pages| && i != p ==> pages'[i] == pages[i]) && PageOk(pages'[p], perPage)
    requires pages'[p].next == if pages'[p].num == perPage then NO_PAGE else pages[p].next
    ensures PagesOk(pages', perPage)
    ensures pages'[p].num == perPage ==> Linked(pages', perPage, pages[p].next, list[1..])
    ensures pages'[p].num != perPage ==> Linked(pages', perPage, p, list)
  {
    CountAll(pages'[p].bits);
    if pages'[p].num == perPage {
      Suffix(pages, pages', perPage, p, list, 0);
    } else {
      SameLinks(pages, pages', perPage, p, list, p);
    }
  }

  /** Cutting the list behind its element `k`, which may have changed. */
  lemma {:induction false} Suffix(pages: seq<Page>, pages': seq<Page>, perPage: int, first: int, list: seq<int>, k: int)
    requires Linked(pages, perPage, first, list) && 0 <= k < |list| && |pages'| == |pages|
    requires forall i :: 0 <= i < |pages| && i != list[k] ==> pages'[i] == pages[i]
    ensures Linked(pages', perPage, pages[list[k]].next, list[k + 1..])
  {
    var t := list[k + 1..];
    assert forall i :: 0 <= i < |t| ==> t[i] == list[k + 1 + i] && t[i] != list[k];
  }

  lemma {:induction false} FillAt(
      pages: seq<Page>, pages': seq<Page>, perPage: int, first: int, first': int, list: seq<int>, p: int)
    returns (list': seq<int>)
    requires PagesOk(pages, perPage) && Linked(pages, perPage, first, list) && 0 < p < |pages| == |pages'|
    requires (forall i :: 0 <= i < |pages| && i != p ==> pages'[i] == pages[i]) && PageOk(pages'[p], perPage)
    requires pages[p].num <= pages'[p].num <= pages[p].num + 1
    requires pages'[p].next == (if pages'[p].num == perPage then NO_PAGE else pages[p].next)
    requires first' == if pages'[p].num == perPage then pages[p].next else first
    ensures PagesOk(pages', perPage)
    ensures var safe := pages'[p].num < perPage || exists l :: Linked(pages, perPage, pages[p].next, l) && p !in l;
            && (safe ==> Linked(pages', perPage, first', list'))
            && (safe <==> exists l :: Linked(pages', perPage, first', l))
  {
    list' := list;
    CountAll(pages'[p].bits);
    if pages'[p].num < perPage {
      SameLinks(pages, pages', perPage, first, list, p);
    } else {
      forall l
        ensures Linked(pages', perPage, first', l) <==> Linked(pages, perPage, pages[p].next, l) && p !in l
      {
        FilledLink(pages, pages', perPage, pages[p].next, l, p);
      }
      if l :| Linked(pages, perPage, pages[p].next, l) && p !in l {
        list' := l;
      }
    }
  }

  /** A list is linked around a page that has just become full exactly if it was before and avoids the page. */
  lemma {:induction false} FilledLink(
      pages: seq<Page>, pages': seq<Page>, perPage: int, first: int, l: seq<int>, p: int)
    requires 0 < p < |pages| == |pages'| && pages'[p].num == perPage
    requires forall i :: 0 <= i < |pages| && i != p ==> pages'[i] == pages[i]
    ensures Linked(pages', perPage, first, l) <==> Linked(pages, perPage, first, l) && p !in l
  {
  }

  /** On the free list, the link of a page leads along the list. */
  lemma {:induction false} ListedSafe(pages: seq<Page>, perPage: int, first: int, list: seq<int>, p: int)
    requires Linked(pages, perPage, first, list) && 0 < p < |pages|
    ensures p in list || pages[p].next == NO_PAGE ==> exists l :: Linked(pages, perPage, pages[p].next, l) && p !in l
  {
    if p in list {
      var k :| 0 <= k < |list| && list[k] == p;
      Suffix(pages, pages, perPage, first, list, k);
      assert p !in list[k + 1..];
    } else if pages[p].next == NO_PAGE {
      assert Linked(pages, perPage, NO_PAGE, []) && p !in [];
    }
  }

  lemma {:induction false} Unfill(
      pages: seq<Page>, pages': seq<Page>, perPage: int, first': int, list: seq<int>, p: int) returns (list': seq<int>)
    requires PagesOk(pages, perPage) && 0 < p < |pages| == |pages'| && PageOk(pages'[p], perPage)
    requires pages'[p].num == pages[p].num - 1
    requires forall i :: 0 <= i < |pages| && i != p ==> pages'[i] == pages[i]
    requires var first := if |list| == 0 then NO_PAGE else list[0];
             && Linked(pages, perPage, first, list)
             && var released := pages[p].num == perPage && pages[p].next != first;
                first' == (if released then p else first) && pages'[p].next == if released then first else pages[p].next
    ensures PagesOk(pages', perPage) && Linked(pages', perPage, first', list')
    ensures list' == if pages[p].num == perPage && |list| > 0 then [p] + list else list
  {
    CountAll(pages[p].bits);
    list' := list;
    if pages[p].num == perPage && |list| > 0 {
      list' := [p] + list;
      assert p !in list;
      assert forall i :: 0 < i < |list'| ==> list'[i] == list[i - 1];
      assert forall i :: 0 <= i < |list| ==> list[i] != p;
    } else {
      SameLinks(pages, pages', perPage, first', list, p);
    }
  }

  /** Page `p`, with room, is put in front of the list although it may be on it. */
  lemma {:induction false} Relink(
      pages: seq<Page>, pages': seq<Page>, perPage: int, first: int, first': int, list: seq<int>, p: int)
    returns (list': seq<int>)
    requires PagesOk(pages, perPage) && Linked(pages, perPage, first, list) && 0 < p < |pages| == |pages'|
    requires pages[p].num < perPage
    requires (forall i :: 0 <= i < |pages| && i != p ==> pages'[i] == pages[i]) && pages'[p].bits == pages[p].bits
    requires |pages'[p].slots| == perPage
    requires pages'[p].num == pages[p].num
    requires if pages[p].num != perPage - 1 then pages'[p].next == pages[p].next && first' == first
             else if pages[p].next != first then pages'[p].next == first && first' == p
             else pages'[p].next == NO_PAGE && first' == first
    ensures PagesOk(pages', perPage)
    ensures var safe := pages[p].num != perPage - 1 || p !in list;
            && (safe ==> Linked(pages', perPage, first', list'))
            && (safe <==> exists l :: Linked(pages', perPage, first', l))
  {
    hide Linked, Count;
    list' := list;
    if pages[p].num != perPage - 1 {
      SameLinks(pages, pages', perPage, first, list, p);
    } else if p in list {
      var k :| 0 <= k < |list| && list[k] == p;
      NotToHead(pages, perPage, first, list, k);
      forall l
        ensures !Linked(pages', perPage, p, l)
      {
        CycleClosed(pages, pages', perPage, first, list, k, l);
      }
    } else {
      if pages[p].next != first {
        list' := [p] + list;
      }
      PutInFront(pages, pages', perPage, first, list, p);
    }
  }

  lemma {:induction false} NotToHead(pages: seq<Page>, perPage: int, first: int, list: seq<int>, k: int)
    requires Linked(pages, perPage, first, list) && 0 <= k < |list|
    ensures 0 < list[k] < |pages| && pages[list[k]].next != first && first == list[0]
  {
    assert k + 1 < |list| ==> list[k + 1] != list[0];
  }

  lemma {:induction false} PutInFront(
      pages: seq<Page>, pages': seq<Page>, perPage: int, first: int, list: seq<int>, p: int)
    requires Linked(pages, perPage, first, list) && 0 < p < |pages| == |pages'| && p !in list && pages'[p].num < perPage
    requires forall i :: 0 <= i < |pages| && i != p ==> pages'[i] == pages[i]
    ensures Linked(pages', perPage, first, list)
    ensures pages'[p].next == first ==> Linked(pages', perPage, p, [p] + list)
  {
    var l := [p] + list;
    assert forall i :: 0 < i < |l| ==> l[i] == list[i - 1];
    assert forall i :: 0 <= i < |list| ==> list[i] != p;
  }

  /** A listed page that links to the head of its own list starts no finite list. */
  lemma {:induction false} CycleClosed(
      pages: seq<Page>, pages': seq<Page>, perPage: int, first: int, list: seq<int>, k: int, l: seq<int>)
    requires Linked(pages, perPage, first, list) && 0 <= k < |list| && |pages'| == |pages|
    requires (forall i :: 0 <= i < |pages| && i != list[k] ==> pages'[i] == pages[i]) && pages'[list[k]].next == list[0]
    ensures !Linked(pages', perPage, list[k], l)
  {
    if Linked(pages', perPage, list[k], l) {
      Follows(pages, pages', perPage, first, list, k, l, k);
    }
  }

  lemma {:induction false} Follows(
      pages: seq<Page>, pages': seq<Page>, perPage: int, first: int, list: seq<int>, k: int, l: seq<int>, i: int)
    requires Linked(pages, perPage, first, list) && 0 <= i <= k < |list| && |pages'| == |pages|
    requires (forall j :: 0 <= j < |pages| && j != list[k] ==> pages'[j] == pages[j]) && pages'[list[k]].next == list[0]
    requires Linked(pages', perPage, list[k], l)
    ensures |l| > i + 1 && l[i + 1] == list[i]
  {
    if i > 0 {
      Follows(pages, pages', perPage, first, list, k, l, i - 1);
      assert list[i - 1] != list[k];
      assert pages'[l[i]].next == list[i];
    }
  }

  // ------------------------------------------------------------- scanning

  /** The occupied positions from slot `s` of page `i` on, in order. */
  ghost function RidsFrom(pages: seq<Page>, i: int, s: int): seq<Rid>
    requires 0 < i <= |pages| && 0 <= s
    decreases |pages| - i, if i < |pages| then |pages[i].bits| - s else 0
  {
    if i == |pages| then []
    else if s >= |pages[i].bits| then RidsFrom(pages, i + 1, 0)
    else (if pages[i].bits[s] then [Rid(i, s)] else []) + RidsFrom(pages, i, s + 1)
  }

  lemma {:induction false} SkipSlots(pages: seq<Page>, i: int, s: int, t: int)
    requires 0 < i < |pages| && 0 <= s <= t <= |pages[i].bits| && forall k :: s <= k < t ==> !pages[i].bits[k]
    ensures RidsFrom(pages, i, s) == RidsFrom(pages, i, t)
    decreases t - s
  {
    if s < t {
      SkipSlots(pages, i, s + 1, t);
    }
  }

  lemma {:induction false} RestOfPage(pages: seq<Page>, i: int, s: int)
    requires 0 < i < |pages| && 0 <= s <= |pages[i].bits|
    ensures |RidsFrom(pages, i, s)| == Count(pages[i].bits) - Count(pages[i].bits[..s]) + |RidsFrom(pages, i + 1, 0)|
    decreases |pages[i].bits| - s
  {
    var bits := pages[i].bits;
    if s == |bits| {
      assert bits[..s] == bits;
    } else {
      RestOfPage(pages, i, s + 1);
      assert bits[..s + 1][..s] == bits[..s];
    }
  }

  lemma {:induction false} PageRids(pages: seq<Page>, i: int)
    requires 0 < i < |pages|
    ensures |RidsFrom(pages, i, 0)| == Count(pages[i].bits) + |RidsFrom(pages, i + 1, 0)|
  {
    RestOfPage(pages, i, 0);
    assert pages[i].bits[..0] == [];
  }

  /** The order of positions in the file. */
  predicate Before(a: Rid, b: Rid) {
    a.pageNo < b.pageNo || (a.pageNo == b.pageNo && a.slotNo < b.slotNo)
  }

  /** The list holds the occupied positions from there on, in strictly ascending order. */
  lemma {:induction false} RidsMeaning(pages: seq<Page>, i: int, s: int)
    requires 0 < i <= |pages| && 0 <= s
    ensures forall r :: r in RidsFrom(pages, i, s) <==>
              Occupied(pages, r) && (r.pageNo > i || (r.pageNo == i && r.slotNo >= s))
    ensures forall a, b :: 0 <= a < b < |RidsFrom(pages, i, s)| ==>
              Before(RidsFrom(pages, i, s)[a], RidsFrom(pages, i, s)[b])
    decreases |pages| - i, if i < |pages| then |pages[i].bits| - s else 0
  {
    hide RidsFrom;
    RidsStep(pages, i, s);
    if i == |pages| {
    } else if s >= |pages[i].bits| {
      RidsMeaning(pages, i + 1, 0);
    } else {
      RidsMeaning(pages, i, s + 1);
      var rest := RidsFrom(pages, i, s + 1);
      if pages[i].bits[s] {
        Prepend(rest, Rid(i, s));
      }
    }
  }

  lemma {:induction false} RidsStep(pages: seq<Page>, i: int, s: int)
    requires 0 < i <= |pages| && 0 <= s
    ensures i == |pages| ==> RidsFrom(pages, i, s) == []
    ensures i < |pages| && s >= |pages[i].bits| ==> RidsFrom(pages, i, s) == RidsFrom(pages, i + 1, 0)
    ensures i < |pages| && s < |pages[i].bits| ==>
              RidsFrom(pages, i, s) == if pages[i].bits[s] then [Rid(i, s)] + RidsFrom(pages, i, s + 1)
                  else RidsFrom(pages, i, s + 1)
  {
  }

  lemma {:induction false} Prepend(rest: seq<Rid>, r: Rid)
    requires (forall b :: b in rest ==> Before(r, b)) && forall a, b :: 0 <= a < b < |rest| ==> Before(rest[a], rest[b])
    ensures forall a, b :: 0 <= a < b < |[r] + rest| ==> Before(([r] + rest)[a], ([r] + rest)[b])
  {
    assert forall b :: 0 <= b < |rest| ==> rest[b] in rest;
  }

  /** Where a scan stands: what it still has to visit. */
  class RmScan {
    const file: RmFileHandle
    var rid: Rid

    ghost predicate Stands(rest: seq<Rid>)
      reads this, file
    {
      && file.Valid()
      && (if rid.slotNo == -1 then rest == []
          else 0 < rid.pageNo < |file.pages| && 0 <= rid.slotNo < |file.pages[rid.pageNo].bits|
               && file.pages[rid.pageNo].bits[rid.slotNo] && rest == RidsFrom(file.pages, rid.pageNo, rid.slotNo))
    }

    /** Starts at the first record of the file. */
    constructor (file: RmFileHandle)
      requires file.Valid()
      ensures this.file == file && Stands(RidsFrom(file.pages, 1, 0))
    {
      this.file := file;
      var at := Rid(1, -1);
      if |file.pages| > 1 {
        var i := 1;
        while file.pages[i].num == 0 && i < |file.pages| - 1
          invariant 1 <= i < |file.pages| && RidsFrom(file.pages, 1, 0) == RidsFrom(file.pages, i, 0)
        {
          assert PageOk(file.pages[i], file.perPage);
          CountAll(file.pages[i].bits);
          SkipSlots(file.pages, i, 0, |file.pages[i].bits|);
          i := i + 1;
        }
        var s := file.FirstBit(true, i, 0);
        SkipSlots(file.pages, i, 0, s);
        at := Rid(i, if s == file.perPage then -1 else s);
        assert PageOk(file.pages[i], file.perPage);
        if s == file.perPage {
          CountAll(file.pages[i].bits);
          assert i == |file.pages| - 1;
        }
      }
      rid := at;
    }

    predicate IsEnd()
      reads this
    {
      rid.slotNo == -1
    }

    /** Moves on to the next record. */
    method Next(ghost rest: seq<Rid>)
      requires Stands(rest) && !IsEnd()
      modifies `rid
      ensures |rest| > 0 && rest[0] == old(rid) && Stands(rest[1..])
    {
      hide RidsFrom, Linked;
      ghost var start := rid;
      assert PageOk(file.pages[rid.pageNo], file.perPage);
      RidsStep(file.pages, rid.pageNo, rid.slotNo);
      while true
        invariant 0 < rid.pageNo < |file.pages| && -1 <= rid.slotNo < file.perPage
        invariant rest == [start] + RidsFrom(file.pages, rid.pageNo, rid.slotNo + 1)
        decreases |file.pages| - rid.pageNo
      {
        var s := file.FirstBit(true, rid.pageNo, rid.slotNo + 1);
        SkipSlots(file.pages, rid.pageNo, rid.slotNo + 1, s);
        if s < file.perPage {
          rid := Rid(rid.pageNo, s);
          break;
        }
        var i := rid.pageNo + 1;
        RidsStep(file.pages, rid.pageNo, s);
        RidsStep(file.pages, i, 0);
        if i >= |file.pages| {
          rid := Rid(i, -1);
          break;
        }
        rid := Rid(i, -1);
      }
    }
  }

  method CollectRids(file: RmFileHandle) returns (out: seq<Rid>)
    requires file.Valid()
    ensures out == RidsFrom(file.pages, 1, 0)
  {
    hide RidsFrom, Linked;
    var scan := new RmScan(file);
    ghost var all := RidsFrom(file.pages, 1, 0);
    ghost var rest := all;
    out := [];
    while !scan.IsEnd()
      invariant scan.Stands(rest) && out + rest == all && scan.file == file && all == RidsFrom(file.pages, 1, 0)
      decreases |rest|
    {
      out := out + [scan.rid];
      scan.Next(rest);
      rest := rest[1..];
    }
    assert rest == [] && out + [] == out;
  }

  /** A scan visits every record once, in the order of positions. */
  method ScanAll(file: RmFileHandle) returns (out: seq<Rid>)
    requires file.Valid()
    ensures forall r :: r in out <==> file.Record(r).Some?
    ensures forall a, b :: 0 <= a < b < |out| ==> Before(out[a], out[b])
  {
    hide RidsFrom, Linked;
    out := CollectRids(file);
    RidsMeaning(file.pages, 1, 0);
    forall r
      ensures Occupied(file.pages, r) <==> file.Record(r).Some?
    {
      if Occupied(file.pages, r) {
        assert PageOk(file.pages[r.pageNo], file.perPage);
      }
    }
  }

  /** Inserts records until one more page is full. */
  method FillPage(file: RmFileHandle, x: bytes)
    requires file.Valid() && file.firstFree == NO_PAGE
    modifies file
    ensures file.Valid() && file.firstFree == NO_PAGE && |file.pages| == old(|file.pages|) + 1
    ensures file.pages[old(|file.pages|)].num == file.perPage
    ensures file.pages[..old(|file.pages|)] == old(file.pages)
  {
    hide Linked, Count;
    ghost var n := |file.pages|;
    var rid := file.InsertRecord(x);
    while file.firstFree != NO_PAGE
      invariant file.Valid() && |file.pages| == n + 1 && file.pages[..n] == old(file.pages)
      invariant file.pages[n].num <= file.perPage
      invariant if file.pages[n].num < file.perPage then file.firstFree == n && file.pages[n].next == NO_PAGE
                else file.firstFree == NO_PAGE
      decreases file.perPage - file.pages[n].num
    {
      rid := file.InsertRecord(x);
    }
  }

  /** Refilling a page that is not on the list while its link is left over from earlier makes the list start at a full
      page, whatever the size of the pages: two pages are filled and a third is begun, one record of each full page is
      deleted, and the two are put back in the same order. The next insertion would then find no free slot. */
  method StaleLink(perPage: int, x: bytes) returns (file: RmFileHandle)
    requires perPage > 0
    ensures file.perPage == perPage && PagesOk(file.pages, file.perPage)
    ensures 0 < file.firstFree < |file.pages| && file.pages[file.firstFree].num == file.perPage
    ensures forall l :: !Linked(file.pages, file.perPage, file.firstFree, l)
  {
    hide Linked, Count;
    file := new RmFileHandle(perPage);
    FillPage(file, x);
    assert file.pages[..2][1].num == perPage;
    FillPage(file, x);
    var c := file.GetFreeRecord();
    var a, b := Rid(1, 0), Rid(2, 0);
    assert file.pages[..3][1].num == perPage && file.pages[..3][2].num == perPage && file.firstFree == 3;
    FullThere(file.pages, perPage, a);
    FullThere(file.pages, perPage, b);
    file.DeleteRecord(a);
    assert file.firstFree == 1;
    file.DeleteRecord(b);
    assert file.pages[2].next == 1 && file.list == [2, 1, 3];
    file.InsertRecordAt(a, x);
    assert file.pages[1].num == perPage && file.pages[2].next == 1 && file.firstFree == 3;
    file.InsertRecordAt(b, x);
    FullHead(file.pages, file.perPage, file.firstFree);
  }

  lemma {:induction false} FullThere(pages: seq<Page>, perPage: int, rid: Rid)
    requires PagesOk(pages, perPage) && 0 < rid.pageNo < |pages| && 0 <= rid.slotNo < perPage
    requires pages[rid.pageNo].num == perPage
    ensures Occupied(pages, rid) && Lookup(pages, rid).Some?
  {
    assert PageOk(pages[rid.pageNo], perPage);
    CountAll(pages[rid.pageNo].bits);
  }

  lemma {:induction false} FullHead(pages: seq<Page>, perPage: int, first: int)
    requires 0 < first < |pages| && pages[first].num == perPage
    ensures forall l :: !Linked(pages, perPage, first, l)
  {
  }
}
