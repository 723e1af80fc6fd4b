/** The buffer pool: a fixed set of frames in front of the disk. To its users it is one array of pages. */
module BufferPool {
  import opened Basics
  import opened Bytes
  import opened LruReplacer

  datatype PageId = PageId(fd: int, pageNo: int)
  datatype Frame = Frame(id: PageId, data: bytes, pins: int, dirty: bool)

  const NO_ID: PageId := PageId(-1, -1)

  /** Which frame holds which page. */
  ghost predicate TableOk(pages: seq<Frame>, table: map<PageId, int>) {
    && NO_ID !in table
    && (forall p :: p in table ==> 0 <= table[p] < |pages| && pages[table[p]].id == p)
  }

  ghost predicate Resident(pages: seq<Frame>, table: map<PageId, int>, f: int) {
    0 <= f < |pages| && pages[f].id in table && table[pages[f].id] == f
  }

  /** A frame is free, or it holds a page. Free frames never held one. */
  ghost predicate FramesOk(pages: seq<Frame>, table: map<PageId, int>, free: seq<int>) {
    && (forall i :: 0 <= i < |free| ==>
          0 <= free[i] < |pages| && pages[free[i]].id == NO_ID && !pages[free[i]].dirty && pages[free[i]].pins == 0)
    && (forall i, j :: 0 <= i < j < |free| ==> free[i] != free[j])
    && (forall f :: 0 <= f < |pages| ==> pages[f].pins >= 0 && (f in free || Resident(pages, table, f)))
  }

  /** The candidates for eviction are the unpinned frames that hold a page. */
  ghost predicate CandidatesOk(pages: seq<Frame>, table: map<PageId, int>, list: seq<int>) {
    && (forall f :: f in list <==> Resident(pages, table, f) && pages[f].pins == 0)
    && (forall i, j :: 0 <= i < j < |list| ==> list[i] != list[j])
  }

  /** A frame that may be evicted without writing agrees with the disk. */
  ghost predicate CleanOk(pages: seq<Frame>, table: map<PageId, int>, disk: map<PageId, bytes>) {
    forall f :: Resident(pages, table, f) && pages[f].pins == 0 && !pages[f].dirty ==>
        pages[f].id in disk && disk[pages[f].id] == pages[f].data
  }

  /** All frames but `f` are candidates, or agree with the disk, as they should. */
  ghost predicate OthersOk(
      pages: seq<Frame>, table: map<PageId, int>, list: seq<int>, disk: map<PageId, bytes>, f: int) {
    && (forall g :: g != f ==> (g in list <==> Resident(pages, table, g) && pages[g].pins == 0))
    && (forall i, j :: 0 <= i < j < |list| ==> list[i] != list[j])
    && (forall g :: g != f && Resident(pages, table, g) && pages[g].pins == 0 && !pages[g].dirty ==>
          pages[g].id in disk && disk[pages[g].id] == pages[g].data)
  }

  /** What a reader of page `p` gets to see. */
  ghost function Look(pages: seq<Frame>, table: map<PageId, int>, disk: map<PageId, bytes>, p: PageId): Option<bytes> {
    if p in table && 0 <= table[p] < |pages| then Some(pages[table[p]].data)
    else if p in disk then Some(disk[p]) else None
  }

  class BufferPool {
    const pages: array<Frame>
    const zero: bytes
    const replacer: LruReplacer
    var table: map<PageId, int>
    var free: seq<int>
    var disk: map<PageId, bytes>

    ghost predicate Valid()
      reads this, pages, replacer
    {
      && replacer.Valid() && TableOk(pages[..], table) && FramesOk(pages[..], table, free)
      && CandidatesOk(pages[..], table, replacer.list) && CleanOk(pages[..], table, disk)
    }

    /** Enough for fetching page `p`: only the frame of `p` itself may be out of order. */
    ghost predicate Fit(p: PageId)
      reads this, pages, replacer
    {
      && replacer.Valid() && TableOk(pages[..], table) && FramesOk(pages[..], table, free)
      && if p in table then OthersOk(pages[..], table, replacer.list, disk, table[p])
         else CandidatesOk(pages[..], table, replacer.list) && CleanOk(pages[..], table, disk)
    }

    ghost function View(p: PageId): Option<bytes>
      reads this, pages
    {
      Look(pages[..], table, disk, p)
    }

    constructor (size: nat, zero: bytes, disk: map<PageId, bytes>)
      ensures Valid() && fresh(pages) && fresh(replacer) && this.disk == disk && this.zero == zero && table == map[]
      ensures pages.Length == size && forall g :: 0 <= g < size ==> pages[g].pins == 0
      ensures forall p :: View(p) == if p in disk then Some(disk[p]) else None
    {
      this.zero, this.disk := zero, disk;
      pages := new Frame[size](_ => Frame(NO_ID, zero, 0, false));
      replacer := new LruReplacer();
      table := map[];
      free := seq(size, i => i);
      new;
      FreshFrames(pages[..], free);
    }

    /** A free frame, or the candidate whose last unpin is the oldest. The page it held leaves the table. */
    method FindVictim() returns (ok: bool, f: int)
      requires Valid()
      modifies `table, `free, replacer
      ensures ok ==> Claimed(old(pages[..]), old(table), table, old(free), free, old(replacer.list), replacer.list, f)
      ensures ok && old(free) == [] ==> f in replacer.stamp && forall g :: g in replacer.list ==>
                g in replacer.stamp && replacer.stamp[f] < replacer.stamp[g]
      ensures ok && old(free) != [] ==>
                f == old(free)[0] && table == old(table) && replacer.list == old(replacer.list)
      ensures ok && old(free) == [] ==>
                f in old(replacer.list) && 0 <= f < pages.Length && table == old(table) - {pages[f].id}
      ensures replacer.Valid()
      ensures !ok ==> table == old(table) && free == old(free) == []
      ensures !ok ==> replacer.list == old(replacer.list) == []
    {
      if |free| > 0 {
        f := free[0];
        free := free[1..];
        return true, f;
      }
      ok, f := replacer.Victim();
      if ok {
        assert f in old(replacer.list);
        table := table - {pages[f].id};
      }
    }

    /** Gives frame `f` over to page `p`: a dirty page is written out first. */
    method UpdatePage(f: int, p: PageId)
      requires 0 <= f < pages.Length
      modifies pages, `disk, `table
      ensures var was := old(pages[f]);
              && disk == (if was.dirty then old(disk)[was.id := was.data] else old(disk))
              && table == (old(table) - {was.id})[p := f]
              && pages[..] == old(pages[..])[f := Frame(p, zero, was.pins, false)]
    {
      var page := pages[f];
      if page.dirty {
        disk := disk[page.id := page.data];
        page := page.(dirty := false);
      }
      table := table - {page.id};
      table := table[p := f];
      pages[f] := page.(data := zero, id := p);
    }

    method PinResident(p: PageId) returns (f: int)
      requires Fit(p) && p in table
      modifies pages, replacer
      ensures Valid() && (forall q :: View(q) == old(View(q))) && f == table[p] && 0 <= f < pages.Length
      ensures pages[..] == old(pages[..])[f := old(pages[f]).(pins := old(pages[f].pins) + 1)]
      ensures View(p) == Some(pages[f].data)
    {
      hide FramesOk, CleanOk;
      hide OthersOk, CandidatesOk;
      ghost var before, ls := pages[..], replacer.list;
      f := table[p];
      replacer.Pin(f);
      pages[f] := pages[f].(pins := pages[f].pins + 1);
      assert pages[..] == before[f := before[f].(pins := before[f].pins + 1)];
      PinnedAgain(before, table, disk, free, ls, pages[..], replacer.list, f);
      SameLook(before, pages[..], table, disk, f);
    }

    /** Brings page `p` in, if it is not there, and pins it. Nobody sees any page change. If the page does not exist,
        reading it fails (-2) with the frame already given over to it: from then on the page seems to be there. */
    method FetchPage(p: PageId) returns (f: int)
      requires Fit(p) && p != NO_ID
      modifies this, pages, replacer
      ensures f == -1 <==> p !in old(table) && forall g :: 0 <= g < pages.Length ==> old(pages[g].pins) > 0
      ensures f == -2 <==> f != -1 && old(View(p)).None?
      ensures f == -1 ==> pages[..] == old(pages[..]) && table == old(table) && disk == old(disk)
      ensures f >= -1 ==> Valid() && forall q :: View(q) == old(View(q))
      ensures f == -1 || f == -2 || 0 <= f < pages.Length
      ensures f >= 0 ==> View(p) == Some(pages[f].data) && p in table && f == table[p]
      ensures f >= 0 && p in old(table) ==>
                && table == old(table) && disk == old(disk)
                && pages[..] == old(pages[..])[f := old(pages[f]).(pins := old(pages[f].pins) + 1)]
      ensures f >= 0 && p !in old(table) ==>
                && p in disk
                && Replaced(old(pages[..]), old(table), old(disk), pages[..], table, disk, f, p, disk[p])
      ensures f == -2 ==> Fit(p) && !Valid() && View(p) == Some(zero) && p in table && pages[table[p]].pins == 0
      ensures f == -2 ==> forall q :: q != p ==> View(q) == old(View(q))
    {
      hide FramesOk, CandidatesOk, CleanOk, OthersOk, Look, Evicted;
      if p in table {
        LookTable(pages[..], table, disk, p);
        f := PinResident(p);
      } else {
        f := BringIn(p);
      }
    }

    method BringIn(p: PageId) returns (f: int)
      requires Valid() && p != NO_ID && p !in table
      modifies this, pages, replacer
      ensures f == -1 <==> forall g :: 0 <= g < pages.Length ==> old(pages[g].pins) > 0
      ensures f == -2 <==> f != -1 && old(View(p)).None?
      ensures f == -1 ==> pages[..] == old(pages[..]) && table == old(table) && disk == old(disk)
      ensures f >= -1 ==> Valid() && forall q :: View(q) == old(View(q))
      ensures f == -1 || f == -2 || 0 <= f < pages.Length
      ensures f >= 0 ==> View(p) == Some(pages[f].data) && p in table && f == table[p] && p in disk
      ensures f >= 0 ==> Replaced(old(pages[..]), old(table), old(disk), pages[..], table, disk, f, p, disk[p])
      ensures f == -2 ==> Fit(p) && !Valid() && View(p) == Some(zero) && p in table && pages[table[p]].pins == 0
      ensures f == -2 ==> forall q :: q != p ==> View(q) == old(View(q))
    {
      hide TableOk, FramesOk, CandidatesOk, CleanOk, OthersOk, Look, Evicted, Claimed, Taken, Resident;
      ghost var before, tb, dk, ls, fr := pages[..], table, disk, replacer.list, free;
      var ok;
      ok, f := FindVictim();
      if !ok {
        NoVictim(before, tb, fr, ls);
        f := -1;
        return;
      }
      ClaimedFacts(before, tb, table, dk, fr, free, ls, replacer.list, f);
      UpdatePage(f, p);
      LookDisk(before, tb, dk, p);
      KeptOnDisk(before, tb, dk, disk, f, p);
      if p !in disk {
        assert pages[..] == before[f := Frame(p, zero, 0, false)];
        FailedRead(before, tb, dk, fr, ls, pages[..], table, disk, free, replacer.list, f, p);
        return -2;
      }
      ReadAndPin(f, p);
      assert pages[..] == before[f := Frame(p, disk[p], 1, false)];
      Installed(before, tb, dk, fr, ls, pages[..], table, disk, free, replacer.list, f, p, disk[p]);
    }

    /** Reads page `p` into the frame that has been given over to it, and pins it. */
    method ReadAndPin(f: int, p: PageId)
      requires 0 <= f < pages.Length && p in disk && replacer.Valid() && f !in replacer.list
      modifies pages, replacer
      ensures pages[..] == old(pages[..])[f := old(pages[f]).(data := disk[p], pins := 1)]
      ensures replacer.Valid() && replacer.list == old(replacer.list)
    {
      pages[f] := pages[f].(data := disk[p]);
      replacer.Pin(f);
      pages[f] := pages[f].(pins := 1);
    }

    /** A fresh page, zeroed and pinned. It is not on disk yet. */
    method NewPage(p: PageId) returns (f: int)
      requires Valid() && p != NO_ID && p !in table && p !in disk
      modifies this, pages, replacer
      ensures Valid() && forall q :: q != p ==> View(q) == old(View(q))
      ensures f == -1 <==> forall g :: 0 <= g < pages.Length ==> old(pages[g].pins) > 0
      ensures f == -1 ==> pages[..] == old(pages[..]) && table == old(table) && disk == old(disk)
      ensures f != -1 ==> View(p) == Some(zero) && 0 <= f < pages.Length
      ensures f != -1 ==> Replaced(old(pages[..]), old(table), old(disk), pages[..], table, disk, f, p, zero)
    {
      hide FramesOk, CandidatesOk, CleanOk, Look;
      ghost var before, tb, dk, ls, fr := pages[..], table, disk, replacer.list, free;
      var ok;
      ok, f := FindVictim();
      if !ok {
        NoVictim(before, tb, fr, ls);
        f := -1;
        return;
      }
      ClaimedFacts(before, tb, table, dk, fr, free, ls, replacer.list, f);
      UpdatePage(f, p);
      replacer.Pin(f);
      pages[f] := pages[f].(pins := 1);
      assert pages[..] == before[f := Frame(p, zero, 1, false)];
      Installed(before, tb, dk, fr, ls, pages[..], table, disk, free, replacer.list, f, p, zero);
    }

    /** The holder of a pin writes to the page. */
    method Write(f: int, data: bytes)
      requires Valid() && Resident(pages[..], table, f) && pages[f].pins > 0
      modifies pages
      ensures Valid() && pages[..] == old(pages[..])[f := old(pages[f]).(data := data)]
      ensures forall q :: View(q) == if q == old(pages[f].id) then Some(data) else old(View(q))
    {
      ghost var before := pages[..];
      pages[f] := pages[f].(data := data);
      assert pages[..] == before[f := before[f].(data := data)];
      Rewritten(before, pages[..], table, disk, free, replacer.list, f);
    }

    /** Gives up a pin. Whoever gives up the last pin of a page that differs from the disk has to say that it is dirty,
        unless an earlier user has said so: exactly then the pool stays in order. */
    method UnpinPage(p: PageId, isDirty: bool) returns (ok: bool)
      requires Valid()
      modifies pages, replacer
      ensures Fit(p) && forall q :: View(q) == old(View(q))
      ensures ok <==> p in table && old(pages[table[p]].pins) > 0
      ensures Valid() <==> !(ok && old(pages[table[p]].pins) == 1 && !old(pages[table[p]].dirty) && !isDirty
                             && View(p) != if p in disk then Some(disk[p]) else None)
      ensures pages[..] == if ok then var f := table[p]; var o := old(pages[f]);
                                        old(pages[..])[f := o.(pins := o.pins - 1, dirty := o.dirty || isDirty)]
                           else old(pages[..])
      ensures ok && old(pages[table[p]].pins) == 1 ==> replacer.list == [table[p]] + old(replacer.list)
    {
      hide FramesOk, CleanOk, CandidatesOk, OthersOk, Look;
      Fitting(pages[..], table, replacer.list, disk, p);
      if p !in table {
        return false;
      }
      var f := table[p];
      if pages[f].pins <= 0 {
        return false;
      }
      ghost var before, ls := pages[..], replacer.list;
      pages[f] := pages[f].(pins := pages[f].pins - 1);
      if pages[f].pins == 0 {
        replacer.Unpin(f);
      }
      if !pages[f].dirty {
        pages[f] := pages[f].(dirty := isDirty);
      }
      assert pages[..] == before[f := before[f].(pins := before[f].pins - 1, dirty := before[f].dirty || isDirty)];
      NotCandidate(before, table, ls, f);
      Unpinned(before, table, disk, free, ls, pages[..], replacer.list, f, isDirty);
      SameLook(before, pages[..], table, disk, f);
      LookTable(pages[..], table, disk, p);
      ok := true;
    }

    /** Writes a resident page out, dirty or not. */
    method FlushPage(p: PageId) returns (ok: bool)
      requires Valid()
      modifies pages, `disk
      ensures Valid() && forall q :: View(q) == old(View(q))
      ensures ok <==> p in table
      ensures ok ==> p in disk && View(p) == Some(disk[p])
      ensures disk == if ok then old(disk)[p := old(pages[table[p]].data)] else old(disk)
      ensures forall g :: 0 <= g < pages.Length ==>
                pages[g] == old(pages[g]).(dirty := if ok && g == table[p] then false else old(pages[g].dirty))
    {
      if p !in table {
        return false;
      }
      var f := table[p];
      ghost var before := pages[..];
      ghost var dk := disk;
      disk := disk[p := pages[f].data];
      pages[f] := pages[f].(dirty := false);
      assert pages[..] == before[f := before[f].(dirty := false)];
      Flushed(before, pages[..], table, dk, disk, free, replacer.list, f);
      ok := true;
    }

    method FlushDirty(f: int)
      requires Valid() && Resident(pages[..], table, f)
      modifies pages, `disk
      ensures Valid() && forall q :: View(q) == old(View(q))
      ensures pages[..] == old(pages[..])[f := old(pages[f]).(dirty := false)]
      ensures disk == if old(pages[f].dirty) then old(disk)[pages[f].id := pages[f].data] else old(disk)
    {
      hide TableOk, FramesOk, CandidatesOk, CleanOk, Look;
      if pages[f].dirty {
        ghost var before, dk := pages[..], disk;
        disk := disk[pages[f].id := pages[f].data];
        pages[f] := pages[f].(dirty := false);
        assert pages[..] == before[f := before[f].(dirty := false)];
        Flushed(before, pages[..], table, dk, disk, free, replacer.list, f);
      }
    }

    /** Writes the dirty pages out, of one file or of all. Pages that are not dirty are left alone, whatever the disk
        holds for them: a page that was written and is still pinned may differ from the disk afterwards. */
    method FlushAll(only: Option<int>)
      requires Valid()
      modifies pages, `disk
      ensures Valid() && forall q :: View(q) == old(View(q))
      ensures pages[..] == Cleaned(old(pages[..]), table, Picked(table, only))
      ensures disk == Saved(old(pages[..]), table, old(disk), Picked(table, only))
      ensures Persisted(old(pages[..]), table, pages[..], disk, Picked(table, only))
      ensures forall p :: p in table && (only.None? || only.value == p.fd) ==>
                && 0 <= table[p] < pages.Length && !pages[table[p]].dirty
                && (old(pages[..])[table[p]].dirty ==> p in disk && View(p) == Some(disk[p]))
      ensures forall p: PageId :: only.Some? && only.value != p.fd ==>
                (p in disk <==> p in old(disk)) && (p in disk ==> disk[p] == old(disk)[p])
      ensures forall f :: 0 <= f < pages.Length ==>
                pages[f] == old(pages[f]).(dirty := pages[f].dirty)
                && (only.Some? && only.value != pages[f].id.fd ==> pages[f].dirty == old(pages[f].dirty))
    {
      hide FramesOk, CandidatesOk, CleanOk, Look, Cleaned, Saved, TableOk, Picked, Persisted;
      ghost var before, dk := pages[..], disk;
      FlushEach(only);
      AllSaved(before, table, dk, pages[..], disk, only);
      FlushMeaning(before, table, dk, pages[..], disk, only);
    }

    /** The loop over the page table. */
    method FlushEach(only: Option<int>)
      requires Valid()
      modifies pages, `disk
      ensures Valid() && forall q :: View(q) == old(View(q))
      ensures pages[..] == Cleaned(old(pages[..]), table, Picked(table, only))
      ensures disk == Saved(old(pages[..]), table, old(disk), Picked(table, only))
    {
      hide FramesOk, CandidatesOk, CleanOk, Look, Cleaned, Saved, TableOk;
      ghost var before, dk, done := pages[..], disk, {};
      var todo := table.Keys;
      NoneSaved(before, table, dk);
      while todo != {}
        invariant todo <= table.Keys && Valid() && (forall q :: View(q) == old(View(q)))
        invariant done <= table.Keys - todo
        invariant forall p :: p in table && p !in todo ==> (p in done <==> only.None? || p.fd == only.value)
        invariant pages[..] == Cleaned(before, table, done) && disk == Saved(before, table, dk, done)
        decreases |todo|
      {
        var p :| p in todo;
        TableEntry(pages[..], table, p);
        if only.None? || p.fd == only.value {
          ghost var mid, dm := pages[..], disk;
          FlushDirty(table[p]);
          OneMore(before, table, dk, mid, dm, pages[..], disk, done, p);
          done := done + {p};
        }
        todo := todo - {p};
      }
      assert done == Picked(table, only);
    }
  }

  /** A page that exists nowhere: its first fetch fails, and the next one hands out a page of zeros. */
  method MissingFetched(size: nat, zero: bytes, p: PageId) returns (first: int, second: int, pool: BufferPool)
    requires size > 0 && p != NO_ID
    ensures first == -2 && 0 <= second < pool.pages.Length
    ensures pool.pages[second].id == p && pool.pages[second].data == zero
  {
    hide FramesOk, CandidatesOk, CleanOk, OthersOk;
    pool := new BufferPool(size, zero, map[]);
    assert pool.pages[0].pins == 0;
    first := pool.FetchPage(p);
    second := pool.FetchPage(p);
  }

  /** The resident pages of the chosen file, or of all. */
  ghost function Picked(table: map<PageId, int>, only: Option<int>): set<PageId> {
    set p | p in table && (only.None? || p.fd == only.value)
  }

  /** The frames after the pages of `done` have been written out. */
  ghost function Cleaned(pages: seq<Frame>, table: map<PageId, int>, done: set<PageId>): (r: seq<Frame>)
    ensures |r| == |pages|
  {
    seq(|pages|, f requires 0 <= f < |pages| =>
      if Resident(pages, table, f) && pages[f].id in done then pages[f].(dirty := false) else pages[f])
  }

  /** The disk after the dirty ones of the pages of `done` have been written out. */
  ghost function Saved(
      pages: seq<Frame>, table: map<PageId, int>, disk: map<PageId, bytes>, done: set<PageId>): map<PageId, bytes> {
    disk + map p | p in done && p in table && 0 <= table[p] < |pages| && pages[table[p]].dirty :: pages[table[p]].data
  }

  /** The pages of `done` that were dirty or are unpinned are on disk as they are seen. */
  ghost predicate Persisted(
      pages: seq<Frame>, table: map<PageId, int>, pages': seq<Frame>, disk': map<PageId, bytes>, done: set<PageId>) {
    |pages'| == |pages|
    && forall p :: p in done && p in table && 0 <= table[p] < |pages|
                   && (pages[table[p]].dirty || pages'[table[p]].pins == 0) ==>
         p in disk' && Look(pages', table, disk', p) == Some(disk'[p])
  }

  /** One more page is written out, if it is dirty. */
  lemma {:induction false} OneMore(
      pages: seq<Frame>, table: map<PageId, int>, disk: map<PageId, bytes>, mid: seq<Frame>, dm: map<PageId, bytes>,
      pages': seq<Frame>, disk': map<PageId, bytes>, done: set<PageId>, p: PageId)
    requires TableOk(pages, table) && p in table && p !in done
    requires mid == Cleaned(pages, table, done) && dm == Saved(pages, table, disk, done)
    requires var f := table[p]; pages' == mid[f := mid[f].(dirty := false)]
                                && disk' == if mid[f].dirty then dm[p := mid[f].data] else dm
    ensures pages' == Cleaned(pages, table, done + {p}) && disk' == Saved(pages, table, disk, done + {p})
  {
    hide Cleaned, Saved;
    OneCleaned(pages, table, done, p);
    OneSaved(pages, table, disk, done, p);
  }

  lemma {:induction false} OneCleaned(pages: seq<Frame>, table: map<PageId, int>, done: set<PageId>, p: PageId)
    requires TableOk(pages, table) && p in table && p !in done
    ensures var f, mid := table[p], Cleaned(pages, table, done);
            mid[f] == pages[f] && Cleaned(pages, table, done + {p}) == mid[f := mid[f].(dirty := false)]
  {
    assert Resident(pages, table, table[p]);
  }

  lemma {:induction false} OneSaved(
      pages: seq<Frame>, table: map<PageId, int>, disk: map<PageId, bytes>, done: set<PageId>, p: PageId)
    requires TableOk(pages, table) && p in table && p !in done
    ensures var f, dm := pages[table[p]], Saved(pages, table, disk, done);
            Saved(pages, table, disk, done + {p}) == if f.dirty then dm[p := f.data] else dm
  {
  }

  lemma {:induction false} NoneSaved(pages: seq<Frame>, table: map<PageId, int>, disk: map<PageId, bytes>)
    ensures Cleaned(pages, table, {}) == pages && Saved(pages, table, disk, {}) == disk
  {
  }

  lemma {:induction false} AllSaved(
      pages: seq<Frame>, table: map<PageId, int>, disk: map<PageId, bytes>, pages': seq<Frame>,
      disk': map<PageId, bytes>, only: Option<int>)
    requires TableOk(pages, table) && TableOk(pages', table) && CleanOk(pages', table, disk')
    requires pages' == Cleaned(pages, table, Picked(table, only))
    requires disk' == Saved(pages, table, disk, Picked(table, only))
    ensures Persisted(pages, table, pages', disk', Picked(table, only))
  {
    forall p | p in Picked(table, only)
      ensures 0 <= table[p] < |pages|
      ensures pages[table[p]].dirty || pages'[table[p]].pins == 0 ==>
                p in disk' && Look(pages', table, disk', p) == Some(disk'[p])
    {
      TableEntry(pages, table, p);
      TableEntry(pages', table, p);
    }
  }

  /** Page by page: the dirty ones of the chosen file, or of all, are on disk as seen, and nothing else has changed. */
  lemma {:induction false} FlushMeaning(
      pages: seq<Frame>, table: map<PageId, int>, disk: map<PageId, bytes>, pages': seq<Frame>,
      disk': map<PageId, bytes>, only: Option<int>)
    requires TableOk(pages, table) && pages' == Cleaned(pages, table, Picked(table, only))
    requires disk' == Saved(pages, table, disk, Picked(table, only))
    ensures forall p :: p in table && (only.None? || only.value == p.fd) ==>
              && 0 <= table[p] < |pages| && !pages'[table[p]].dirty
              && (pages[table[p]].dirty ==> p in disk' && Look(pages', table, disk', p) == Some(disk'[p]))
    ensures forall p: PageId :: only.Some? && only.value != p.fd ==>
              (p in disk' <==> p in disk) && (p in disk' ==> disk'[p] == disk[p])
    ensures forall f :: 0 <= f < |pages| ==>
              pages'[f] == pages[f].(dirty := pages'[f].dirty)
              && (only.Some? && only.value != pages[f].id.fd ==> pages'[f].dirty == pages[f].dirty)
  {
    forall p | p in table && (only.None? || only.value == p.fd)
      ensures 0 <= table[p] < |pages| && !pages'[table[p]].dirty
      ensures pages[table[p]].dirty ==> p in disk' && Look(pages', table, disk', p) == Some(disk'[p])
    {
      TableEntry(pages, table, p);
      assert p in Picked(table, only);
    }
  }

  lemma {:induction false} TableEntry(pages: seq<Frame>, table: map<PageId, int>, p: PageId)
    requires TableOk(pages, table) && p in table
    ensures 0 <= table[p] < |pages| && pages[table[p]].id == p && Resident(pages, table, table[p])
  {
  }

  // ------------------------------------------------------------- steps on the pool's state

  /** Frame `f` has been taken from the free list or from the candidates, its page from the table. */
  ghost predicate Claimed(
      pages: seq<Frame>, table: map<PageId, int>, table': map<PageId, int>, free: seq<int>, free': seq<int>,
      list: seq<int>, list': seq<int>, f: int) {
    && 0 <= f < |pages|
    && (if |free| > 0 then free == [f] + free' && list' == list && table' == table
        else free' == free && list == list' + [f] && f !in list' && table' == table - {pages[f].id})
  }

  /** A claimed frame may be given over: its page can be dropped from the table, after it is written out if dirty. */
  lemma {:induction false} ClaimedFacts(
      pages: seq<Frame>, table: map<PageId, int>, table': map<PageId, int>, disk: map<PageId, bytes>, free: seq<int>,
      free': seq<int>, list: seq<int>, list': seq<int>, f: int)
    requires TableOk(pages, table) && FramesOk(pages, table, free) && CandidatesOk(pages, table, list)
    requires Claimed(pages, table, table', free, free', list, list', f)
    ensures table' == table - {pages[f].id} && Taken(free, list, free', list', f) && f !in list' && pages[f].pins == 0
    ensures Evicted(pages, table, disk, if pages[f].dirty then disk[pages[f].id := pages[f].data] else disk, f)
  {
    hide FramesOk, CandidatesOk;
    if |free| > 0 {
      FreeClaimed(pages, table, free, free', list, f);
    } else {
      CandidateClaimed(pages, table, free, list, list', f);
    }
  }

  lemma {:induction false} FreeClaimed(
      pages: seq<Frame>, table: map<PageId, int>, free: seq<int>, free': seq<int>, list: seq<int>, f: int)
    requires TableOk(pages, table) && FramesOk(pages, table, free) && CandidatesOk(pages, table, list)
    requires free == [f] + free'
    ensures 0 <= f < |pages| && pages[f].pins == 0 && f !in free' && f !in list && pages[f].id == NO_ID
    ensures !pages[f].dirty
    ensures Taken(free, list, free', list, f) && table == table - {pages[f].id}
  {
    assert free[0] == f;
    ListTail(free, free', f);
  }

  lemma {:induction false} ListTail(s: seq<int>, t: seq<int>, f: int)
    requires s == [f] + t && forall i, j :: 0 <= i < j < |s| ==> s[i] != s[j]
    ensures f !in t && forall i, j :: 0 <= i < j < |t| ==> t[i] != t[j]
  {
    assert s[0] == f;
    assert forall i :: 0 <= i < |t| ==> t[i] == s[i + 1];
  }

  lemma {:induction false} FreshFrames(pages: seq<Frame>, free: seq<int>)
    requires |free| == |pages| && forall f :: 0 <= f < |pages| ==> free[f] == f
    requires forall f :: 0 <= f < |pages| ==> pages[f].id == NO_ID && !pages[f].dirty && pages[f].pins == 0
    ensures FramesOk(pages, map[], free)
  {
    forall f | 0 <= f < |pages|
      ensures f in free
    {
      assert free[f] == f;
    }
  }

  lemma {:induction false} CandidateClaimed(
      pages: seq<Frame>, table: map<PageId, int>, free: seq<int>, list: seq<int>, list': seq<int>, f: int)
    requires TableOk(pages, table) && CandidatesOk(pages, table, list) && list == list' + [f] && f !in list'
    requires |free| == 0
    ensures Resident(pages, table, f) && pages[f].pins == 0 && pages[f].id != NO_ID && Taken(free, list, free, list', f)
  {
    assert f in list;
    assert forall i :: 0 <= i < |list'| ==> list[i] == list'[i];
  }

  lemma {:induction false} LookDisk(pages: seq<Frame>, table: map<PageId, int>, disk: map<PageId, bytes>, p: PageId)
    requires p !in table
    ensures Look(pages, table, disk, p) == if p in disk then Some(disk[p]) else None
  {
  }

  lemma {:induction false} LookTable(pages: seq<Frame>, table: map<PageId, int>, disk: map<PageId, bytes>, p: PageId)
    requires p in table && 0 <= table[p] < |pages|
    ensures Look(pages, table, disk, p) == Some(pages[table[p]].data)
  {
  }

  lemma {:induction false} Fitting(
      pages: seq<Frame>, table: map<PageId, int>, list: seq<int>, disk: map<PageId, bytes>, p: PageId)
    requires CandidatesOk(pages, table, list) && CleanOk(pages, table, disk)
    ensures p in table ==> OthersOk(pages, table, list, disk, table[p])
  {
  }

  lemma {:induction false} NotCandidate(pages: seq<Frame>, table: map<PageId, int>, list: seq<int>, f: int)
    requires CandidatesOk(pages, table, list) && 0 <= f < |pages| && pages[f].pins > 0
    ensures f !in list
  {
  }

  lemma {:induction false} NoVictim(pages: seq<Frame>, table: map<PageId, int>, free: seq<int>, list: seq<int>)
    requires FramesOk(pages, table, free) && CandidatesOk(pages, table, list) && |free| == 0 && |list| == 0
    ensures forall g :: 0 <= g < |pages| ==> pages[g].pins > 0
  {
    forall g | 0 <= g < |pages|
      ensures pages[g].pins > 0
    {
      assert g !in free && g !in list;
    }
  }

  lemma {:induction false} SameLook(
      pages: seq<Frame>, pages': seq<Frame>, table: map<PageId, int>, disk: map<PageId, bytes>, f: int)
    requires TableOk(pages, table) && 0 <= f < |pages| == |pages'| && pages' == pages[f := pages'[f]]
    requires pages'[f].data == pages[f].data
    ensures forall q :: Look(pages', table, disk, q) == Look(pages, table, disk, q)
  {
  }

  lemma {:induction false} PinnedAgain(
      pages: seq<Frame>, table: map<PageId, int>, disk: map<PageId, bytes>, free: seq<int>, list: seq<int>,
      pages': seq<Frame>, list': seq<int>, f: int)
    requires TableOk(pages, table) && FramesOk(pages, table, free) && OthersOk(pages, table, list, disk, f)
    requires Resident(pages, table, f) && pages' == pages[f := pages[f].(pins := pages[f].pins + 1)]
    requires f !in list' && (forall g :: g != f ==> (g in list' <==> g in list))
    requires forall i, j :: 0 <= i < j < |list'| ==> list'[i] != list'[j]
    ensures TableOk(pages', table) && FramesOk(pages', table, free)
    ensures CandidatesOk(pages', table, list') && CleanOk(pages', table, disk)
  {
    forall g
      ensures Resident(pages', table, g) <==> Resident(pages, table, g)
    {
    }
    NotFree(pages, table, free, f);
  }

  lemma {:induction false} NotFree(pages: seq<Frame>, table: map<PageId, int>, free: seq<int>, f: int)
    requires TableOk(pages, table) && FramesOk(pages, table, free) && Resident(pages, table, f)
    ensures f !in free
  {
  }

  /** Writing the victim out, if it is dirty, keeps everything else on disk. */
  lemma {:induction false} KeptOnDisk(
      pages: seq<Frame>, table: map<PageId, int>, disk: map<PageId, bytes>, disk': map<PageId, bytes>, f: int,
      p: PageId)
    requires Evicted(pages, table, disk, disk', f) && p !in table
    ensures (p in disk' <==> p in disk) && (p in disk ==> disk'[p] == disk[p])
  {
  }

  ghost predicate Evicted(
      pages: seq<Frame>, table: map<PageId, int>, disk: map<PageId, bytes>, disk': map<PageId, bytes>, f: int) {
    && 0 <= f < |pages| && pages[f].pins == 0
    && (pages[f].id == NO_ID || Resident(pages, table, f)) && (pages[f].id == NO_ID ==> !pages[f].dirty)
    && disk' == if pages[f].dirty then disk[pages[f].id := pages[f].data] else disk
  }

  /** Frame `f`, unpinned before, has been given over to page `p`, which shows `data` and is pinned once. */
  ghost predicate Replaced(
      pages: seq<Frame>, table: map<PageId, int>, disk: map<PageId, bytes>,
      pages': seq<Frame>, table': map<PageId, int>, disk': map<PageId, bytes>, f: int, p: PageId, data: bytes) {
    && Evicted(pages, table, disk, disk', f) && p != NO_ID && p !in table
    && pages' == pages[f := Frame(p, data, 1, false)] && table' == (table - {pages[f].id})[p := f]
  }

  /** Lists without frame `f`. */
  ghost predicate Taken(free: seq<int>, list: seq<int>, free': seq<int>, list': seq<int>, f: int) {
    && (forall g :: g in free' <==> g in free && g != f) && (forall g :: g in list' <==> g in list && g != f)
    && (forall i, j :: 0 <= i < j < |free'| ==> free'[i] != free'[j])
    && (forall i, j :: 0 <= i < j < |list'| ==> list'[i] != list'[j])
  }

  /** Frame `f` now holds page `p`. */
  lemma {:induction false} Installed(
      pages: seq<Frame>, table: map<PageId, int>, disk: map<PageId, bytes>, free: seq<int>, list: seq<int>,
      pages': seq<Frame>, table': map<PageId, int>, disk': map<PageId, bytes>, free': seq<int>, list': seq<int>,
      f: int, p: PageId, data: bytes)
    requires TableOk(pages, table) && FramesOk(pages, table, free)
    requires CandidatesOk(pages, table, list) && CleanOk(pages, table, disk)
    requires Replaced(pages, table, disk, pages', table', disk', f, p, data) && Taken(free, list, free', list', f)
    ensures TableOk(pages', table') && FramesOk(pages', table', free')
    ensures CandidatesOk(pages', table', list') && CleanOk(pages', table', disk')
    ensures Look(pages', table', disk', p) == Some(data)
    ensures forall q :: q != p ==> Look(pages', table', disk', q) == Look(pages, table, disk, q)
  {
    OthersResident(pages, table, pages', table', f, p);
    InstalledFrames(pages, table, free, pages', table', free', f, p);
    forall q | q != p
      ensures Look(pages', table', disk', q) == Look(pages, table, disk, q)
    {
    }
  }

  /** Frame `f` has been given over to a page that could not be read: it is unpinned and yet no candidate. */
  lemma {:induction false} FailedRead(
      pages: seq<Frame>, table: map<PageId, int>, disk: map<PageId, bytes>, free: seq<int>, list: seq<int>,
      pages': seq<Frame>, table': map<PageId, int>, disk': map<PageId, bytes>, free': seq<int>, list': seq<int>,
      f: int, p: PageId)
    requires TableOk(pages, table) && FramesOk(pages, table, free)
    requires CandidatesOk(pages, table, list) && CleanOk(pages, table, disk)
    requires Evicted(pages, table, disk, disk', f) && p != NO_ID && p !in table
    requires |pages'| == |pages| && pages' == pages[f := pages'[f]]
    requires pages'[f].id == p && pages'[f].pins == 0 && table' == (table - {pages[f].id})[p := f]
    requires Taken(free, list, free', list', f)
    ensures TableOk(pages', table') && FramesOk(pages', table', free')
    ensures OthersOk(pages', table', list', disk', f) && !CandidatesOk(pages', table', list')
    ensures Look(pages', table', disk', p) == Some(pages'[f].data)
    ensures forall q :: q != p ==> Look(pages', table', disk', q) == Look(pages, table, disk, q)
  {
    OthersResident(pages, table, pages', table', f, p);
    InstalledFrames(pages, table, free, pages', table', free', f, p);
    assert Resident(pages', table', f) && f !in list';
    forall q | q != p
      ensures Look(pages', table', disk', q) == Look(pages, table, disk, q)
    {
    }
  }

  lemma {:induction false} OthersResident(
      pages: seq<Frame>, table: map<PageId, int>, pages': seq<Frame>, table': map<PageId, int>, f: int, p: PageId)
    requires TableOk(pages, table) && 0 <= f < |pages| == |pages'| && p != NO_ID && p !in table
    requires pages[f].id == NO_ID || Resident(pages, table, f)
    requires pages' == pages[f := pages'[f]] && pages'[f].id == p && table' == (table - {pages[f].id})[p := f]
    ensures TableOk(pages', table') && Resident(pages', table', f)
    ensures forall g :: g != f ==> (Resident(pages', table', g) <==> Resident(pages, table, g))
  {
  }

  lemma {:induction false} InstalledFrames(
      pages: seq<Frame>, table: map<PageId, int>, free: seq<int>, pages': seq<Frame>, table': map<PageId, int>,
      free': seq<int>, f: int, p: PageId)
    requires FramesOk(pages, table, free) && 0 <= f < |pages| == |pages'| && pages' == pages[f := pages'[f]]
    requires pages'[f].pins >= 0
    requires Resident(pages', table', f)
    requires forall g :: g != f ==> (Resident(pages', table', g) <==> Resident(pages, table, g))
    requires (forall g :: g in free' <==> g in free && g != f)
    requires (forall i, j :: 0 <= i < j < |free'| ==> free'[i] != free'[j])
    ensures FramesOk(pages', table', free')
  {
    forall i | 0 <= i < |free'|
      ensures 0 <= free'[i] < |pages'| && pages'[free'[i]].id == NO_ID && !pages'[free'[i]].dirty
      ensures pages'[free'[i]].pins == 0
    {
      var g := free'[i];
      assert g in free && g != f;
    }
    forall g | 0 <= g < |pages'|
      ensures pages'[g].pins >= 0 && (g in free' || Resident(pages', table', g))
    {
      assert g == f || g in free || Resident(pages, table, g);
    }
  }

  lemma {:induction false} Rewritten(
      pages: seq<Frame>, pages': seq<Frame>, table: map<PageId, int>, disk: map<PageId, bytes>, free: seq<int>,
      list: seq<int>, f: int)
    requires TableOk(pages, table) && FramesOk(pages, table, free) && CandidatesOk(pages, table, list)
    requires CleanOk(pages, table, disk)
    requires Resident(pages, table, f) && pages[f].pins > 0 && |pages'| == |pages|
    requires pages' == pages[f := pages[f].(data := pages'[f].data)]
    ensures TableOk(pages', table) && FramesOk(pages', table, free) && CandidatesOk(pages', table, list)
    ensures CleanOk(pages', table, disk)
    ensures forall q :: Look(pages', table, disk, q) == if q == pages[f].id then Some(pages'[f].data)
              else Look(pages, table, disk, q)
  {
    NotFree(pages, table, free, f);
    assert forall g :: Resident(pages', table, g) <==> Resident(pages, table, g);
  }

  lemma {:induction false} Unpinned(
      pages: seq<Frame>, table: map<PageId, int>, disk: map<PageId, bytes>, free: seq<int>, list: seq<int>,
      pages': seq<Frame>, list': seq<int>, f: int, isDirty: bool)
    requires TableOk(pages, table) && FramesOk(pages, table, free)
    requires CandidatesOk(pages, table, list) && CleanOk(pages, table, disk)
    requires Resident(pages, table, f) && pages[f].pins > 0
    requires pages' == pages[f := pages[f].(pins := pages[f].pins - 1, dirty := pages[f].dirty || isDirty)]
    requires list' == if pages[f].pins == 1 then [f] + list else list
    ensures TableOk(pages', table) && FramesOk(pages', table, free) && CandidatesOk(pages', table, list')
    ensures OthersOk(pages', table, list', disk, f)
    ensures CleanOk(pages', table, disk) <==>
              (pages[f].pins == 1 && !pages[f].dirty && !isDirty ==>
                 pages[f].id in disk && disk[pages[f].id] == pages[f].data)
  {
    NotFree(pages, table, free, f);
    assert forall g :: Resident(pages', table, g) <==> Resident(pages, table, g);
    assert f !in list;
    assert Resident(pages', table, f);
  }

  lemma {:induction false} Flushed(
      pages: seq<Frame>, pages': seq<Frame>, table: map<PageId, int>, disk: map<PageId, bytes>,
      disk': map<PageId, bytes>, free: seq<int>, list: seq<int>, f: int)
    requires TableOk(pages, table) && FramesOk(pages, table, free) && CandidatesOk(pages, table, list)
    requires CleanOk(pages, table, disk)
    requires Resident(pages, table, f) && pages' == pages[f := pages[f].(dirty := false)]
    requires disk' == disk[pages[f].id := pages[f].data]
    ensures TableOk(pages', table) && FramesOk(pages', table, free) && CandidatesOk(pages', table, list)
    ensures CleanOk(pages', table, disk')
    ensures forall q :: Look(pages', table, disk', q) == Look(pages, table, disk, q)
    ensures forall g :: Resident(pages', table, g) <==> Resident(pages, table, g)
  {
    NotFree(pages, table, free, f);
    assert forall g :: Resident(pages', table, g) <==> Resident(pages, table, g);
  }
}
