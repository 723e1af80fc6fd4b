/** Whole runs of the buffer pool under any number of users. What a user owes to the pool is read off the history: a pin
    for every write, and a dirty unpin for what was written. */
module BufferRun {
  import opened Basics
  import opened Bytes
  import opened BufferPool

  datatype Op =
    | Fetch(user: int, id: PageId)
    | New(user: int, id: PageId)
    | Put(user: int, id: PageId, data: bytes)
    | Unpin(user: int, id: PageId, dirty: bool)
    | Flush(id: PageId)
    | FlushAll(only: Option<int>)

  /** What has happened. Fetches and new pages may fail for want of a frame. */
  datatype Event =
    | Fetched(user: int, id: PageId, got: Option<bytes>)
    | Made(user: int, id: PageId, done: bool)
    | Written(user: int, id: PageId, data: bytes)
    | Unpinned(user: int, id: PageId, dirty: bool)
    | Saved

  // ------------------------------------------------------------- what a history says

  /** The last contents written to page `p`, on top of the disk at the start. */
  function Value(disk: map<PageId, bytes>, zero: bytes, evs: seq<Event>, p: PageId): Option<bytes> {
    if |evs| == 0 then if p in disk then Some(disk[p]) else None
    else ValueAfter(Value(disk, zero, evs[..|evs| - 1], p), zero, evs[|evs| - 1], p)
  }

  function ValueAfter(v: Option<bytes>, zero: bytes, e: Event, p: PageId): Option<bytes> {
    match e
    case Written(_, q, data) => if q == p then Some(data) else v
    case Made(_, q, done) => if q == p && done then Some(zero) else v
    case _ => v
  }

  /** The pins on page `p`, by user. */
  function Holders(evs: seq<Event>, p: PageId): multiset<int> {
    if |evs| == 0 then multiset{} else HoldersAfter(Holders(evs[..|evs| - 1], p), evs[|evs| - 1], p)
  }

  function HoldersAfter(h: multiset<int>, e: Event, p: PageId): multiset<int> {
    match e
    case Fetched(u, q, got) => if q == p && got.Some? then h + multiset{u} else h
    case Made(u, q, done) => if q == p && done then h + multiset{u} else h
    case Unpinned(u, q, _) => if q == p then h - multiset{u} else h
    case _ => h
  }

  /** User `u` has written to page `p`, or made it, and not reported it since. */
  function Owes(evs: seq<Event>, u: int, p: PageId): bool {
    |evs| > 0 && OwesAfter(Owes(evs[..|evs| - 1], u, p), evs[|evs| - 1], u, p)
  }

  function OwesAfter(o: bool, e: Event, u: int, p: PageId): bool {
    match e
    case Written(v, q, _) => o || (v == u && q == p)
    case Made(v, q, done) => o || (v == u && q == p && done)
    case Unpinned(v, q, dirty) => o && !(v == u && q == p && dirty)
    case _ => o
  }

  lemma {:induction false} Extended(disk: map<PageId, bytes>, zero: bytes, evs: seq<Event>, e: Event, p: PageId)
    ensures Value(disk, zero, evs + [e], p) == ValueAfter(Value(disk, zero, evs, p), zero, e, p)
    ensures Holders(evs + [e], p) == HoldersAfter(Holders(evs, p), e, p)
    ensures forall u :: Owes(evs + [e], u, p) == OwesAfter(Owes(evs, u, p), e, u, p)
  {
    assert (evs + [e])[..|evs|] == evs;
  }

  /** Event `e` sets the contents of page `p`. */
  ghost predicate Sets(e: Event, p: PageId) {
    (e.Written? && e.id == p) || (e.Made? && e.id == p && e.done)
  }

  /** The value of a page is what the last event that set it gave it, and what was on disk at the start if none did. */
  lemma {:induction false} ValueMeaning(disk: map<PageId, bytes>, zero: bytes, evs: seq<Event>, p: PageId, n: int)
    requires -1 <= n < |evs| && (n >= 0 ==> Sets(evs[n], p)) && forall i :: n < i < |evs| ==> !Sets(evs[i], p)
    ensures n == -1 ==> Value(disk, zero, evs, p) == if p in disk then Some(disk[p]) else None
    ensures n >= 0 ==> Value(disk, zero, evs, p) == Some(if evs[n].Written? then evs[n].data else zero)
  {
    var k := |evs| - 1;
    if n < k {
      ValueMeaning(disk, zero, evs[..k], p, n);
    }
  }

  /** A user owes a report on a page exactly if it has set the page and not unpinned it as dirty since. */
  lemma {:induction false} OwesMeaning(evs: seq<Event>, u: int, p: PageId)
    ensures Owes(evs, u, p) <==>
              exists i :: (&& 0 <= i < |evs| && Sets(evs[i], p) && evs[i].user == u
                           && forall j :: i < j < |evs| ==> evs[j] != Unpinned(u, p, true))
  {
    if |evs| > 0 {
      var k := |evs| - 1;
      var front, e := evs[..k], evs[k];
      OwesMeaning(front, u, p);
      if Owes(front, u, p) && e != Unpinned(u, p, true) {
        var i :| (&& 0 <= i < k && Sets(front[i], p) && front[i].user == u
                  && forall j :: i < j < k ==> front[j] != Unpinned(u, p, true));
        assert Sets(evs[i], p) && forall j :: i < j < k ==> front[j] == evs[j];
      }
      if i :| (&& 0 <= i < k && Sets(evs[i], p) && evs[i].user == u
               && forall j :: i < j < |evs| ==> evs[j] != Unpinned(u, p, true)) {
        assert Sets(front[i], p) && forall j :: i < j < k ==> front[j] == evs[j];
      }
      if Sets(e, p) && e.user == u {
        assert Sets(evs[k], p);
      }
    }
  }

  /** A user gains a pin with each page it fetches or makes, and gives one up with each unpin of its own. */
  lemma {:induction false} HoldersMeaning(evs: seq<Event>, e: Event, u: int, p: PageId)
    ensures (e.Fetched? && e.got.Some?) || (e.Made? && e.done) ==>
              Holders(evs + [e], p)[u] == Holders(evs, p)[u] + if e.id == p && e.user == u then 1 else 0
    ensures e.Unpinned? && e.id == p && e.user == u && u in Holders(evs, p) ==>
              Holders(evs + [e], p)[u] == Holders(evs, p)[u] - 1
    ensures e.Unpinned? && (e.id != p || e.user != u) ==> Holders(evs + [e], p)[u] == Holders(evs, p)[u]
    ensures e.Written? || e.Saved? ==> Holders(evs + [e], p) == Holders(evs, p)
  {
    Extended(map[], [], evs, e, p);
  }

  /** What the pool asks of its users: pages are made once and fetched after that, only the holder of a pin writes, and
      nobody gives up the last pin on a page with a write not reported. */
  predicate Allowed(disk: map<PageId, bytes>, zero: bytes, evs: seq<Event>, op: Op) {
    match op
    case Fetch(_, p) => p != NO_ID && Value(disk, zero, evs, p).Some?
    case New(_, p) => p != NO_ID && Value(disk, zero, evs, p).None?
    case Put(u, p, _) => u in Holders(evs, p)
    case Unpin(u, p, dirty) => u in Holders(evs, p) && (dirty || Holders(evs, p)[u] > 1 || !Owes(evs, u, p))
    case _ => true
  }

  /** `e` is what came of `op`. */
  predicate Matches(op: Op, e: Event) {
    match op
    case Fetch(u, p) => e.Fetched? && e.user == u && e.id == p
    case New(u, p) => e.Made? && e.user == u && e.id == p
    case Put(u, p, data) => e == Written(u, p, data)
    case Unpin(u, p, dirty) => e == Unpinned(u, p, dirty)
    case _ => e == Saved
  }

  // ------------------------------------------------------------- the invariant

  ghost predicate SomeOwes(evs: seq<Event>, p: PageId) {
    exists u :: u in Holders(evs, p) && Owes(evs, u, p)
  }

  /** A resident page has as many pins as holders; if it differs from the disk and is not dirty, then someone who
      holds it has yet to report a write. */
  ghost predicate PageOk(
      pages: seq<Frame>, table: map<PageId, int>, disk: map<PageId, bytes>, evs: seq<Event>, p: PageId) {
    if p in table then
      && 0 <= table[p] < |pages| && pages[table[p]].pins == |Holders(evs, p)|
      && (pages[table[p]].dirty || (p in disk && disk[p] == pages[table[p]].data) || SomeOwes(evs, p))
    else |Holders(evs, p)| == 0
  }

  ghost predicate PagesOk(pages: seq<Frame>, table: map<PageId, int>, disk: map<PageId, bytes>, evs: seq<Event>) {
    forall p :: PageOk(pages, table, disk, evs, p)
  }

  /** All but the page that an operation is about. */
  lemma {:induction false} OtherPage(
      pages: seq<Frame>, table: map<PageId, int>, disk: map<PageId, bytes>, evs: seq<Event>, pages': seq<Frame>,
      table': map<PageId, int>, disk': map<PageId, bytes>, e: Event, p: PageId)
    requires PageOk(pages, table, disk, evs, p) && (e.Saved? || e.id != p)
    requires p in table' ==> p in table && table'[p] == table[p] && table[p] < |pages'|
    requires p in table' ==> pages'[table[p]] == pages[table[p]]
    requires p in table' ==> (p in disk <==> p in disk') && (p in disk ==> disk[p] == disk'[p])
    requires p in table && p !in table' ==> pages[table[p]].pins == 0
    ensures PageOk(pages', table', disk', evs + [e], p)
  {
    Extended(map[], [], evs, e, p);
    if p in table' && SomeOwes(evs, p) {
      var u :| u in Holders(evs, p) && Owes(evs, u, p);
      assert u in Holders(evs + [e], p) && Owes(evs + [e], u, p);
    }
  }

  /** A page fetched while it is resident. */
  lemma {:induction false} FetchedAgain(
      pages: seq<Frame>, table: map<PageId, int>, disk: map<PageId, bytes>, evs: seq<Event>, pages': seq<Frame>,
      e: Event)
    requires TableOk(pages, table) && PagesOk(pages, table, disk, evs)
    requires e.Fetched? && e.got.Some? && e.id in table
    requires var f := table[e.id]; pages' == pages[f := pages[f].(pins := pages[f].pins + 1)]
    ensures PagesOk(pages', table, disk, evs + [e])
  {
    forall p
      ensures PageOk(pages', table, disk, evs + [e], p)
    {
      assert PageOk(pages, table, disk, evs, p);
      if p != e.id {
        OtherPage(pages, table, disk, evs, pages', table, disk, e, p);
      } else {
        Extended(map[], [], evs, e, p);
        if SomeOwes(evs, p) {
          var u :| u in Holders(evs, p) && Owes(evs, u, p);
          assert u in Holders(evs + [e], p) && Owes(evs + [e], u, p);
        }
      }
    }
  }

  /** A page brought in, read from the disk or made. */
  lemma {:induction false} BroughtIn(
      pages: seq<Frame>, table: map<PageId, int>, disk: map<PageId, bytes>, evs: seq<Event>, pages': seq<Frame>,
      table': map<PageId, int>, disk': map<PageId, bytes>, f: int, data: bytes, e: Event)
    requires TableOk(pages, table) && PagesOk(pages, table, disk, evs)
    requires (e.Fetched? && e.got.Some? && e.id in disk' && disk'[e.id] == data) || (e.Made? && e.done)
    requires Replaced(pages, table, disk, pages', table', disk', f, e.id, data)
    ensures PagesOk(pages', table', disk', evs + [e])
  {
    forall p
      ensures PageOk(pages', table', disk', evs + [e], p)
    {
      assert PageOk(pages, table, disk, evs, p);
      if p != e.id {
        OtherPage(pages, table, disk, evs, pages', table', disk', e, p);
      } else {
        Extended(map[], [], evs, e, p);
        assert e.Made? ==> e.user in Holders(evs + [e], p) && Owes(evs + [e], e.user, p);
      }
    }
  }

  /** A fetch or a new page without a frame for it. */
  lemma {:induction false} NoFrame(
      pages: seq<Frame>, table: map<PageId, int>, disk: map<PageId, bytes>, evs: seq<Event>, e: Event)
    requires PagesOk(pages, table, disk, evs)
    requires (e.Fetched? && e.got.None?) || (e.Made? && !e.done)
    ensures PagesOk(pages, table, disk, evs + [e])
  {
    forall p
      ensures PageOk(pages, table, disk, evs + [e], p)
    {
      assert PageOk(pages, table, disk, evs, p);
      Extended(map[], [], evs, e, p);
      if SomeOwes(evs, p) {
        var u :| u in Holders(evs, p) && Owes(evs, u, p);
        assert u in Holders(evs + [e], p) && Owes(evs + [e], u, p);
      }
    }
  }

  lemma {:induction false} WrittenTo(
      pages: seq<Frame>, table: map<PageId, int>, disk: map<PageId, bytes>, evs: seq<Event>, pages': seq<Frame>,
      e: Event)
    requires TableOk(pages, table) && PagesOk(pages, table, disk, evs)
    requires e.Written? && e.user in Holders(evs, e.id) && e.id in table
    requires var f := table[e.id]; pages' == pages[f := pages[f].(data := e.data)]
    ensures PagesOk(pages', table, disk, evs + [e])
  {
    forall p
      ensures PageOk(pages', table, disk, evs + [e], p)
    {
      assert PageOk(pages, table, disk, evs, p);
      if p != e.id {
        OtherPage(pages, table, disk, evs, pages', table, disk, e, p);
      } else {
        Extended(map[], [], evs, e, p);
        assert e.user in Holders(evs + [e], p) && Owes(evs + [e], e.user, p);
      }
    }
  }

  lemma {:induction false} OneHolder(h: multiset<int>, u: int, v: int)
    requires |h| == 1 && u in h && v in h
    ensures u == v && h[u] == 1
  {
    var rest := h - multiset{u};
    assert h == rest + multiset{u};
    assert rest == multiset{};
    assert h[v] == rest[v] + multiset{u}[v];
  }

  /** The last holder of a page that differs from the disk owes a report, so it may not unpin without one. */
  lemma {:induction false} LastHolder(
      pages: seq<Frame>, table: map<PageId, int>, disk: map<PageId, bytes>, evs: seq<Event>, u: int, p: PageId,
      dirty: bool)
    requires PageOk(pages, table, disk, evs, p) && p in table && Allowed(map[], [], evs, Unpin(u, p, dirty))
    requires pages[table[p]].pins == 1 && !pages[table[p]].dirty && !dirty
    ensures p in disk && disk[p] == pages[table[p]].data
  {
    if SomeOwes(evs, p) {
      var v :| v in Holders(evs, p) && Owes(evs, v, p);
      OneHolder(Holders(evs, p), u, v);
    }
  }

  lemma {:induction false} GivenUp(
      pages: seq<Frame>, table: map<PageId, int>, disk: map<PageId, bytes>, evs: seq<Event>, pages': seq<Frame>,
      e: Event)
    requires TableOk(pages, table) && PagesOk(pages, table, disk, evs)
    requires e.Unpinned? && e.id in table && Allowed(map[], [], evs, Unpin(e.user, e.id, e.dirty))
    requires var f := table[e.id];
             pages' == pages[f := pages[f].(pins := pages[f].pins - 1, dirty := pages[f].dirty || e.dirty)]
    ensures PagesOk(pages', table, disk, evs + [e])
  {
    forall p
      ensures PageOk(pages', table, disk, evs + [e], p)
    {
      assert PageOk(pages, table, disk, evs, p);
      if p != e.id {
        OtherPage(pages, table, disk, evs, pages', table, disk, e, p);
      } else {
        Extended(map[], [], evs, e, p);
        if !e.dirty && SomeOwes(evs, p) {
          var u :| u in Holders(evs, p) && Owes(evs, u, p);
          assert u in Holders(evs + [e], p) && Owes(evs + [e], u, p);
        }
      }
    }
  }

  ghost predicate Untouched(pages: seq<Frame>, table: map<PageId, int>, disk: map<PageId, bytes>, pages': seq<Frame>,
                            disk': map<PageId, bytes>, p: PageId)
    requires p in table && 0 <= table[p] < |pages| == |pages'|
  {
    && pages'[table[p]] == pages[table[p]]
    && (p in disk <==> p in disk') && (p in disk ==> disk[p] == disk'[p])
  }

  /** Pages written out, in any number: the others keep their entries on the disk. */
  lemma {:induction false} WrittenOut(
      pages: seq<Frame>, table: map<PageId, int>, disk: map<PageId, bytes>, evs: seq<Event>, pages': seq<Frame>,
      disk': map<PageId, bytes>)
    requires TableOk(pages, table) && PagesOk(pages, table, disk, evs) && |pages'| == |pages|
    requires forall f :: 0 <= f < |pages| ==> pages'[f].pins == pages[f].pins && pages'[f].data == pages[f].data
    requires forall p :: p in table ==>
               || (p in disk' && disk'[p] == pages[table[p]].data)
               || Untouched(pages, table, disk, pages', disk', p)
    ensures PagesOk(pages', table, disk', evs + [Saved])
  {
    forall p
      ensures PageOk(pages', table, disk', evs + [Saved], p)
    {
      assert PageOk(pages, table, disk, evs, p);
      if p !in table || Untouched(pages, table, disk, pages', disk', p) {
        OtherPage(pages, table, disk, evs, pages', table, disk', Saved, p);
      } else {
        Extended(map[], [], evs, Saved, p);
      }
    }
  }

  // ------------------------------------------------------------- runs

  /** The pool after the history `evs`: in order, and showing every page its last written contents. */
  ghost predicate Inv(pool: BufferPool, disk: map<PageId, bytes>, evs: seq<Event>)
    reads pool, pool.pages, pool.replacer
  {
    && pool.Valid() && PagesOk(pool.pages[..], pool.table, pool.disk, evs)
    && forall p :: pool.View(p) == Value(disk, pool.zero, evs, p)
  }

  lemma {:induction false} Shows(disk: map<PageId, bytes>, zero: bytes, evs: seq<Event>, e: Event)
    ensures forall p :: Value(disk, zero, evs + [e], p) == ValueAfter(Value(disk, zero, evs, p), zero, e, p)
  {
    forall p
      ensures Value(disk, zero, evs + [e], p) == ValueAfter(Value(disk, zero, evs, p), zero, e, p)
    {
      Extended(disk, zero, evs, e, p);
    }
  }

  /** One operation of a user who keeps to the rules. */
  method Step(pool: BufferPool, ghost disk: map<PageId, bytes>, ghost evs: seq<Event>, op: Op) returns (e: Event)
    requires Inv(pool, disk, evs) && Allowed(disk, pool.zero, evs, op)
    modifies pool, pool.pages, pool.replacer
    ensures Matches(op, e) && Inv(pool, disk, evs + [e])
    ensures e.Fetched? && e.got.Some? ==> e.got == Value(disk, pool.zero, evs, e.id)
    ensures (e.Fetched? && e.got.None?) || (e.Made? && !e.done) ==>
              forall f :: 0 <= f < pool.pages.Length ==> old(pool.pages[f].pins) > 0
  {
    hide FramesOk, CandidatesOk, CleanOk, PageOk, Look, TableOk;
    match op {
      case Fetch(u, p) => e := StepFetch(pool, disk, evs, u, p);
      case New(u, p) => e := StepNew(pool, disk, evs, u, p);
      case Put(u, p, data) =>
        e := Written(u, p, data);
        StepPut(pool, disk, evs, u, p, data);
      case Unpin(u, p, dirty) =>
        e := Unpinned(u, p, dirty);
        StepUnpin(pool, disk, evs, u, p, dirty);
      case Flush(p) =>
        e := Saved;
        StepFlush(pool, disk, evs, p);
      case FlushAll(only) =>
        e := Saved;
        StepFlushAll(pool, disk, evs, only);
    }
  }

  method StepFetch(pool: BufferPool, ghost disk: map<PageId, bytes>, ghost evs: seq<Event>, u: int, p: PageId)
    returns (e: Event)
    requires Inv(pool, disk, evs) && Allowed(disk, pool.zero, evs, Fetch(u, p))
    modifies pool, pool.pages, pool.replacer
    ensures e.Fetched? && e.user == u && e.id == p && Inv(pool, disk, evs + [e])
    ensures e.got.Some? ==> e.got == Value(disk, pool.zero, evs, p)
    ensures e.got.None? ==> forall f :: 0 <= f < pool.pages.Length ==> old(pool.pages[f].pins) > 0
  {
    hide FramesOk, CandidatesOk, CleanOk, PageOk, Look, TableOk, Evicted, Value, Holders, PagesOk, OthersOk;
    ghost var pages, table, dk := pool.pages[..], pool.table, pool.disk;
    Fitting(pages, table, pool.replacer.list, dk, p);
    var f := pool.FetchPage(p);
    assert pool.View(p) == old(pool.View(p)) || f == -2;
    if f < 0 {
      e := Fetched(u, p, None);
      NoFrame(pages, table, dk, evs, e);
    } else {
      e := Fetched(u, p, Some(pool.pages[f].data));
      if p in table {
        FetchedAgain(pages, table, dk, evs, pool.pages[..], e);
      } else {
        BroughtIn(pages, table, dk, evs, pool.pages[..], pool.table, pool.disk, f, pool.disk[p], e);
      }
    }
    Shows(disk, pool.zero, evs, e);
  }

  method StepNew(pool: BufferPool, ghost disk: map<PageId, bytes>, ghost evs: seq<Event>, u: int, p: PageId)
    returns (e: Event)
    requires Inv(pool, disk, evs) && Allowed(disk, pool.zero, evs, New(u, p))
    modifies pool, pool.pages, pool.replacer
    ensures e.Made? && e.user == u && e.id == p && Inv(pool, disk, evs + [e])
    ensures !e.done ==> forall f :: 0 <= f < pool.pages.Length ==> old(pool.pages[f].pins) > 0
  {
    hide FramesOk, CandidatesOk, CleanOk, PageOk, TableOk, Evicted, Value, Holders, PagesOk, OthersOk;
    ghost var pages, table, dk := pool.pages[..], pool.table, pool.disk;
    NotThere(pages, table, dk, p);
    var f := pool.NewPage(p);
    e := Made(u, p, f != -1);
    if f == -1 {
      NoFrame(pages, table, dk, evs, e);
    } else {
      BroughtIn(pages, table, dk, evs, pool.pages[..], pool.table, pool.disk, f, pool.zero, e);
    }
    Shows(disk, pool.zero, evs, e);
  }

  lemma {:induction false} NotThere(pages: seq<Frame>, table: map<PageId, int>, disk: map<PageId, bytes>, p: PageId)
    requires TableOk(pages, table) && Look(pages, table, disk, p).None?
    ensures p !in table && p !in disk
  {
  }

  /** A held page is resident and pinned. */
  lemma {:induction false} HeldThere(
      pages: seq<Frame>, table: map<PageId, int>, disk: map<PageId, bytes>, evs: seq<Event>, u: int, p: PageId)
    requires TableOk(pages, table) && PagesOk(pages, table, disk, evs) && u in Holders(evs, p)
    ensures p in table && PageOk(pages, table, disk, evs, p)
    ensures Resident(pages, table, table[p]) && pages[table[p]].pins > 0 && pages[table[p]].id == p
  {
    assert PageOk(pages, table, disk, evs, p);
  }

  method StepPut(
      pool: BufferPool, ghost disk: map<PageId, bytes>, ghost evs: seq<Event>, ghost u: int, p: PageId, data: bytes)
    requires Inv(pool, disk, evs) && Allowed(disk, pool.zero, evs, Put(u, p, data))
    modifies pool.pages
    ensures Inv(pool, disk, evs + [Written(u, p, data)])
  {
    hide FramesOk, CandidatesOk, CleanOk, PageOk, Look, TableOk, Value, Holders, PagesOk;
    ghost var pages := pool.pages[..];
    HeldThere(pages, pool.table, pool.disk, evs, u, p);
    pool.Write(pool.table[p], data);
    WrittenTo(pages, pool.table, pool.disk, evs, pool.pages[..], Written(u, p, data));
    Shows(disk, pool.zero, evs, Written(u, p, data));
  }

  method StepUnpin(
      pool: BufferPool, ghost disk: map<PageId, bytes>, ghost evs: seq<Event>, ghost u: int, p: PageId, dirty: bool)
    requires Inv(pool, disk, evs) && Allowed(disk, pool.zero, evs, Unpin(u, p, dirty))
    modifies pool.pages, pool.replacer
    ensures Inv(pool, disk, evs + [Unpinned(u, p, dirty)])
  {
    hide FramesOk, CandidatesOk, CleanOk, PageOk, Look, TableOk, Value, Holders, PagesOk, OthersOk;
    ghost var pages := pool.pages[..];
    HeldThere(pages, pool.table, pool.disk, evs, u, p);
    ghost var f := pool.table[p];
    if pages[f].pins == 1 && !pages[f].dirty && !dirty {
      LastHolder(pages, pool.table, pool.disk, evs, u, p, dirty);
    }
    LookTable(pages, pool.table, pool.disk, p);
    var ok := pool.UnpinPage(p, dirty);
    GivenUp(pages, pool.table, pool.disk, evs, pool.pages[..], Unpinned(u, p, dirty));
    Shows(disk, pool.zero, evs, Unpinned(u, p, dirty));
  }

  method StepFlush(pool: BufferPool, ghost disk: map<PageId, bytes>, ghost evs: seq<Event>, p: PageId)
    requires Inv(pool, disk, evs)
    modifies pool, pool.pages
    ensures Inv(pool, disk, evs + [Saved])
  {
    hide FramesOk, CandidatesOk, CleanOk, PageOk, Look, Value, Holders, PagesOk;
    ghost var pages, dk := pool.pages[..], pool.disk;
    var ok := pool.FlushPage(p);
    WrittenOut(pages, pool.table, dk, evs, pool.pages[..], pool.disk);
    Shows(disk, pool.zero, evs, Saved);
  }

  method StepFlushAll(pool: BufferPool, ghost disk: map<PageId, bytes>, ghost evs: seq<Event>, only: Option<int>)
    requires Inv(pool, disk, evs)
    modifies pool, pool.pages
    ensures Inv(pool, disk, evs + [Saved])
  {
    hide FramesOk, CandidatesOk, CleanOk, PageOk, Look, Value, Holders, PagesOk;
    ghost var pages, dk := pool.pages[..], pool.disk;
    pool.FlushAll(only);
    WrittenOut(pages, pool.table, dk, evs, pool.pages[..], pool.disk);
    Shows(disk, pool.zero, evs, Saved);
  }

  /** Any run from a fresh pool, for as long as the users keep to the rules: every fetch that gets a frame shows the
      last contents written, whatever was evicted, written out and read back in between, and so does the pool at the
      end. */
  method Run(size: nat, zero: bytes, disk: map<PageId, bytes>, ops: seq<Op>) returns (pool: BufferPool, evs: seq<Event>)
    ensures |evs| <= |ops| && forall i :: 0 <= i < |evs| ==> Matches(ops[i], evs[i])
    ensures forall i :: 0 <= i < |evs| ==> Allowed(disk, zero, evs[..i], ops[i])
    ensures |evs| < |ops| ==> !Allowed(disk, zero, evs, ops[|evs|])
    ensures forall i :: 0 <= i < |evs| && evs[i].Fetched? && evs[i].got.Some? ==>
              evs[i].got == Value(disk, zero, evs[..i], evs[i].id)
    ensures fresh(pool) && pool.Valid() && PagesOk(pool.pages[..], pool.table, pool.disk, evs)
    ensures forall p :: pool.View(p) == Value(disk, zero, evs, p)
  {
    hide FramesOk, CandidatesOk, CleanOk, PageOk, Look, TableOk;
    pool := new BufferPool(size, zero, disk);
    evs := [];
    assert Inv(pool, disk, evs) by {
      Empty(pool.pages[..], pool.disk);
    }
    while |evs| < |ops| && Allowed(disk, zero, evs, ops[|evs|])
      invariant |evs| <= |ops| && forall i :: 0 <= i < |evs| ==> Matches(ops[i], evs[i])
      invariant forall i :: 0 <= i < |evs| ==> Allowed(disk, zero, evs[..i], ops[i])
      invariant forall i :: 0 <= i < |evs| && evs[i].Fetched? && evs[i].got.Some? ==>
                  evs[i].got == Value(disk, zero, evs[..i], evs[i].id)
      invariant fresh(pool) && fresh(pool.pages) && fresh(pool.replacer) && pool.zero == zero && Inv(pool, disk, evs)
      decreases |ops| - |evs|
    {
      var e := Step(pool, disk, evs, ops[|evs|]);
      assert forall i :: 0 <= i <= |evs| ==> (evs + [e])[..i] == evs[..i];
      assert evs[..|evs|] == evs;
      evs := evs + [e];
    }
  }

  lemma {:induction false} Empty(pages: seq<Frame>, disk: map<PageId, bytes>)
    ensures PagesOk(pages, map[], disk, [])
  {
  }
}
