/** Range scans over the index, and whole runs of insertions and deletions. */
module IxScan {
  import opened Basics
  import opened IxTree
  import opened IxChain
  import opened IxRebalance
  import opened IxPosition
  import opened IxSteps
  import opened IxIndexHandle

  class IxScan {
    const ih: IxIndexHandle
    var iid: Iid
    const end: Iid

    constructor (ih: IxIndexHandle, lower: Iid, upper: Iid)
      ensures this.ih == ih && iid == lower && end == upper
    {
      this.ih, iid, end := ih, lower, upper;
    }

    predicate IsEnd()
      reads this
    {
      iid == end
    }

    /** Advances by one entry. */
    method Next(ghost n: int)
      requires ih.Valid() && Canonical(ih.pages, ih.g.leaves, iid, n) && n < |ih.Entries()|
      modifies `iid
      ensures Canonical(ih.pages, ih.g.leaves, iid, n + 1)
    {
      hide Shaped, Ordered, Sized, Canonical, Chain;
      PositionRange(ih.pages, ih.g.leaves, iid, n);
      LeavesFilled(ih.pages, ih.root, ih.g);
      ghost var start := iid;
      var node := ih.pages[iid.pageNo];
      iid := Iid(iid.pageNo, iid.slotNo + 1);
      if iid.pageNo != ih.lastLeaf && iid.slotNo == |node.slots| {
        iid := Iid(node.next, 0);
      }
      StepCanonical(ih.pages, ih.g.leaves, start, n, ih.lastLeaf, iid);
    }

    /** Runs the scan to its end, reading every record id on the way. It fails, by reading behind the
        last entry, exactly if the end position lies before the start. */
    method Drain(ghost a: int, ghost b: int) returns (r: Option<seq<Rid>>)
      requires ih.Valid()
      requires Canonical(ih.pages, ih.g.leaves, iid, a) && Canonical(ih.pages, ih.g.leaves, end, b)
      modifies `iid
      ensures 0 <= a <= |ih.Entries()| && 0 <= b <= |ih.Entries()|
      ensures r == if a <= b then Some(Rids(ih.Entries()[a..b])) else None
    {
      hide Shaped, Ordered, Sized, Canonical, Chain, Ring, Rids;
      RingStored(ih.pages, ih.g.leaves);
      PositionRange(ih.pages, ih.g.leaves, iid, a);
      PositionRange(ih.pages, ih.g.leaves, end, b);
      RingDistinct(ih.pages, ih.g.leaves);
      ghost var n := a;
      ghost var es := ih.Entries();
      var rids := [];
      PositionUnique(ih.pages, ih.g.leaves, iid, end, n, b);
      RidsAppend(es, a, a);
      while !IsEnd()
        invariant a <= n <= |es| && (a <= b ==> n <= b) && Canonical(ih.pages, ih.g.leaves, iid, n)
        invariant rids == Rids(es[a..n])
        invariant iid == end <==> n == b
        decreases |es| - n
      {
        var rid := ih.GetRid(iid, n);
        if rid.None? {
          return None;
        }
        rids := rids + [rid.value];
        RidsAppend(es, a, n);
        Next(n);
        n := n + 1;
        PositionRange(ih.pages, ih.g.leaves, iid, n);
        PositionUnique(ih.pages, ih.g.leaves, iid, end, n, b);
      }
      r := Some(rids);
    }
  }

  lemma {:induction false} RidsAppend(es: seq<Entry>, a: int, n: int)
    requires 0 <= a <= n <= |es|
    ensures Rids(es[a..a]) == []
    ensures n < |es| ==> Rids(es[a..n + 1]) == Rids(es[a..n]) + [es[n].rid]
  {
    if n < |es| {
      assert es[a..n + 1] == es[a..n] + [es[n]];
    }
  }

  /** The record ids of the entries with lo <= key <= hi, in the order of the keys. The scan fails exactly if some
      stored key lies strictly between hi and lo; in particular it succeeds whenever lo <= hi. */
  method RangeScan(ih: IxIndexHandle, lo: int, hi: int) returns (r: Option<seq<Rid>>)
    requires ih.Valid()
    ensures r.None? <==> exists e :: e in ih.Entries() && hi < e.key < lo
    ensures r.Some? ==> r.value == Rids(Between(ih.Entries(), lo, hi))
    ensures lo <= hi ==> r.Some?
  {
    hide Shaped, Ordered, Sized, Canonical, Chain, Ring, Rids, IsLowerBound, IsUpperBound, CountBelow, CountUpTo,
         Between;
    var lower := ih.LowerBoundIid(lo);
    var upper := ih.UpperBoundIid(hi);
    var scan := new IxScan(ih, lower, upper);
    ghost var a, b := CountBelow(ih.Entries(), lo), CountUpTo(ih.Entries(), hi);
    r := scan.Drain(a, b);
    RangeRanks(ih.Entries(), lo, hi, a, b);
  }

  /** A scan of the whole chain from the first leaf lists the map in ascending key order. */
  method FullScan(ih: IxIndexHandle) returns (r: Option<seq<Rid>>)
    requires ih.Valid()
    ensures r == Some(Rids(ih.Entries()))
    ensures Sorted(ih.Entries()) && |ih.Entries()| == |ih.Contents()|
    ensures forall e :: e in ih.Entries() <==> e.key in ih.Contents() && ih.Contents()[e.key] == e.rid
  {
    hide Shaped, Ordered, Sized, Canonical, Chain, Ring, Rids, Sorted, MapOf;
    var first := ih.LeafBegin();
    var last := ih.LeafEnd();
    var scan := new IxScan(ih, first, last);
    ghost var es := ih.Entries();
    r := scan.Drain(0, |es|);
    assert es[0..|es|] == es;
    EntriesSorted(ih);
    MapOfSorted(es);
    MapOfSize(es);
    forall e: Entry | e.key in ih.Contents() && ih.Contents()[e.key] == e.rid
      ensures e in es
    {
      assert e == Entry(e.key, ih.Contents()[e.key]);
    }
  }

  lemma {:induction false} EntriesSorted(ih: IxIndexHandle)
    requires ih.Valid()
    ensures Sorted(ih.Entries())
  {
    hide Shaped, Sized, Chain, Ring;
    RingStored(ih.pages, ih.g.leaves);
    OrderedLeaves(ih.pages, ih.root, ih.g);
    ChainAscends(ih.pages, ih.g);
  }

  // ------------------------------------------------------------- runs

  datatype Op = Insert(key: int, rid: Rid) | Delete(key: int, given: Option<Rid>)

  /** One operation on the finite map that the index stands for. */
  ghost function Apply(m: map<int, Rid>, op: Op): map<int, Rid> {
    match op
    case Insert(k, rid) => if k in m then m else m[k := rid]
    case Delete(k, given) => if k in m && (given.None? || m[k] == given.value) then m - {k} else m
  }

  ghost function After(ops: seq<Op>): map<int, Rid> {
    if |ops| == 0 then map[] else Apply(After(ops[..|ops| - 1]), ops[|ops| - 1])
  }

  /** Every deletion leaves an entry behind. */
  ghost predicate Usable(ops: seq<Op>) {
    |ops| == 0 || (Usable(ops[..|ops| - 1]) && (ops[|ops| - 1].Delete? ==> After(ops) != map[]))
  }

  lemma {:induction false} AfterStep(ops: seq<Op>, n: int)
    requires 0 <= n < |ops|
    ensures After(ops[..n + 1]) == Apply(After(ops[..n]), ops[n])
    ensures Usable(ops[..n + 1]) <==> Usable(ops[..n]) && (ops[n].Delete? ==> After(ops[..n + 1]) != map[])
  {
    assert ops[..n + 1][..n] == ops[..n];
  }

  /** Every run on a created index refines the finite map, operation by operation. It gets stuck exactly
      if some deletion empties the index; up to that point, and to the end otherwise, each insertion
      reports success iff its key was absent. */
  method Run(order: int, ops: seq<Op>) returns (ix: IxIndexHandle, done: nat, ok: seq<bool>)
    requires order >= 4
    ensures done <= |ops| && |ok| == done
    ensures ix.Contents() == After(ops[..done])
    ensures forall n :: 0 <= n < done && ops[n].Insert? ==> (ok[n] <==> ops[n].key !in After(ops[..n]))
    ensures Usable(ops) ==> done == |ops| && ix.Valid()
    ensures !Usable(ops) ==> !ix.Valid() && ix.root == NO_PAGE && After(ops[..done]) == map[]
  {
    hide Sound, Bounded, Apply, Usable, After, IxIndexHandle.Contents, IxIndexHandle.Valid;
    ix := new IxIndexHandle(order);
    RootReal(ix);
    done, ok := 0, [];
    NothingDone(ops);
    while done < |ops| && ix.root != NO_PAGE
      invariant done <= |ops| && |ok| == done && fresh(ix)
      invariant ix.Contents() == After(ops[..done])
      invariant ix.root != NO_PAGE ==> ix.Valid() && Usable(ops[..done])
      invariant ix.root == NO_PAGE ==> !ix.Valid() && !Usable(ops[..done]) && ix.Contents() == map[]
      invariant forall n :: 0 <= n < done && ops[n].Insert? ==> (ok[n] <==> ops[n].key !in After(ops[..n]))
    {
      AfterStep(ops, done);
      var success := Step(ix, ops[done]);
      ok := ok + [success];
      done := done + 1;
    }
    assert ops[..|ops|] == ops;
    UsablePrefix(ops, done);
  }

  /** In every run, inserting an absent key and then deleting it, with its record id or without, gives back the map;
      deleting it with another record id leaves it stored. */
  lemma {:induction false} InsertThenDelete(ops: seq<Op>, key: int, rid: Rid, given: Option<Rid>)
    requires key !in After(ops)
    ensures given.None? || given.value == rid ==> After(ops + [Insert(key, rid)] + [Delete(key, given)]) == After(ops)
    ensures given.Some? && given.value != rid ==>
              After(ops + [Insert(key, rid)] + [Delete(key, given)]) == After(ops)[key := rid]
  {
    var mid := ops + [Insert(key, rid)];
    assert mid[..|ops|] == ops;
    assert (mid + [Delete(key, given)])[..|mid|] == mid;
    assert After(mid) == After(ops)[key := rid];
    assert After(ops)[key := rid] - {key} == After(ops);
  }

  /** What one operation does to the map, key by key. */
  lemma {:induction false} ApplyKeys(m: map<int, Rid>, op: Op, k: int)
    ensures k != op.key ==> (k in Apply(m, op) <==> k in m) && (k in m ==> Apply(m, op)[k] == m[k])
    ensures op.Insert? ==> op.key in Apply(m, op)
    ensures op.Insert? ==> Apply(m, op)[op.key] == if op.key in m then m[op.key] else op.rid
    ensures op.Delete? && (op.given.None? || (op.key in m && m[op.key] == op.given.value)) ==> op.key !in Apply(m, op)
    ensures op.Delete? && op.given.Some? && op.key in m && m[op.key] != op.given.value ==> Apply(m, op) == m
  {
  }

  lemma {:induction false} NothingDone(ops: seq<Op>)
    ensures After(ops[..0]) == map[] && Usable(ops[..0])
  {
  }

  lemma {:induction false} Deleted(m: map<int, Rid>, m': map<int, Rid>, key: int, given: Option<Rid>)
    requires given.None? || (key in m && m[key] == given.value) ==> key !in m'
    requires given.Some? && key in m && m[key] != given.value ==> m' == m
    requires forall k :: k != key ==> (k in m' <==> k in m)
    requires forall k :: k in m' ==> k in m && m'[k] == m[k]
    ensures m' == Apply(m, Delete(key, given))
  {
    var d := Apply(m, Delete(key, given));
    forall k
      ensures k in m' <==> k in d
      ensures k in m' ==> m'[k] == d[k]
    {
      if k != key {
        assert k in m' <==> k in m;
      }
    }
    assert m'.Keys == d.Keys;
  }

  /** One operation of a run. */
  method Step(ix: IxIndexHandle, op: Op) returns (ok: bool)
    requires ix.Valid()
    modifies ix
    ensures ix.Contents() == Apply(old(ix.Contents()), op)
    ensures op.Insert? ==> (ok <==> op.key !in old(ix.Contents()))
    ensures ix.root != NO_PAGE <==> ix.Valid()
    ensures ix.root == NO_PAGE <==> op.Delete? && ix.Contents() == map[]
  {
    hide Sound, Bounded, IxIndexHandle.Contents, IxIndexHandle.Valid;
    match op {
      case Insert(k, rid) =>
        var leaf;
        leaf, ok := ix.InsertEntry(k, rid);
        RootReal(ix);
      case Delete(k, given) =>
        ghost var m := ix.Contents();
        ix.DeleteEntry(k, given);
        Deleted(m, ix.Contents(), k, given);
        if ix.Contents() != map[] {
          RootReal(ix);
        }
        ok := true;
    }
  }

  lemma {:induction false} UsablePrefix(ops: seq<Op>, n: int)
    requires 0 <= n <= |ops|
    ensures Usable(ops) ==> Usable(ops[..n])
  {
    if n < |ops| {
      UsablePrefix(ops[..|ops| - 1], n);
      assert ops[..|ops| - 1][..n] == ops[..n];
    } else {
      assert ops[..n] == ops;
    }
  }

  lemma {:induction false} RootReal(ix: IxIndexHandle)
    requires ix.Valid()
    ensures ix.root != NO_PAGE
  {
    assert !Shaped(ix.pages, NO_PAGE, ix.g, Attached) by { NoRoot(ix.pages, ix.g); }
  }
}
