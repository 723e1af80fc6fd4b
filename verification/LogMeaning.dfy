/** What redo, undo and recovery mean for the slots, in terms of the records of the log alone. */
module LogMeaning {
  import opened Basics
  import opened Bytes
  import opened LogRecord
  import opened LogHistory
  import opened LogOutcome

  // ------------------------------------------------------------- one record

  /** The state is one that the operation can be applied to: it finds the value it logged. */
  ghost predicate Before(m: Tables, b: Body)
    requires IsData(b)
  {
    match b
    case Update(before, _, rid, table) => Addr(table, rid) in m && m[Addr(table, rid)] == before
    case Insert(_, rid, table) => Addr(table, rid) !in m
    case Delete(v, rid, table) => Addr(table, rid) in m && m[Addr(table, rid)] == v
  }

  /** The state is one that the operation leads to. */
  ghost predicate After(m: Tables, b: Body)
    requires IsData(b)
  {
    match b
    case Update(_, after, rid, table) => Addr(table, rid) in m && m[Addr(table, rid)] == after
    case Insert(v, rid, table) => Addr(table, rid) in m && m[Addr(table, rid)] == v
    case Delete(_, rid, table) => Addr(table, rid) !in m
  }

  /** Redoing an operation leads from a state before it to one after it and touches one slot; undoing it leads back. */
  lemma {:induction false} RedoUndo(m: Tables, b: Body)
    requires IsData(b) && Before(m, b)
    ensures After(Redone(m, b), b) && Undone(Redone(m, b), b) == m
    ensures forall a :: a != Addr(b.table, b.rid) ==> Lookup(Redone(m, b), a) == Lookup(m, a)
  {
    var a := Addr(b.table, b.rid);
    assert b.Insert? ==> m[a := b.value] - {a} == m;
    assert b.Delete? ==> (m - {a})[a := b.value] == m;
    assert b.Update? ==> m[a := b.after][a := b.before] == m;
  }

  /** And the other way round. */
  lemma {:induction false} UndoRedo(m: Tables, b: Body)
    requires IsData(b) && After(m, b)
    ensures Before(Undone(m, b), b) && Redone(Undone(m, b), b) == m
    ensures forall a :: a != Addr(b.table, b.rid) ==> Lookup(Undone(m, b), a) == Lookup(m, a)
  {
    var a := Addr(b.table, b.rid);
    assert b.Insert? ==> (m - {a})[a := b.value] == m;
    assert b.Delete? ==> m[a := b.value] - {a} == m;
    assert b.Update? ==> m[a := b.before][a := b.after] == m;
  }

  // ------------------------------------------------------------- the last operation on a slot

  /** Record `n` is the last operation on its slot, and everyone who wrote the slot has a commit record. */
  ghost predicate LastWinning(recs: seq<Record>, n: int) {
    && 0 <= n < |recs| && IsData(recs[n].body)
    && (forall i :: n < i < |recs| && IsData(recs[i].body) ==> !SameSlot(recs[i].body, recs[n].body))
    && (forall i :: 0 <= i <= n && IsData(recs[i].body) && SameSlot(recs[i].body, recs[n].body) ==>
          Commits(recs, recs[i].tid))
  }

  ghost predicate SameSlot(b: Body, c: Body)
    requires IsData(b) && IsData(c)
  {
    b.table == c.table && b.rid == c.rid
  }

  ghost predicate Commits(recs: seq<Record>, t: int) {
    exists i :: 0 <= i < |recs| && recs[i].tid == t && recs[i].body.Commit?
  }

  /** The slot of an operation shows its effect: what was deleted is gone, what was inserted is there, and what was
      updated, if it is there, has the new value. */
  ghost predicate ShowsEffect(m: Tables, b: Body)
    requires IsData(b)
  {
    var a := Addr(b.table, b.rid);
    match b
    case Update(_, after, _, _) => a in m ==> m[a] == after
    case Insert(v, _, _) => a in m && m[a] == v
    case Delete(_, _, _) => a !in m
  }

  /** The slot of an operation shows what was there before it. */
  ghost predicate ShowsBefore(m: Tables, b: Body)
    requires IsData(b)
  {
    var a := Addr(b.table, b.rid);
    match b
    case Update(before, _, _, _) => a in m ==> m[a] == before
    case Insert(_, _, _) => a !in m
    case Delete(v, _, _) => a in m && m[a] == v
  }

  lemma {:induction false} SlotMore(w: Option<bytes>, recs: seq<Record>, r: Record, a: Addr)
    ensures Fold(w, SlotOps(recs + [r], a)) ==
            if OnAddr(a)(r) then Step(Fold(w, SlotOps(recs, a)), r.body) else Fold(w, SlotOps(recs, a))
  {
    hide Step, Filter;
    FilterAppend(recs, r, OnAddr(a));
    var f := SlotOps(recs, a);
    assert (f + [r])[..|f|] == f && f + [] == f;
  }

  /** At the end of the log a slot shows its last operation. */
  lemma {:induction false} LastOperation(w: Option<bytes>, recs: seq<Record>, a: Addr, n: int)
    requires 0 <= n < |recs| && OnAddr(a)(recs[n]) && forall i :: n < i < |recs| ==> !OnAddr(a)(recs[i])
    ensures var x, b := Fold(w, SlotOps(recs, a)), recs[n].body;
            && (b.Insert? ==> x == Some(b.value)) && (b.Delete? ==> x == None)
            && (b.Update? && x.Some? ==> x.value == b.after)
  {
    hide SlotOps, Fold;
    var k := |recs| - 1;
    assert recs == recs[..k] + [recs[k]];
    SlotMore(w, recs[..k], recs[k], a);
    if n < k {
      LastOperation(w, recs[..k], a, n);
    }
  }

  lemma {:induction false} NoSlotOps(a: Addr)
    ensures SlotOps([], a) == []
  {
  }

  /** Whether a slot is occupied at the end of the log: the last insertion or deletion decides, and without one it is as
      at the start. */
  lemma {:induction false} Occupancy(w: Option<bytes>, recs: seq<Record>, a: Addr, n: int)
    requires -1 <= n < |recs| && (n >= 0 ==> OnAddr(a)(recs[n]) && !recs[n].body.Update?)
    requires forall i :: n < i < |recs| && OnAddr(a)(recs[i]) ==> recs[i].body.Update?
    ensures Fold(w, SlotOps(recs, a)).Some? <==> if n == -1 then w.Some? else recs[n].body.Insert?
  {
    hide SlotOps;
    if |recs| == 0 {
      NoSlotOps(a);
    } else {
      var k := |recs| - 1;
      assert recs == recs[..k] + [recs[k]];
      SlotMore(w, recs[..k], recs[k], a);
      if n < k {
        Occupancy(w, recs[..k], a, n);
      }
    }
  }

  // ------------------------------------------------------------- slots that no loser wrote

  lemma {:induction false} NothingToUndo(recs: seq<Record>, ts: seq<int>, a: Addr)
    requires forall k, i :: 0 <= k < |ts| && 0 <= i < |recs| && OnAddr(a)(recs[i]) ==> recs[i].tid != ts[k]
    ensures OpsOf(recs, ts, a) == []
  {
    if |ts| > 0 {
      var n := |ts| - 1;
      NothingToUndo(recs, ts[..n], a);
      NoOwnOps(recs, ts[n], a);
    }
  }

  lemma {:induction false} NoOwnOps(recs: seq<Record>, t: int, a: Addr)
    requires forall i :: 0 <= i < |recs| && OnAddr(a)(recs[i]) ==> recs[i].tid != t
    ensures TxnOps(recs, t, a) == []
  {
    FilterHolds(recs, OfTxn(t));
    FilterNone(Filter(recs, OfTxn(t)), OnAddr(a));
  }

  /** The outcome in a slot that only transactions with a commit record wrote. */
  lemma {:induction false} WinnersOutcome(w: Option<bytes>, recs: seq<Record>, n: int)
    requires LastWinning(recs, n)
    ensures var a, b := Addr(recs[n].body.table, recs[n].body.rid), recs[n].body; var x := Outcome(w, recs, a);
            && (b.Insert? ==> x == Some(b.value)) && (b.Delete? ==> x == None)
            && (b.Update? && x.Some? ==> x.value == b.after)
  {
    hide SlotOps, Fold, OpsOf, Losers;
    var a := Addr(recs[n].body.table, recs[n].body.rid);
    LosersOpen(recs);
    forall k, i | 0 <= k < |Losers(recs)| && 0 <= i < |recs| && OnAddr(a)(recs[i])
      ensures recs[i].tid != Losers(recs)[k]
    {
      assert Losers(recs)[k] in Losers(recs);
      assert SameSlot(recs[i].body, recs[n].body) && i <= n;
    }
    NothingToUndo(recs, Losers(recs), a);
    LastOperation(w, recs, a, n);
  }

  lemma {:induction false} LosersOpen(recs: seq<Record>)
    ensures forall t :: t in Losers(recs) ==> !Commits(recs, t)
  {
    hide Begun;
    FilterHolds(Begun(recs), NoCommit(recs));
    forall t | t in Losers(recs)
      ensures !Commits(recs, t)
    {
      assert t !in Committed(recs);
    }
  }

  // ------------------------------------------------------------- slots that a loser wrote

  /** Record `b` begins a transaction without a commit record, `j` is its first operation on a slot, and nobody else
      without a commit record who began before it wrote the slot. */
  ghost predicate FirstLosing(recs: seq<Record>, b: int, j: int) {
    && 0 <= b < |recs| && recs[b].body.Begin? && !Commits(recs, recs[b].tid)
    && 0 <= j < |recs| && IsData(recs[j].body) && recs[j].tid == recs[b].tid
    && (forall i :: 0 <= i < j && IsData(recs[i].body) && SameSlot(recs[i].body, recs[j].body) ==>
          recs[i].tid != recs[j].tid)
    && (forall i, k :: (&& 0 <= i < b && recs[i].body.Begin? && !Commits(recs, recs[i].tid)
                        && 0 <= k < |recs| && IsData(recs[k].body) && SameSlot(recs[k].body, recs[j].body)) ==>
          recs[k].tid != recs[i].tid)
  }

  lemma {:induction false} BegunConcat(s: seq<Record>, t: seq<Record>)
    ensures Begun(s + t) == Begun(s) + Begun(t)
  {
    if |t| == 0 {
      assert s + t == s;
    } else {
      var n := |t| - 1;
      BegunConcat(s, t[..n]);
      assert (s + t)[..|s| + n] == s + t[..n];
    }
  }

  lemma {:induction false} BegunAt(recs: seq<Record>)
    ensures forall t :: t in Begun(recs) ==> exists i :: 0 <= i < |recs| && recs[i].body.Begin? && recs[i].tid == t
  {
    if |recs| > 0 {
      var n := |recs| - 1;
      BegunAt(recs[..n]);
      forall t | t in Begun(recs)
        ensures exists i :: 0 <= i < |recs| && recs[i].body.Begin? && recs[i].tid == t
      {
        if t in Begun(recs[..n]) {
          var i :| 0 <= i < n && recs[..n][i].body.Begin? && recs[..n][i].tid == t;
          assert recs[i].body.Begin?;
        } else {
          assert recs[n].body.Begin?;
        }
      }
    }
  }

  lemma {:induction false} OpsOfConcat(recs: seq<Record>, s: seq<int>, t: seq<int>, a: Addr)
    ensures OpsOf(recs, s + t, a) == OpsOf(recs, s, a) + OpsOf(recs, t, a)
  {
    hide TxnOps;
    if |t| == 0 {
      assert s + t == s;
    } else {
      var n := |t| - 1;
      OpsOfConcat(recs, s, t[..n], a);
      assert (s + t)[..|s| + n] == s + t[..n];
    }
  }

  /** The losers begun before record `b`, the one begun there, and the others. */
  lemma {:induction false} LosersSplit(recs: seq<Record>, b: int) returns (first: seq<int>, rest: seq<int>)
    requires 0 <= b < |recs| && recs[b].body.Begin? && recs[b].tid !in Committed(recs)
    ensures Losers(recs) == first + [recs[b].tid] + rest
    ensures forall t :: t in first ==>
              t !in Committed(recs) && exists i :: 0 <= i < b && recs[i].body.Begin? && recs[i].tid == t
  {
    hide Filter, Committed;
    var p, x, y, z := NoCommit(recs), recs[..b], [recs[b]], recs[b + 1..];
    assert recs == x + y + z;
    BegunConcat(x + y, z);
    BegunConcat(x, y);
    assert y[..0] == [] && Begun(y) == [recs[b].tid];
    first, rest := Filter(Begun(x), p), Filter(Begun(z), p);
    FilterConcat(Begun(x) + Begun(y), Begun(z), p);
    FilterConcat(Begun(x), Begun(y), p);
    FilterAll([recs[b].tid], p);
    FilterHolds(Begun(x), p);
    BegunAt(x);
    forall t | t in first
      ensures t !in Committed(recs) && exists i :: 0 <= i < b && recs[i].body.Begin? && recs[i].tid == t
    {
      assert t in Begun(x);
      var i :| 0 <= i < |x| && x[i].body.Begin? && x[i].tid == t;
      assert recs[i] == x[i];
    }
  }

  lemma {:induction false} FirstOwnOp(recs: seq<Record>, a: Addr, j: int)
    requires 0 <= j < |recs| && OnAddr(a)(recs[j])
    requires forall i :: 0 <= i < j && OnAddr(a)(recs[i]) ==> recs[i].tid != recs[j].tid
    ensures |TxnOps(recs, recs[j].tid, a)| > 0 && TxnOps(recs, recs[j].tid, a)[0] == recs[j]
  {
    hide Filter;
    var t := recs[j].tid;
    var x, y, z := recs[..j], [recs[j]], recs[j + 1..];
    assert recs == x + y + z;
    FilterConcat(x + y, z, OfTxn(t));
    FilterConcat(x, y, OfTxn(t));
    FilterAll(y, OfTxn(t));
    var fx, fz := Filter(x, OfTxn(t)), Filter(z, OfTxn(t));
    FilterConcat(fx + y, fz, OnAddr(a));
    FilterConcat(fx, y, OnAddr(a));
    FilterAll(y, OnAddr(a));
    NoOwnOps(x, t, a);
    assert Filter(fx, OnAddr(a)) == [];
  }

  /** The outcome in a slot that a loser wrote: what was there before the loser begun first wrote it. */
  lemma {:induction false} LoserOutcome(w: Option<bytes>, recs: seq<Record>, b: int, j: int)
    requires FirstLosing(recs, b, j)
    ensures var a, c := Addr(recs[j].body.table, recs[j].body.rid), recs[j].body; var x := Outcome(w, recs, a);
            && (c.Insert? ==> x == None) && (c.Delete? ==> x == Some(c.value))
            && (c.Update? && x.Some? ==> x.value == c.before)
  {
    hide SlotOps, Fold, OpsOf, Losers, TxnOps, Committed;
    var a, t := Addr(recs[j].body.table, recs[j].body.rid), recs[b].tid;
    CommitsIff(recs);
    var first, rest := LosersSplit(recs, b);
    forall l, k | 0 <= l < |first| && 0 <= k < |recs| && OnAddr(a)(recs[k])
      ensures recs[k].tid != first[l]
    {
      var u := first[l];
      assert u in first;
      var i :| 0 <= i < b && recs[i].body.Begin? && recs[i].tid == u;
      assert SameSlot(recs[k].body, recs[j].body);
    }
    NothingToUndo(recs, first, a);
    forall i | 0 <= i < j && OnAddr(a)(recs[i])
      ensures recs[i].tid != recs[j].tid
    {
      assert SameSlot(recs[i].body, recs[j].body);
    }
    FirstOwnOp(recs, a, j);
    OpsOfConcat(recs, first + [t], rest, a);
    OpsOfConcat(recs, first, [t], a);
    OneOps(recs, t, a);
    assert OpsOf(recs, Losers(recs), a)[0] == recs[j];
  }

  lemma {:induction false} CommitsIff(recs: seq<Record>)
    ensures forall t :: t in Committed(recs) <==> Commits(recs, t)
  {
  }

  lemma {:induction false} OneOps(recs: seq<Record>, t: int, a: Addr)
    ensures OpsOf(recs, [t], a) == TxnOps(recs, t, a)
  {
    assert [t][..0] == [];
  }

  // ------------------------------------------------------------- the tables after recovery

  /** Tables that hold the outcome show, in every slot, the last operation or what the first loser found. */
  lemma {:induction false} OutcomeMeaning(tables: Tables, m: Tables, recs: seq<Record>)
    requires forall a :: Lookup(tables, a) == Outcome(Lookup(m, a), recs, a)
    ensures forall n :: LastWinning(recs, n) ==> ShowsEffect(tables, recs[n].body)
    ensures forall b, j :: FirstLosing(recs, b, j) ==> ShowsBefore(tables, recs[j].body)
  {
    hide Outcome;
    forall n | LastWinning(recs, n)
      ensures IsData(recs[n].body) && ShowsEffect(tables, recs[n].body)
    {
      WinnersOutcome(Lookup(m, Addr(recs[n].body.table, recs[n].body.rid)), recs, n);
    }
    forall b, j | FirstLosing(recs, b, j)
      ensures IsData(recs[j].body) && ShowsBefore(tables, recs[j].body)
    {
      LoserOutcome(Lookup(m, Addr(recs[j].body.table, recs[j].body.rid)), recs, b, j);
    }
  }
}
