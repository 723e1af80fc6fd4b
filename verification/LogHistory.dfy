/** What a log means for the table contents: replaying it, rolling losers back, and why replaying
    from any partly written disk image and then rolling back gives the committed state. */
module LogHistory {
  import opened Basics
  import opened Bytes
  import opened LogRecord

  datatype Addr = Addr(table: bytes, rid: Rid)
  datatype PageKey = PageKey(table: bytes, pageNo: int)

  /** All table files together: which slots hold a record, and which. */
  type Tables = map<Addr, bytes>

  function Lookup(m: Tables, a: Addr): Option<bytes> {
    if a in m then Some(m[a]) else None
  }

  predicate IsData(b: Body) {
    b.Update? || b.Insert? || b.Delete?
  }

  function Target(b: Body): Addr
    requires IsData(b)
  {
    Addr(b.table, b.rid)
  }

  function PageOf(a: Addr): PageKey {
    PageKey(a.table, a.rid.pageNo)
  }

  // The effect of the record file operations. Updating a slot does not make it occupied.

  function UpdateRecord(m: Tables, a: Addr, v: bytes): Tables {
    if a in m then m[a := v] else m
  }

  function InsertRecord(m: Tables, a: Addr, v: bytes): Tables {
    m[a := v]
  }

  function DeleteRecord(m: Tables, a: Addr): Tables {
    m - {a}
  }

  function Redone(m: Tables, b: Body): Tables {
    match b
    case Update(_, after, _, _) => UpdateRecord(m, Target(b), after)
    case Insert(v, _, _) => InsertRecord(m, Target(b), v)
    case Delete(_, _, _) => DeleteRecord(m, Target(b))
    case _ => m
  }

  function Undone(m: Tables, b: Body): Tables {
    match b
    case Update(before, _, _, _) => UpdateRecord(m, Target(b), before)
    case Insert(_, _, _) => DeleteRecord(m, Target(b))
    case Delete(v, _, _) => InsertRecord(m, Target(b), v)
    case _ => m
  }

  // ------------------------------------------------------------- selecting records

  ghost function Filter<T>(s: seq<T>, p: T -> bool): (r: seq<T>)
  {
    if |s| == 0 then [] else
    var n := |s| - 1;
    Filter(s[..n], p) + if p(s[n]) then [s[n]] else []
  }

  lemma {:induction false} FilterAppend<T>(s: seq<T>, x: T, p: T -> bool)
    ensures Filter(s + [x], p) == Filter(s, p) + if p(x) then [x] else []
  {
    assert (s + [x])[..|s|] == s;
  }

  lemma {:induction false} FilterHolds<T>(s: seq<T>, p: T -> bool)
    ensures forall i :: 0 <= i < |Filter(s, p)| ==> p(Filter(s, p)[i]) && Filter(s, p)[i] in s
  {
    if |s| > 0 {
      FilterHolds(s[..|s| - 1], p);
    }
  }

  lemma {:induction false} FilterSwap<T>(s: seq<T>, p: T -> bool, q: T -> bool)
    ensures Filter(Filter(s, p), q) == Filter(Filter(s, q), p)
  {
    if |s| > 0 {
      var n := |s| - 1;
      FilterSwap(s[..n], p, q);
      FilterAppend(Filter(s[..n], p), s[n], q);
      FilterAppend(Filter(s[..n], q), s[n], p);
      assert Filter(s[..n], p) + [] == Filter(s[..n], p) && Filter(s[..n], q) + [] == Filter(s[..n], q);
    }
  }

  lemma {:induction false} FilterAll<T>(s: seq<T>, p: T -> bool)
    requires forall i :: 0 <= i < |s| ==> p(s[i])
    ensures Filter(s, p) == s
  {
    if |s| > 0 {
      FilterAll(s[..|s| - 1], p);
    }
  }

  lemma {:induction false} FilterNone<T>(s: seq<T>, p: T -> bool)
    requires forall i :: 0 <= i < |s| ==> !p(s[i])
    ensures Filter(s, p) == []
  {
    if |s| > 0 {
      FilterNone(s[..|s| - 1], p);
    }
  }

  lemma {:induction false} FilterConcat<T>(s: seq<T>, t: seq<T>, p: T -> bool)
    ensures Filter(s + t, p) == Filter(s, p) + Filter(t, p)
  {
    if |t| == 0 {
      assert s + t == s;
    } else {
      var n := |t| - 1;
      FilterConcat(s, t[..n], p);
      assert (s + t)[..|s| + n] == s + t[..n];
    }
  }

  lemma {:induction false} FilterContains<T>(s: seq<T>, p: T -> bool, i: int)
    requires 0 <= i < |s| && p(s[i])
    ensures s[i] in Filter(s, p)
  {
    if i < |s| - 1 {
      FilterContains(s[..|s| - 1], p, i);
    }
  }

  ghost function OnAddr(a: Addr): Record -> bool {
    (r: Record) => IsData(r.body) && Target(r.body) == a
  }

  ghost function OnPage(p: PageKey): Record -> bool {
    (r: Record) => IsData(r.body) && PageOf(Target(r.body)) == p
  }

  ghost function OfTxn(t: int): Record -> bool {
    (r: Record) => r.tid == t
  }

  ghost function In(ts: set<int>): Record -> bool {
    (r: Record) => r.tid in ts
  }

  ghost function Committed(recs: seq<Record>): set<int> {
    set i | 0 <= i < |recs| && recs[i].body.Commit? :: recs[i].tid
  }

  // ------------------------------------------------------------- replay

  ghost function Replay(m: Tables, recs: seq<Record>): Tables {
    if |recs| == 0 then m else Redone(Replay(m, recs[..|recs| - 1]), recs[|recs| - 1].body)
  }

  /** One slot under one operation. */
  ghost function Step(w: Option<bytes>, b: Body): Option<bytes> {
    match b
    case Update(_, after, _, _) => if w.Some? then Some(after) else None
    case Insert(v, _, _) => Some(v)
    case Delete(_, _, _) => None
    case _ => w
  }

  ghost function Fold(w: Option<bytes>, ops: seq<Record>): Option<bytes> {
    if |ops| == 0 then w else Step(Fold(w, ops[..|ops| - 1]), ops[|ops| - 1].body)
  }

  lemma {:induction false} RedoneSlot(m: Tables, r: Record, a: Addr)
    ensures Lookup(Redone(m, r.body), a) == if OnAddr(a)(r) then Step(Lookup(m, a), r.body) else Lookup(m, a)
  {
  }

  /** Every slot sees exactly the operations on it, in log order. */
  lemma {:induction false} ReplaySlot(m: Tables, recs: seq<Record>, a: Addr)
    ensures Lookup(Replay(m, recs), a) == Fold(Lookup(m, a), Filter(recs, OnAddr(a)))
  {
    hide Redone, Step, Lookup, IsData, Target;
    if |recs| > 0 {
      var n := |recs| - 1;
      ReplaySlot(m, recs[..n], a);
      RedoneSlot(Replay(m, recs[..n]), recs[n], a);
      var f := Filter(recs[..n], OnAddr(a));
      if OnAddr(a)(recs[n]) {
        assert (f + [recs[n]])[..|f|] == f;
      } else {
        assert f + [] == f;
      }
    }
  }

  ghost predicate Decides(ops: seq<Record>) {
    exists i :: 0 <= i < |ops| && (ops[i].body.Insert? || ops[i].body.Delete?)
  }

  lemma {:induction false} FoldPresence(x: Option<bytes>, y: Option<bytes>, ops: seq<Record>)
    requires (x.Some? <==> y.Some?) || Decides(ops)
    ensures Fold(x, ops).Some? <==> Fold(y, ops).Some?
  {
    if |ops| > 0 {
      var n := |ops| - 1;
      if !(ops[n].body.Insert? || ops[n].body.Delete?) {
        assert Decides(ops) ==> Decides(ops[..n]) by {
          assert forall i :: 0 <= i < n ==> ops[..n][i] == ops[i];
        }
        FoldPresence(x, y, ops[..n]);
      }
    }
  }

  /** Occupancy is kept by updates, and otherwise decided by the operations alone. */
  lemma {:induction false} FoldSame(x: Option<bytes>, y: Option<bytes>, ops: seq<Record>)
    requires (x.Some? <==> y.Some?) || Decides(ops)
    requires x == y || |ops| > 0
    requires forall i :: 0 <= i < |ops| ==> IsData(ops[i].body)
    ensures Fold(x, ops) == Fold(y, ops)
  {
    if |ops| > 0 {
      var n := |ops| - 1;
      if ops[n].body.Update? {
        assert Decides(ops) ==> Decides(ops[..n]) by {
          assert forall i :: 0 <= i < n ==> ops[..n][i] == ops[i];
        }
        FoldPresence(x, y, ops[..n]);
      }
    }
  }

  lemma {:induction false} FoldKeeps(w: Option<bytes>, ops: seq<Record>)
    requires !Decides(ops)
    ensures Fold(w, ops).Some? <==> w.Some?
  {
    if |ops| > 0 {
      var n := |ops| - 1;
      assert forall i :: 0 <= i < n ==> ops[..n][i] == ops[i];
      assert ops[n] == ops[n];
      FoldKeeps(w, ops[..n]);
    }
  }

  /** Replaying the operations of a slot on any of its earlier values gives its last value. */
  lemma {:induction false} FoldAgain(w: Option<bytes>, ops: seq<Record>, k: int)
    requires 0 <= k <= |ops| && forall i :: 0 <= i < |ops| ==> IsData(ops[i].body)
    ensures Fold(Fold(w, ops[..k]), ops) == Fold(w, ops)
  {
    if k > 0 {
      if !Decides(ops) {
        assert !Decides(ops[..k]) by {
          assert forall i :: 0 <= i < k ==> ops[..k][i] == ops[i];
        }
        FoldKeeps(w, ops[..k]);
      }
      FoldSame(Fold(w, ops[..k]), w, ops);
    } else {
      assert ops[..0] == [];
    }
  }

  /** Redoing a log twice changes nothing. */
  lemma {:induction false} RedoIdempotent(m: Tables, recs: seq<Record>)
    ensures Replay(Replay(m, recs), recs) == Replay(m, recs)
  {
    forall a
      ensures Lookup(Replay(Replay(m, recs), recs), a) == Lookup(Replay(m, recs), a)
    {
      var ops := Filter(recs, OnAddr(a));
      FilterHolds(recs, OnAddr(a));
      ReplaySlot(m, recs, a);
      ReplaySlot(Replay(m, recs), recs, a);
      FoldAgain(Lookup(m, a), ops, |ops|);
      assert ops[..|ops|] == ops;
    }
    SameTables(Replay(Replay(m, recs), recs), Replay(m, recs));
  }

  // ------------------------------------------------------------- rollback

  ghost function UndoBack(m: Tables, recs: seq<Record>): Tables
    decreases |recs|
  {
    if |recs| == 0 then m else UndoBack(Undone(m, recs[|recs| - 1].body), recs[..|recs| - 1])
  }

  ghost function UnStep(w: Option<bytes>, b: Body): Option<bytes> {
    match b
    case Update(before, _, _, _) => if w.Some? then Some(before) else None
    case Insert(_, _, _) => None
    case Delete(v, _, _) => Some(v)
    case _ => w
  }

  ghost function UnFold(w: Option<bytes>, ops: seq<Record>): Option<bytes>
    decreases |ops|
  {
    if |ops| == 0 then w else UnFold(UnStep(w, ops[|ops| - 1].body), ops[..|ops| - 1])
  }

  lemma {:induction false} UndoneSlot(m: Tables, r: Record, a: Addr)
    ensures Lookup(Undone(m, r.body), a) == if OnAddr(a)(r) then UnStep(Lookup(m, a), r.body) else Lookup(m, a)
  {
  }

  lemma {:induction false} UndoSlot(m: Tables, recs: seq<Record>, a: Addr)
    ensures Lookup(UndoBack(m, recs), a) == UnFold(Lookup(m, a), Filter(recs, OnAddr(a)))
    decreases |recs|
  {
    hide Undone, UnStep, Lookup, IsData, Target;
    if |recs| > 0 {
      var n := |recs| - 1;
      UndoSlot(Undone(m, recs[n].body), recs[..n], a);
      UndoneSlot(m, recs[n], a);
      var f := Filter(recs[..n], OnAddr(a));
      if OnAddr(a)(recs[n]) {
        assert (f + [recs[n]])[..|f|] == f;
      } else {
        assert f + [] == f;
      }
    }
  }

  /** Rolling back the transactions `ts`, the last one first. */
  ghost function UndoAll(m: Tables, recs: seq<Record>, ts: seq<int>): Tables
    decreases |ts|
  {
    if |ts| == 0 then m
    else UndoAll(UndoBack(m, Filter(recs, OfTxn(ts[|ts| - 1]))), recs, ts[..|ts| - 1])
  }

  /** The operation fits the value it found: its before-image is right. */
  ghost predicate LegalStep(w: Option<bytes>, b: Body) {
    match b
    case Update(before, _, _, _) => w == Some(before)
    case Insert(_, _, _) => w == None
    case Delete(v, _, _) => w == Some(v)
    case _ => true
  }

  ghost predicate LegalOps(w: Option<bytes>, ops: seq<Record>) {
    forall i :: 0 <= i < |ops| ==> LegalStep(Fold(w, ops[..i]), ops[i].body)
  }

  /** Rolling legal operations back gives the value they started from. */
  lemma {:induction false} UndoLegal(w: Option<bytes>, ops: seq<Record>)
    requires LegalOps(w, ops)
    ensures UnFold(Fold(w, ops), ops) == w
  {
    hide Step, UnStep, LegalStep;
    if |ops| > 0 {
      var n := |ops| - 1;
      assert LegalStep(Fold(w, ops[..n]), ops[n].body);
      UnStepStep(Fold(w, ops[..n]), ops[n].body);
      LegalPrefix(w, ops, n);
      UndoLegal(w, ops[..n]);
    }
  }

  lemma {:induction false} UnStepStep(w: Option<bytes>, b: Body)
    requires LegalStep(w, b)
    ensures UnStep(Step(w, b), b) == w
  {
  }

  lemma {:induction false} LegalPrefix(w: Option<bytes>, ops: seq<Record>, n: int)
    requires LegalOps(w, ops) && 0 <= n <= |ops|
    ensures LegalOps(w, ops[..n])
  {
    hide Step, LegalStep, Fold;
    forall i | 0 <= i < n
      ensures LegalStep(Fold(w, ops[..n][..i]), ops[..n][i].body)
    {
      assert ops[..n][..i] == ops[..i];
      assert LegalStep(Fold(w, ops[..i]), ops[i].body);
    }
  }

  // ------------------------------------------------------------- histories

  /** Record numbers are consecutive, each transaction starts with its Begin record, chains its records
      through prev, and logs nothing after its Commit. */
  ghost predicate Chained(recs: seq<Record>, base: int) {
    && base >= 0
    && (forall i :: 0 <= i < |recs| ==> recs[i].lsn == base + i && !recs[i].body.Checkpoint?)
    && (forall t :: TxnOk(Filter(recs, OfTxn(t))))
  }

  ghost predicate TxnOk(own: seq<Record>) {
    && (forall k :: 0 <= k < |own| ==> (own[k].body.Begin? <==> k == 0))
    && (forall k :: 0 <= k < |own| && own[k].body.Commit? ==> k == |own| - 1)
    && (|own| > 0 ==> own[0].prev == -1)
    && (forall j, k :: 0 <= j < |own| && 0 <= k < |own| && k == j + 1 ==> own[k].prev == own[j].lsn)
  }

  lemma {:induction false} SameTables(x: Tables, y: Tables)
    requires forall a :: Lookup(x, a) == Lookup(y, a)
    ensures x == y
  {
    forall a
      ensures a in x <==> a in y
      ensures a in x ==> x[a] == y[a]
    {
      assert Lookup(x, a) == Lookup(y, a);
    }
  }
}
