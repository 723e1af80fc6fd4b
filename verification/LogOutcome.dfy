/** What redo and undo make of a log, slot by slot, and when that is what the transactions that committed did. */
module LogOutcome {
  import opened Basics
  import opened Bytes
  import opened LogRecord
  import opened LogHistory

  // ------------------------------------------------------------- transactions

  /** Transactions in the order of their Begin records. */
  ghost function Begun(recs: seq<Record>): seq<int> {
    if |recs| == 0 then []
    else Begun(recs[..|recs| - 1]) + if recs[|recs| - 1].body.Begin? then [recs[|recs| - 1].tid] else []
  }

  ghost function Aborted(recs: seq<Record>): set<int> {
    set i | 0 <= i < |recs| && recs[i].body.Abort? :: recs[i].tid
  }

  /** Transactions that committed without having been rolled back before. */
  ghost function Winners(recs: seq<Record>): set<int> {
    Committed(recs) - Aborted(recs)
  }

  ghost function NoCommit(recs: seq<Record>): int -> bool {
    t => t !in Committed(recs)
  }

  /** The transactions that undo rolls back, in the order of their Begin records: those without a commit record. */
  ghost function Losers(recs: seq<Record>): seq<int> {
    Filter(Begun(recs), NoCommit(recs))
  }

  // ------------------------------------------------------------- operations on a slot

  ghost function SlotOps(recs: seq<Record>, a: Addr): seq<Record> {
    Filter(recs, OnAddr(a))
  }

  ghost function TxnOps(recs: seq<Record>, t: int, a: Addr): seq<Record> {
    Filter(Filter(recs, OfTxn(t)), OnAddr(a))
  }

  /** The operations of the transactions `ts`, one transaction after the other. Undo takes them from back to front. */
  ghost function OpsOf(recs: seq<Record>, ts: seq<int>, a: Addr): seq<Record> {
    if |ts| == 0 then [] else OpsOf(recs, ts[..|ts| - 1], a) + TxnOps(recs, ts[|ts| - 1], a)
  }

  lemma {:induction false} UnFoldConcat(x: Option<bytes>, s: seq<Record>, t: seq<Record>)
    ensures UnFold(x, s + t) == UnFold(UnFold(x, t), s)
    decreases |t|
  {
    hide UnStep;
    if |t| == 0 {
      assert s + t == s;
    } else {
      var n := |t| - 1;
      UnFoldConcat(UnStep(x, t[n].body), s, t[..n]);
      assert (s + t)[..|s| + n] == s + t[..n];
    }
  }

  lemma {:induction false} UndoAllSlot(m: Tables, recs: seq<Record>, ts: seq<int>, a: Addr)
    ensures Lookup(UndoAll(m, recs, ts), a) == UnFold(Lookup(m, a), OpsOf(recs, ts, a))
    decreases |ts|
  {
    hide Filter, UndoBack, Lookup, UnFold;
    if |ts| == 0 {
      UnFoldNone(Lookup(m, a));
    } else {
      var n := |ts| - 1;
      var m' := UndoBack(m, Filter(recs, OfTxn(ts[n])));
      UndoSlot(m, Filter(recs, OfTxn(ts[n])), a);
      UndoAllSlot(m', recs, ts[..n], a);
      UnFoldConcat(Lookup(m, a), OpsOf(recs, ts[..n], a), TxnOps(recs, ts[n], a));
    }
  }

  lemma {:induction false} UnFoldNone(x: Option<bytes>)
    ensures UnFold(x, []) == x
  {
  }

  // ------------------------------------------------------------- the exact outcome

  /** Whether a slot is occupied after undoing `ops` from back to front, if it was `there` before: the first operation
      that inserted or deleted decides. */
  ghost function StillThere(there: bool, ops: seq<Record>): bool {
    if |ops| == 0 then there
    else if ops[0].body.Insert? then false
    else if ops[0].body.Delete? then true
    else StillThere(there, ops[1..])
  }

  /** The value an operation logged as the one it replaced. Undoing an update does not bring back a record. */
  ghost function BeforeImage(b: Body, there: bool): Option<bytes> {
    match b
    case Update(before, _, _, _) => if there then Some(before) else None
    case Delete(v, _, _) => Some(v)
    case _ => None
  }

  /** What recovery leaves in a slot: what the log leaves there, if no loser wrote it, and otherwise the value that the
      loser begun first logged as the one it replaced with its first operation on the slot. */
  ghost function Outcome(w: Option<bytes>, recs: seq<Record>, a: Addr): Option<bytes> {
    var last, undone := Fold(w, SlotOps(recs, a)), OpsOf(recs, Losers(recs), a);
    if |undone| == 0 then last else BeforeImage(undone[0].body, StillThere(last.Some?, undone[1..]))
  }

  lemma {:induction false} UnFoldThere(x: Option<bytes>, ops: seq<Record>)
    requires forall i :: 0 <= i < |ops| ==> IsData(ops[i].body)
    ensures UnFold(x, ops).Some? <==> StillThere(x.Some?, ops)
  {
    if |ops| > 0 {
      UnFoldFirst(x, ops);
      UnFoldThere(x, ops[1..]);
    }
  }

  lemma {:induction false} UnFoldFirst(x: Option<bytes>, ops: seq<Record>)
    requires |ops| > 0
    ensures UnFold(x, ops) == UnStep(UnFold(x, ops[1..]), ops[0].body)
  {
    assert ops == [ops[0]] + ops[1..];
    UnFoldConcat(x, [ops[0]], ops[1..]);
    assert [ops[0]][..0] == [];
  }

  lemma {:induction false} UnFoldOutcome(x: Option<bytes>, ops: seq<Record>)
    requires forall i :: 0 <= i < |ops| ==> IsData(ops[i].body)
    ensures UnFold(x, ops) == if |ops| == 0 then x else BeforeImage(ops[0].body, StillThere(x.Some?, ops[1..]))
  {
    if |ops| > 0 {
      UnFoldFirst(x, ops);
      UnFoldThere(x, ops[1..]);
    }
  }

  lemma {:induction false} OpsOfData(recs: seq<Record>, ts: seq<int>, a: Addr)
    ensures forall i :: 0 <= i < |OpsOf(recs, ts, a)| ==> IsData(OpsOf(recs, ts, a)[i].body)
  {
    if |ts| > 0 {
      OpsOfData(recs, ts[..|ts| - 1], a);
      FilterHolds(Filter(recs, OfTxn(ts[|ts| - 1])), OnAddr(a));
    }
  }

  // ------------------------------------------------------------- disk images

  datatype Act = Do(op: int) | Back(op: int)

  /** A slot after some of its operations have been done and taken back, in any order. */
  ghost function Acted(w: Option<bytes>, ops: seq<Record>, acts: seq<Act>): Option<bytes> {
    if |acts| == 0 then w else
    var x, act := Acted(w, ops, acts[..|acts| - 1]), acts[|acts| - 1];
    if !(0 <= act.op < |ops|) then x
    else if act.Do? then Step(x, ops[act.op].body) else UnStep(x, ops[act.op].body)
  }

  /** Each slot of the disk image holds a value that doing and taking back logged operations on it can lead to. */
  ghost predicate PartlyWritten(disk: Tables, m: Tables, recs: seq<Record>) {
    forall a :: SlotWritten(Lookup(disk, a), Lookup(m, a), SlotOps(recs, a))
  }

  ghost predicate SlotWritten(now: Option<bytes>, w: Option<bytes>, ops: seq<Record>) {
    exists acts :: now == Acted(w, ops, acts)
  }

  lemma {:induction false} ActedKeeps(w: Option<bytes>, ops: seq<Record>, acts: seq<Act>)
    requires forall i :: 0 <= i < |ops| ==> IsData(ops[i].body)
    ensures |ops| == 0 ==> Acted(w, ops, acts) == w
    ensures !Decides(ops) ==> (Acted(w, ops, acts).Some? <==> w.Some?)
  {
    if |acts| > 0 {
      ActedKeeps(w, ops, acts[..|acts| - 1]);
    }
  }

  /** Redo brings a slot from any such value to the value at the end of the log. */
  lemma {:induction false} RedoComplete(disk: Tables, m: Tables, recs: seq<Record>, a: Addr)
    requires PartlyWritten(disk, m, recs)
    ensures Fold(Lookup(disk, a), SlotOps(recs, a)) == Fold(Lookup(m, a), SlotOps(recs, a))
  {
    hide Fold;
    var ops := SlotOps(recs, a);
    FilterHolds(recs, OnAddr(a));
    assert SlotWritten(Lookup(disk, a), Lookup(m, a), ops);
    var acts :| Lookup(disk, a) == Acted(Lookup(m, a), ops, acts);
    ActedKeeps(Lookup(m, a), ops, acts);
    FoldSame(Lookup(disk, a), Lookup(m, a), ops);
  }

  /** For every log and every such image, redo and undo leave exactly the outcome in each slot. */
  lemma {:induction false} RecoveryOutcome(disk: Tables, m: Tables, recs: seq<Record>, redone: Tables, a: Addr)
    requires PartlyWritten(disk, m, recs) && Lookup(redone, a) == Fold(Lookup(disk, a), SlotOps(recs, a))
    ensures Lookup(UndoAll(redone, recs, Losers(recs)), a) == Outcome(Lookup(m, a), recs, a)
  {
    hide Fold, Lookup, UndoAll, OpsOf, SlotOps, StillThere, BeforeImage;
    RedoComplete(disk, m, recs, a);
    UndoAllSlot(redone, recs, Losers(recs), a);
    OpsOfData(recs, Losers(recs), a);
    UnFoldOutcome(Lookup(redone, a), OpsOf(recs, Losers(recs), a));
  }

  /** The value that the winners' operations give a slot. */
  ghost function WinnersValue(w: Option<bytes>, recs: seq<Record>, a: Addr): Option<bytes> {
    Fold(w, Filter(SlotOps(recs, a), In(Winners(recs))))
  }

  /** In every slot the outcome is the winners' value. */
  ghost predicate Recovers(m: Tables, recs: seq<Record>) {
    forall a :: Outcome(Lookup(m, a), recs, a) == WinnersValue(Lookup(m, a), recs, a)
  }

  /** Recovery gives the checkpoint state with the winners' operations applied in order exactly if, in every slot that a
      loser wrote, the value logged by the loser begun first is the winners' value, and every other slot ends up
      with the winners' value. */
  lemma {:induction false} RecoveryRight(disk: Tables, m: Tables, recs: seq<Record>, redone: Tables)
    requires PartlyWritten(disk, m, recs)
    requires forall a :: Lookup(redone, a) == Fold(Lookup(disk, a), SlotOps(recs, a))
    ensures UndoAll(redone, recs, Losers(recs)) == Replay(m, Filter(recs, In(Winners(recs)))) <==> Recovers(m, recs)
  {
    hide Lookup, UndoAll, Outcome, WinnersValue, PartlyWritten, Replay, SlotOps, Winners, Losers, Fold, Filter;
    var result, wanted := UndoAll(redone, recs, Losers(recs)), Replay(m, Filter(recs, In(Winners(recs))));
    forall a
      ensures Lookup(result, a) == Outcome(Lookup(m, a), recs, a)
      ensures Lookup(wanted, a) == WinnersValue(Lookup(m, a), recs, a)
    {
      RecoveryOutcome(disk, m, recs, redone, a);
      WinnersSlot(m, recs, a);
    }
    if Recovers(m, recs) {
      SameTables(result, wanted);
    }
  }

  lemma {:induction false} WinnersSlot(m: Tables, recs: seq<Record>, a: Addr)
    ensures Lookup(Replay(m, Filter(recs, In(Winners(recs)))), a) == WinnersValue(Lookup(m, a), recs, a)
  {
    hide Lookup, Replay, Winners, Fold, Filter;
    ReplaySlot(m, Filter(recs, In(Winners(recs))), a);
    FilterSwap(recs, In(Winners(recs)), OnAddr(a));
  }
}
