/** Histories in which recovery does not give the winners' value. */
module LogExamples {
  import opened Basics
  import opened Bytes
  import opened LogRecord
  import opened LogHistory
  import opened LogOutcome
  import opened LogRunning
  import opened LogRecovery
  import opened LogMeaning
  import TP = TwoPhase

  ghost function Upd(a: Addr, x: bytes, y: bytes): Body {
    Update(x, y, a.rid, a.table)
  }

  ghost function Ins(a: Addr, x: bytes): Body {
    Insert(x, a.rid, a.table)
  }

  // ------------------------------------------------------------- selecting from a given list

  lemma {:induction false} FilterOnly<T>(s: seq<T>, p: T -> bool, i: int)
    requires 0 <= i < |s| && p(s[i]) && forall k :: 0 <= k < |s| && k != i ==> !p(s[k])
    ensures Filter(s, p) == [s[i]]
  {
    assert s == s[..i] + [s[i]] + s[i + 1..];
    FilterConcat(s[..i] + [s[i]], s[i + 1..], p);
    FilterAppend(s[..i], s[i], p);
    FilterNone(s[..i], p);
    FilterNone(s[i + 1..], p);
  }

  lemma {:induction false} FilterTwo<T>(s: seq<T>, p: T -> bool, i: int, j: int)
    requires 0 <= i < j < |s| && p(s[i]) && p(s[j]) && forall k :: 0 <= k < |s| && k != i && k != j ==> !p(s[k])
    ensures Filter(s, p) == [s[i], s[j]]
  {
    assert s == s[..j] + [s[j]] + s[j + 1..];
    FilterConcat(s[..j] + [s[j]], s[j + 1..], p);
    FilterAppend(s[..j], s[j], p);
    FilterOnly(s[..j], p, i);
    FilterNone(s[j + 1..], p);
  }

  /** A stretch of the log that only its first record begins. */
  lemma {:induction false} BegunFirst(s: seq<Record>)
    requires |s| > 0 && s[0].body.Begin? && forall i :: 0 < i < |s| ==> !s[i].body.Begin?
    ensures Begun(s) == [s[0].tid]
  {
    if |s| > 1 {
      BegunFirst(s[..|s| - 1]);
    } else {
      assert s[..0] == [];
    }
  }

  lemma {:induction false} Stretch(recs: seq<Record>, t: int, from: int, to: int)
    requires 0 <= from <= to <= |recs|
    requires forall k :: 0 <= k < |recs| ==> (recs[k].tid == t <==> from <= k < to)
    ensures Filter(recs, OfTxn(t)) == recs[from..to]
  {
    hide Filter;
    var own := recs[from..to];
    assert recs == recs[..from] + own + recs[to..];
    FilterConcat(recs[..from] + own, recs[to..], OfTxn(t));
    FilterConcat(recs[..from], own, OfTxn(t));
    FilterNone(recs[..from], OfTxn(t));
    FilterNone(recs[to..], OfTxn(t));
    FilterAll(own, OfTxn(t));
  }

  /** The operations of a transaction whose records are a stretch of the log. */
  lemma {:induction false} OpsInStretch(recs: seq<Record>, t: int, a: Addr, from: int, to: int, i: int)
    requires 0 <= from <= i < to <= |recs| && OnAddr(a)(recs[i])
    requires forall k :: 0 <= k < |recs| ==> (recs[k].tid == t <==> from <= k < to)
    requires forall k :: from <= k < to && k != i ==> !OnAddr(a)(recs[k])
    ensures TxnOps(recs, t, a) == [recs[i]]
  {
    hide Filter;
    Stretch(recs, t, from, to);
    FilterOnly(recs[from..to], OnAddr(a), i - from);
  }

  lemma {:induction false} OneTxn(recs: seq<Record>, t: int, a: Addr)
    ensures OpsOf(recs, [t], a) == TxnOps(recs, t, a) && OpsOf(recs, [], a) == []
  {
    assert [t][..0] == [];
  }

  lemma {:induction false} FoldOne(w: Option<bytes>, r: Record)
    ensures Fold(w, [r]) == Step(w, r.body)
  {
    assert [r][..0] == [];
  }

  lemma {:induction false} FoldTwo(w: Option<bytes>, r: Record, s: Record)
    ensures Fold(w, [r, s]) == Step(Step(w, r.body), s.body)
  {
    assert [r, s][..1] == [r];
    FoldOne(w, r);
  }

  /** Transaction 1, which has no commit record, writes the slot once; then transaction 2 does and commits. */
  ghost predicate LoserThenWinner(recs: seq<Record>, a: Addr, i: int, b: int, j: int) {
    && 0 <= i < b < j < |recs| && OnAddr(a)(recs[i]) && OnAddr(a)(recs[j])
    && (forall k :: 0 <= k < |recs| && k != i && k != j ==> !OnAddr(a)(recs[k]))
    && (forall k :: 0 <= k < |recs| ==> recs[k].tid == if k < b then 1 else 2)
    && (forall k :: 0 <= k < |recs| ==> (recs[k].body.Begin? <==> k == 0 || k == b))
    && (forall k :: 0 <= k < |recs| ==> (recs[k].body.Commit? <==> k == |recs| - 1))
    && (forall k :: b <= k < |recs| ==> !recs[k].body.Abort?)
  }

  lemma {:induction false} LoserThenWinnerTxns(recs: seq<Record>, a: Addr, i: int, b: int, j: int)
    requires LoserThenWinner(recs, a, i, b, j)
    ensures Committed(recs) == {2} && Winners(recs) == {2} && Losers(recs) == [1]
  {
    assert recs == recs[..b] + recs[b..];
    BegunConcat(recs[..b], recs[b..]);
    BegunFirst(recs[..b]);
    BegunFirst(recs[b..]);
    assert Begun(recs) == [1, 2];
    assert recs[|recs| - 1].body.Commit? && recs[|recs| - 1].tid == 2;
    FilterOnly([1, 2], NoCommit(recs), 0);
  }

  /** Undo then puts back what transaction 1 found, over what transaction 2 wrote. */
  lemma {:induction false} LoserThenWinnerOutcome(w: Option<bytes>, recs: seq<Record>, a: Addr, i: int, b: int, j: int)
    requires LoserThenWinner(recs, a, i, b, j)
    ensures Outcome(w, recs, a) == BeforeImage(recs[i].body, Step(Step(w, recs[i].body), recs[j].body).Some?)
    ensures WinnersValue(w, recs, a) == Step(w, recs[j].body)
  {
    hide OpsOf, TxnOps, Fold, Filter, Step, Losers, Winners, Committed;
    LoserThenWinnerTxns(recs, a, i, b, j);
    FilterTwo(recs, OnAddr(a), i, j);
    OpsInStretch(recs, 1, a, 0, b, i);
    OneTxn(recs, 1, a);
    FoldTwo(w, recs[i], recs[j]);
    FilterOnly([recs[i], recs[j]], In({2}), 1);
    FoldOne(w, recs[j]);
    assert [recs[i]][1..] == [];
  }

  // ------------------------------------------------------------- a slot written again after an abort

  /** A transaction updates a slot and aborts, and a later one updates it again and commits. */
  ghost function AbortThenCommit(a: Addr, x: bytes, y: bytes, z: bytes): seq<Record> {
    [Record(0, 1, NO_LSN, Begin), Record(1, 1, 0, Upd(a, x, y)), Record(2, 1, 1, Abort),
     Record(3, 2, NO_LSN, Begin), Record(4, 2, 3, Upd(a, x, z)), Record(5, 2, 4, Commit)]
  }

  /** Aborted transactions are undone only after all redo, so such a history loses the committed update: the slot
      returns to `x` although `z` was committed. */
  lemma {:induction false} AbortLosesCommit(a: Addr, x: bytes, y: bytes, z: bytes)
    ensures var recs := AbortThenCommit(a, x, y, z);
            Outcome(Some(x), recs, a) == Some(x) && WinnersValue(Some(x), recs, a) == Some(z) && !WinnersFirst(recs, a)
  {
    var recs := AbortThenCommit(a, x, y, z);
    assert LoserThenWinner(recs, a, 1, 3, 4);
    LoserThenWinnerOutcome(Some(x), recs, a, 1, 3, 4);
    LoserThenWinnerTxns(recs, a, 1, 3, 4);
    assert recs[1].tid !in Winners(recs) && recs[4].tid in Winners(recs);
  }

  // ------------------------------------------------------------- an aborted transaction that is then committed

  /** An aborted implicit transaction is committed afterwards. */
  ghost function AbortAndCommit(a: Addr, x: bytes, y: bytes): seq<Record> {
    [Record(0, 1, NO_LSN, Begin), Record(1, 1, 0, Upd(a, x, y)), Record(2, 1, 1, Abort), Record(3, 1, 2, Commit)]
  }

  /** The commit record takes the transaction out of the list for undo, so the rolled-back update comes back. */
  lemma {:induction false} AbortRevived(a: Addr, x: bytes, y: bytes)
    ensures var recs := AbortAndCommit(a, x, y);
            && Outcome(Some(x), recs, a) == Some(y) && WinnersValue(Some(x), recs, a) == Some(x)
            && RunValue(Some(x), recs, a) == Some(x) && !NoneRevived(recs, a)
  {
    var recs := AbortAndCommit(a, x, y);
    assert recs[3].body.Commit? && recs[3].tid == 1 && recs[2].body.Abort? && recs[2].tid == 1;
    assert Committed(recs) == {1} && 1 in Aborted(recs) && Winners(recs) == {};
    FilterOnly(recs, OnAddr(a), 1);
    assert [recs[1]][..0] == [] && Fold(Some(x), [recs[1]]) == Some(y);
    BegunFirst(recs);
    FilterNone([1], NoCommit(recs));
    assert Losers(recs) == [];
    OneTxn(recs, 1, a);
    FilterNone([recs[1]], In({}));
    RevivedRun(a, x, y);
    assert recs[1] in SlotOps(recs, a);
  }

  lemma {:induction false} RunNone(w: Option<bytes>, a: Addr)
    ensures RunValue(w, [], a) == w
  {
  }

  lemma {:induction false} RevivedRun(a: Addr, x: bytes, y: bytes)
    ensures RunValue(Some(x), AbortAndCommit(a, x, y), a) == Some(x)
  {
    hide RunValue, Filter;
    var recs := AbortAndCommit(a, x, y);
    RunNone(Some(x), a);
    RunMore(Some(x), [], recs[0], a);
    RunMore(Some(x), recs[..1], recs[1], a);
    RunMore(Some(x), recs[..2], recs[2], a);
    RunMore(Some(x), recs[..3], recs[3], a);
    assert [] + [recs[0]] == recs[..1] && recs[..1] + [recs[1]] == recs[..2];
    assert recs[..2] + [recs[2]] == recs[..3] && recs[..3] + [recs[3]] == recs;
    OpsInStretch(recs[..2], 1, a, 0, 2, 1);
    assert [recs[1]][..0] == [];
  }

  // ------------------------------------------------------------- two inserts logged before their locks

  /** An older transaction has chosen a position and logged its insert; a younger one chooses the same position, logs,
      gets the lock and commits. */
  ghost function TwoInserts(a: Addr, v: bytes, z: bytes): seq<Record> {
    [Record(0, 1, NO_LSN, Begin), Record(1, 1, 0, Ins(a, v)), Record(2, 2, NO_LSN, Begin),
     Record(3, 2, 2, Ins(a, z)), Record(4, 2, 3, Commit)]
  }

  /** Undoing the older one empties the slot of the committed record. */
  lemma {:induction false} EarlyLogLosesInsert(a: Addr, v: bytes, z: bytes)
    ensures var recs := TwoInserts(a, v, z);
            Outcome(None, recs, a) == None && WinnersValue(None, recs, a) == Some(z) && !Exclusive(recs, a)
  {
    var recs := TwoInserts(a, v, z);
    assert LoserThenWinner(recs, a, 1, 2, 3);
    LoserThenWinnerOutcome(None, recs, a, 1, 2, 3);
    assert OnAddr(a)(recs[1]) && OnAddr(a)(recs[3]) && !Ended(recs[..3], 1);
  }

  /** It is the log of a run of the lock manager. */
  lemma {:induction false} EarlyLogReachable(a: Addr, v: bytes, z: bytes)
      returns (states: seq<TP.Sys>, actions: seq<TP.Action>, at: seq<int>)
    ensures TP.IsRun(states, actions) && TP.LogOf(states[|states| - 1].trace, TwoInserts(a, v, z), at)
  {
    hide TP.IsRun, TP.CleanLogging, TP.LogOf;
    states, actions := TP.EarlyLogRun(a);
    at := [0, 1, 2, 3, 5];
    EarlyLogOf(a, v, z, states[|states| - 1].trace, at);
  }

  lemma {:induction false} EarlyLogOf(a: Addr, v: bytes, z: bytes, trace: seq<TP.Event>, at: seq<int>)
    requires trace == [TP.Begun(1), TP.Logged(1, a), TP.Begun(2), TP.Logged(2, a), TP.Access(2, a.table, true),
               TP.End(2)]
    requires at == [0, 1, 2, 3, 5]
    ensures TP.LogOf(trace, TwoInserts(a, v, z), at)
  {
    var recs := TwoInserts(a, v, z);
    assert recs[1].body == Ins(a, v) && recs[3].body == Ins(a, z) && recs[4].body == Commit;
    forall k, j | 0 <= k < |trace| && TP.InLog(trace[k]) && 0 <= j < |at| && k < at[j]
      ensures TP.Recorded(at, k)
    {
      assert k == 1 || k == 3;
      assert at[k] == k;
    }
  }
}
