/** The log of an engine that rolls a transaction back when it aborts. Where the winners wrote a slot before all others,
    recovery is right. */
module LogRunning {
  import opened Basics
  import opened Bytes
  import opened LogRecord
  import opened LogHistory
  import opened LogOutcome

  // ------------------------------------------------------------- losers that started from the winners' value

  /** A committed transaction that wrote the slot had not been rolled back. */
  ghost predicate NoneRevived(recs: seq<Record>, a: Addr) {
    forall r :: r in SlotOps(recs, a) && r.tid in Committed(recs) ==> r.tid in Winners(recs)
  }

  /** Every transaction with records has begun. */
  ghost predicate AllBegun(recs: seq<Record>) {
    forall i :: 0 <= i < |recs| ==> recs[i].tid in Begun(recs)
  }

  /** The operations of every loser on the slot fit the value `v`. */
  ghost predicate StartFrom(v: Option<bytes>, recs: seq<Record>, ts: seq<int>, a: Addr) {
    forall t :: t in ts ==> LegalOps(v, TxnOps(recs, t, a))
  }

  lemma {:induction false} FirstFits(v: Option<bytes>, recs: seq<Record>, ts: seq<int>, a: Addr)
    requires StartFrom(v, recs, ts, a) && |OpsOf(recs, ts, a)| > 0
    ensures LegalStep(v, OpsOf(recs, ts, a)[0].body)
  {
    hide TxnOps, LegalStep;
    var n := |ts| - 1;
    var front, own := OpsOf(recs, ts[..n], a), TxnOps(recs, ts[n], a);
    if |front| > 0 {
      FirstFits(v, recs, ts[..n], a);
    } else {
      assert ts[n] in ts && LegalOps(v, own);
      assert own[..0] == [] && LegalStep(Fold(v, own[..0]), own[0].body);
    }
  }

  /** Operations that fit an occupied slot delete before they insert. */
  lemma {:induction false} LegalThere(v: Option<bytes>, ops: seq<Record>, there: bool)
    requires LegalOps(v, ops) && v.Some? && forall i :: 0 <= i < |ops| ==> IsData(ops[i].body)
    ensures StillThere(there, ops) <==> Decides(ops) || there
  {
    var k := 0;
    while k < |ops| && ops[k].body.Update?
      invariant 0 <= k <= |ops| && (forall i :: 0 <= i < k ==> ops[i].body.Update?)
      invariant Fold(v, ops[..k]).Some?
    {
      assert LegalStep(Fold(v, ops[..k]), ops[k].body);
      assert ops[..k + 1][..k] == ops[..k];
      k := k + 1;
    }
    SkipUpdates(there, ops, k);
    if k < |ops| {
      assert LegalStep(Fold(v, ops[..k]), ops[k].body);
      assert Decides(ops);
    }
  }

  lemma {:induction false} SkipUpdates(there: bool, ops: seq<Record>, k: int)
    requires 0 <= k <= |ops| && forall i :: 0 <= i < k ==> ops[i].body.Update?
    ensures StillThere(there, ops) == StillThere(there, ops[k..])
  {
    if k > 0 {
      SkipUpdates(there, ops[1..], k - 1);
      assert ops[1..][k - 1..] == ops[k..];
    } else {
      assert ops[0..] == ops;
    }
  }

  lemma {:induction false} ThereConcat(there: bool, s: seq<Record>, t: seq<Record>)
    ensures StillThere(there, s + t) == StillThere(StillThere(there, t), s)
  {
    if |s| == 0 {
      assert s + t == t;
    } else {
      ThereConcat(there, s[1..], t);
      assert (s + t)[1..] == s[1..] + t;
    }
  }

  lemma {:induction false} DecidesConcat(s: seq<Record>, t: seq<Record>)
    ensures Decides(s + t) <==> Decides(s) || Decides(t)
  {
    assert forall i :: 0 <= i < |s| ==> (s + t)[i] == s[i];
    assert forall i :: 0 <= i < |t| ==> (s + t)[|s| + i] == t[i];
    if Decides(s + t) {
      var i :| 0 <= i < |s + t| && ((s + t)[i].body.Insert? || (s + t)[i].body.Delete?);
      assert i < |s| || t[i - |s|] == (s + t)[i];
    }
  }

  lemma {:induction false} OpsThere(v: Option<bytes>, recs: seq<Record>, ts: seq<int>, a: Addr, there: bool)
    requires StartFrom(v, recs, ts, a) && v.Some?
    ensures StillThere(there, OpsOf(recs, ts, a)) <==> Decides(OpsOf(recs, ts, a)) || there
  {
    hide TxnOps, StillThere, Decides, LegalOps;
    if |ts| == 0 {
      NothingDecides(there);
    } else {
      var n := |ts| - 1;
      var front, own := OpsOf(recs, ts[..n], a), TxnOps(recs, ts[n], a);
      OpsOfData(recs, ts, a);
      OwnData(recs, ts[n], a);
      assert ts[n] in ts;
      LegalThere(v, own, there);
      OpsThere(v, recs, ts[..n], a, StillThere(there, own));
      ThereConcat(there, front, own);
      DecidesConcat(front, own);
    }
  }

  lemma {:induction false} NothingDecides(there: bool)
    ensures !Decides([]) && StillThere(there, []) == there
  {
  }

  lemma {:induction false} OwnData(recs: seq<Record>, t: int, a: Addr)
    ensures forall i :: 0 <= i < |TxnOps(recs, t, a)| ==> IsData(TxnOps(recs, t, a)[i].body)
  {
    FilterHolds(Filter(recs, OfTxn(t)), OnAddr(a));
  }

  /** Where all others only updated, the winners decide whether a slot is occupied. */
  lemma {:induction false} WinnersDecide(w: Option<bytes>, ops: seq<Record>, winners: set<int>)
    requires forall i :: 0 <= i < |ops| && ops[i].tid !in winners ==> ops[i].body.Update?
    ensures Fold(w, ops).Some? <==> Fold(w, Filter(ops, In(winners))).Some?
  {
    if |ops| > 0 {
      var n := |ops| - 1;
      WinnersDecide(w, ops[..n], winners);
      var f := Filter(ops[..n], In(winners));
      assert (f + [ops[n]])[..|f|] == f && f + [] == f;
    }
  }

  /** An operation of a loser is among those that undo takes back. */
  lemma {:induction false} LoserOp(recs: seq<Record>, a: Addr, r: Record)
    requires AllBegun(recs) && r in SlotOps(recs, a) && r.tid !in Committed(recs)
    ensures r in OpsOf(recs, Losers(recs), a)
  {
    FilterHolds(recs, OnAddr(a));
    assert r in recs;
    var i :| 0 <= i < |recs| && recs[i] == r;
    var ts := Begun(recs);
    var k :| 0 <= k < |ts| && ts[k] == r.tid;
    FilterContains(ts, NoCommit(recs), k);
    FilterContains(recs, OfTxn(r.tid), i);
    var own := Filter(recs, OfTxn(r.tid));
    var j :| 0 <= j < |own| && own[j] == r;
    var p :| 0 <= p < |SlotOps(recs, a)| && SlotOps(recs, a)[p] == r;
    assert OnAddr(a)(own[j]);
    FilterContains(own, OnAddr(a), j);
    OpsOfMember(recs, Losers(recs), r.tid, a, r);
  }

  lemma {:induction false} OpsOfMember(recs: seq<Record>, ts: seq<int>, t: int, a: Addr, r: Record)
    requires t in ts && r in TxnOps(recs, t, a)
    ensures r in OpsOf(recs, ts, a)
  {
    hide TxnOps;
    var n := |ts| - 1;
    if ts[n] != t {
      assert t in ts[..n];
      OpsOfMember(recs, ts[..n], t, a, r);
    }
  }

  /** A slot where every loser started from the winners' value is recovered. */
  lemma {:induction false} StartedRight(w: Option<bytes>, recs: seq<Record>, a: Addr)
    requires AllBegun(recs) && NoneRevived(recs, a) && StartFrom(WinnersValue(w, recs, a), recs, Losers(recs), a)
    ensures Outcome(w, recs, a) == WinnersValue(w, recs, a)
  {
    hide AllBegun, StartFrom, Losers, OpsOf, TxnOps, StillThere, Decides;
    var v, ops, undone := WinnersValue(w, recs, a), SlotOps(recs, a), OpsOf(recs, Losers(recs), a);
    FilterHolds(recs, OnAddr(a));
    forall i | 0 <= i < |ops| && ops[i].tid !in Winners(recs)
      ensures ops[i] in undone
    {
      assert ops[i] in ops;
      LoserOp(recs, a, ops[i]);
    }
    if |undone| == 0 {
      FilterAll(ops, In(Winners(recs)));
    } else {
      FirstFits(v, recs, Losers(recs), a);
      OpsOfData(recs, Losers(recs), a);
      if undone[0].body.Update? {
        SkipUpdates(Fold(w, ops).Some?, undone, 1);
        OpsThere(v, recs, Losers(recs), a, Fold(w, ops).Some?);
        if !Decides(undone) {
          Undecided(undone);
          WinnersDecide(w, ops, Winners(recs));
        }
      }
    }
  }

  lemma {:induction false} Undecided(ops: seq<Record>)
    requires !Decides(ops) && forall i :: 0 <= i < |ops| ==> IsData(ops[i].body)
    ensures forall r :: r in ops ==> r.body.Update?
  {
  }

  // ------------------------------------------------------------- the running engine

  /** The value of a slot while the engine runs: an ABORT record stands for the rollback of its transaction. */
  ghost function RunValue(w: Option<bytes>, recs: seq<Record>, a: Addr): Option<bytes> {
    if |recs| == 0 then w else
    var front, r := recs[..|recs| - 1], recs[|recs| - 1];
    if OnAddr(a)(r) then Step(RunValue(w, front, a), r.body)
    else if r.body.Abort? then UnFold(RunValue(w, front, a), TxnOps(front, r.tid, a))
    else RunValue(w, front, a)
  }

  /** Every operation found the value it logged as the one it replaced. */
  ghost predicate RunLegal(w: Option<bytes>, recs: seq<Record>, a: Addr) {
    forall n :: 0 <= n < |recs| && OnAddr(a)(recs[n]) ==> LegalStep(RunValue(w, recs[..n], a), recs[n].body)
  }

  ghost predicate Ended(recs: seq<Record>, t: int) {
    exists i :: 0 <= i < |recs| && recs[i].tid == t && (recs[i].body.Commit? || recs[i].body.Abort?)
  }

  /** A slot is written by one transaction at a time: when another one writes it, those before have ended. */
  ghost predicate Exclusive(recs: seq<Record>, a: Addr) {
    forall i, n :: (&& 0 <= i < n < |recs| && OnAddr(a)(recs[i]) && OnAddr(a)(recs[n])
        && recs[i].tid != recs[n].tid) ==>
      Ended(recs[..n], recs[i].tid)
  }

  /** A transaction that has ended neither writes nor aborts. */
  ghost predicate EndsOnce(recs: seq<Record>) {
    forall n :: 0 <= n < |recs| && (IsData(recs[n].body) || recs[n].body.Abort?) ==> !Ended(recs[..n], recs[n].tid)
  }

  /** No winner writes the slot after a transaction that is not a winner. */
  ghost predicate WinnersFirst(recs: seq<Record>, a: Addr) {
    forall i, j :: 0 <= i < j < |recs| && OnAddr(a)(recs[i]) && OnAddr(a)(recs[j]) && recs[i].tid !in Winners(recs) ==>
      recs[j].tid !in Winners(recs)
  }

  /** A transaction that has written the slot and not ended. */
  ghost predicate Open(recs: seq<Record>, t: int, a: Addr) {
    !Ended(recs, t) && |TxnOps(recs, t, a)| > 0
  }

  ghost function ValueOf(w: Option<bytes>, recs: seq<Record>, a: Addr, winners: set<int>): Option<bytes> {
    Fold(w, Filter(SlotOps(recs, a), In(winners)))
  }

  /** Where the slot stands: at the winners' value, or that many operations of one open transaction further. If `firm`,
      the operations of all others fit the winners' value. */
  ghost predicate Stands(w: Option<bytes>, recs: seq<Record>, a: Addr, winners: set<int>, firm: bool) {
    var v, x := ValueOf(w, recs, a, winners), RunValue(w, recs, a);
    && (forall t :: t !in winners && (firm || Open(recs, t, a)) ==> LegalOps(v, TxnOps(recs, t, a)))
    && (forall t :: t !in winners && Open(recs, t, a) ==> x == Fold(v, TxnOps(recs, t, a)))
    && ((forall t :: t !in winners ==> !Open(recs, t, a)) ==> x == v)
    && (forall t, u :: Open(recs, t, a) && Open(recs, u, a) ==> t == u)
  }

  lemma {:induction false} EndedMore(recs: seq<Record>, r: Record, t: int)
    ensures Ended(recs + [r], t) <==> Ended(recs, t) || (r.tid == t && (r.body.Commit? || r.body.Abort?))
  {
    var rs := recs + [r];
    assert rs[|recs|] == r;
    assert forall i :: 0 <= i < |recs| ==> rs[i] == recs[i];
  }

  lemma {:induction false} OpsMore(recs: seq<Record>, r: Record, t: int, a: Addr)
    ensures TxnOps(recs + [r], t, a) == TxnOps(recs, t, a) + if r.tid == t && OnAddr(a)(r) then [r] else []
    ensures SlotOps(recs + [r], a) == SlotOps(recs, a) + if OnAddr(a)(r) then [r] else []
  {
    FilterAppend(recs, r, OfTxn(t));
    FilterAppend(recs, r, OnAddr(a));
    FilterAppend(Filter(recs, OfTxn(t)), r, OnAddr(a));
    assert Filter(recs, OfTxn(t)) + [] == Filter(recs, OfTxn(t));
  }

  lemma {:induction false} RunMore(w: Option<bytes>, recs: seq<Record>, r: Record, a: Addr)
    ensures RunValue(w, recs + [r], a) ==
            if OnAddr(a)(r) then Step(RunValue(w, recs, a), r.body)
            else if r.body.Abort? then UnFold(RunValue(w, recs, a), TxnOps(recs, r.tid, a))
            else RunValue(w, recs, a)
  {
    assert (recs + [r])[..|recs|] == recs;
  }

  lemma {:induction false} ValueMore(w: Option<bytes>, recs: seq<Record>, r: Record, a: Addr, winners: set<int>)
    ensures ValueOf(w, recs + [r], a, winners) ==
            if OnAddr(a)(r) && r.tid in winners then Step(ValueOf(w, recs, a, winners), r.body)
                else ValueOf(w, recs, a, winners)
  {
    hide Fold, Filter, Step, SlotOps;
    var ops := SlotOps(recs, a);
    var f := Filter(ops, In(winners));
    OpsMore(recs, r, r.tid, a);
    FilterAppend(ops, r, In(winners));
    FoldMore(w, f, r);
    assert ops + [] == ops && f + [] == f;
  }

  lemma {:induction false} FoldMore(v: Option<bytes>, ops: seq<Record>, r: Record)
    ensures Fold(v, ops + [r]) == Step(Fold(v, ops), r.body)
  {
    assert (ops + [r])[..|ops|] == ops;
  }

  lemma {:induction false} LegalMore(v: Option<bytes>, ops: seq<Record>, r: Record)
    requires LegalOps(v, ops) && LegalStep(Fold(v, ops), r.body)
    ensures LegalOps(v, ops + [r]) && Fold(v, ops + [r]) == Step(Fold(v, ops), r.body)
  {
    hide LegalStep, Step;
    var os := ops + [r];
    assert os[..|ops|] == ops;
    forall i | 0 <= i < |os|
      ensures LegalStep(Fold(v, os[..i]), os[i].body)
    {
      if i < |ops| {
        assert os[..i] == ops[..i];
        assert LegalStep(Fold(v, ops[..i]), ops[i].body);
      }
    }
  }

  /** Everyone else who wrote the slot has ended when `r` writes it. */
  ghost predicate Alone(recs: seq<Record>, r: Record, a: Addr) {
    !Ended(recs, r.tid) && forall u :: u != r.tid ==> !Open(recs, u, a)
  }

  lemma {:induction false} OpenMore(recs: seq<Record>, r: Record, t: int, a: Addr)
    ensures t != r.tid ==>
              TxnOps(recs + [r], t, a) == TxnOps(recs, t, a) && (Open(recs + [r], t, a) <==> Open(recs, t, a))
  {
    hide TxnOps, Ended;
    OpsMore(recs, r, t, a);
    EndedMore(recs, r, t);
    assert TxnOps(recs, t, a) + [] == TxnOps(recs, t, a);
  }

  lemma {:induction false} WinnerWrites(
      w: Option<bytes>, recs: seq<Record>, r: Record, a: Addr, winners: set<int>, firm: bool)
    requires Stands(w, recs, a, winners, firm) && OnAddr(a)(r) && Alone(recs, r, a) && r.tid in winners
    requires firm ==> forall t :: t !in winners ==> |TxnOps(recs, t, a)| == 0
    ensures Stands(w, recs + [r], a, winners, firm)
  {
    hide RunValue, ValueOf, TxnOps, Ended, Fold;
    var rs := recs + [r];
    RunMore(w, recs, r, a);
    ValueMore(w, recs, r, a, winners);
    assert forall t :: t !in winners ==> !Open(recs, t, a);
    assert RunValue(w, rs, a) == ValueOf(w, rs, a, winners);
    forall t | t != r.tid
      ensures TxnOps(rs, t, a) == TxnOps(recs, t, a) && !Open(rs, t, a)
    {
      OpenMore(recs, r, t, a);
      assert !Open(recs, t, a);
    }
  }

  lemma {:induction false} OtherWrites(
      w: Option<bytes>, recs: seq<Record>, r: Record, a: Addr, winners: set<int>, firm: bool)
    requires Stands(w, recs, a, winners, firm) && OnAddr(a)(r) && Alone(recs, r, a) && r.tid !in winners
    requires LegalStep(RunValue(w, recs, a), r.body)
    ensures Stands(w, recs + [r], a, winners, firm)
  {
    hide RunValue, ValueOf, TxnOps, Ended, Fold, LegalOps, LegalStep;
    var rs, v, own := recs + [r], ValueOf(w, recs, a, winners), TxnOps(recs, r.tid, a);
    RunMore(w, recs, r, a);
    ValueMore(w, recs, r, a, winners);
    OpsMore(recs, r, r.tid, a);
    forall t | t != r.tid
      ensures TxnOps(rs, t, a) == TxnOps(recs, t, a) && !Open(rs, t, a) && !Open(recs, t, a)
    {
      OpenMore(recs, r, t, a);
      assert !Open(recs, t, a);
    }
    assert RunValue(w, recs, a) == Fold(v, own) && LegalOps(v, own) by {
      if !Open(recs, r.tid, a) {
        FoldNone(v, own);
        assert forall t :: t !in winners ==> !Open(recs, t, a);
      }
    }
    LegalMore(v, own, r);
    assert TxnOps(rs, r.tid, a) == own + [r];
    assert |TxnOps(rs, r.tid, a)| > 0 && !Ended(rs, r.tid) by { EndedMore(recs, r, r.tid); }
    assert Open(rs, r.tid, a);
  }

  lemma {:induction false} FoldNone(v: Option<bytes>, ops: seq<Record>)
    requires |ops| == 0
    ensures Fold(v, ops) == v && UnFold(v, ops) == v && LegalOps(v, ops)
  {
  }

  /** A record that is no operation on the slot. */
  lemma {:induction false} OtherRecord(
      w: Option<bytes>, recs: seq<Record>, r: Record, a: Addr, winners: set<int>, firm: bool)
    requires Stands(w, recs, a, winners, firm) && !OnAddr(a)(r)
    requires r.body.Abort? ==> !Ended(recs, r.tid) && r.tid !in winners
    requires r.body.Commit? && r.tid !in winners ==> |TxnOps(recs, r.tid, a)| == 0
    ensures Stands(w, recs + [r], a, winners, firm)
  {
    hide RunValue, ValueOf, TxnOps, Ended, Fold, LegalOps, UnFold;
    var rs, v, own := recs + [r], ValueOf(w, recs, a, winners), TxnOps(recs, r.tid, a);
    RunMore(w, recs, r, a);
    ValueMore(w, recs, r, a, winners);
    OpsMore(recs, r, r.tid, a);
    EndedMore(recs, r, r.tid);
    assert own + [] == own;
    forall t
      ensures TxnOps(rs, t, a) == TxnOps(recs, t, a) && (Open(rs, t, a) ==> Open(recs, t, a))
      ensures t != r.tid || !(r.body.Commit? || r.body.Abort?) ==> (Open(rs, t, a) <==> Open(recs, t, a))
    {
      OpenMore(recs, r, t, a);
    }
    if r.body.Abort? {
      Closed(w, recs, r, a, winners, firm);
    } else if forall t :: t !in winners ==> !Open(rs, t, a) {
      assert forall t :: t !in winners ==> !Open(recs, t, a);
    }
  }

  /** The rollback of a transaction puts the slot back where the transaction found it. */
  lemma {:induction false} Closed(
      w: Option<bytes>, recs: seq<Record>, r: Record, a: Addr, winners: set<int>, firm: bool)
    requires Stands(w, recs, a, winners, firm) && !OnAddr(a)(r) && r.body.Abort? && !Ended(recs, r.tid)
    requires r.tid !in winners
    ensures var x, v := RunValue(w, recs + [r], a), ValueOf(w, recs, a, winners);
            && (|TxnOps(recs, r.tid, a)| == 0 ==> x == RunValue(w, recs, a) && !Open(recs, r.tid, a))
            && (|TxnOps(recs, r.tid, a)| > 0 ==> x == v && forall t :: t != r.tid ==> !Open(recs, t, a))
  {
    hide RunValue, ValueOf, TxnOps, Ended, Fold, LegalOps, UnFold;
    var v, own := ValueOf(w, recs, a, winners), TxnOps(recs, r.tid, a);
    RunMore(w, recs, r, a);
    if |own| == 0 {
      FoldNone(RunValue(w, recs, a), own);
    } else {
      assert Open(recs, r.tid, a);
      UndoLegal(v, own);
    }
  }

  lemma {:induction false} StandsStart(w: Option<bytes>, a: Addr, winners: set<int>, firm: bool)
    ensures Stands(w, [], a, winners, firm)
  {
  }

  /** Along the whole log, the slot stands where the winners and one open transaction put it. */
  lemma {:induction false} StandsAlong(w: Option<bytes>, recs: seq<Record>, n: int, a: Addr, firm: bool)
    requires 0 <= n <= |recs| && RunLegal(w, recs, a) && Exclusive(recs, a) && EndsOnce(recs) && NoneRevived(recs, a)
    requires firm ==> WinnersFirst(recs, a)
    ensures Stands(w, recs[..n], a, Winners(recs), firm)
  {
    hide Stands, RunLegal, Exclusive, EndsOnce, WinnersFirst, NoneRevived, Winners;
    if n == 0 {
      StandsStart(w, a, Winners(recs), firm);
    } else {
      var front, r := recs[..n - 1], recs[n - 1];
      StandsAlong(w, recs, n - 1, a, firm);
      assert recs[..n] == front + [r];
      if OnAddr(a)(r) {
        WriterAlone(w, recs, n - 1, a);
        if r.tid in Winners(recs) {
          WinnerWrites(w, front, r, a, Winners(recs), firm);
        } else {
          OtherWrites(w, front, r, a, Winners(recs), firm);
        }
      } else {
        EndingKnown(recs, n - 1, a);
        OtherRecord(w, front, r, a, Winners(recs), firm);
      }
    }
  }

  lemma {:induction false} WriterAlone(w: Option<bytes>, recs: seq<Record>, n: int, a: Addr)
    requires 0 <= n < |recs| && OnAddr(a)(recs[n])
    requires RunLegal(w, recs, a) && Exclusive(recs, a) && EndsOnce(recs)
    ensures Alone(recs[..n], recs[n], a) && LegalStep(RunValue(w, recs[..n], a), recs[n].body)
    ensures WinnersFirst(recs, a) && recs[n].tid in Winners(recs) ==>
              forall t :: t !in Winners(recs) ==> |TxnOps(recs[..n], t, a)| == 0
  {
    hide Winners, Ended, RunValue, LegalStep;
    forall t | |TxnOps(recs[..n], t, a)| > 0
      ensures t != recs[n].tid ==> Ended(recs[..n], t)
      ensures WinnersFirst(recs, a) && recs[n].tid in Winners(recs) ==> t in Winners(recs)
    {
      var i := OpAt(recs[..n], t, a);
      assert recs[..n][i] == recs[i];
    }
  }

  /** A transaction with an operation on the slot has a record there. */
  lemma {:induction false} OpAt(recs: seq<Record>, t: int, a: Addr) returns (i: int)
    requires |TxnOps(recs, t, a)| > 0
    ensures 0 <= i < |recs| && recs[i].tid == t && OnAddr(a)(recs[i]) && recs[i] in SlotOps(recs, a)
  {
    var own := Filter(recs, OfTxn(t));
    FilterHolds(own, OnAddr(a));
    FilterHolds(recs, OfTxn(t));
    var r := TxnOps(recs, t, a)[0];
    assert r in own;
    var k :| 0 <= k < |own| && own[k] == r;
    assert own[k] in recs;
    i :| 0 <= i < |recs| && recs[i] == r;
    FilterContains(recs, OnAddr(a), i);
  }

  lemma {:induction false} EndingKnown(recs: seq<Record>, n: int, a: Addr)
    requires 0 <= n < |recs| && EndsOnce(recs) && NoneRevived(recs, a)
    ensures recs[n].body.Abort? ==> !Ended(recs[..n], recs[n].tid) && recs[n].tid !in Winners(recs)
    ensures recs[n].body.Commit? && recs[n].tid !in Winners(recs) ==> |TxnOps(recs[..n], recs[n].tid, a)| == 0
  {
    var r := recs[n];
    if r.body.Commit? {
      assert r.tid in Committed(recs);
      if |TxnOps(recs[..n], r.tid, a)| > 0 {
        var i := OpAt(recs[..n], r.tid, a);
        assert recs[..n][i] == recs[i];
        FilterContains(recs, OnAddr(a), i);
      }
    }
  }

  /** In the log of an engine that rolls back on ABORT and lets one transaction at a time write a slot, a slot that no
      winner wrote after a transaction that is not one is recovered, however many transactions were rolled back
      there. */
  lemma {:induction false} RunningRight(w: Option<bytes>, recs: seq<Record>, a: Addr)
    requires AllBegun(recs) && RunLegal(w, recs, a) && Exclusive(recs, a) && EndsOnce(recs)
    requires WinnersFirst(recs, a) && NoneRevived(recs, a)
    ensures Outcome(w, recs, a) == WinnersValue(w, recs, a)
  {
    hide RunLegal, Exclusive, EndsOnce, WinnersFirst, NoneRevived, AllBegun, Outcome, LegalOps, TxnOps;
    StandsAlong(w, recs, |recs|, a, true);
    assert recs[..|recs|] == recs;
    FilterHolds(Begun(recs), NoCommit(recs));
    assert StartFrom(WinnersValue(w, recs, a), recs, Losers(recs), a);
    StartedRight(w, recs, a);
  }

  /** Without ABORT records, one writer at a time is enough: whoever is followed on a slot has committed. */
  lemma {:induction false} CommitsOnly(recs: seq<Record>, a: Addr)
    requires Exclusive(recs, a) && forall i :: 0 <= i < |recs| ==> !recs[i].body.Abort?
    ensures WinnersFirst(recs, a) && NoneRevived(recs, a)
  {
    hide SlotOps;
    assert Aborted(recs) == {};
    forall i, j | 0 <= i < j < |recs| && OnAddr(a)(recs[i]) && OnAddr(a)(recs[j]) && recs[j].tid in Winners(recs)
      ensures recs[i].tid in Winners(recs)
    {
      if recs[i].tid != recs[j].tid {
        var k :| 0 <= k < |recs[..j]| && recs[..j][k].tid == recs[i].tid
                 && (recs[..j][k].body.Commit? || recs[..j][k].body.Abort?);
        assert recs[..j][k] == recs[k];
      }
    }
  }

  /** Every slot of a log without ABORT records is recovered, if the transactions that wrote it did so one at a time. */
  lemma {:induction false} CommitsRecovered(m: Tables, recs: seq<Record>)
    requires AllBegun(recs) && EndsOnce(recs) && forall i :: 0 <= i < |recs| ==> !recs[i].body.Abort?
    requires forall a :: RunLegal(Lookup(m, a), recs, a) && Exclusive(recs, a)
    ensures Recovers(m, recs)
  {
    hide AllBegun, EndsOnce, RunLegal, Exclusive, WinnersFirst, NoneRevived, Outcome, WinnersValue, Lookup;
    forall a
      ensures Outcome(Lookup(m, a), recs, a) == WinnersValue(Lookup(m, a), recs, a)
    {
      assert RunLegal(Lookup(m, a), recs, a);
      CommitsOnly(recs, a);
      RunningRight(Lookup(m, a), recs, a);
    }
  }

  // ------------------------------------------------------------- exactly when

  /** The first operation of a transaction on the slot. */
  lemma {:induction false} FirstOpAt(recs: seq<Record>, t: int, a: Addr) returns (i: int)
    requires |TxnOps(recs, t, a)| > 0
    ensures 0 <= i < |recs| && recs[i] == TxnOps(recs, t, a)[0] && recs[i].tid == t && OnAddr(a)(recs[i])
    ensures |TxnOps(recs[..i], t, a)| == 0
  {
    hide TxnOps;
    var n := |recs| - 1;
    assert |recs| > 0 by {
      var k := OpAt(recs, t, a);
    }
    assert recs == recs[..n] + [recs[n]];
    OpsMore(recs[..n], recs[n], t, a);
    if |TxnOps(recs[..n], t, a)| > 0 {
      i := FirstOpAt(recs[..n], t, a);
      assert recs[..n][..i] == recs[..i];
    } else {
      i := n;
    }
  }

  lemma {:induction false} FirstOfOps(recs: seq<Record>, ts: seq<int>, a: Addr) returns (t: int)
    requires |OpsOf(recs, ts, a)| > 0
    ensures t in ts && |TxnOps(recs, t, a)| > 0 && OpsOf(recs, ts, a)[0] == TxnOps(recs, t, a)[0]
  {
    hide TxnOps;
    var n := |ts| - 1;
    if |OpsOf(recs, ts[..n], a)| > 0 {
      t := FirstOfOps(recs, ts[..n], a);
    } else {
      t := ts[n];
    }
  }

  /** The first write of a loser replaced the winners' value of that moment. */
  lemma {:induction false} FirstWrite(w: Option<bytes>, recs: seq<Record>, i: int, a: Addr)
    requires RunLegal(w, recs, a) && Exclusive(recs, a) && EndsOnce(recs) && NoneRevived(recs, a)
    requires 0 <= i < |recs| && OnAddr(a)(recs[i]) && |TxnOps(recs[..i], recs[i].tid, a)| == 0
    ensures LegalStep(ValueOf(w, recs[..i], a, Winners(recs)), recs[i].body)
  {
    hide RunLegal, Exclusive, EndsOnce, NoneRevived, Winners, LegalStep, TxnOps, Ended, ValueOf, RunValue;
    StandsAlong(w, recs, i, a, false);
    WriterAlone(w, recs, i, a);
    assert forall t :: t !in Winners(recs) ==> !Open(recs[..i], t, a);
  }

  /** In the log of such an engine a slot is recovered exactly if no loser wrote it, or the winners' value at the first
      write of the loser begun first is their value at the end. (An update is taken back only where a record is
      still there; where none is, the slot ends up empty.) */
  lemma {:induction false} RunningExactly(w: Option<bytes>, recs: seq<Record>, a: Addr) returns (i: int)
    requires AllBegun(recs) && RunLegal(w, recs, a) && Exclusive(recs, a) && EndsOnce(recs) && NoneRevived(recs, a)
    ensures var undone := OpsOf(recs, Losers(recs), a);
            if |undone| == 0 then Outcome(w, recs, a) == WinnersValue(w, recs, a)
            else
              && 0 <= i < |recs| && recs[i] == undone[0] && |TxnOps(recs[..i], recs[i].tid, a)| == 0
              && (Outcome(w, recs, a) == WinnersValue(w, recs, a) <==>
                    WinnersValue(w, recs, a) ==
                    if undone[0].body.Update? && !StillThere(Fold(w, SlotOps(recs, a)).Some?, undone[1..]) then None
                    else ValueOf(w, recs[..i], a, Winners(recs)))
  {
    hide RunLegal, Exclusive, EndsOnce, NoneRevived, AllBegun, TxnOps, OpsOf, Losers, WinnersValue, ValueOf, StillThere,
         Fold;
    var undone := OpsOf(recs, Losers(recs), a);
    i := 0;
    if |undone| == 0 {
      NoLoser(w, recs, a);
    } else {
      var t := FirstOfOps(recs, Losers(recs), a);
      i := FirstOpAt(recs, t, a);
      FirstWrite(w, recs, i, a);
      OpsOfData(recs, Losers(recs), a);
    }
  }

  lemma {:induction false} NoLoser(w: Option<bytes>, recs: seq<Record>, a: Addr)
    requires AllBegun(recs) && NoneRevived(recs, a) && |OpsOf(recs, Losers(recs), a)| == 0
    ensures Outcome(w, recs, a) == WinnersValue(w, recs, a)
  {
    hide AllBegun, TxnOps, OpsOf, Losers;
    assert StartFrom(WinnersValue(w, recs, a), recs, Losers(recs), a) by {
      forall t | t in Losers(recs)
        ensures |TxnOps(recs, t, a)| == 0
      {
        NoOpsOf(recs, Losers(recs), t, a);
      }
    }
    StartedRight(w, recs, a);
  }

  lemma {:induction false} NoOpsOf(recs: seq<Record>, ts: seq<int>, t: int, a: Addr)
    requires |OpsOf(recs, ts, a)| == 0 && t in ts
    ensures |TxnOps(recs, t, a)| == 0
  {
    hide TxnOps;
    var n := |ts| - 1;
    if ts[n] != t {
      NoOpsOf(recs, ts[..n], t, a);
    }
  }
}
