/** Transactions over table locks: every interleaving of log records, lock requests, upgrades, accesses, ends and
    releases. Locks are released only after the end of the transaction has been logged. A write may be logged before
    its lock is asked for. */
module TwoPhase {
  import opened Bytes
  import opened LockQueue
  import LR = LogRecord
  import LH = LogHistory
  import RUN = LogRunning

  type Name = bytes

  datatype Event =
    | Begun(tid: int)
    | Logged(tid: int, addr: LH.Addr)
    | Access(tid: int, table: Name, write: bool)
    | End(tid: int)

  datatype Sys = Sys(queues: map<Name, Queue>, ended: set<int>, trace: seq<Event>)

  ghost function QueueOf(s: Sys, table: Name): Queue {
    if table in s.queues then s.queues[table] else Queue([], [], NonLock)
  }

  ghost function Init(): Sys {
    Sys(map[], {}, [])
  }

  function ModeFor(write: bool): Mode {
    if write then X else S
  }

  /** A transaction waits in at most one place, and does nothing else while it waits. */
  ghost predicate WaitsIn(q: Queue, t: int) {
    Has(q.upgrades, t) || exists k :: 0 <= k < |q.requests| && q.requests[k].tid == t && !q.requests[k].granted
  }

  ghost predicate Running(s: Sys, t: int) {
    t !in s.ended && forall table :: !WaitsIn(QueueOf(s, table), t)
  }

  datatype Action =
    | Start(t: int)
    | Log(t: int, addr: LH.Addr)
    | Lock(t: int, table: Name, mode: Mode)
    | Wake(t: int, table: Name)
    | Touch(t: int, table: Name, write: bool)
    | Finish(t: int)
    | Release(t: int, table: Name)

  ghost predicate QueueStep(q: Queue, a: Action, q': Queue) {
    match a
    case Lock(t, _, m) =>
      if Has(q.requests, t) then exists k, o :: Holds(q, k) && q.requests[k].tid == t && Upgraded(q, k, m, q', o)
      else exists o :: Requested(q, t, m, q', o)
    case Wake(t, _) => exists k, u :: Woken(q, k, u, q') && q.requests[k].tid == t
    case Release(t, _) => exists k :: Holds(q, k) && q.requests[k].tid == t && Unlocked(q, k, q')
    case _ => false
  }

  ghost predicate Step(s: Sys, a: Action, s': Sys) {
    match a
    case Start(t) => Running(s, t) && s' == s.(trace := s.trace + [Begun(t)])
    case Log(t, addr) => Running(s, t) && s' == s.(trace := s.trace + [Logged(t, addr)])
    case Lock(t, table, _) =>
      Running(s, t) && QueueStep(QueueOf(s, table), a, QueueOf(s', table))
          && s' == s.(queues := s.queues[table := QueueOf(s', table)])
    case Wake(t, table) =>
      QueueStep(QueueOf(s, table), a, QueueOf(s', table)) && s' == s.(queues := s.queues[table := QueueOf(s', table)])
    case Release(t, table) =>
      t in s.ended && QueueStep(QueueOf(s, table), a, QueueOf(s', table))
          && s' == s.(queues := s.queues[table := QueueOf(s', table)])
    case Touch(t, table, write) =>
      Running(s, t) && HoldsMode(QueueOf(s, table), t, ModeFor(write))
          && s' == s.(trace := s.trace + [Access(t, table, write)])
    case Finish(t) =>
      Running(s, t) && s' == s.(ended := s.ended + {t}, trace := s.trace + [End(t)])
  }

  ghost predicate IsRun(states: seq<Sys>, actions: seq<Action>) {
    && |states| == |actions| + 1 && states[0] == Init()
    && forall i, j :: 0 <= i < |actions| && 0 <= j < |states| && j == i + 1 ==> Step(states[i], actions[i], states[j])
  }

  // ------------------------------------------------------------- traces

  predicate Conflict(e: Event, f: Event) {
    e.Access? && f.Access? && e.table == f.table && e.tid != f.tid && (e.write || f.write)
  }

  /** A conflicting access comes only after the end of the earlier transaction. */
  ghost predicate Strict(trace: seq<Event>) {
    forall i, j :: 0 <= i < j < |trace| && Conflict(trace[i], trace[j]) ==> EndedBetween(trace, i, j)
  }

  ghost predicate EndedBetween(trace: seq<Event>, i: int, j: int)
    requires 0 <= i < |trace|
  {
    exists k :: i < k < j && k < |trace| && trace[k] == End(trace[i].tid)
  }

  /** A transaction does nothing after its end. */
  ghost predicate Final(trace: seq<Event>) {
    forall i, j :: 0 <= i < j < |trace| && trace[i].End? ==> trace[i].tid != trace[j].tid
  }

  ghost predicate SysInv(s: Sys) {
    && (forall table :: Inv(QueueOf(s, table)))
    && (forall t :: t in s.ended <==> End(t) in s.trace)
    && (forall i :: 0 <= i < |s.trace| && s.trace[i].Access? && s.trace[i].tid !in s.ended ==>
          HoldsMode(QueueOf(s, s.trace[i].table), s.trace[i].tid, ModeFor(s.trace[i].write)))
    && Strict(s.trace) && Final(s.trace)
  }

  // ------------------------------------------------------------- steps keep the invariant

  lemma {:induction false} QueueStepInv(q: Queue, a: Action, q': Queue)
    requires Inv(q) && QueueStep(q, a, q')
    ensures Inv(q')
  {
    match a {
      case Lock(t, _, m) =>
        if Has(q.requests, t) {
          var k, o :| Holds(q, k) && q.requests[k].tid == t && Upgraded(q, k, m, q', o);
          UpgradedInv(q, k, m, q', o);
        } else {
          var o :| Requested(q, t, m, q', o);
          RequestedInv(q, t, m, q', o);
        }
      case Wake(t, _) =>
        var k, u :| Woken(q, k, u, q') && q.requests[k].tid == t;
        WokenInv(q, k, u, q');
      case Release(t, _) =>
        var k :| Holds(q, k) && q.requests[k].tid == t && Unlocked(q, k, q');
        UnlockedInv(q, k, q');
    }
  }

  /** The request that holds a lock is still there, granted, and as strong. */
  lemma {:induction false} StillHolds(rs: seq<Request>, i: int, q': Queue, j: int, m: Mode)
    requires 0 <= i < |rs| && rs[i].granted && (m == S || rs[i].mode == X)
    requires 0 <= j < |q'.requests| && q'.requests[j].tid == rs[i].tid && q'.requests[j].granted
    requires rs[i].mode == X ==> q'.requests[j].mode == X
    ensures HoldsMode(q', rs[i].tid, m)
  {
  }

  lemma {:induction false} UnlockedKeeps(q: Queue, k: int, q': Queue, i: int)
    requires Unlocked(q, k, q') && 0 <= i < |q.requests| && i != k && q.requests[i].granted
    ensures var j := if i < k then i else i - 1;
            0 <= j < |q'.requests| && q'.requests[j] == q.requests[i]
  {
    var rs, j := Without(q.requests, k), if i < k then i else i - 1;
    assert rs[j] == q.requests[i] && SomeGranted(rs);
  }

  /** Nobody but the releasing transaction loses a lock. */
  lemma {:induction false} HoldsKept(q: Queue, a: Action, q': Queue, u: int, m: Mode)
    requires Inv(q) && QueueStep(q, a, q') && HoldsMode(q, u, m) && (a.Release? ==> u != a.t)
    ensures HoldsMode(q', u, m)
  {
    hide Inv, Unlocked, Dies, Has;
    var i :| 0 <= i < |q.requests| && q.requests[i].tid == u && q.requests[i].granted
        && (m == S || q.requests[i].mode == X);
    match a {
      case Lock(t, _, md) =>
        if Has(q.requests, t) {
          var k, o :| Holds(q, k) && q.requests[k].tid == t && Upgraded(q, k, md, q', o);
        } else {
          var o :| Requested(q, t, md, q', o);
        }
        StillHolds(q.requests, i, q', i, m);
      case Wake(t, _) =>
        var k, v :| Woken(q, k, v, q') && q.requests[k].tid == t;
        assert Inv(q) && UpgradesOk(q) by { InvUpgrades(q); }
        StillHolds(q.requests, i, q', i, m);
      case Release(t, _) =>
        var k :| Holds(q, k) && q.requests[k].tid == t && Unlocked(q, k, q');
        UnlockedKeeps(q, k, q', i);
        StillHolds(q.requests, i, q', if i < k then i else i - 1, m);
    }
  }

  lemma {:induction false} InvUpgrades(q: Queue)
    requires Inv(q)
    ensures UpgradesOk(q)
  {
  }

  lemma {:induction false} QueueStepKeeps(s: Sys, a: Action, s': Sys)
    requires SysInv(s) && Step(s, a, s') && (a.Lock? || a.Wake? || a.Release?)
    ensures SysInv(s')
  {
    hide Inv, QueueStep, HoldsMode, Strict, Final;
    QueueStepInv(QueueOf(s, a.table), a, QueueOf(s', a.table));
    assert forall table :: table != a.table ==> QueueOf(s', table) == QueueOf(s, table);
    forall i | 0 <= i < |s.trace| && s.trace[i].Access? && s.trace[i].tid !in s.ended
      ensures HoldsMode(QueueOf(s', s.trace[i].table), s.trace[i].tid, ModeFor(s.trace[i].write))
    {
      var e := s.trace[i];
      if e.table == a.table {
        HoldsKept(QueueOf(s, a.table), a, QueueOf(s', a.table), e.tid, ModeFor(e.write));
      }
    }
  }

  lemma {:induction false} TouchKeeps(s: Sys, t: int, table: Name, write: bool, s': Sys)
    requires SysInv(s) && Step(s, Touch(t, table, write), s')
    ensures SysInv(s')
  {
    hide Inv, HoldsMode;
    var e, n := Access(t, table, write), |s.trace|;
    forall i | 0 <= i < n && Conflict(s.trace[i], e)
      ensures EndedBetween(s'.trace, i, n)
    {
      var u := s.trace[i].tid;
      if u !in s.ended {
        Excluded(QueueOf(s, table), u, ModeFor(s.trace[i].write), t, ModeFor(write));
      }
      assert End(u) in s.trace;
      var k :| 0 <= k < n && s.trace[k] == End(u);
      assert s'.trace[k] == End(s'.trace[i].tid);
    }
    StrictAppend(s.trace, e);
    FinalAppend(s, e);
    assert forall x :: QueueOf(s', x) == QueueOf(s, x);
    assert forall u :: End(u) in s'.trace <==> End(u) in s.trace;
  }

  lemma {:induction false} Excluded(q: Queue, t: int, m: Mode, u: int, n: Mode)
    requires Inv(q) && HoldsMode(q, t, m) && HoldsMode(q, u, n) && (m == X || n == X)
    ensures t == u
  {
    if m == X {
      assert HoldsMode(q, u, S);
      MutualExclusion(q, t, u);
    } else {
      assert HoldsMode(q, t, S);
      MutualExclusion(q, u, t);
    }
  }

  lemma {:induction false} StrictAppend(trace: seq<Event>, e: Event)
    requires Strict(trace)
    requires forall i :: 0 <= i < |trace| && Conflict(trace[i], e) ==> EndedBetween(trace + [e], i, |trace|)
    ensures Strict(trace + [e])
  {
    var tr := trace + [e];
    forall i, j | 0 <= i < j < |tr| && Conflict(tr[i], tr[j])
      ensures EndedBetween(tr, i, j)
    {
      if j < |trace| {
        assert EndedBetween(trace, i, j);
        var k :| i < k < j && k < |trace| && trace[k] == End(trace[i].tid);
        assert tr[k] == End(tr[i].tid);
      }
    }
  }

  lemma {:induction false} FinalAppend(s: Sys, e: Event)
    requires Final(s.trace) && e.tid !in s.ended && forall t :: t in s.ended <==> End(t) in s.trace
    ensures Final(s.trace + [e])
  {
    forall i | 0 <= i < |s.trace| && s.trace[i].End?
      ensures s.trace[i].tid != e.tid
    {
      assert End(s.trace[i].tid) in s.trace;
    }
  }

  lemma {:induction false} FinishKeeps(s: Sys, t: int, s': Sys)
    requires SysInv(s) && Step(s, Finish(t), s')
    ensures SysInv(s')
  {
    hide Inv, HoldsMode;
    StrictAppend(s.trace, End(t));
    FinalAppend(s, End(t));
    assert forall x :: QueueOf(s', x) == QueueOf(s, x);
    forall u
      ensures u in s'.ended <==> End(u) in s'.trace
    {
      assert End(u) in s'.trace <==> End(u) in s.trace || u == t;
    }
  }

  /** Events that are neither accesses nor ends. */
  lemma {:induction false} NoteKeeps(s: Sys, a: Action, s': Sys)
    requires SysInv(s) && Step(s, a, s') && (a.Start? || a.Log?)
    ensures SysInv(s')
  {
    hide Inv, HoldsMode;
    var e := if a.Start? then Begun(a.t) else Logged(a.t, a.addr);
    StrictAppend(s.trace, e);
    FinalAppend(s, e);
    assert forall x :: QueueOf(s', x) == QueueOf(s, x);
    assert forall u :: End(u) in s'.trace <==> End(u) in s.trace;
  }

  lemma {:induction false} StepKeeps(s: Sys, a: Action, s': Sys)
    requires SysInv(s) && Step(s, a, s')
    ensures SysInv(s')
  {
    hide SysInv, Step;
    match a {
      case Touch(t, table, write) => TouchKeeps(s, t, table, write, s');
      case Finish(t) => FinishKeeps(s, t, s');
      case Start(t) => NoteKeeps(s, a, s');
      case Log(t, addr) => NoteKeeps(s, a, s');
      case _ => QueueStepKeeps(s, a, s');
    }
  }

  /** Every reachable state. */
  lemma {:induction false} RunInv(states: seq<Sys>, actions: seq<Action>, n: int)
    requires IsRun(states, actions) && 0 <= n < |states|
    ensures SysInv(states[n])
  {
    if n == 0 {
      InvInit();
    } else {
      RunInv(states, actions, n - 1);
      StepKeeps(states[n - 1], actions[n - 1], states[n]);
    }
  }

  // ------------------------------------------------------------- serializability

  /** Where a transaction ends in the trace. */
  ghost predicate EndsAt(trace: seq<Event>, t: int, k: int) {
    0 <= k < |trace| && trace[k] == End(t)
  }

  /** Conflicting accesses of two ended transactions are ordered like the ends of the transactions, so the run
      is equivalent to the serial one in the order of the ends. */
  lemma {:induction false} SerialOrder(s: Sys, i: int, j: int, k: int, l: int)
    requires SysInv(s) && 0 <= i < |s.trace| && 0 <= j < |s.trace| && Conflict(s.trace[i], s.trace[j])
    requires EndsAt(s.trace, s.trace[i].tid, k) && EndsAt(s.trace, s.trace[j].tid, l)
    ensures i < j <==> k < l
  {
    hide Inv, HoldsMode;
    if i < j {
      ConflictEnds(s.trace, i, j, l);
    } else {
      ConflictEnds(s.trace, j, i, k);
    }
  }

  lemma {:induction false} ConflictEnds(trace: seq<Event>, i: int, j: int, l: int)
    requires Strict(trace) && Final(trace) && 0 <= i < j < |trace| && Conflict(trace[i], trace[j])
    requires EndsAt(trace, trace[j].tid, l)
    ensures exists k :: EndsAt(trace, trace[i].tid, k) && k < j < l
    ensures forall k :: EndsAt(trace, trace[i].tid, k) ==> k < l
  {
    assert EndedBetween(trace, i, j);
    var k :| i < k < j && trace[k] == End(trace[i].tid);
    assert EndsAt(trace, trace[i].tid, k);
    assert j < l;
  }

  ghost predicate Edge(trace: seq<Event>, t: int, u: int) {
    exists i, j :: 0 <= i < j < |trace| && Conflict(trace[i], trace[j]) && trace[i].tid == t && trace[j].tid == u
  }

  ghost predicate IsPath(trace: seq<Event>, path: seq<int>) {
    |path| > 0 && forall i, j :: 0 <= i < |path| && 0 <= j < |path| && j == i + 1 ==> Edge(trace, path[i], path[j])
  }

  /** Along a path of conflicts the ends ascend; so the conflict graph has no cycle. */
  lemma {:induction false} PathAscends(s: Sys, path: seq<int>, l: int) returns (k: int)
    requires SysInv(s) && IsPath(s.trace, path) && |path| > 1 && EndsAt(s.trace, path[|path| - 1], l)
    ensures EndsAt(s.trace, path[0], k) && k < l && path[0] != path[|path| - 1]
  {
    hide Inv, HoldsMode;
    assert Edge(s.trace, path[0], path[1]);
    var i, j :| 0 <= i < j < |s.trace| && Conflict(s.trace[i], s.trace[j]) && s.trace[i].tid == path[0]
        && s.trace[j].tid == path[1];
    var m := l;
    if |path| > 2 {
      assert IsPath(s.trace, path[1..]);
      m := PathAscends(s, path[1..], l);
    }
    ConflictEnds(s.trace, i, j, m);
    k :| EndsAt(s.trace, path[0], k) && k < j < m;
  }

  /** A transaction with an outgoing conflict has ended, so a cycle would consist of ended transactions. */
  lemma {:induction false} NoCycle(s: Sys, path: seq<int>)
    requires SysInv(s) && IsPath(s.trace, path) && |path| > 1
    ensures path[0] != path[|path| - 1]
  {
    hide Inv, HoldsMode;
    assert Edge(s.trace, path[0], path[1]);
    var i, j :| 0 <= i < j < |s.trace| && Conflict(s.trace[i], s.trace[j]) && s.trace[i].tid == path[0]
        && s.trace[j].tid == path[1];
    assert EndedBetween(s.trace, i, j);
    var k :| i < k < j && s.trace[k] == End(s.trace[i].tid);
    if path[0] == path[|path| - 1] {
      assert EndsAt(s.trace, path[|path| - 1], k);
      var k' := PathAscends(s, path, k);
    }
  }

  /** The serial order of accesses: by the end of the transaction, then by time. */
  ghost predicate SerialBefore(trace: seq<Event>, i: int, j: int)
    requires 0 <= i < |trace| && 0 <= j < |trace|
  {
    if trace[i].tid == trace[j].tid then i < j
    else exists k, l :: EndsAt(trace, trace[i].tid, k) && EndsAt(trace, trace[j].tid, l) && k < l
  }

  ghost predicate WritesTable(trace: seq<Event>, i: int, table: Name) {
    0 <= i < |trace| && trace[i].Access? && trace[i].write && trace[i].table == table
  }

  ghost predicate AllEnded(s: Sys) {
    forall i :: 0 <= i < |s.trace| ==> s.trace[i].tid in s.ended
  }

  /** When all transactions have ended, a write comes before an access of the same table in the run exactly if it
      does in the serial order; so every access sees the same last write in both. */
  lemma {:induction false} SameView(s: Sys, i: int, j: int)
    requires SysInv(s) && AllEnded(s) && 0 <= j < |s.trace| && s.trace[j].Access?
    requires WritesTable(s.trace, i, s.trace[j].table) && i != j
    ensures i < j <==> SerialBefore(s.trace, i, j)
  {
    hide Inv, HoldsMode;
    if s.trace[i].tid != s.trace[j].tid {
      assert s.trace[i].tid in s.ended && s.trace[j].tid in s.ended;
      var k :| 0 <= k < |s.trace| && s.trace[k] == End(s.trace[i].tid);
      var l :| 0 <= l < |s.trace| && s.trace[l] == End(s.trace[j].tid);
      SerialOrder(s, i, j, k, l);
      assert EndsAt(s.trace, s.trace[i].tid, k) && EndsAt(s.trace, s.trace[j].tid, l);
      OneEnd(s.trace, s.trace[i].tid);
      OneEnd(s.trace, s.trace[j].tid);
    }
  }

  /** Event `i` is the last write before access `j`, in the run or in the serial order. */
  ghost predicate LastWrite(trace: seq<Event>, i: int, j: int) {
    && 0 <= j < |trace| && trace[j].Access? && WritesTable(trace, i, trace[j].table) && i < j
    && forall k :: WritesTable(trace, k, trace[j].table) && i < k ==> k >= j
  }

  ghost predicate SerialLastWrite(trace: seq<Event>, i: int, j: int) {
    && 0 <= j < |trace| && trace[j].Access? && WritesTable(trace, i, trace[j].table) && i != j
         && SerialBefore(trace, i, j)
    && forall k :: WritesTable(trace, k, trace[j].table) && k != i && k != j ==>
         !(SerialBefore(trace, i, k) && SerialBefore(trace, k, j))
  }

  /** Every access sees the same last write in the run and in the serial order; and it sees none in the one exactly if
      it sees none in the other. */
  lemma {:induction false} SameLastWrite(s: Sys, i: int, j: int)
    requires SysInv(s) && AllEnded(s)
    ensures LastWrite(s.trace, i, j) <==> SerialLastWrite(s.trace, i, j)
  {
    hide SysInv, AllEnded, SerialBefore;
    if 0 <= j < |s.trace| && s.trace[j].Access? && WritesTable(s.trace, i, s.trace[j].table) && i != j {
      SameView(s, i, j);
      forall k | WritesTable(s.trace, k, s.trace[j].table) && k != i && k != j
        ensures i < k <==> SerialBefore(s.trace, i, k)
        ensures k < j <==> SerialBefore(s.trace, k, j)
      {
        SameView(s, i, k);
        SameView(s, k, j);
      }
    }
  }

  lemma {:induction false} OneEnd(trace: seq<Event>, t: int)
    requires Final(trace)
    ensures forall k, l :: EndsAt(trace, t, k) && EndsAt(trace, t, l) ==> k == l
  {
  }

  // ------------------------------------------------------------- what the log of a run looks like

  ghost predicate InLog(e: Event) {
    e.Logged? || e.End?
  }

  /** The log of a run, cut off anywhere: record `i` was written at event `at[i]`, and every write and end logged
      before the last record is there. The end of a transaction is a commit or an abort record. */
  ghost predicate LogOf(trace: seq<Event>, recs: seq<LR.Record>, at: seq<int>) {
    && |at| == |recs| && (forall i :: 0 <= i < |at| ==> 0 <= at[i] < |trace|)
    && (forall i, j :: 0 <= i < j < |at| ==> at[i] < at[j])
    && (forall i :: 0 <= i < |recs| ==> recs[i].tid == trace[at[i]].tid)
    && (forall i :: 0 <= i < |recs| && LH.IsData(recs[i].body) ==>
          trace[at[i]] == Logged(recs[i].tid, LH.Target(recs[i].body)))
    && (forall i :: 0 <= i < |recs| ==> (recs[i].body.Commit? || recs[i].body.Abort? <==> trace[at[i]].End?))
    && (forall k, j :: 0 <= k < |trace| && InLog(trace[k]) && 0 <= j < |at| && k < at[j] ==> Recorded(at, k))
  }

  ghost predicate Recorded(at: seq<int>, k: int) {
    exists i :: 0 <= i < |at| && at[i] == k
  }

  /** A write to a slot is logged only when everyone who has logged a write to it before has ended. */
  ghost predicate CleanLogging(trace: seq<Event>) {
    forall i, n :: (&& 0 <= i < n < |trace| && trace[i].Logged? && trace[n].Logged? && trace[i].addr == trace[n].addr
                    && trace[i].tid != trace[n].tid) ==> End(trace[i].tid) in trace[..n]
  }

  /** Of a run that logs cleanly, every log, cut off anywhere, has one transaction at a time write a slot. */
  lemma {:induction false} CleanLog(trace: seq<Event>, recs: seq<LR.Record>, at: seq<int>, a: LH.Addr)
    requires LogOf(trace, recs, at) && CleanLogging(trace)
    ensures RUN.Exclusive(recs, a)
  {
    forall i, n | 0 <= i < n < |recs| && LH.OnAddr(a)(recs[i]) && LH.OnAddr(a)(recs[n]) && recs[i].tid != recs[n].tid
      ensures RUN.Ended(recs[..n], recs[i].tid)
    {
      assert trace[at[i]].Logged? && trace[at[n]].Logged? && trace[at[i]].addr == trace[at[n]].addr == a;
      var k :| 0 <= k < at[n] && trace[..at[n]][k] == End(recs[i].tid);
      assert InLog(trace[k]) && Recorded(at, k);
      var c :| 0 <= c < |at| && at[c] == k;
      assert c < n && recs[..n][c] == recs[c];
    }
  }

  /** And only of such a run: if its log is whole and every slot is written by one transaction at a time, the run logs
      cleanly. */
  lemma {:induction false} CleanOnly(trace: seq<Event>, recs: seq<LR.Record>, at: seq<int>)
    requires LogOf(trace, recs, at) && (forall k :: 0 <= k < |trace| && InLog(trace[k]) ==> Recorded(at, k))
    requires forall i :: 0 <= i < |recs| && trace[at[i]].Logged? ==> LH.IsData(recs[i].body)
    requires forall a :: RUN.Exclusive(recs, a)
    ensures CleanLogging(trace)
  {
    forall i, n | 0 <= i < n < |trace| && trace[i].Logged? && trace[n].Logged? && trace[i].addr == trace[n].addr
                  && trace[i].tid != trace[n].tid
      ensures End(trace[i].tid) in trace[..n]
    {
      assert InLog(trace[i]) && InLog(trace[n]) && Recorded(at, i) && Recorded(at, n);
      var j :| 0 <= j < |at| && at[j] == i;
      var m :| 0 <= m < |at| && at[m] == n;
      assert j < m;
      var a := trace[i].addr;
      assert LH.OnAddr(a)(recs[j]) && LH.OnAddr(a)(recs[m]) && RUN.Exclusive(recs, a);
      var c :| 0 <= c < |recs[..m]| && recs[..m][c].tid == recs[j].tid
               && (recs[..m][c].body.Commit? || recs[..m][c].body.Abort?);
      assert recs[..m][c] == recs[c] && trace[at[c]] == End(trace[i].tid) && trace[..n][at[c]] == trace[at[c]];
    }
  }

  /** Every write of the run is logged under the exclusive lock of its table. */
  ghost predicate LocksFirst(states: seq<Sys>, actions: seq<Action>) {
    forall i :: 0 <= i < |actions| && i < |states| && actions[i].Log? ==>
      HoldsMode(QueueOf(states[i], actions[i].addr.table), actions[i].t, X)
  }

  /** Whoever has logged a write and not ended holds the exclusive lock. */
  ghost predicate LoggedHeld(s: Sys) {
    forall i :: 0 <= i < |s.trace| && s.trace[i].Logged? && s.trace[i].tid !in s.ended ==>
      HoldsMode(QueueOf(s, s.trace[i].addr.table), s.trace[i].tid, X)
  }

  lemma {:induction false} HeldKept(s: Sys, a: Action, s': Sys)
    requires SysInv(s) && LoggedHeld(s) && Step(s, a, s')
    requires a.Log? ==> HoldsMode(QueueOf(s, a.addr.table), a.t, X)
    ensures LoggedHeld(s')
  {
    hide HoldsMode, QueueStep, Strict, Final, Inv, Running;
    forall i | 0 <= i < |s'.trace| && s'.trace[i].Logged? && s'.trace[i].tid !in s'.ended
      ensures HoldsMode(QueueOf(s', s'.trace[i].addr.table), s'.trace[i].tid, X)
    {
      var e := s'.trace[i];
      assert i < |s.trace| ==> e == s.trace[i];
      if (a.Lock? || a.Wake? || a.Release?) && a.table == e.addr.table {
        assert Inv(QueueOf(s, a.table));
        HoldsKept(QueueOf(s, a.table), a, QueueOf(s', a.table), e.tid, X);
      } else {
        assert QueueOf(s', e.addr.table) == QueueOf(s, e.addr.table);
      }
    }
  }

  lemma {:induction false} CleanKept(s: Sys, a: Action, s': Sys)
    requires SysInv(s) && LoggedHeld(s) && CleanLogging(s.trace) && Step(s, a, s')
    requires a.Log? ==> HoldsMode(QueueOf(s, a.addr.table), a.t, X)
    ensures CleanLogging(s'.trace)
  {
    hide QueueStep, Strict, Final, Running, HoldsMode, Inv;
    var n := |s.trace|;
    forall i, k | 0 <= i < k < |s'.trace| && s'.trace[i].Logged? && s'.trace[k].Logged?
                  && s'.trace[i].addr == s'.trace[k].addr && s'.trace[i].tid != s'.trace[k].tid
      ensures End(s'.trace[i].tid) in s'.trace[..k]
    {
      assert s'.trace[..k] == s.trace[..k];
      assert s'.trace[i] == s.trace[i];
      if k == n {
        var u, table := s.trace[i].tid, s.trace[i].addr.table;
        if u !in s.ended {
          assert Inv(QueueOf(s, table));
          Excluded(QueueOf(s, table), u, X, a.t, X);
        }
        assert s.trace[..k] == s.trace;
      }
    }
  }

  /** A run that asks for the lock before it logs a write logs cleanly. */
  lemma {:induction false} LockedRunClean(states: seq<Sys>, actions: seq<Action>, n: int)
    requires IsRun(states, actions) && LocksFirst(states, actions) && 0 <= n < |states|
    ensures LoggedHeld(states[n]) && CleanLogging(states[n].trace)
  {
    hide Step, LoggedHeld, CleanLogging, SysInv;
    if n == 0 {
      NothingLogged();
    } else {
      LockedRunClean(states, actions, n - 1);
      RunInv(states, actions, n - 1);
      HeldKept(states[n - 1], actions[n - 1], states[n]);
      CleanKept(states[n - 1], actions[n - 1], states[n]);
    }
  }

  lemma {:induction false} NothingLogged()
    ensures LoggedHeld(Init()) && CleanLogging(Init().trace)
  {
  }

  /** After its end a transaction neither writes nor ends again in the log. */
  lemma {:induction false} LogEndsOnce(s: Sys, recs: seq<LR.Record>, at: seq<int>)
    requires SysInv(s) && LogOf(s.trace, recs, at)
    ensures RUN.EndsOnce(recs)
  {
    hide Inv, HoldsMode, Strict;
    forall n | 0 <= n < |recs| && (LH.IsData(recs[n].body) || recs[n].body.Abort?)
      ensures !RUN.Ended(recs[..n], recs[n].tid)
    {
      forall i | 0 <= i < n && recs[..n][i].tid == recs[n].tid
        ensures !(recs[i].body.Commit? || recs[i].body.Abort?)
      {
        assert recs[..n][i] == recs[i];
        assert at[i] < at[n] && s.trace[at[i]].tid == s.trace[at[n]].tid;
      }
      assert forall i :: 0 <= i < n ==> recs[..n][i] == recs[i];
    }
  }

  /** Locks are released only after the end is logged: whatever part of the log survives a crash, if it holds the end
      of a transaction, it holds, before that, the ends of all transactions that this one came after in some table. */
  lemma {:induction false} EarlierEndsDurable(s: Sys, recs: seq<LR.Record>, at: seq<int>, i: int, j: int, c: int)
    returns (d: int)
    requires SysInv(s) && LogOf(s.trace, recs, at)
    requires 0 <= i < j < |s.trace| && Conflict(s.trace[i], s.trace[j])
    requires 0 <= c < |recs| && recs[c].tid == s.trace[j].tid && (recs[c].body.Commit? || recs[c].body.Abort?)
    ensures 0 <= d < c && recs[d].tid == s.trace[i].tid && (recs[d].body.Commit? || recs[d].body.Abort?)
  {
    hide Inv, HoldsMode;
    assert EndsAt(s.trace, s.trace[j].tid, at[c]);
    ConflictEnds(s.trace, i, j, at[c]);
    var k :| EndsAt(s.trace, s.trace[i].tid, k) && k < j < at[c];
    assert InLog(s.trace[k]) && Recorded(at, k);
    d :| 0 <= d < |at| && at[d] == k;
    assert recs[d].tid == s.trace[at[d]].tid;
  }

  /** The inserting executor logs before it asks for the lock: transaction 1 has chosen a position and logged;
      transaction 2 chooses the same position, logs, locks, writes and ends. Nothing in the lock manager prevents this
      run. */
  lemma {:induction false} EarlyLogRun(addr: LH.Addr) returns (states: seq<Sys>, actions: seq<Action>)
    ensures IsRun(states, actions)
    ensures states[|states| - 1].trace == [Begun(1), Logged(1, addr), Begun(2), Logged(2, addr),
                                           Access(2, addr.table, true), End(2)]
    ensures !CleanLogging(states[|states| - 1].trace)
  {
    var table := addr.table;
    actions := [Start(1), Log(1, addr), Start(2), Log(2, addr), Lock(2, table, X), Touch(2, table, true), Finish(2)];
    var q := Queue([Request(2, X, true)], [], Held(X));
    var t1, t2 := [Begun(1)], [Begun(1), Logged(1, addr)];
    var t3, t4 := t2 + [Begun(2)], t2 + [Begun(2)] + [Logged(2, addr)];
    var t5 := t4 + [Access(2, table, true)];
    var t6 := t5 + [End(2)];
    var s4, s5 := Sys(map[], {}, t4), Sys(map[table := q], {}, t4);
    states := [Init(), Sys(map[], {}, t1), Sys(map[], {}, t2), Sys(map[], {}, t3), s4, s5,
               Sys(map[table := q], {}, t5), Sys(map[table := q], {2}, t6)];
    EarlySteps(states, actions, addr, q);
    assert t6[1] == Logged(1, addr) && t6[3] == Logged(2, addr) && End(1) !in t6[..3];
  }

  lemma {:induction false} EarlySteps(states: seq<Sys>, actions: seq<Action>, addr: LH.Addr, q: Queue)
    requires q == Queue([Request(2, X, true)], [], Held(X))
    requires actions == [Start(1), Log(1, addr), Start(2), Log(2, addr), Lock(2, addr.table, X),
                         Touch(2, addr.table, true), Finish(2)]
    requires |states| == 8 && states[0] == Init()
    requires forall i :: 0 <= i < 5 ==> states[i].queues == map[] && states[i].ended == {}
    requires states[1].trace == states[0].trace + [Begun(1)] && states[2].trace == states[1].trace + [Logged(1, addr)]
    requires states[3].trace == states[2].trace + [Begun(2)] && states[4].trace == states[3].trace + [Logged(2, addr)]
    requires states[5] == Sys(map[addr.table := q], {}, states[4].trace)
    requires states[6] == states[5].(trace := states[5].trace + [Access(2, addr.table, true)])
    requires states[7] == Sys(states[6].queues, {2}, states[6].trace + [End(2)])
    ensures IsRun(states, actions)
  {
    hide Requested, WaitsIn;
    forall i, t | 0 <= i < 5
      ensures Running(states[i], t)
    {
      NobodyWaits(states[i], t);
    }
    assert Step(states[0], actions[0], states[1]);
    assert Step(states[1], actions[1], states[2]);
    assert Step(states[2], actions[2], states[3]);
    assert Step(states[3], actions[3], states[4]);
    assert Step(states[4], actions[4], states[5]) by { FreshLock(states[4], states[5], 2, addr.table, q); }
    HolderRuns(states[5], addr.table, q);
    HolderRuns(states[6], addr.table, q);
    assert Step(states[5], actions[5], states[6]);
    assert Step(states[6], actions[6], states[7]);
  }

  lemma {:induction false} NobodyWaits(s: Sys, t: int)
    requires s.queues == map[] && s.ended == {}
    ensures Running(s, t)
  {
    assert forall x :: QueueOf(s, x) == Queue([], [], NonLock);
    NotIn(t);
  }

  lemma {:induction false} FreshLock(s: Sys, s': Sys, t: int, table: Name, q: Queue)
    requires s.queues == map[] && s.ended == {} && q == Queue([Request(t, X, true)], [], Held(X))
    requires s' == s.(queues := map[table := q])
    ensures Step(s, Lock(t, table, X), s')
  {
    NobodyWaits(s, t);
    assert !Has([], t) by { NotIn(t); }
    assert Requested(QueueOf(s, table), t, X, q, Granted);
  }

  lemma {:induction false} HolderRuns(s: Sys, table: Name, q: Queue)
    requires s.queues == map[table := q] && s.ended == {} && q == Queue([Request(2, X, true)], [], Held(X))
    ensures Running(s, 2) && HoldsMode(QueueOf(s, table), 2, X)
  {
    NotIn(2);
    assert q.requests[0].tid == 2;
    assert forall x :: x != table ==> QueueOf(s, x) == Queue([], [], NonLock);
    assert !WaitsIn(q, 2) && !WaitsIn(Queue([], [], NonLock), 2);
  }

  // ------------------------------------------------------------- waiting

  /** `t` waits for `u` at some table. */
  ghost predicate WaitsFor(s: Sys, t: int, u: int) {
    exists table :: WaitsAt(QueueOf(s, table), t, u)
  }

  /** A request waits for the granted ones and for all requests ahead of it; an upgrade waits for the other holders. */
  ghost predicate WaitsAt(q: Queue, t: int, u: int) {
    || (exists i, j :: (&& 0 <= i < |q.requests| && 0 <= j < |q.requests| && q.requests[i].tid == t
        && !q.requests[i].granted
                        && q.requests[j].tid == u && (q.requests[j].granted || j < i)))
    || (Has(q.upgrades, t) && t != u && HoldsMode(q, u, S))
  }

  ghost predicate ExclusiveOnly(actions: seq<Action>) {
    forall i :: 0 <= i < |actions| && actions[i].Lock? ==> actions[i].mode == X
  }

  lemma {:induction false} StepDescending(s: Sys, a: Action, s': Sys, table: Name)
    requires SysInv(s) && Step(s, a, s') && (a.Lock? ==> a.mode == X) && Descending(QueueOf(s, table))
    ensures Descending(QueueOf(s', table))
  {
    hide Strict, Final, Inv, Running;
    var q, q' := QueueOf(s, table), QueueOf(s', table);
    assert Inv(q);
    match a {
      case Lock(t, tab, m) =>
        if tab == table {
          if Has(q.requests, t) {
            var k, o :| Holds(q, k) && q.requests[k].tid == t && Upgraded(q, k, m, q', o);
          } else {
            var o :| Requested(q, t, m, q', o);
            ExclusiveDescending(q, t, q', o);
          }
        }
      case Release(t, tab) =>
        if tab == table {
          var k :| Holds(q, k) && q.requests[k].tid == t && Unlocked(q, k, q');
          UnlockDescending(q, k, q');
        }
      case _ =>
    }
  }

  lemma {:induction false} RunDescending(states: seq<Sys>, actions: seq<Action>, n: int, table: Name)
    requires IsRun(states, actions) && ExclusiveOnly(actions) && 0 <= n < |states|
    ensures Descending(QueueOf(states[n], table))
  {
    if n > 0 {
      RunDescending(states, actions, n - 1, table);
      RunInv(states, actions, n - 1);
      StepDescending(states[n - 1], actions[n - 1], states[n], table);
    }
  }

  ghost predicate IsWaitPath(s: Sys, path: seq<int>) {
    |path| > 0 && forall i, j :: 0 <= i < |path| && 0 <= j < |path| && j == i + 1 ==> WaitsFor(s, path[i], path[j])
  }

  /** With exclusive requests only, every wait is of an older transaction for a younger one; no reachable
      state has a cycle of waits. */
  lemma {:induction false} NoDeadlock(states: seq<Sys>, actions: seq<Action>, n: int, path: seq<int>)
    requires IsRun(states, actions) && ExclusiveOnly(actions) && 0 <= n < |states|
    requires IsWaitPath(states[n], path) && |path| > 1
    ensures path[0] < path[|path| - 1]
  {
    hide IsRun, Descending;
    assert WaitsFor(states[n], path[0], path[1]);
    var table :| WaitsAt(QueueOf(states[n], table), path[0], path[1]);
    RunDescending(states, actions, n, table);
    WaitDirected(QueueOf(states[n], table), path[0], path[1]);
    if |path| > 2 {
      NoDeadlock(states, actions, n, path[1..]);
    }
  }

  lemma {:induction false} WaitDirected(q: Queue, t: int, u: int)
    requires Descending(q) && WaitsAt(q, t, u)
    ensures t < u
  {
  }

  /** With shared requests as well, a compatible request overtakes a waiting one, and two transactions can end up
      waiting for each other: transaction 2 holds table y and waits for table x, which transaction 1 got to
      read meanwhile; transaction 1 then waits for table y. */
  lemma {:induction false} SharedDeadlock() returns (states: seq<Sys>, actions: seq<Action>)
    ensures IsRun(states, actions)
    ensures WaitsFor(states[|states| - 1], 1, 2) && WaitsFor(states[|states| - 1], 2, 1)
  {
    hide Step, WaitsFor;
    var x, y: Name := [0], [1];
    actions := [Lock(2, y, X), Lock(3, x, S), Lock(2, x, X), Lock(1, x, S), Lock(1, y, X)];
    var e := Queue([], [], NonLock);
    var b1 := Queue([Request(2, X, true)], [], Held(X));
    var a1 := Queue([Request(3, S, true)], [], Held(S));
    var a2 := Queue([Request(3, S, true), Request(2, X, false)], [], Held(S));
    var a3 := Queue([Request(3, S, true), Request(2, X, false), Request(1, S, true)], [], Held(S));
    var b2 := Queue([Request(2, X, true), Request(1, X, false)], [], Held(X));
    var s0 := Init();
    var s1 := s0.(queues := s0.queues[y := b1]);
    var s2 := s1.(queues := s1.queues[x := a1]);
    var s3 := s2.(queues := s2.queues[x := a2]);
    var s4 := s3.(queues := s3.queues[x := a3]);
    var s5 := s4.(queues := s4.queues[y := b2]);
    states := [s0, s1, s2, s3, s4, s5];
    RequestStep(s0, x, e, y, e, 2, y, X, b1, Granted, s1);
    RequestStep(s1, x, e, y, b1, 3, x, S, a1, Granted, s2);
    RequestStep(s2, x, a1, y, b1, 2, x, X, a2, Waiting, s3);
    RequestStep(s3, x, a2, y, b1, 1, x, S, a3, Granted, s4);
    RequestStep(s4, x, a3, y, b1, 1, y, X, b2, Waiting, s5);
    WaitsInState(s5, x, a3, 1, 2);
    WaitsInState(s5, y, b2, 1, 0);
  }

  lemma {:induction false} RequestStep(s: Sys, x: Name, qx: Queue, y: Name, qy: Queue, t: int, table: Name, m: Mode,
                                       q': Queue, o: Outcome, s': Sys)
    requires s.ended == {} && s.queues.Keys <= {x, y} && x != y && QueueOf(s, x) == qx && QueueOf(s, y) == qy
    requires table == x || table == y
    requires !WaitsIn(qx, t) && !WaitsIn(qy, t)
    requires var q := if table == x then qx else qy; !Has(q.requests, t) && Requested(q, t, m, q', o)
    requires s' == s.(queues := s.queues[table := q'])
    ensures Step(s, Lock(t, table, m), s')
  {
    hide Requested, Has;
    assert !WaitsIn(Queue([], [], NonLock), t) by { NotIn(t); }
    assert forall z :: z != x && z != y ==> QueueOf(s, z) == Queue([], [], NonLock);
  }

  lemma {:induction false} NotIn(t: int)
    ensures !Has([], t)
  {
  }

  lemma {:induction false} WaitsInState(s: Sys, table: Name, q: Queue, i: int, j: int)
    requires QueueOf(s, table) == q && 0 <= i < |q.requests| && 0 <= j < |q.requests| && !q.requests[i].granted
    requires q.requests[j].granted
    ensures WaitsFor(s, q.requests[i].tid, q.requests[j].tid)
  {
    assert WaitsAt(QueueOf(s, table), q.requests[i].tid, q.requests[j].tid);
  }
}
