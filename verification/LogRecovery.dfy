/** Restart recovery: reading the log through a bounded window, grouping by page, redo and undo. */
module LogRecovery {
  import opened Basics
  import opened Bytes
  import opened LogRecord
  import opened LogHistory
  import opened LogOutcome
  import opened LogMeaning
  import opened LogRunning
  import LogManager

  const NO_LSN: int := -1

  // ------------------------------------------------------------- what analyze collects

  ghost function UndoStep(m: map<int, int>, r: Record): map<int, int> {
    match r.body
    case Begin => if r.tid in m then m else m[r.tid := r.lsn]
    case Commit => m - {r.tid}
    case Checkpoint => m
    case _ => m[r.tid := r.lsn]
  }

  ghost function UndoMap(recs: seq<Record>): map<int, int> {
    if |recs| == 0 then map[] else UndoStep(UndoMap(recs[..|recs| - 1]), recs[|recs| - 1])
  }

  /** The map from record numbers to records. */
  ghost predicate Indexed(m: map<int, Record>, recs: seq<Record>) {
    && (forall i :: 0 <= i < |recs| ==> recs[i].lsn in m && m[recs[i].lsn] == recs[i])
    && (forall l :: l in m ==> m[l] in recs && m[l].lsn == l)
  }

  ghost function Lsns(recs: seq<Record>): (s: seq<int>)
    ensures |s| == |recs| && forall i :: 0 <= i < |s| ==> s[i] == recs[i].lsn
  {
    seq(|recs|, i requires 0 <= i < |recs| => recs[i].lsn)
  }

  /** Each page is mapped to the numbers of the operations on it, in log order. */
  ghost predicate Grouped(m: map<PageKey, seq<int>>, recs: seq<Record>) {
    forall p :: PageGroup(m, p, Filter(recs, OnPage(p)))
  }

  ghost predicate PageGroup(m: map<PageKey, seq<int>>, p: PageKey, ops: seq<Record>) {
    if |ops| == 0 then p !in m else p in m && m[p] == Lsns(ops)
  }

  // One transaction's view of UndoMap.

  ghost function UndoEntry(own: seq<Record>): Option<int> {
    if |own| == 0 then None else
    var n := |own| - 1;
    match own[n].body
    case Begin => if UndoEntry(own[..n]).Some? then UndoEntry(own[..n]) else Some(own[n].lsn)
    case Commit => None
    case Checkpoint => UndoEntry(own[..n])
    case _ => Some(own[n].lsn)
  }

  lemma {:induction false} UndoMapEntry(recs: seq<Record>, t: int)
    ensures (if t in UndoMap(recs) then Some(UndoMap(recs)[t]) else None) == UndoEntry(Filter(recs, OfTxn(t)))
  {
    if |recs| > 0 {
      var n := |recs| - 1;
      UndoMapEntry(recs[..n], t);
      var f := Filter(recs[..n], OfTxn(t));
      if recs[n].tid == t {
        assert (f + [recs[n]])[..|f|] == f;
      } else {
        assert f + [] == f;
      }
    }
  }

  /** In a well-formed history the transactions to undo are those without a commit record, and each
      entry is the number of the transaction's last record. */
  lemma {:induction false} UndoMapMeaning(recs: seq<Record>, base: int, t: int)
    requires Chained(recs, base)
    ensures var own := Filter(recs, OfTxn(t));
            && (t in UndoMap(recs) <==> own != [] && t !in Committed(recs))
            && (t in UndoMap(recs) ==> UndoMap(recs)[t] == own[|own| - 1].lsn)
  {
    hide UndoMap, Filter;
    var own := Filter(recs, OfTxn(t));
    UndoMapEntry(recs, t);
    assert TxnOk(own);
    NoCheckpoints(recs, base, t);
    CommittedOwn(recs, t);
    if |own| == 1 {
      assert own[..0] == [];
    }
  }

  lemma {:induction false} NoCheckpoints(recs: seq<Record>, base: int, t: int)
    requires Chained(recs, base)
    ensures forall k :: 0 <= k < |Filter(recs, OfTxn(t))| ==> !Filter(recs, OfTxn(t))[k].body.Checkpoint?
  {
    FilterHolds(recs, OfTxn(t));
  }

  lemma {:induction false} CommittedOwn(recs: seq<Record>, t: int)
    ensures t in Committed(recs) <==>
              exists k :: 0 <= k < |Filter(recs, OfTxn(t))| && Filter(recs, OfTxn(t))[k].body.Commit?
  {
    var own := Filter(recs, OfTxn(t));
    FilterHolds(recs, OfTxn(t));
    if k :| 0 <= k < |own| && own[k].body.Commit? {
      assert own[k] in recs;
      var i :| 0 <= i < |recs| && recs[i] == own[k];
      assert recs[i].body.Commit? && recs[i].tid == t;
    }
    if t in Committed(recs) {
      var i :| 0 <= i < |recs| && recs[i].body.Commit? && recs[i].tid == t;
      FilterContains(recs, OfTxn(t), i);
    }
  }

  // ------------------------------------------------------------- reading the log

  /** `tail` is a proper prefix of some record. */
  ghost predicate TornTail(tail: bytes, next: Record) {
    Fits(next) && |tail| < TotLen(next) && tail == Encode(next)[..|tail|]
  }

  /** What is still unread after `n` records. */
  ghost predicate Unread(rest: bytes, recs: seq<Record>, n: int, tail: bytes) {
    0 <= n <= |recs| && AllFit(recs) && rest == EncodeAll(recs[n..]) + tail
  }

  lemma {:induction false} UnreadStep(rest: bytes, recs: seq<Record>, n: int, tail: bytes)
    requires Unread(rest, recs, n, tail) && n < |recs|
    ensures |rest| >= TotLen(recs[n]) && rest[..TotLen(recs[n])] == Encode(recs[n])
    ensures Unread(rest[TotLen(recs[n])..], recs, n + 1, tail)
  {
    hide Encode, Fits;
    var r := recs[n];
    EncodeAllConcat([r], recs[n + 1..]);
    assert [r] + recs[n + 1..] == recs[n..];
    assert [r][..0] == [] && EncodeAll([r]) == Encode(r);
    assert rest == Encode(r) + (EncodeAll(recs[n + 1..]) + tail);
  }

  lemma {:induction false} UnreadEnd(rest: bytes, recs: seq<Record>, tail: bytes)
    requires Unread(rest, recs, |recs|, tail)
    ensures rest == tail
  {
    assert recs[|recs|..] == [];
  }

  lemma {:induction false} HeaderPrefix(s: bytes, t: bytes)
    requires |s| >= HEADER_SIZE && |t| >= HEADER_SIZE && s[..HEADER_SIZE] == t[..HEADER_SIZE]
    ensures DecodeHeader(s) == DecodeHeader(t)
  {
    assert s[..4] == s[..HEADER_SIZE][..4] && t[..4] == t[..HEADER_SIZE][..4];
    assert s[4..8] == s[..HEADER_SIZE][4..8] && t[4..8] == t[..HEADER_SIZE][4..8];
    assert s[8..12] == s[..HEADER_SIZE][8..12] && t[8..12] == t[..HEADER_SIZE][8..12];
    assert s[12..16] == s[..HEADER_SIZE][12..16] && t[12..16] == t[..HEADER_SIZE][12..16];
    assert s[16..20] == s[..HEADER_SIZE][16..20] && t[16..20] == t[..HEADER_SIZE][16..20];
  }

  /** The header at the front of any unread window is that of the next complete record, or claims more
      bytes than the torn tail has. */
  lemma {:induction false} NextHeader(w: bytes, rest: bytes, recs: seq<Record>, n: int, tail: bytes, next: Record)
    requires Unread(rest, recs, n, tail) && TornTail(tail, next)
    requires HEADER_SIZE <= |w| <= |rest| && w == rest[..|w|]
    ensures DecodeHeader(w).totLen == if n < |recs| then TotLen(recs[n]) else TotLen(next)
    ensures n < |recs| && |w| >= TotLen(recs[n]) ==> Decode(w) == Some(recs[n])
  {
    hide DecodeHeader, Decode, Encode, EncodeAll, Fits;
    if n < |recs| {
      UnreadStep(rest, recs, n, tail);
      RoundTrip(recs[n], []);
      assert Encode(recs[n]) + [] == Encode(recs[n]);
      assert w[..HEADER_SIZE] == rest[..TotLen(recs[n])][..HEADER_SIZE];
      HeaderPrefix(w, Encode(recs[n]));
      if |w| >= TotLen(recs[n]) {
        assert w == Encode(recs[n]) + w[TotLen(recs[n])..];
        RoundTrip(recs[n], w[TotLen(recs[n])..]);
      }
    } else {
      UnreadEnd(rest, recs, tail);
      RoundTrip(next, []);
      assert Encode(next) + [] == Encode(next);
      assert w[..HEADER_SIZE] == Encode(next)[..HEADER_SIZE];
      HeaderPrefix(w, Encode(next));
    }
  }

  lemma {:induction false} UnreadLong(rest: bytes, recs: seq<Record>, n: int, tail: bytes, next: Record)
    requires Unread(rest, recs, n, tail) && TornTail(tail, next)
    ensures n < |recs| ==> |rest| >= TotLen(recs[n])
    ensures n == |recs| ==> |rest| < TotLen(next)
  {
    hide Encode, EncodeAll, Fits;
    if n < |recs| {
      UnreadStep(rest, recs, n, tail);
    } else {
      UnreadEnd(rest, recs, tail);
    }
  }

  /** From `at` on, the buffer holds the file contents from `offset` on. */
  ghost predicate Window(w: bytes, at: int, file: bytes, offset: int) {
    0 <= at <= |w| && 0 <= offset && |w| - at <= |file| - offset && w[at..] == file[offset..][..|w| - at]
  }

  lemma {:induction false} WindowHeader(
      w: bytes, at: int, file: bytes, offset: int, recs: seq<Record>, n: int, tail: bytes, next: Record)
    requires Window(w, at, file, offset) && 0 <= offset <= |file| && Unread(file[offset..], recs, n, tail)
    requires TornTail(tail, next)
    requires at + HEADER_SIZE <= |w|
    ensures DecodeHeader(w[at..]).totLen == if n < |recs| then TotLen(recs[n]) else TotLen(next)
    ensures n < |recs| && |w| - at >= TotLen(recs[n]) ==> Decode(w[at..]) == Some(recs[n])
    ensures n == |recs| ==> |w| - at < TotLen(next)
    ensures 0 <= n <= |recs|
  {
    hide DecodeHeader, Decode, Encode, EncodeAll, Fits, TornTail;
    NextHeader(w[at..], file[offset..], recs, n, tail, next);
    UnreadLong(file[offset..], recs, n, tail, next);
  }

  lemma {:induction false} WindowAdvance(
      w: bytes, at: int, file: bytes, offset: int, recs: seq<Record>, n: int, tail: bytes)
    requires Window(w, at, file, offset) && 0 <= offset <= |file| && Unread(file[offset..], recs, n, tail)
    requires 0 <= n < |recs|
    requires TotLen(recs[n]) <= |w| - at
    ensures var len := TotLen(recs[n]);
            && offset + len <= |file| && Window(w, at + len, file, offset + len)
            && Unread(file[offset + len..], recs, n + 1, tail)
  {
    hide Encode, EncodeAll, Fits;
    var len := TotLen(recs[n]);
    UnreadStep(file[offset..], recs, n, tail);
    assert file[offset..][len..] == file[offset + len..];
    NextWindow(w, at, file, offset, len);
  }

  class RecoveryManager {
    const capacity: int
    const file: bytes
    const restart: int
    const open: set<bytes>
    var logRecords: map<int, Record>
    var undoTxn: map<int, int>
    var txnList: seq<int>
    var redoLogs: map<PageKey, seq<int>>
    var tables: Tables

    constructor (capacity: int, file: bytes, restart: int, open: set<bytes>, tables: Tables)
      ensures this.capacity == capacity && this.file == file && this.restart == restart && this.open == open
      ensures this.tables == tables && logRecords == map[] && undoTxn == map[] && txnList == [] && redoLogs == map[]
    {
      this.capacity, this.file, this.restart, this.open, this.tables := capacity, file, restart, open, tables;
      logRecords, undoTxn, txnList, redoLogs := map[], map[], [], map[];
    }

    /** The bytes from `offset` on, at most one buffer full. */
    method ReadLog(offset: int) returns (w: bytes)
      requires 0 <= offset <= |file| && capacity >= 0
      ensures |w| == (if capacity <= |file| - offset then capacity else |file| - offset) && Window(w, 0, file, offset)
    {
      var size := if capacity <= |file| - offset then capacity else |file| - offset;
      w := file[offset..offset + size];
    }

    /** Takes note of one record. */
    method Collect(r: Record, ghost recs: seq<Record>, ghost n: int)
      requires 0 <= n < |recs| && r == recs[n] && (forall i :: 0 <= i < n ==> recs[i].lsn != r.lsn)
      requires Indexed(logRecords, recs[..n]) && undoTxn == UndoMap(recs[..n]) && txnList == Begun(recs[..n])
      modifies `logRecords, `undoTxn, `txnList
      ensures Indexed(logRecords, recs[..n + 1]) && undoTxn == UndoMap(recs[..n + 1]) && txnList == Begun(recs[..n + 1])
    {
      assert recs[..n + 1][..n] == recs[..n];
      assert recs[..n + 1] == recs[..n] + [r];
      if r.lsn !in logRecords {
        logRecords := logRecords[r.lsn := r];
      }
      match r.body {
        case Begin =>
          if r.tid !in undoTxn {
            undoTxn := undoTxn[r.tid := r.lsn];
          }
          txnList := txnList + [r.tid];
        case Commit =>
          undoTxn := undoTxn - {r.tid};
        case Checkpoint =>
        case _ =>
          undoTxn := undoTxn[r.tid := r.lsn];
      }
    }

    /** The reader of analyze. Whatever the buffer size and wherever its refills fall, it collects exactly
        the complete records, in order, and stops at the torn tail. */
    method Scan(ghost recs: seq<Record>, ghost tail: bytes, ghost next: Record)
      requires 0 <= restart <= |file| && capacity >= HEADER_SIZE && Unread(file[restart..], recs, 0, tail)
      requires TornTail(tail, next)
      requires forall i :: 0 <= i < |recs| ==> TotLen(recs[i]) <= capacity
      requires forall i, j :: 0 <= i < j < |recs| ==> recs[i].lsn != recs[j].lsn
      requires logRecords == map[] && undoTxn == map[] && txnList == []
      modifies `logRecords, `undoTxn, `txnList
      ensures Indexed(logRecords, recs) && undoTxn == UndoMap(recs) && txnList == Begun(recs)
    {
      hide Indexed, UndoMap, Begun, Unread, TornTail, DecodeHeader, Decode, TotLen, Window;
      var offset := restart;
      var w := ReadLog(offset);
      var at := 0;
      ghost var n := 0;
      NothingRead(recs);
      while true
        invariant 0 <= n <= |recs| && 0 <= offset <= |file| && 0 <= at <= |w|
        invariant Window(w, at, file, offset) && Unread(file[offset..], recs, n, tail)
        invariant Indexed(logRecords, recs[..n]) && undoTxn == UndoMap(recs[..n]) && txnList == Begun(recs[..n])
        decreases |recs| - n
      {
        UnreadLong(file[offset..], recs, n, tail, next);
        if at + HEADER_SIZE > |w| {
          w := ReadLog(offset);
          if |w| < HEADER_SIZE {
            break;
          }
          at := 0;
        }
        WindowHeader(w, at, file, offset, recs, n, tail, next);
        var h := DecodeHeader(w[at..]);
        if at + h.totLen > |w| {
          w := ReadLog(offset);
          if |w| < h.totLen {
            break;
          }
          at := 0;
          WindowHeader(w, at, file, offset, recs, n, tail, next);
        }
        assert n < |recs|;
        var r := Decode(w[at..]).value;
        WindowAdvance(w, at, file, offset, recs, n, tail);
        offset := offset + h.totLen;
        Collect(r, recs, n);
        at := at + h.totLen;
        n := n + 1;
      }
      assert recs[..n] == recs;
    }

    /** Assigns the operations to pages; fails on a checkpoint record or an unknown table. */
    method Group(ghost recs: seq<Record>, ghost base: int) returns (ok: bool)
      requires Indexed(logRecords, recs) && (forall i :: 0 <= i < |recs| ==> recs[i].lsn == base + i)
      requires redoLogs == map[]
      modifies `redoLogs
      ensures ok <==> forall i :: 0 <= i < |recs| ==>
                !recs[i].body.Checkpoint? && (IsData(recs[i].body) ==> recs[i].body.table in open)
      ensures ok ==> Grouped(redoLogs, recs)
    {
      hide Indexed, Grouped;
      var todo := logRecords.Keys;
      ghost var n := 0;
      IndexedKeys(logRecords, recs, base);
      NothingGrouped(recs);
      while todo != {}
        invariant 0 <= n <= |recs| && todo == Numbers(base + n, base + |recs|)
        invariant forall i :: 0 <= i < n ==>
                    !recs[i].body.Checkpoint? && (IsData(recs[i].body) ==> recs[i].body.table in open)
        invariant Grouped(redoLogs, recs[..n])
        decreases |recs| - n
      {
        assert base + n in todo && forall l :: l in todo ==> base + n <= l;
        var lsn :| lsn in todo && forall l :: l in todo ==> lsn <= l;
        assert lsn == base + n;
        IndexedAt(logRecords, recs, n);
        ghost var before := redoLogs;
        var b := logRecords[lsn].body;
        if b.Checkpoint? || (IsData(b) && b.table !in open) {
          return false;
        }
        if IsData(b) {
          var p := PageOf(Target(b));
          if p !in redoLogs {
            redoLogs := redoLogs[p := []];
          }
          redoLogs := redoLogs[p := redoLogs[p] + [lsn]];
        }
        GroupStep(before, redoLogs, recs, n);
        todo := todo - {lsn};
        n := n + 1;
      }
      assert n < |recs| ==> base + n in todo;
      assert recs[..n] == recs;
      return true;
    }

    /** Repeats the operations on one page in log order. */
    method RedoPage(p: PageKey, ghost recs: seq<Record>)
      requires Indexed(logRecords, recs) && p in redoLogs && redoLogs[p] == Lsns(Filter(recs, OnPage(p)))
      modifies `tables
      ensures tables == Replay(old(tables), Filter(recs, OnPage(p)))
    {
      hide Indexed;
      ghost var ops := Filter(recs, OnPage(p));
      FilterHolds(recs, OnPage(p));
      var i := 0;
      while i < |redoLogs[p]|
        invariant 0 <= i <= |redoLogs[p]| && tables == Replay(old(tables), ops[..i])
      {
        assert ops[i] in recs;
        IndexedMember(logRecords, recs, ops[i]);
        tables := Redone(tables, logRecords[redoLogs[p][i]].body);
        assert ops[..i + 1][..i] == ops[..i];
        i := i + 1;
      }
      assert ops[..i] == ops;
    }

    /** Redo, page by page in no particular order, has the effect of replaying the log in order. */
    method Redo(ghost recs: seq<Record>)
      requires Indexed(logRecords, recs) && Grouped(redoLogs, recs)
      modifies `tables
      ensures forall a :: Lookup(tables, a) == Fold(Lookup(old(tables), a), Filter(recs, OnAddr(a)))
      ensures tables == Replay(old(tables), recs)
    {
      hide Indexed, Fold, Filter, Lookup;
      var todo := redoLogs.Keys;
      ghost var disk := tables;
      while todo != {}
        invariant todo <= redoLogs.Keys
        invariant forall a :: Lookup(tables, a) == if PageOf(a) in redoLogs && PageOf(a) !in todo
                                                   then Fold(Lookup(disk, a), Filter(recs, OnAddr(a)))
                                                       else Lookup(disk, a)
        decreases |todo|
      {
        var p :| p in todo;
        assert PageGroup(redoLogs, p, Filter(recs, OnPage(p)));
        ghost var before := tables;
        RedoPage(p, recs);
        forall a
          ensures Lookup(tables, a) == if PageOf(a) == p then Fold(Lookup(before, a), Filter(recs, OnAddr(a)))
                    else Lookup(before, a)
        {
          PageSlot(before, recs, p, a);
        }
        todo := todo - {p};
      }
      forall a
        ensures Lookup(tables, a) == Fold(Lookup(disk, a), Filter(recs, OnAddr(a)))
      {
        UntouchedSlot(redoLogs, disk, recs, a);
      }
      ReplayBySlot(disk, tables, recs);
    }

    /** Follows the prev chain of one transaction back to its start. */
    method UndoTxn(t: int, ghost recs: seq<Record>, ghost base: int)
      requires Chained(recs, base) && Indexed(logRecords, recs) && undoTxn == UndoMap(recs) && t in undoTxn
      modifies `tables
      ensures tables == UndoBack(old(tables), Filter(recs, OfTxn(t)))
    {
      hide Indexed, UndoMap, Filter, Chained;
      ghost var own := Filter(recs, OfTxn(t));
      ghost var j := |own|;
      UndoMapMeaning(recs, base, t);
      OwnKnown(logRecords, recs, base, t);
      var curr := undoTxn[t];
      assert own[..j] == own;
      while curr in logRecords
        invariant 0 <= j <= |own| && curr == if j == 0 then NO_LSN else own[j - 1].lsn
        invariant UndoBack(tables, own[..j]) == UndoBack(old(tables), own)
        decreases j
      {
        var r := logRecords[curr];
        assert r == own[j - 1];
        tables := Undone(tables, r.body);
        assert own[..j][..j - 1] == own[..j - 1];
        curr := r.prev;
        j := j - 1;
      }
    }

    /** Rolls back the transactions without a commit record, the last one begun first. */
    method Undo(ghost recs: seq<Record>, ghost base: int)
      requires Chained(recs, base) && Indexed(logRecords, recs) && undoTxn == UndoMap(recs) && txnList == Begun(recs)
      modifies `tables
      ensures tables == UndoAll(old(tables), recs, Losers(recs))
    {
      hide Indexed, UndoMap, Filter, Chained, Begun, UndoBack, Losers;
      var losers := [];
      var i := 0;
      NoneChosen(recs);
      while i < |txnList|
        invariant 0 <= i <= |txnList| && tables == old(tables) && losers == Filter(txnList[..i], NoCommit(recs))
        invariant forall k :: 0 <= k < |losers| ==> losers[k] in undoTxn
      {
        ChosenMore(recs, base, txnList, i);
        if txnList[i] in undoTxn {
          losers := losers + [txnList[i]];
        }
        i := i + 1;
      }
      assert txnList[..i] == txnList;
      assert losers == Losers(recs) by { LosersAre(recs); }
      assert losers[..|losers|] == losers;
      var n := |losers|;
      while n > 0
        invariant 0 <= n <= |losers| && UndoAll(tables, recs, losers[..n]) == UndoAll(old(tables), recs, losers)
      {
        n := n - 1;
        assert losers[..n + 1][..n] == losers[..n];
        UndoTxn(losers[n], recs, base);
      }
    }

    /** Recovery as a whole, for every log of one epoch, torn anywhere, and every disk image in which each slot holds a
        value that its logged operations can lead to. Each slot ends up with exactly the outcome of the log; this is
        the checkpoint state with the winners' operations applied exactly if every slot's outcome is the winners'
        value. In terms of the records: a slot that no loser wrote shows its last operation, and any other shows what
        the loser begun first found. Recovery fails exactly if the log names a table that does not exist. */
    method Recover(ghost recs: seq<Record>, ghost tail: bytes, ghost next: Record, ghost base: int, ghost m: Tables)
        returns (ok: bool)
      requires 0 <= restart <= |file| && capacity >= HEADER_SIZE
      requires Unread(file[restart..], recs, 0, tail) && TornTail(tail, next)
      requires forall i :: 0 <= i < |recs| ==> TotLen(recs[i]) <= capacity
      requires logRecords == map[] && undoTxn == map[] && txnList == [] && redoLogs == map[]
      requires Chained(recs, base) && PartlyWritten(tables, m, recs)
      modifies this
      ensures ok <==> forall i :: 0 <= i < |recs| && IsData(recs[i].body) ==> recs[i].body.table in open
      ensures ok ==> forall a :: Lookup(tables, a) == Outcome(Lookup(m, a), recs, a)
      ensures ok ==> (tables == Replay(m, Filter(recs, In(Winners(recs)))) <==> Recovers(m, recs))
      ensures ok ==> forall n :: LastWinning(recs, n) ==> ShowsEffect(tables, recs[n].body)
      ensures ok ==> forall b, j :: FirstLosing(recs, b, j) ==> ShowsBefore(tables, recs[j].body)
    {
      hide Indexed, UndoMap, Filter, Begun, Unread, TornTail, PartlyWritten, Lookup, Fold, Outcome, Recovers, Losers,
           UndoAll;
      ghost var disk := tables;
      Scan(recs, tail, next);
      ok := Group(recs, base);
      if ok {
        Redo(recs);
        ghost var redone := tables;
        Undo(recs, base);
        SlotsRedone(redone, disk, recs);
        RecoveryRight(disk, m, recs, redone);
        forall a
          ensures Lookup(tables, a) == Outcome(Lookup(m, a), recs, a)
        {
          RecoveryOutcome(disk, m, recs, redone, a);
        }
        OutcomeMeaning(tables, m, recs);
      }
    }
  }

  // ------------------------------------------------------------- glue for the methods above

  lemma {:induction false} NothingRead(recs: seq<Record>)
    ensures Indexed(map[], recs[..0]) && UndoMap(recs[..0]) == map[] && Begun(recs[..0]) == []
  {
  }

  lemma {:induction false} NextWindow(w: bytes, at: int, file: bytes, offset: int, n: int)
    requires 0 <= at <= |w| && 0 <= offset <= |file| && |w| - at <= |file| - offset && 0 <= n <= |w| - at
    requires w[at..] == file[offset..][..|w| - at]
    ensures w[at + n..] == file[offset + n..][..|w| - at - n]
  {
    assert w[at + n..] == w[at..][n..];
    assert file[offset + n..][..|w| - at - n] == file[offset..][..|w| - at][n..];
  }

  ghost function Numbers(lo: int, hi: int): (s: set<int>)
    ensures forall l :: l in s <==> lo <= l < hi
    decreases hi - lo
  {
    if lo >= hi then {} else {lo} + Numbers(lo + 1, hi)
  }

  lemma {:induction false} IndexedKeys(m: map<int, Record>, recs: seq<Record>, base: int)
    requires Indexed(m, recs) && forall i :: 0 <= i < |recs| ==> recs[i].lsn == base + i
    ensures forall l :: l in m <==> base <= l < base + |recs|
    ensures m.Keys == Numbers(base, base + |recs|)
  {
    forall l | base <= l < base + |recs|
      ensures l in m
    {
      assert recs[l - base].lsn == l;
    }
  }

  lemma {:induction false} IndexedAt(m: map<int, Record>, recs: seq<Record>, n: int)
    requires Indexed(m, recs) && 0 <= n < |recs|
    ensures recs[n].lsn in m && m[recs[n].lsn] == recs[n]
  {
  }

  lemma {:induction false} IndexedMember(m: map<int, Record>, recs: seq<Record>, r: Record)
    requires Indexed(m, recs) && r in recs
    ensures r.lsn in m && m[r.lsn] == r
  {
  }

  lemma {:induction false} NothingGrouped(recs: seq<Record>)
    ensures Grouped(map[], recs[..0])
  {
  }

  ghost function AddTo(m: map<PageKey, seq<int>>, r: Record): map<PageKey, seq<int>> {
    if IsData(r.body) then
      var p := PageOf(Target(r.body));
      m[p := (if p in m then m[p] else []) + [r.lsn]]
    else m
  }

  lemma {:induction false} GroupStep(m: map<PageKey, seq<int>>, m': map<PageKey, seq<int>>, recs: seq<Record>, n: int)
    requires 0 <= n < |recs| && Grouped(m, recs[..n]) && m' == AddTo(m, recs[n])
    ensures Grouped(m', recs[..n + 1])
  {
    forall p
      ensures PageGroup(m', p, Filter(recs[..n + 1], OnPage(p)))
    {
      var ops := Filter(recs[..n], OnPage(p));
      assert PageGroup(m, p, ops);
      assert recs[..n + 1] == recs[..n] + [recs[n]];
      FilterAppend(recs[..n], recs[n], OnPage(p));
      if OnPage(p)(recs[n]) {
        assert Lsns(ops + [recs[n]]) == Lsns(ops) + [recs[n].lsn];
      } else {
        assert ops + [] == ops;
      }
    }
  }

  lemma {:induction false} AddrOps(recs: seq<Record>, p: PageKey, a: Addr)
    ensures Filter(Filter(recs, OnPage(p)), OnAddr(a)) == if PageOf(a) == p then Filter(recs, OnAddr(a)) else []
  {
    FilterSwap(recs, OnPage(p), OnAddr(a));
    FilterHolds(recs, OnAddr(a));
    if PageOf(a) == p {
      FilterAll(Filter(recs, OnAddr(a)), OnPage(p));
    } else {
      FilterNone(Filter(recs, OnAddr(a)), OnPage(p));
    }
  }

  lemma {:induction false} PageSlot(m: Tables, recs: seq<Record>, p: PageKey, a: Addr)
    ensures Lookup(Replay(m, Filter(recs, OnPage(p))), a) ==
            if PageOf(a) == p then Fold(Lookup(m, a), Filter(recs, OnAddr(a))) else Lookup(m, a)
  {
    ReplaySlot(m, Filter(recs, OnPage(p)), a);
    AddrOps(recs, p, a);
  }

  lemma {:induction false} UntouchedSlot(groups: map<PageKey, seq<int>>, m: Tables, recs: seq<Record>, a: Addr)
    requires Grouped(groups, recs)
    ensures PageOf(a) !in groups ==> Fold(Lookup(m, a), Filter(recs, OnAddr(a))) == Lookup(m, a)
  {
    var p := PageOf(a);
    assert PageGroup(groups, p, Filter(recs, OnPage(p)));
    AddrOps(recs, p, a);
  }

  lemma {:induction false} ReplayBySlot(m: Tables, m': Tables, recs: seq<Record>)
    requires forall a :: Lookup(m', a) == Fold(Lookup(m, a), Filter(recs, OnAddr(a)))
    ensures m' == Replay(m, recs)
  {
    forall a
      ensures Lookup(m', a) == Lookup(Replay(m, recs), a)
    {
      ReplaySlot(m, recs, a);
    }
    SameTables(m', Replay(m, recs));
  }

  /** What the walk along the prev chain needs to know. */
  lemma {:induction false} OwnKnown(m: map<int, Record>, recs: seq<Record>, base: int, t: int)
    requires Chained(recs, base) && Indexed(m, recs)
    ensures var own := Filter(recs, OfTxn(t));
            && TxnOk(own) && NO_LSN !in m
            && forall k :: 0 <= k < |own| ==> own[k].lsn in m && m[own[k].lsn] == own[k]
  {
    var own := Filter(recs, OfTxn(t));
    FilterHolds(recs, OfTxn(t));
    IndexedKeys(m, recs, base);
    forall k | 0 <= k < |own|
      ensures own[k].lsn in m && m[own[k].lsn] == own[k]
    {
      IndexedMember(m, recs, own[k]);
    }
  }

  lemma {:induction false} TxnPrefix(own: seq<Record>, n: int)
    requires TxnOk(own) && 0 <= n <= |own|
    ensures TxnOk(own[..n])
  {
  }

  lemma {:induction false} ChainedPrefix(recs: seq<Record>, base: int)
    requires Chained(recs, base) && |recs| > 0
    ensures Chained(recs[..|recs| - 1], base)
  {
    var n := |recs| - 1;
    forall t
      ensures TxnOk(Filter(recs[..n], OfTxn(t)))
    {
      var own, f := Filter(recs, OfTxn(t)), Filter(recs[..n], OfTxn(t));
      assert TxnOk(own);
      TxnPrefix(own, |f|);
      assert own[..|f|] == f;
    }
  }

  lemma {:induction false} BegunMeaning(recs: seq<Record>, base: int)
    requires Chained(recs, base)
    ensures var ts := Begun(recs);
            && (forall i, j :: 0 <= i < j < |ts| ==> ts[i] != ts[j])
            && (forall t :: t in ts <==> Filter(recs, OfTxn(t)) != [])
  {
    hide Filter, Chained;
    if |recs| > 0 {
      var n := |recs| - 1;
      var r, ts := recs[n], Begun(recs[..n]);
      ChainedPrefix(recs, base);
      BegunMeaning(recs[..n], base);
      BeginFirst(recs, base);
      forall t
        ensures t in Begun(recs) <==> Filter(recs, OfTxn(t)) != []
      {
        assert t in Begun(recs) <==> t in ts || (r.body.Begin? && t == r.tid);
        OwnStep(recs, t);
      }
    } else {
      forall t
        ensures Filter(recs, OfTxn(t)) == []
      {
        FilterNone(recs, OfTxn(t));
      }
    }
  }

  lemma {:induction false} OwnStep(recs: seq<Record>, t: int)
    requires |recs| > 0
    ensures var n := |recs| - 1;
            Filter(recs, OfTxn(t)) == Filter(recs[..n], OfTxn(t)) + if recs[n].tid == t then [recs[n]] else []
  {
  }

  lemma {:induction false} BeginFirst(recs: seq<Record>, base: int)
    requires Chained(recs, base) && |recs| > 0
    ensures var n := |recs| - 1;
            recs[n].body.Begin? <==> Filter(recs[..n], OfTxn(recs[n].tid)) == []
  {
    hide Filter;
    var r, n := recs[|recs| - 1], |recs| - 1;
    var own := Filter(recs[..n], OfTxn(r.tid));
    OwnStep(recs, r.tid);
    assert TxnOk(Filter(recs, OfTxn(r.tid)));
    assert (own + [r])[|own|] == r;
  }

  lemma {:induction false} SlotsRedone(redone: Tables, disk: Tables, recs: seq<Record>)
    requires forall a :: Lookup(redone, a) == Fold(Lookup(disk, a), Filter(recs, OnAddr(a)))
    ensures forall a :: Lookup(redone, a) == Fold(Lookup(disk, a), SlotOps(recs, a))
  {
    hide Lookup, Fold, Filter;
  }

  lemma {:induction false} NoneChosen(recs: seq<Record>)
    ensures Filter([], NoCommit(recs)) == []
  {
  }

  lemma {:induction false} LosersAre(recs: seq<Record>)
    ensures Losers(recs) == Filter(Begun(recs), NoCommit(recs))
  {
  }

  /** The transactions listed for undo are those without a commit record. */
  lemma {:induction false} ChosenMore(recs: seq<Record>, base: int, ts: seq<int>, i: int)
    requires Chained(recs, base) && ts == Begun(recs) && 0 <= i < |ts|
    ensures ts[i] in UndoMap(recs) <==> ts[i] !in Committed(recs)
    ensures Filter(ts[..i + 1], NoCommit(recs)) ==
            Filter(ts[..i], NoCommit(recs)) + if ts[i] in UndoMap(recs) then [ts[i]] else []
  {
    hide UndoMap, Filter, Chained, Committed, Begun;
    BegunMeaning(recs, base);
    assert ts[i] in ts;
    UndoMapMeaning(recs, base, ts[i]);
    assert ts[..i + 1] == ts[..i] + [ts[i]];
    FilterAppend(ts[..i], ts[i], NoCommit(recs));
  }

  /** In a well-formed history every transaction has begun. */
  lemma {:induction false} ChainedBegun(recs: seq<Record>, base: int)
    requires Chained(recs, base)
    ensures AllBegun(recs)
  {
    hide Chained, Begun, Filter;
    BegunMeaning(recs, base);
    forall i | 0 <= i < |recs|
      ensures recs[i].tid in Begun(recs)
    {
      FilterContains(recs, OfTxn(recs[i].tid), i);
    }
  }

  /** A crash at any moment, in the middle of writing out the buffer included, leaves a file that the reader
      of analyze takes apart into an initial part of the records that holds everything durable. */
  lemma {:induction false} CrashReadable(file: bytes, prior: bytes, recs: seq<Record>, durable: int, cut: int)
      returns (d: int, tail: bytes, next: Record)
    requires AllFit(recs) && 0 <= durable <= |recs| && 0 <= cut <= |EncodeAll(recs[durable..])|
    requires file == prior + EncodeAll(recs[..durable]) + EncodeAll(recs[durable..])[..cut]
    ensures durable <= d <= |recs| && |prior| <= |file|
    ensures Unread(file[|prior|..], recs[..d], 0, tail) && TornTail(tail, next)
  {
    hide EncodeAll, Encode, Fits;
    d, tail := LogManager.CrashImage(recs, durable, cut);
    assert file[|prior|..] == EncodeAll(recs[..durable]) + EncodeAll(recs[durable..])[..cut];
    assert recs[..d][0..] == recs[..d];
    next := Record(0, 0, 0, Begin);
    if d < |recs| {
      next := recs[d];
    } else {
      BeginFits();
    }
  }

  lemma {:induction false} BeginFits()
    ensures Fits(Record(0, 0, 0, Begin))
  {
  }
}
