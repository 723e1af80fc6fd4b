/** Row changes under a transaction, and its rollback by write set. A table is seen here through its record map
    and its unique indexes. An index is a map as long as it has a root; the deletion that leaves it without entries
    loses the root for good, and every later operation on it fails. That is what is proved for the index itself. */
module Rollback {
  import opened Basics

  type Row = seq<int>

  datatype State = State(recs: map<Rid, Row>, idx: seq<map<int, Rid>>)

  datatype Write = InsertTuple(rid: Rid) | DeleteTuple(rid: Rid, row: Row) | UpdateTuple(rid: Rid, row: Row)

  /** insert_entry: nothing happens if the key is present. */
  function Entered(m: map<int, Rid>, key: int, rid: Rid): map<int, Rid> {
    if key in m then m else m[key := rid]
  }

  /** delete_entry with a record id: nothing happens unless the key is stored with it. */
  function Dropped(m: map<int, Rid>, key: int, rid: Rid): map<int, Rid> {
    if key in m && m[key] == rid then m - {key} else m
  }

  // ------------------------------------------------------------- consistency

  ghost predicate IndexOk(m: map<int, Rid>, key: Row -> int, recs: map<Rid, Row>) {
    && (forall r :: r in recs ==> key(recs[r]) in m && m[key(recs[r])] == r)
    && (forall k :: k in m ==> m[k] in recs && key(recs[m[k]]) == k)
  }

  /** Every index holds exactly the keys of the records. */
  ghost predicate Consistent(s: State, keys: seq<Row -> int>) {
    |s.idx| == |keys| && forall j :: 0 <= j < |keys| ==> IndexOk(s.idx[j], keys[j], s.recs)
  }

  // ------------------------------------------------------------- undoing one write

  /** One index under the rollback of `w`, when the slot of the row is found to hold `found`. */
  function IndexUndone(m: map<int, Rid>, key: Row -> int, w: Write, found: Row): map<int, Rid> {
    match w
    case InsertTuple(rid) => Dropped(m, key(found), rid)
    case DeleteTuple(rid, row) => Entered(m, key(row), rid)
    case UpdateTuple(rid, row) => Entered(Dropped(m, key(found), rid), key(row), rid)
  }

  function RecsUndone(recs: map<Rid, Row>, w: Write): map<Rid, Row> {
    match w
    case InsertTuple(rid) => recs - {rid}
    case DeleteTuple(rid, row) => recs[rid := row]
    case UpdateTuple(rid, row) => if rid in recs then recs[rid := row] else recs
  }

  /** What is found in a slot; a slot without a record still holds some bytes. */
  function Found(recs: map<Rid, Row>, junk: Rid -> Row, rid: Rid): Row {
    if rid in recs then recs[rid] else junk(rid)
  }

  ghost predicate Undoes(before: State, w: Write, after: State, keys: seq<Row -> int>, junk: Rid -> Row) {
    && |before.idx| == |after.idx| == |keys| && after.recs == RecsUndone(before.recs, w)
    && forall j :: 0 <= j < |keys| ==>
         after.idx[j] == IndexUndone(before.idx[j], keys[j], w, Found(before.recs, junk, w.rid))
  }

  // ------------------------------------------------------------- each write can be undone

  lemma {:induction false} UndoInsert(s: State, s': State, keys: seq<Row -> int>, junk: Rid -> Row, rid: Rid, row: Row)
    requires Consistent(s, keys) && |s'.idx| == |keys| && rid !in s.recs && s'.recs == s.recs[rid := row]
    requires forall j :: 0 <= j < |keys| ==> keys[j](row) !in s.idx[j] && s'.idx[j] == s.idx[j][keys[j](row) := rid]
    ensures Undoes(s', InsertTuple(rid), s, keys, junk) && Consistent(s', keys)
  {
    assert s.recs == s'.recs - {rid};
    forall j | 0 <= j < |keys|
      ensures s.idx[j] == Dropped(s'.idx[j], keys[j](row), rid) && IndexOk(s'.idx[j], keys[j], s'.recs)
    {
      assert IndexOk(s.idx[j], keys[j], s.recs);
      assert s.idx[j] == s'.idx[j] - {keys[j](row)};
    }
  }

  /** A failed insert has been taken back at once; its entry in the write set does no harm. */
  lemma {:induction false} UndoNothing(s: State, keys: seq<Row -> int>, junk: Rid -> Row, rid: Rid)
    requires Consistent(s, keys) && rid !in s.recs
    ensures Undoes(s, InsertTuple(rid), s, keys, junk)
  {
    assert s.recs - {rid} == s.recs;
    forall j | 0 <= j < |keys|
      ensures s.idx[j] == Dropped(s.idx[j], keys[j](junk(rid)), rid)
    {
      assert IndexOk(s.idx[j], keys[j], s.recs);
    }
  }

  lemma {:induction false} UndoDelete(s: State, s': State, keys: seq<Row -> int>, junk: Rid -> Row, rid: Rid)
    requires Consistent(s, keys) && |s'.idx| == |keys| && rid in s.recs && s'.recs == s.recs - {rid}
    requires forall j :: 0 <= j < |keys| ==> s'.idx[j] == s.idx[j] - {keys[j](s.recs[rid])}
    ensures Undoes(s', DeleteTuple(rid, s.recs[rid]), s, keys, junk) && Consistent(s', keys)
  {
    var row := s.recs[rid];
    assert s.recs == s'.recs[rid := row];
    forall j | 0 <= j < |keys|
      ensures s.idx[j] == Entered(s'.idx[j], keys[j](row), rid) && IndexOk(s'.idx[j], keys[j], s'.recs)
    {
      assert IndexOk(s.idx[j], keys[j], s.recs);
      assert s.idx[j] == s'.idx[j][keys[j](row) := rid];
    }
  }

  /** An index after an update got as far as it: moved to the new key, or not yet touched. */
  ghost predicate Moved(m: map<int, Rid>, m': map<int, Rid>, oldKey: int, newKey: int, rid: Rid) {
    newKey !in m && m' == m[newKey := rid] - {oldKey}
  }

  lemma {:induction false} UndoIndexUpdate(
      m: map<int, Rid>, m': map<int, Rid>, key: Row -> int, recs: map<Rid, Row>, rid: Rid, row: Row)
    requires IndexOk(m, key, recs) && rid in recs
    requires m' == m || Moved(m, m', key(recs[rid]), key(row), rid)
    ensures Entered(Dropped(m', key(row), rid), key(recs[rid]), rid) == m
  {
    var oldKey, newKey := key(recs[rid]), key(row);
    if m' == m {
      if newKey in m && m[newKey] == rid {
        assert newKey == oldKey;
        assert (m - {newKey})[oldKey := rid] == m;
      }
    } else {
      assert newKey != oldKey;
      assert m' - {newKey} == m - {oldKey};
      assert (m - {oldKey})[oldKey := rid] == m;
    }
  }

  /** An update, whole or cut off at any index by a duplicate key, is undone. */
  lemma {:induction false} UndoUpdate(s: State, s': State, keys: seq<Row -> int>, junk: Rid -> Row, rid: Rid, row: Row)
    requires Consistent(s, keys) && |s'.idx| == |keys| && rid in s.recs && s'.recs == s.recs[rid := row]
    requires forall j :: 0 <= j < |keys| ==>
               s'.idx[j] == s.idx[j] || Moved(s.idx[j], s'.idx[j], keys[j](s.recs[rid]), keys[j](row), rid)
    ensures Undoes(s', UpdateTuple(rid, s.recs[rid]), s, keys, junk)
  {
    assert s.recs == s'.recs[rid := s.recs[rid]];
    forall j | 0 <= j < |keys|
      ensures s.idx[j] == Entered(Dropped(s'.idx[j], keys[j](row), rid), keys[j](s.recs[rid]), rid)
    {
      assert IndexOk(s.idx[j], keys[j], s.recs);
      UndoIndexUpdate(s.idx[j], s'.idx[j], keys[j], s.recs, rid, row);
    }
  }

  lemma {:induction false} UpdateConsistent(s: State, s': State, keys: seq<Row -> int>, rid: Rid, row: Row)
    requires Consistent(s, keys) && |s'.idx| == |keys| && rid in s.recs && s'.recs == s.recs[rid := row]
    requires forall j :: 0 <= j < |keys| ==> (s'.idx[j] == s.idx[j] && keys[j](row) == keys[j](s.recs[rid]))
                                             || Moved(s.idx[j], s'.idx[j], keys[j](s.recs[rid]), keys[j](row), rid)
    ensures Consistent(s', keys)
  {
    forall j | 0 <= j < |keys|
      ensures IndexOk(s'.idx[j], keys[j], s'.recs)
    {
      MovedOk(s.idx[j], s'.idx[j], keys[j], s.recs, s'.recs, rid, row);
    }
  }

  lemma {:induction false} MovedOk(
      m: map<int, Rid>, m': map<int, Rid>, key: Row -> int, recs: map<Rid, Row>, recs': map<Rid, Row>, rid: Rid,
      row: Row)
    requires IndexOk(m, key, recs) && rid in recs && recs' == recs[rid := row]
    requires (m' == m && key(row) == key(recs[rid])) || Moved(m, m', key(recs[rid]), key(row), rid)
    ensures IndexOk(m', key, recs')
  {
    forall r | r in recs'
      ensures key(recs'[r]) in m' && m'[key(recs'[r])] == r
    {
      if r != rid {
        assert key(recs[r]) in m && m[key(recs[r])] == r;
      }
    }
    forall k | k in m'
      ensures m'[k] in recs' && key(recs'[m'[k]]) == k
    {
      if m' != m && k != key(row) {
        assert k in m && m[k] != rid;
      }
    }
  }

  // ------------------------------------------------------------- indexes with and without a root

  /** An index, or None once its root is lost. */
  type Index = Option<map<int, Rid>>

  /** The root is lost with the last entry, also when there was none. */
  function Rooted(m: map<int, Rid>): Index {
    if m == map[] then None else Some(m)
  }

  ghost predicate AllRooted(idx: seq<Index>) {
    forall j :: 0 <= j < |idx| ==> idx[j].Some?
  }

  ghost function Maps(idx: seq<Index>): (ms: seq<map<int, Rid>>)
    requires AllRooted(idx)
    ensures |ms| == |idx| && forall j :: 0 <= j < |ms| ==> ms[j] == idx[j].value
  {
    seq(|idx|, j requires 0 <= j < |idx| => idx[j].value)
  }

  // ------------------------------------------------------------- the write set

  /** `mid` is the state before the write `w` that led to `s`. An update of the only row is known to some index. */
  ghost predicate Back(s: State, w: Write, mid: State, keys: seq<Row -> int>, junk: Rid -> Row) {
    && Undoes(s, w, mid, keys, junk) && Consistent(mid, keys) && (w.UpdateTuple? ==> w.rid in s.recs)
    && (w.UpdateTuple? && |keys| > 0 && s.recs.Keys == {w.rid} ==> Empties(s, w, keys, junk))
  }

  /** The first half of the rollback of `w` leaves an index without entries. */
  ghost predicate Empties(s: State, w: Write, keys: seq<Row -> int>, junk: Rid -> Row)
    requires |s.idx| == |keys|
  {
    exists j :: 0 <= j < |keys| && Dropped(s.idx[j], keys[j](Found(s.recs, junk, w.rid)), w.rid) == map[]
  }

  /** The state before the first of the writes `ws`, reached back from `s` one write at a time. */
  ghost predicate RollsBack(s: State, ws: seq<Write>, start: State, keys: seq<Row -> int>, junk: Rid -> Row)
    decreases |ws|
  {
    if |ws| == 0 then s == start
    else
      var w, front := ws[|ws| - 1], ws[..|ws| - 1];
      exists mid :: Back(s, w, mid, keys, junk) && RollsBack(mid, front, start, keys, junk)
  }

  lemma {:induction false} RollsBackStep(
      s: State, mid: State, ws: seq<Write>, w: Write, start: State, keys: seq<Row -> int>, junk: Rid -> Row)
    requires Back(s, w, mid, keys, junk) && RollsBack(mid, ws, start, keys, junk)
    ensures RollsBack(s, ws + [w], start, keys, junk)
  {
    assert (ws + [w])[..|ws|] == ws;
  }

  lemma {:induction false} UndoesUnique(s: State, w: Write, a: State, b: State, keys: seq<Row -> int>, junk: Rid -> Row)
    requires Undoes(s, w, a, keys, junk) && Undoes(s, w, b, keys, junk)
    ensures a == b
  {
    assert a.idx == b.idx;
  }

  // ------------------------------------------------------------- when a rollback survives

  /** The rows before the write `w` that left the rows `rows`. */
  ghost function RowsBack(rows: set<Rid>, w: Write): set<Rid> {
    match w
    case InsertTuple(rid) => rows - {rid}
    case DeleteTuple(rid, _) => rows + {rid}
    case UpdateTuple(_, _) => rows
  }

  ghost predicate WriteSurvives(rows: set<Rid>, w: Write) {
    rows != {} && RowsBack(rows, w) != {} && (w.UpdateTuple? ==> rows != {w.rid})
  }

  /** Going back through the writes, the table never is without rows, and no update was made while its row was the only
      one. */
  ghost predicate Survives(rows: set<Rid>, ws: seq<Write>)
    decreases |ws|
  {
    |ws| == 0 || (var w, front := ws[|ws| - 1], ws[..|ws| - 1];
                  WriteSurvives(rows, w) && Survives(RowsBack(rows, w), front))
  }

  /** No delete took the last row. */
  ghost predicate NeverEmptied(rows: set<Rid>, ws: seq<Write>)
    decreases |ws|
  {
    |ws| == 0 || (var w, front := ws[|ws| - 1], ws[..|ws| - 1];
                  (w.DeleteTuple? ==> rows != {}) && NeverEmptied(RowsBack(rows, w), front))
  }

  lemma {:induction false} SurvivesStep(rows: set<Rid>, before: set<Rid>, ws: seq<Write>, w: Write)
    requires RowsBack(rows, w) == before
    ensures Survives(rows, ws + [w]) <==> WriteSurvives(rows, w) && Survives(before, ws)
    ensures NeverEmptied(rows, ws + [w]) <==> (w.DeleteTuple? ==> rows != {}) && NeverEmptied(before, ws)
  {
    assert (ws + [w])[..|ws|] == ws;
  }

  /** Rolling `w` back keeps the entries of an index, at every moment. */
  ghost predicate Keeps(m: map<int, Rid>, key: Row -> int, w: Write, found: Row) {
    w.DeleteTuple? || Dropped(m, key(found), w.rid) != map[]
  }

  ghost predicate KeepsAll(s: State, w: Write, keys: seq<Row -> int>, junk: Rid -> Row)
    requires |s.idx| == |keys|
  {
    forall j :: 0 <= j < |keys| ==> Keeps(s.idx[j], keys[j], w, Found(s.recs, junk, w.rid))
  }

  /** Which rollbacks keep all indexes: a condition on the rows alone. */
  lemma {:induction false} KeepsWhen(s: State, w: Write, mid: State, keys: seq<Row -> int>, junk: Rid -> Row)
    requires Back(s, w, mid, keys, junk) && |keys| > 0 && (w.DeleteTuple? ==> s.recs.Keys != {})
    ensures mid.recs.Keys == RowsBack(s.recs.Keys, w)
    ensures KeepsAll(s, w, keys, junk) <==> WriteSurvives(s.recs.Keys, w)
  {
    match w {
      case InsertTuple(rid) => KeepsInsert(s, rid, mid, keys, junk);
      case DeleteTuple(rid, row) => assert rid in mid.recs;
      case UpdateTuple(rid, row) => KeepsUpdate(s, rid, row, mid, keys, junk);
    }
  }

  lemma {:induction false} KeepsInsert(s: State, rid: Rid, mid: State, keys: seq<Row -> int>, junk: Rid -> Row)
    requires Back(s, InsertTuple(rid), mid, keys, junk) && |keys| > 0
    ensures KeepsAll(s, InsertTuple(rid), keys, junk) <==> mid.recs != map[]
    ensures mid.recs != map[] ==> s.recs != map[]
  {
    if mid.recs == map[] {
      assert IndexOk(mid.idx[0], keys[0], mid.recs);
      assert forall k :: k !in mid.idx[0];
      assert mid.idx[0] == map[] && mid.idx[0] == Dropped(s.idx[0], keys[0](Found(s.recs, junk, rid)), rid);
    } else {
      var r :| r in mid.recs;
      forall j | 0 <= j < |keys|
        ensures mid.idx[j] != map[]
      {
        assert IndexOk(mid.idx[j], keys[j], mid.recs);
        assert keys[j](mid.recs[r]) in mid.idx[j];
      }
      assert r in s.recs;
    }
  }

  lemma {:induction false} KeepsUpdate(
      s: State, rid: Rid, row: Row, mid: State, keys: seq<Row -> int>, junk: Rid -> Row)
    requires Back(s, UpdateTuple(rid, row), mid, keys, junk) && |keys| > 0
    ensures KeepsAll(s, UpdateTuple(rid, row), keys, junk) <==> s.recs.Keys != {rid}
  {
    var w := UpdateTuple(rid, row);
    if s.recs.Keys != {rid} {
      var r :| r in s.recs && r != rid;
      forall j | 0 <= j < |keys|
        ensures Keeps(s.idx[j], keys[j], w, Found(s.recs, junk, rid))
      {
        assert IndexOk(mid.idx[j], keys[j], mid.recs);
        var k := keys[j](mid.recs[r]);
        assert k in mid.idx[j] && mid.idx[j][k] == r;
      }
    } else {
      assert Empties(s, w, keys, junk);
    }
  }

  /** The records after undoing all writes. */
  ghost function RecsBack(recs: map<Rid, Row>, ws: seq<Write>): map<Rid, Row>
    decreases |ws|
  {
    if |ws| == 0 then recs else RecsBack(RecsUndone(recs, ws[|ws| - 1]), ws[..|ws| - 1])
  }

  lemma {:induction false} RecordsBack(s: State, ws: seq<Write>, start: State, keys: seq<Row -> int>, junk: Rid -> Row)
    requires RollsBack(s, ws, start, keys, junk)
    ensures RecsBack(s.recs, ws) == start.recs
    decreases |ws|
  {
    if |ws| > 0 {
      var w, front := ws[|ws| - 1], ws[..|ws| - 1];
      var mid :| Back(s, w, mid, keys, junk) && RollsBack(mid, front, start, keys, junk);
      RecordsBack(mid, front, start, keys, junk);
    }
  }

  datatype Outcome = Ok | Duplicate | Broken

  class Table {
    const keys: seq<Row -> int>
    const junk: Rid -> Row            // left-over bytes of empty slots; what they are does not matter
    var recs: map<Rid, Row>
    var idx: seq<Index>
    var writeSet: seq<Write>
    ghost const start: State          // the table when the transaction began

    ghost predicate Alive()
      reads this
    {
      |idx| == |keys| && AllRooted(idx)
    }

    ghost function Now(): State
      requires Alive()
      reads this
    {
      State(recs, Maps(idx))
    }

    /** With all roots there, undoing the write set from back to front leads to the state at begin. Without, the rows
        tell. */
    ghost predicate Undoable()
      reads this
    {
      && |idx| == |keys|
      && (Alive() ==> RollsBack(Now(), writeSet, start, keys, junk))
      && (Alive() && |keys| > 0 ==> NeverEmptied(recs.Keys, writeSet))
      && (!Alive() ==> !Survives(recs.Keys, writeSet))
    }

    ghost predicate Valid()
      reads this
    {
      Undoable() && (Alive() ==> Consistent(Now(), keys))
    }

    /** A transaction begins. */
    constructor (keys: seq<Row -> int>, junk: Rid -> Row, s: State)
      requires Consistent(s, keys)
      ensures Valid() && Alive() && start == s && this.keys == keys && this.junk == junk && Now() == s && writeSet == []
    {
      this.keys, this.junk, start := keys, junk, s;
      recs, idx, writeSet := s.recs, seq(|s.idx|, j requires 0 <= j < |s.idx| => Some(s.idx[j])), [];
      new;
      assert Maps(idx) == s.idx;
    }

    /** Records a write of a transaction that has lost an index. */
    ghost method StaysLost(before: set<Rid>, ws: seq<Write>, w: Write)
      requires RowsBack(recs.Keys, w) == before && !Survives(before, ws) && writeSet == ws + [w]
      ensures !Survives(recs.Keys, writeSet)
    {
      SurvivesStep(recs.Keys, before, ws, w);
    }

    /** Inserts a row. On a duplicate key the row and its index entries are taken back, the entry in the write set
        stays. The position is chosen before the table is locked, so it may be taken by then: the row there is
        overwritten, and a rollback does not bring it back. */
    method InsertRow(rid: Rid, row: Row) returns (r: Outcome)
      requires Valid()
      modifies `recs, `idx, `writeSet
      ensures old(rid !in recs) ==> Valid()
      ensures old(Alive()) ==> (r == Ok <==> forall j :: 0 <= j < |keys| ==> keys[j](row) !in old(Now().idx[j]))
      ensures old(Alive()) ==> r != Broken
      ensures old(Alive()) && old(rid !in recs) ==> Alive() && (r == Duplicate ==> idx == old(idx))
      ensures r == Ok || r == Broken ==> recs == old(recs)[rid := row]
      ensures r == Duplicate && old(rid !in recs) ==> recs == old(recs)
      ensures |idx| == |keys| && writeSet == old(writeSet) + [InsertTuple(rid)]
    {
      hide RollsBack, Back, IndexOk, Survives, NeverEmptied;
      ghost var taken, alive := rid in recs, Alive();
      ghost var was, rows := idx, recs;
      recs := recs[rid := row];
      writeSet := writeSet + [InsertTuple(rid)];
      var i := 0;
      while i < |keys|
        invariant 0 <= i <= |keys| == |idx| && recs == rows[rid := row]
        invariant writeSet == old(writeSet) + [InsertTuple(rid)]
        invariant forall j :: 0 <= j < i ==>
                    was[j].Some? && keys[j](row) !in was[j].value && idx[j] == Some(was[j].value[keys[j](row) := rid])
        invariant forall j :: i <= j < |keys| ==> idx[j] == was[j]
      {
        if idx[i].None? {
          if !taken {
            StaysLost(rows.Keys, old(writeSet), InsertTuple(rid));
          }
          return Broken;
        }
        var key := keys[i](row);
        if key in idx[i].value {
          recs := recs - {rid};
          TakeBack(i, row, was, rid);
          if !taken {
            assert recs == rows;
            DuplicateTaken(alive, was, i, row, rid, rows, old(writeSet));
          }
          return Duplicate;
        }
        idx := idx[i := Some(Entered(idx[i].value, key, rid))];
        i := i + 1;
      }
      if !taken {
        InsertDone(alive, was, row, rid, rows, old(writeSet));
      }
      return Ok;
    }

    /** What a whole insert leaves. */
    ghost method InsertDone(alive: bool, was: seq<Index>, row: Row, rid: Rid, rows: map<Rid, Row>, ws: seq<Write>)
      requires |was| == |keys| == |idx| && rid !in rows && recs == rows[rid := row]
      requires writeSet == ws + [InsertTuple(rid)]
      requires forall j :: 0 <= j < |keys| ==>
                 was[j].Some? && keys[j](row) !in was[j].value && idx[j] == Some(was[j].value[keys[j](row) := rid])
      requires alive <==> AllRooted(was)
      requires alive ==> RollsBack(State(rows, Maps(was)), ws, start, keys, junk)
      requires alive && |keys| > 0 ==> NeverEmptied(rows.Keys, ws)
      requires alive ==> Consistent(State(rows, Maps(was)), keys)
      ensures Valid() && Alive()
    {
      hide RollsBack, Undoes, IndexOk, Survives, NeverEmptied;
      var s := State(rows, Maps(was));
      UndoInsert(s, Now(), keys, junk, rid, row);
      RollsBackStep(Now(), s, ws, InsertTuple(rid), start, keys, junk);
      assert recs.Keys - {rid} == rows.Keys;
      SurvivesStep(recs.Keys, rows.Keys, ws, InsertTuple(rid));
    }

    /** What a failed insert leaves: all as it was, but for the write set. */
    ghost method DuplicateTaken(
        alive: bool, was: seq<Index>, i: int, row: Row, rid: Rid, rows: map<Rid, Row>, ws: seq<Write>)
      requires |was| == |keys| == |idx| && 0 <= i < |keys| && rid !in rows && recs == rows
      requires writeSet == ws + [InsertTuple(rid)]
      requires was[i].Some? && keys[i](row) in was[i].value
      requires forall j :: 0 <= j < |keys| ==> idx[j] == if j < i && was[j].Some? then Rooted(was[j].value) else was[j]
      requires forall j :: 0 <= j < i ==> was[j].Some?
      requires alive <==> AllRooted(was)
      requires alive ==> RollsBack(State(rows, Maps(was)), ws, start, keys, junk)
      requires alive && |keys| > 0 ==> NeverEmptied(rows.Keys, ws)
      requires alive ==> Consistent(State(rows, Maps(was)), keys)
      requires !alive ==> !Survives(rows.Keys, ws)
      ensures Valid() && (alive ==> Alive() && idx == was)
    {
      hide RollsBack, Undoes, Survives, NeverEmptied;
      assert recs.Keys - {rid} == rows.Keys;
      SurvivesStep(recs.Keys, rows.Keys, ws, InsertTuple(rid));
      if alive {
        var s := State(rows, Maps(was));
        assert IndexOk(s.idx[i], keys[i], rows);
        var k := keys[i](row);
        assert k in s.idx[i];
        var r := s.idx[i][k];
        assert r in rows;
        forall j | 0 <= j < |keys|
          ensures was[j].value != map[]
        {
          assert IndexOk(s.idx[j], keys[j], rows);
          assert keys[j](rows[r]) in s.idx[j];
        }
        assert idx == was;
        UndoNothing(s, keys, junk, rid);
        RollsBackStep(s, s, ws, InsertTuple(rid), start, keys, junk);
      } else {
        var j :| 0 <= j < |was| && was[j].None?;
        assert idx[j].None?;
      }
    }

    /** Removes the entries that the first `n` indexes got. */
    method TakeBack(n: int, row: Row, ghost was: seq<Index>, ghost rid: Rid)
      requires 0 <= n <= |keys| == |idx| == |was|
      requires forall j :: 0 <= j < n ==>
                 was[j].Some? && keys[j](row) !in was[j].value && idx[j] == Some(was[j].value[keys[j](row) := rid])
      requires forall j :: n <= j < |keys| ==> idx[j] == was[j]
      modifies `idx
      ensures |idx| == |keys|
      ensures forall j :: 0 <= j < |keys| ==> idx[j] == if j < n then Rooted(was[j].value) else was[j]
    {
      var k := 0;
      while k < n
        invariant 0 <= k <= n && |idx| == |keys| && forall j :: 0 <= j < k ==> idx[j] == Rooted(was[j].value)
        invariant forall j :: k <= j < n ==> idx[j] == Some(was[j].value[keys[j](row) := rid])
        invariant forall j :: n <= j < |keys| ==> idx[j] == was[j]
      {
        assert was[k].value == was[k].value[keys[k](row) := rid] - {keys[k](row)};
        idx := idx[k := Rooted(idx[k].value - {keys[k](row)})];
        k := k + 1;
      }
    }

    /** Deletes a row and its index entries. With the last row every index loses its root. */
    method DeleteRow(rid: Rid) returns (r: Outcome)
      requires Valid() && rid in recs
      modifies `recs, `idx, `writeSet
      ensures Valid() && recs == old(recs) - {rid} && r != Duplicate
      ensures old(Alive()) ==> r == Ok && (Alive() <==> recs != map[] || |keys| == 0)
    {
      hide RollsBack, Back, IndexOk, Survives, NeverEmptied, Rooted;
      ghost var was, rows := idx, recs;
      var row := recs[rid];
      recs := recs - {rid};
      writeSet := writeSet + [DeleteTuple(rid, row)];
      assert recs.Keys + {rid} == rows.Keys;
      var i := 0;
      while i < |keys|
        invariant 0 <= i <= |keys| == |idx| && recs == rows - {rid}
        invariant writeSet == old(writeSet) + [DeleteTuple(rid, row)]
        invariant forall j :: 0 <= j < i ==> was[j].Some? && idx[j] == Rooted(was[j].value - {keys[j](row)})
        invariant forall j :: i <= j < |keys| ==> idx[j] == was[j]
      {
        if idx[i].None? {
          StaysLost(rows.Keys, old(writeSet), DeleteTuple(rid, row));
          assert !Alive();
          return Broken;
        }
        idx := idx[i := Rooted(idx[i].value - {keys[i](row)})];
        i := i + 1;
      }
      DeleteDone(was, row, rid, rows, old(writeSet));
      return Ok;
    }

    ghost method DeleteDone(was: seq<Index>, row: Row, rid: Rid, rows: map<Rid, Row>, ws: seq<Write>)
      requires |was| == |keys| == |idx| && rid in rows && row == rows[rid] && recs == rows - {rid}
      requires writeSet == ws + [DeleteTuple(rid, row)]
      requires forall j :: 0 <= j < |keys| ==> was[j].Some? && idx[j] == Rooted(was[j].value - {keys[j](row)})
      requires AllRooted(was) ==>
                 RollsBack(State(rows, Maps(was)), ws, start, keys, junk)
                   && (|keys| > 0 ==> NeverEmptied(rows.Keys, ws))
      requires AllRooted(was) ==> Consistent(State(rows, Maps(was)), keys)
      ensures Valid() && (Alive() <==> recs != map[] || |keys| == 0)
    {
      hide RollsBack, Undoes, Survives, NeverEmptied;
      var s := State(rows, Maps(was));
      assert recs.Keys + {rid} == rows.Keys;
      SurvivesStep(recs.Keys, rows.Keys, ws, DeleteTuple(rid, row));
      if recs == map[] && |keys| > 0 {
        assert IndexOk(s.idx[0], keys[0], rows);
        forall k | k in s.idx[0]
          ensures k == keys[0](row)
        {
          assert s.idx[0][k] in rows && rows.Keys == {rid};
        }
        assert was[0].value - {keys[0](row)} == map[];
        assert !Alive();
      } else {
        if recs != map[] {
          var r :| r in recs;
          forall j | 0 <= j < |keys|
            ensures was[j].value - {keys[j](row)} != map[]
          {
            assert IndexOk(s.idx[j], keys[j], rows);
            assert keys[j](rows[r]) in was[j].value - {keys[j](row)};
          }
        }
        assert Alive();
        UndoDelete(s, Now(), keys, junk, rid);
        RollsBackStep(Now(), s, ws, DeleteTuple(rid, row), start, keys, junk);
        assert |keys| == 0 || recs.Keys != {};
      }
    }

    /** The indexes of `done` have been moved to the new row, the others are as they were. */
    ghost predicate Stepped(was: seq<Index>, done: seq<int>, before: Row, row: Row, rid: Rid)
      reads this
    {
      && |was| == |idx| == |keys| && AllRooted(was) && AllRooted(idx)
      && (forall j :: 0 <= j < |keys| && j in done ==>
            Moved(was[j].value, idx[j].value, keys[j](before), keys[j](row), rid))
      && (forall j :: 0 <= j < |keys| && j !in done ==> idx[j] == was[j])
    }

    /** Updates a row and the indexes listed in `touched`, where an index may be listed several times. On a duplicate
        key the update stops where it is, and the transaction has to abort. */
    method UpdateRow(rid: Rid, row: Row, touched: seq<int>) returns (r: Outcome)
      requires Valid() && rid in recs
      requires forall i :: 0 <= i < |touched| ==> 0 <= touched[i] < |keys|
      requires forall j :: 0 <= j < |keys| && j !in touched ==> keys[j](row) == keys[j](recs[rid])
      modifies `recs, `idx, `writeSet
      ensures Undoable() && recs == old(recs)[rid := row]
      ensures writeSet == old(writeSet) + [UpdateTuple(rid, old(recs)[rid])]
      ensures r == Ok ==> Valid()
      ensures old(Alive()) ==> Alive() && r != Broken
      ensures old(Alive()) ==>
                (r == Ok <==> (forall i :: 0 <= i < |touched| ==> keys[touched[i]](row) !in old(Now().idx[touched[i]]))
                              && forall i, j :: 0 <= i < j < |touched| ==> touched[i] != touched[j])
    {
      hide RollsBack, Back, IndexOk, Survives, NeverEmptied, Undoes, Maps, Rooted;
      ghost var was, rows := idx, recs;
      var before := recs[rid];
      recs := recs[rid := row];
      writeSet := writeSet + [UpdateTuple(rid, before)];
      assert recs.Keys == rows.Keys;
      var i := 0;
      while i < |touched|
        invariant 0 <= i <= |touched| && |idx| == |keys| && recs == rows[rid := row]
        invariant writeSet == old(writeSet) + [UpdateTuple(rid, before)]
        invariant forall j :: 0 <= j < |keys| && was[j].None? ==> idx[j].None?
        invariant AllRooted(was) ==> Stepped(was, touched[..i], before, row, rid)
        invariant AllRooted(was) ==> forall k, l :: 0 <= k < l < i ==> touched[k] != touched[l]
      {
        var t := touched[i];
        var key := keys[t](row);
        if idx[t].None? || key in idx[t].value {
          UpdateStops(was, touched[..i], t, row, rid, rows, old(writeSet));
          assert t in touched[..i] ==> exists k :: 0 <= k < i && touched[k] == touched[i];
          return if idx[t].None? then Broken else Duplicate;
        }
        if AllRooted(was) {
          MovesOn(was, touched[..i], t, row, rid, rows);
        }
        assert touched[..i + 1] == touched[..i] + [t];
        idx := idx[t := Rooted(Entered(idx[t].value, key, rid) - {keys[t](before)})];
        i := i + 1;
      }
      assert touched[..i] == touched;
      assert forall k :: 0 <= k < |touched| ==> touched[k] in touched;
      UpdateDone(was, touched, row, rid, rows, old(writeSet));
      return Ok;
    }

    /** The next index of an update: not moved before, and not empty behind the move. */
    lemma MovesOn(was: seq<Index>, done: seq<int>, t: int, row: Row, rid: Rid, rows: map<Rid, Row>)
      requires rid in rows && AllRooted(was) && Stepped(was, done, rows[rid], row, rid)
      requires 0 <= t < |keys| && keys[t](row) !in idx[t].value
      requires Consistent(State(rows, Maps(was)), keys)
      ensures t !in done && keys[t](row) != keys[t](rows[rid])
      ensures var m := Entered(idx[t].value, keys[t](row), rid) - {keys[t](rows[rid])};
              Rooted(m) == Some(m) && Moved(was[t].value, m, keys[t](rows[rid]), keys[t](row), rid)
    {
      OldKeyPresent(State(rows, Maps(was)), keys, rid, t);
      if t !in done {
        assert keys[t](row) in Entered(idx[t].value, keys[t](row), rid) - {keys[t](rows[rid])};
      }
    }

    /** What an update leaves that is stopped at index `t`. */
    ghost method UpdateStops(
        was: seq<Index>, done: seq<int>, t: int, row: Row, rid: Rid, rows: map<Rid, Row>, ws: seq<Write>)
      requires |was| == |keys| == |idx| && 0 <= t < |keys| && rid in rows && recs == rows[rid := row]
      requires writeSet == ws + [UpdateTuple(rid, rows[rid])]
      requires forall j :: 0 <= j < |keys| && was[j].None? ==> idx[j].None?
      requires AllRooted(was) ==> Stepped(was, done, rows[rid], row, rid)
      requires idx[t].None? || keys[t](row) in idx[t].value
      requires AllRooted(was) ==>
                 RollsBack(State(rows, Maps(was)), ws, start, keys, junk) && NeverEmptied(rows.Keys, ws)
      requires AllRooted(was) ==> Consistent(State(rows, Maps(was)), keys)
      requires !AllRooted(was) ==> !Survives(rows.Keys, ws)
      ensures Undoable() && (AllRooted(was) ==> Alive() && idx[t].Some?)
    {
      hide RollsBack, Undoes, Survives, NeverEmptied, IndexOk, Back, Empties;
      assert recs.Keys == rows.Keys;
      SurvivesStep(recs.Keys, rows.Keys, ws, UpdateTuple(rid, rows[rid]));
      if AllRooted(was) {
        var s := State(rows, Maps(was));
        UpdateBack(s, Now(), keys, junk, rid, row, t);
        RollsBackStep(Now(), s, ws, UpdateTuple(rid, rows[rid]), start, keys, junk);
      }
    }

    /** What a whole update leaves. */
    ghost method UpdateDone(
        was: seq<Index>, done: seq<int>, row: Row, rid: Rid, rows: map<Rid, Row>, ws: seq<Write>)
      requires |was| == |keys| == |idx| && rid in rows && recs == rows[rid := row]
      requires writeSet == ws + [UpdateTuple(rid, rows[rid])]
      requires forall j :: 0 <= j < |keys| && was[j].None? ==> idx[j].None?
      requires AllRooted(was) ==> Stepped(was, done, rows[rid], row, rid)
      requires forall j :: 0 <= j < |keys| && j !in done ==> keys[j](row) == keys[j](rows[rid])
      requires AllRooted(was) ==>
                 RollsBack(State(rows, Maps(was)), ws, start, keys, junk)
                     && (|keys| > 0 ==> NeverEmptied(rows.Keys, ws))
      requires AllRooted(was) ==> Consistent(State(rows, Maps(was)), keys)
      requires !AllRooted(was) ==> !Survives(rows.Keys, ws)
      ensures Valid() && (AllRooted(was) ==> Alive())
    {
      hide RollsBack, Undoes, Survives, NeverEmptied, IndexOk, Back, Empties;
      assert recs.Keys == rows.Keys;
      SurvivesStep(recs.Keys, rows.Keys, ws, UpdateTuple(rid, rows[rid]));
      if AllRooted(was) {
        var s := State(rows, Maps(was));
        if |keys| > 0 {
          OldKeyPresent(s, keys, rid, 0);
        }
        UpdateBack(s, Now(), keys, junk, rid, row, 0);
        UpdateConsistent(s, Now(), keys, rid, row);
        RollsBackStep(Now(), s, ws, UpdateTuple(rid, rows[rid]), start, keys, junk);
      }
    }

    /** Undoes one write: all indexes, and the record. It fails at an index without a root. */
    method UndoWrite(w: Write) returns (ok: bool)
      requires |idx| == |keys|
      modifies `recs, `idx
      ensures |idx| == |keys|
      ensures ok ==> recs == RecsUndone(old(recs), w)
      ensures ok && Alive() ==> old(Alive()) && Undoes(old(Now()), w, Now(), keys, junk)
      ensures old(Alive()) ==> (ok && Alive() <==> KeepsAll(old(Now()), w, keys, junk))
      ensures |keys| == 0 ==> ok
    {
      ghost var was, rows := idx, recs;
      if w.DeleteTuple? {
        recs := recs[w.rid := w.row];
      }
      var found := Found(recs, junk, w.rid);
      var i := 0;
      while i < |keys|
        invariant 0 <= i <= |keys| == |idx| && recs == if w.DeleteTuple? then rows[w.rid := w.row] else rows
        invariant forall j :: 0 <= j < i ==> was[j].Some?
        invariant forall j :: 0 <= j < i ==>
                    (idx[j].Some? <==> Keeps(was[j].value, keys[j], w, Found(rows, junk, w.rid)))
        invariant forall j :: 0 <= j < i && idx[j].Some? ==>
                    idx[j].value == IndexUndone(was[j].value, keys[j], w, Found(rows, junk, w.rid))
        invariant forall j :: i <= j < |keys| ==> idx[j] == was[j]
      {
        if idx[i].None? {
          return false;
        }
        match w {
          case InsertTuple(rid) => idx := idx[i := Rooted(Dropped(idx[i].value, keys[i](found), rid))];
          case DeleteTuple(rid, row) => idx := idx[i := Some(Entered(idx[i].value, keys[i](row), rid))];
          case UpdateTuple(rid, row) =>
            idx := idx[i := Rooted(Dropped(idx[i].value, keys[i](found), rid))];
            if idx[i].None? {
              assert !Keeps(was[i].value, keys[i], w, Found(rows, junk, w.rid));
              return false;
            }
            idx := idx[i := Some(Entered(idx[i].value, keys[i](row), rid))];
        }
        i := i + 1;
      }
      match w {
        case InsertTuple(rid) => recs := recs - {rid};
        case UpdateTuple(rid, row) => if rid in recs { recs := recs[rid := row]; }
        case _ =>
      }
      return true;
    }

    /** The state before the last write, and whether its rollback keeps all indexes. */
    ghost method BackStep(s: State, ws: seq<Write>, w: Write) returns (mid: State)
      requires |s.idx| == |keys| && RollsBack(s, ws + [w], start, keys, junk)
      requires |keys| > 0 ==> NeverEmptied(s.recs.Keys, ws + [w])
      ensures Undoes(s, w, mid, keys, junk) && RollsBack(mid, ws, start, keys, junk)
      ensures |keys| > 0 ==> NeverEmptied(mid.recs.Keys, ws)
      ensures |keys| > 0 ==> (Survives(s.recs.Keys, ws + [w]) <==>
                               KeepsAll(s, w, keys, junk) && Survives(mid.recs.Keys, ws))
      ensures |keys| == 0 ==> KeepsAll(s, w, keys, junk)
    {
      hide WriteSurvives, Undoes, Survives, NeverEmptied;
      assert (ws + [w])[..|ws|] == ws;
      mid :| Back(s, w, mid, keys, junk) && RollsBack(mid, ws, start, keys, junk);
      if |keys| > 0 {
        SurvivesStep(s.recs.Keys, RowsBack(s.recs.Keys, w), ws, w);
        KeepsWhen(s, w, mid, keys, junk);
      }
    }

    /** Abort, after any writes, the last of them possibly cut off by a duplicate key: the records and every index are
        as they were at begin, and every index usable, exactly if there are no indexes or the writes survive. */
    method Abort() returns (ok: bool)
      requires |idx| == |keys|
      modifies `recs, `idx, `writeSet
      ensures ok ==> writeSet == [] && recs == RecsBack(old(recs), old(writeSet))
      ensures old(Undoable()) ==> (ok && Alive() <==> |keys| == 0 || Survives(old(recs.Keys), old(writeSet)))
      ensures old(Undoable()) && ok && Alive() ==> Now() == start
      ensures old(Undoable()) && old(Alive()) && ok ==> recs == start.recs
      ensures |keys| == 0 ==> ok
    {
      hide Undoes, Back, KeepsAll, WriteSurvives, RowsBack, RecsUndone;
      ghost var sound := Undoable();
      ghost var fine := |keys| == 0 || Survives(recs.Keys, writeSet);
      if sound && Alive() {
        RecordsBack(Now(), writeSet, start, keys, junk);
      }
      while |writeSet| > 0
        invariant |idx| == |keys| && RecsBack(recs, writeSet) == RecsBack(old(recs), old(writeSet))
        invariant sound && Alive() ==> RollsBack(Now(), writeSet, start, keys, junk)
        invariant sound && Alive() && |keys| > 0 ==> NeverEmptied(recs.Keys, writeSet)
        invariant sound && Alive() ==> (fine <==> |keys| == 0 || Survives(recs.Keys, writeSet))
        invariant sound && !Alive() ==> !fine
        decreases |writeSet|
      {
        var w := writeSet[|writeSet| - 1];
        ghost var ws := writeSet[..|writeSet| - 1];
        assert writeSet == ws + [w];
        ghost var s := if Alive() then Now() else start;
        ghost var mid := start;
        if sound && Alive() {
          mid := BackStep(s, ws, w);
        }
        writeSet := writeSet[..|writeSet| - 1];
        ok := UndoWrite(w);
        if !ok {
          return;
        }
        if sound && Alive() {
          UndoesUnique(s, w, Now(), mid, keys, junk);
        }
      }
      return true;
    }
  }

  // ------------------------------------------------------------- rollbacks that fail

  /** A table with one row, whose only column has an index: after its update to another value, the rollback fails or
      leaves the index without a root. */
  method OnlyRowUpdated(rid: Rid, before: int, after: int, junk: Rid -> Row) returns (t: Table, ok: bool)
    requires before != after
    ensures fresh(t) && t.start.recs == map[rid := [before]] && !(ok && t.Alive())
  {
    hide RollsBack, Survives, NeverEmptied, RecsBack;
    var key := (row: Row) => if |row| == 0 then 0 else row[0];
    var s := State(map[rid := [before]], [map[before := rid]]);
    assert IndexOk(s.idx[0], key, s.recs);
    t := new Table([key], junk, s);
    var r := t.UpdateRow(rid, [after], [0]);
    SurvivesStep({rid}, {rid}, [], UpdateTuple(rid, [before]));
    assert t.recs.Keys == {rid} && t.writeSet == [] + [UpdateTuple(rid, [before])];
    ok := t.Abort();
  }

  /** A table without rows and its first insert: the rollback removes the row and leaves the index without a root. */
  method FirstRowInserted(rid: Rid, row: Row, key: Row -> int, junk: Rid -> Row) returns (t: Table, ok: bool)
    ensures fresh(t) && t.start.recs == map[] && !(ok && t.Alive())
  {
    hide RollsBack, Survives, NeverEmptied, RecsBack;
    t := new Table([key], junk, State(map[], [map[]]));
    var r := t.InsertRow(rid, row);
    SurvivesStep({rid}, {}, [], InsertTuple(rid));
    assert t.recs.Keys == {rid} && t.writeSet == [] + [InsertTuple(rid)];
    ok := t.Abort();
  }

  /** Two transactions choose the same free position. The second finds the row of the first there, overwrites it, and
      its rollback removes the row that the first has committed. */
  method SlotTaken(rid: Rid, first: Row, second: Row, junk: Rid -> Row) returns (t: Table, ok: bool)
    ensures fresh(t) && t.start.recs == map[rid := first] && ok && t.recs == map[]
  {
    hide RollsBack, Survives, NeverEmptied;
    t := new Table([], junk, State(map[rid := first], []));
    var r := t.InsertRow(rid, second);
    assert r != Duplicate;
    assert t.writeSet == [InsertTuple(rid)] && t.writeSet[..0] == [] && t.recs - {rid} == map[];
    ok := t.Abort();
  }

  /** The state before an update, whole or stopped at index `t`: its rollback, and what it does to the only row. */
  lemma {:induction false} UpdateBack(
      s: State, s': State, keys: seq<Row -> int>, junk: Rid -> Row, rid: Rid, row: Row, t: int)
    requires Consistent(s, keys) && |s'.idx| == |keys| && rid in s.recs && s'.recs == s.recs[rid := row]
    requires forall j :: 0 <= j < |keys| ==>
               s'.idx[j] == s.idx[j] || Moved(s.idx[j], s'.idx[j], keys[j](s.recs[rid]), keys[j](row), rid)
    requires |keys| > 0 ==> 0 <= t < |keys| && keys[t](row) in s'.idx[t]
    ensures Back(s', UpdateTuple(rid, s.recs[rid]), s, keys, junk)
  {
    UndoUpdate(s, s', keys, junk, rid, row);
    if |keys| > 0 && s'.recs.Keys == {rid} {
      var m := s.idx[t];
      assert IndexOk(m, keys[t], s.recs);
      forall k | k in m
        ensures k == keys[t](s.recs[rid]) && m[k] == rid
      {
        assert m[k] in s.recs && s.recs.Keys == s'.recs.Keys;
      }
      assert Dropped(s'.idx[t], keys[t](row), rid) == map[];
      assert Empties(s', UpdateTuple(rid, s.recs[rid]), keys, junk);
    }
  }

  lemma {:induction false} OldKeyPresent(s: State, keys: seq<Row -> int>, rid: Rid, j: int)
    requires Consistent(s, keys) && rid in s.recs && 0 <= j < |keys|
    ensures keys[j](s.recs[rid]) in s.idx[j]
  {
    assert IndexOk(s.idx[j], keys[j], s.recs);
  }
}
