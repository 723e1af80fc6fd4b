/** The log manager: records get consecutive numbers, gather in one buffer, and reach the log file
    in order. */
module LogManager {
  import opened Basics
  import opened Bytes
  import opened LogRecord

  /** The records with numbers 0.. in order. */
  ghost predicate Numbered(recs: seq<Record>) {
    AllFit(recs) && forall i :: 0 <= i < |recs| ==> recs[i].lsn == i
  }

  class LogManager {
    const capacity: int
    const buffer: array<byte>
    const prior: bytes              // what the file held when the system started
    var offset: int
    var globalLsn: int
    var persistLsn: int
    var disk: bytes                 // the log file
    var restart: int                // where recovery will start reading
    ghost var recs: seq<Record>     // everything logged since the start
    ghost var durable: int          // how many of them are in the file

    /** File and buffer together hold the serialised records in the order of their numbers. */
    ghost predicate Valid()
      reads this, buffer
    {
      Laid() && |recs| == globalLsn
    }

    ghost predicate Laid()
      reads this, buffer
    {
      && capacity >= HEADER_SIZE && buffer.Length == capacity + 1 && 0 <= offset <= capacity
      && Numbered(recs) && 0 <= durable <= |recs|
      && disk == prior + EncodeAll(recs[..durable])
      && buffer[..offset] == EncodeAll(recs[durable..])
      && 0 <= restart <= |disk|
    }

    constructor (capacity: int, prior: bytes, restart: int)
      requires capacity >= HEADER_SIZE && 0 <= restart <= |prior|
      ensures Valid() && fresh(buffer) && recs == [] && durable == 0
      ensures this.capacity == capacity && this.prior == prior && this.restart == restart
    {
      this.capacity, this.prior, this.disk, this.restart := capacity, prior, prior, restart;
      buffer := new byte[capacity + 1](_ => 0);
      offset, globalLsn, persistLsn := 0, 0, -1;
      recs, durable := [], 0;
    }

    predicate IsFull(size: int)
      reads this
    {
      offset + size > capacity
    }

    /** Writes the whole buffer out. */
    method Spill()
      requires Laid()
      modifies `disk, `offset, `durable
      ensures Laid() && durable == |recs| && offset == 0
      ensures |disk| >= old(|disk|)
    {
      hide Fits, EncodeAll;
      SplitLog(recs, durable);
      assert recs[..|recs|] == recs;
      assert (prior + EncodeAll(recs[..durable])) + EncodeAll(recs[durable..]) == prior + EncodeAll(recs);
      disk := disk + buffer[..offset];
      offset := 0;
      durable := |recs|;
      assert recs[durable..] == [];
      assert buffer[..0] == [];
    }

    /** Numbers a record and appends it. When the buffer has to be written out first, persistLsn is set
        to the number of the new record, which is not in the file yet: it runs one ahead. */
    method AddLog(r: Record) returns (lsn: int)
      requires Valid() && Fits(r.(lsn := globalLsn)) && TotLen(r) <= capacity
      modifies `disk, `offset, `durable, `globalLsn, `persistLsn, `recs, buffer
      ensures Valid() && lsn == old(globalLsn) && recs == old(recs) + [r.(lsn := lsn)]
      ensures durable == if old(IsFull(TotLen(r))) then |old(recs)| else old(durable)
      ensures persistLsn == if old(IsFull(TotLen(r))) then durable else old(persistLsn)
      ensures durable <= lsn && |disk| >= old(|disk|)
    {
      hide Fits, Encode;
      lsn := globalLsn;
      var rec := r.(lsn := lsn);
      globalLsn := globalLsn + 1;
      if IsFull(TotLen(rec)) {
        Spill();
        persistLsn := globalLsn - 1;
      }
      ghost var b := buffer[..];
      Serialize(rec, buffer, offset);
      assert buffer[..offset + TotLen(rec)] == b[..offset] + Encode(rec);
      ghost var rs := recs + [rec];
      AppendLog(recs, rec, durable);
      offset := offset + TotLen(rec);
      recs := rs;
    }

    method Flush()
      requires Valid()
      modifies `disk, `offset, `durable, `persistLsn
      ensures Valid() && durable == |recs| && persistLsn == |recs| - 1 && |disk| >= old(|disk|)
    {
      Spill();
      persistLsn := globalLsn - 1;
    }

    /** A checkpoint record is written through, and recovery will start behind it. */
    method AddCheckpoint(r: Record) returns (lsn: int)
      requires Valid() && Fits(r.(lsn := globalLsn)) && TotLen(r) <= capacity
      modifies `disk, `offset, `durable, `globalLsn, `persistLsn, `recs, `restart, buffer
      ensures Valid() && lsn == old(globalLsn) && recs == old(recs) + [r.(lsn := lsn)]
      ensures durable == |recs| && persistLsn == lsn && restart == |disk|
    {
      lsn := AddLog(r);
      Flush();
      restart := |disk|;
    }

    /** The logging side of commit: the record is numbered before any lock is released, and is in the
        file, with everything before it, when commit returns. */
    method Commit(tid: int, prev: int) returns (lsn: int)
      requires Valid() && Fits(Record(globalLsn, tid, prev, LogRecord.Commit))
      modifies `disk, `offset, `durable, `globalLsn, `persistLsn, `recs, buffer
      ensures Valid() && lsn == old(globalLsn) && lsn < durable == |recs|
      ensures recs == old(recs) + [Record(lsn, tid, prev, LogRecord.Commit)]
    {
      lsn := AddLog(Record(-1, tid, prev, LogRecord.Commit));
      Flush();
    }
  }

  lemma {:induction false} SplitLog(recs: seq<Record>, d: int)
    requires AllFit(recs) && 0 <= d <= |recs|
    ensures EncodeAll(recs) == EncodeAll(recs[..d]) + EncodeAll(recs[d..])
    ensures EncodeAll([]) == [] && recs[|recs|..] == []
  {
    hide Fits, Encode;
    EncodeAllConcat(recs[..d], recs[d..]);
    assert recs[..d] + recs[d..] == recs;
  }

  lemma {:induction false} AppendLog(recs: seq<Record>, r: Record, durable: int)
    requires Numbered(recs) && 0 <= durable <= |recs| && Fits(r) && r.lsn == |recs|
    ensures Numbered(recs + [r])
    ensures EncodeAll((recs + [r])[..durable]) == EncodeAll(recs[..durable])
    ensures EncodeAll((recs + [r])[durable..]) == EncodeAll(recs[durable..]) + Encode(r)
  {
    hide Fits, Encode;
    var rs := recs + [r];
    assert rs[..durable] == recs[..durable];
    assert rs[durable..] == recs[durable..] + [r];
    assert (recs[durable..] + [r])[..|recs| - durable] == recs[durable..];
  }

  /** `tail` is what a torn write leaves of the record behind the first `d`. */
  ghost predicate Torn(recs: seq<Record>, d: int, tail: bytes) {
    && 0 <= d <= |recs| && AllFit(recs)
    && (d == |recs| ==> tail == [])
    && (d < |recs| ==> |tail| < TotLen(recs[d]) && tail == Encode(recs[d])[..|tail|])
  }

  /** Wherever a crash cuts the log, complete records are followed by part of the next one. */
  lemma {:induction false} CutLog(recs: seq<Record>, n: int) returns (d: int, tail: bytes)
    requires AllFit(recs) && 0 <= n <= |EncodeAll(recs)|
    ensures Torn(recs, d, tail) && EncodeAll(recs)[..n] == EncodeAll(recs[..d]) + tail
    ensures forall e :: 0 <= e <= |recs| && |EncodeAll(recs[..e])| <= n ==> e <= d
  {
    hide Fits, Encode;
    if n == |EncodeAll(recs)| {
      d, tail := |recs|, [];
      assert recs[..d] == recs;
      assert EncodeAll(recs)[..n] == EncodeAll(recs);
    } else {
      var k := |recs| - 1;
      var front := EncodeAll(recs[..k]);
      if n >= |front| {
        d, tail := k, Encode(recs[k])[..n - |front|];
        assert EncodeAll(recs)[..n] == front + tail;
        assert forall e :: 0 <= e <= |recs| && |EncodeAll(recs[..e])| <= n ==> e <= d
               by { assert recs[..|recs|] == recs; }
      } else {
        d, tail := CutLog(recs[..k], n);
        assert recs[..k][..d] == recs[..d];
        assert EncodeAll(recs)[..n] == front[..n];
        assert recs[..|recs|] == recs;
        forall e | 0 <= e <= |recs| && |EncodeAll(recs[..e])| <= n
          ensures e <= d
        {
          if e < |recs| {
            assert recs[..k][..e] == recs[..e];
          }
        }
      }
    }
  }

  /** A crash while the buffer is being written out leaves every record that was durable, and possibly
      more, in an unbroken sequence of numbers: no later commit survives an earlier one. */
  lemma {:induction false} CrashImage(recs: seq<Record>, durable: int, cut: int) returns (d: int, tail: bytes)
    requires AllFit(recs) && 0 <= durable <= |recs| && 0 <= cut <= |EncodeAll(recs[durable..])|
    ensures durable <= d && Torn(recs, d, tail)
    ensures EncodeAll(recs[..durable]) + EncodeAll(recs[durable..])[..cut] == EncodeAll(recs[..d]) + tail
  {
    hide Fits, EncodeAll, Torn;
    SplitLog(recs, durable);
    var n := |EncodeAll(recs[..durable])| + cut;
    d, tail := CutLog(recs, n);
    assert EncodeAll(recs)[..n] == EncodeAll(recs[..durable]) + EncodeAll(recs[durable..])[..cut];
  }
}
