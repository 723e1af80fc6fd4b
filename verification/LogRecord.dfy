/** Write-ahead log records and their byte format. */
module LogRecord {
  import opened Basics
  import opened Bytes

  const HEADER_SIZE: int := 20

  datatype Body =
    | Update(before: bytes, after: bytes, rid: Rid, table: bytes)
    | Insert(value: bytes, rid: Rid, table: bytes)
    | Delete(value: bytes, rid: Rid, table: bytes)
    | Begin
    | Commit
    | Abort
    | Checkpoint

  datatype Record = Record(lsn: int, tid: int, prev: int, body: Body)

  function TypeCode(b: Body): (c: int)
    ensures 0 <= c <= 6
  {
    match b
    case Update(_, _, _, _) => 0
    case Insert(_, _, _) => 1
    case Delete(_, _, _) => 2
    case Begin => 3
    case Commit => 4
    case Abort => 5
    case Checkpoint => 6
  }

  /** The record length kept in the header, as the constructors of the record classes compute it. */
  function TotLen(r: Record): (n: int)
    ensures n >= HEADER_SIZE
  {
    match r.body
    case Update(before, after, _, table) => HEADER_SIZE + 4 + |before| + 4 + |after| + 8 + 8 + |table|
    case Insert(value, _, table) => HEADER_SIZE + 4 + |value| + 8 + 8 + |table|
    case Delete(value, _, table) => HEADER_SIZE + 4 + |value| + 8 + 8 + |table|
    case _ => HEADER_SIZE
  }

  /** All fields fit their C types. */
  ghost predicate Fits(r: Record) {
    && IsInt32(r.lsn) && IsInt32(r.tid) && IsInt32(r.prev) && TotLen(r) < TWO31
    && (r.body.Update? || r.body.Insert? || r.body.Delete? ==> IsInt32(r.body.rid.pageNo) && IsInt32(r.body.rid.slotNo))
  }

  // ------------------------------------------------------------- pieces

  function EncodeBlob(v: bytes): (b: bytes)
    requires |v| < TWO31
    ensures |b| == 4 + |v|
  {
    EncodeInt(|v|) + v
  }

  function EncodeRid(rid: Rid): (b: bytes)
    requires -TWO31 <= rid.pageNo < TWO31 && -TWO31 <= rid.slotNo < TWO31
    ensures |b| == 8
  {
    EncodeInt(rid.pageNo) + EncodeInt(rid.slotNo)
  }

  function EncodeName(s: bytes): (b: bytes)
    ensures |b| == 8 + |s|
  {
    EncodeNat(|s|, 8) + s
  }

  datatype Taken<T> = Taken(value: T, rest: bytes) | Short

  function TakeBlob(s: bytes): Taken<bytes> {
    if |s| < 4 then Short
    else
      var n := DecodeInt(s[..4]);
      if n < 0 || 4 + n > |s| then Short else Taken(s[4..4 + n], s[4 + n..])
  }

  function TakeRid(s: bytes): Taken<Rid> {
    if |s| < 8 then Short
    else Taken(Rid(DecodeInt(s[..4]), DecodeInt(s[4..8])), s[8..])
  }

  function TakeName(s: bytes): Taken<bytes> {
    if |s| < 8 then Short
    else
      var n := DecodeNat(s[..8]);
      if 8 + n > |s| then Short else Taken(s[8..8 + n], s[8 + n..])
  }

  lemma {:induction false} BlobRoundTrip(v: bytes, rest: bytes)
    requires |v| < TWO31
    ensures TakeBlob(EncodeBlob(v) + rest) == Taken(v, rest)
  {
    IntRoundTrip(|v|);
    var s := EncodeBlob(v) + rest;
    assert s[..4] == EncodeInt(|v|) && s[4..4 + |v|] == v && s[4 + |v|..] == rest;
  }

  lemma {:induction false} RidRoundTrip(rid: Rid, rest: bytes)
    requires IsInt32(rid.pageNo) && IsInt32(rid.slotNo)
    ensures TakeRid(EncodeRid(rid) + rest) == Taken(rid, rest)
  {
    IntRoundTrip(rid.pageNo);
    IntRoundTrip(rid.slotNo);
    var s := EncodeRid(rid) + rest;
    assert s[..4] == EncodeInt(rid.pageNo) && s[4..8] == EncodeInt(rid.slotNo) && s[8..] == rest;
  }

  lemma {:induction false} NameRoundTrip(v: bytes, rest: bytes)
    requires |v| < TWO31
    ensures TakeName(EncodeName(v) + rest) == Taken(v, rest)
  {
    Powers();
    NatRoundTrip(|v|, 8);
    var s := EncodeName(v) + rest;
    assert s[..8] == EncodeNat(|v|, 8) && s[8..8 + |v|] == v && s[8 + |v|..] == rest;
  }

  // ------------------------------------------------------------- records

  function EncodeHeader(r: Record): (b: bytes)
    requires Fits(r)
    ensures |b| == HEADER_SIZE
  {
    EncodeInt(TypeCode(r.body)) + EncodeInt(r.lsn) + EncodeNat(TotLen(r), 4) + EncodeInt(r.tid) + EncodeInt(r.prev)
  }

  function EncodeBody(r: Record): (b: bytes)
    requires Fits(r)
    ensures |b| == TotLen(r) - HEADER_SIZE
  {
    match r.body
    case Update(before, after, rid, table) =>
      EncodeBlob(before) + (EncodeBlob(after) + (EncodeRid(rid) + EncodeName(table)))
    case Insert(value, rid, table) => EncodeBlob(value) + (EncodeRid(rid) + EncodeName(table))
    case Delete(value, rid, table) => EncodeBlob(value) + (EncodeRid(rid) + EncodeName(table))
    case _ => []
  }

  function Encode(r: Record): (b: bytes)
    requires Fits(r)
    ensures |b| == TotLen(r)
  {
    EncodeHeader(r) + EncodeBody(r)
  }

  /** Where the fields of a record lie: type, number, length, transaction, previous number, each in four bytes. */
  lemma {:induction false} Layout(r: Record)
    requires Fits(r)
    ensures var b := Encode(r);
            && b[0..4] == EncodeInt(TypeCode(r.body)) && b[4..8] == EncodeInt(r.lsn)
            && b[8..12] == EncodeNat(|b|, 4) && b[12..16] == EncodeInt(r.tid) && b[16..20] == EncodeInt(r.prev)
    ensures var b := Encode(r);
            && (r.body.Update? ==>
                  b[20..24] == EncodeInt(|r.body.before|) && b[24..24 + |r.body.before|] == r.body.before)
            && (r.body.Insert? || r.body.Delete? ==>
                  b[20..24] == EncodeInt(|r.body.value|) && b[24..24 + |r.body.value|] == r.body.value)
  {
    hide EncodeInt;
    var b, h := Encode(r), EncodeHeader(r);
    assert b[..20] == h && b[20..] == EncodeBody(r);
    assert forall i, j :: 0 <= i <= j <= 20 ==> b[i..j] == h[i..j];
    if r.body.Update? {
      FrontBlob(b, h, r.body.before, EncodeBlob(r.body.after) + (EncodeRid(r.body.rid) + EncodeName(r.body.table)));
    } else if r.body.Insert? || r.body.Delete? {
      FrontBlob(b, h, r.body.value, EncodeRid(r.body.rid) + EncodeName(r.body.table));
    }
  }

  lemma {:induction false} FrontBlob(b: bytes, h: bytes, v: bytes, rest: bytes)
    requires |h| == 20 && |v| < TWO31 && b == h + (EncodeBlob(v) + rest)
    ensures b[20..24] == EncodeInt(|v|) && b[24..24 + |v|] == v
  {
  }

  datatype Header = Header(code: int, lsn: int, totLen: nat, tid: int, prev: int)

  function DecodeHeader(s: bytes): Header
    requires |s| >= HEADER_SIZE
  {
    Header(DecodeInt(s[..4]), DecodeInt(s[4..8]), DecodeNat(s[8..12]), DecodeInt(s[12..16]), DecodeInt(s[16..20]))
  }

  /** The value, rid and table name behind the header of an insert or delete record. */
  function DecodeImage(s: bytes): Option<(bytes, Rid, bytes)> {
    match TakeBlob(s)
    case Short => None
    case Taken(v, s1) =>
      match TakeRid(s1)
      case Short => None
      case Taken(rid, s2) =>
        match TakeName(s2)
        case Short => None
        case Taken(table, _) => Some((v, rid, table))
  }

  function DecodeBody(code: int, s: bytes): Option<Body> {
    if code == 0 then
      match TakeBlob(s)
      case Short => None
      case Taken(before, rest) =>
        match DecodeImage(rest)
        case None => None
        case Some((after, rid, table)) => Some(Update(before, after, rid, table))
    else if code == 1 then
      match DecodeImage(s)
      case None => None
      case Some((v, rid, table)) => Some(Insert(v, rid, table))
    else if code == 2 then
      match DecodeImage(s)
      case None => None
      case Some((v, rid, table)) => Some(Delete(v, rid, table))
    else if code == 3 then Some(Begin)
    else if code == 4 then Some(Commit)
    else if code == 5 then Some(Abort)
    else if code == 6 then Some(Checkpoint)
    else None
  }

  /** What deserialize reads from the front of `s`; None if it would read past the end or meet an
      unknown type. */
  function Decode(s: bytes): Option<Record>
    requires |s| >= HEADER_SIZE
  {
    var h := DecodeHeader(s);
    match DecodeBody(h.code, s[HEADER_SIZE..])
    case None => None
    case Some(body) => Some(Record(h.lsn, h.tid, h.prev, body))
  }

  lemma {:induction false} HeaderRoundTrip(r: Record, rest: bytes)
    requires Fits(r)
    ensures DecodeHeader(EncodeHeader(r) + rest) == Header(TypeCode(r.body), r.lsn, TotLen(r), r.tid, r.prev)
  {
    IntRoundTrip(TypeCode(r.body));
    IntRoundTrip(r.lsn);
    IntRoundTrip(r.tid);
    IntRoundTrip(r.prev);
    Powers();
    NatRoundTrip(TotLen(r), 4);
    var s := EncodeHeader(r) + rest;
    assert s[..4] == EncodeInt(TypeCode(r.body)) && s[4..8] == EncodeInt(r.lsn) && s[8..12] == EncodeNat(TotLen(r), 4);
    assert s[12..16] == EncodeInt(r.tid) && s[16..20] == EncodeInt(r.prev);
  }

  lemma {:induction false} ImageRoundTrip(v: bytes, rid: Rid, table: bytes, rest: bytes)
    requires |v| < TWO31 && |table| < TWO31 && IsInt32(rid.pageNo) && IsInt32(rid.slotNo)
    ensures DecodeImage((EncodeBlob(v) + (EncodeRid(rid) + EncodeName(table))) + rest) == Some((v, rid, table))
  {
    hide TakeBlob, TakeRid, TakeName, EncodeBlob, EncodeRid, EncodeName;
    var s2 := EncodeName(table) + rest;
    var s1 := EncodeRid(rid) + s2;
    assert (EncodeBlob(v) + (EncodeRid(rid) + EncodeName(table))) + rest == EncodeBlob(v) + s1;
    BlobRoundTrip(v, s1);
    RidRoundTrip(rid, s2);
    NameRoundTrip(table, rest);
  }

  lemma {:induction false} BodyRoundTrip(r: Record, rest: bytes)
    requires Fits(r)
    ensures DecodeBody(TypeCode(r.body), EncodeBody(r) + rest) == Some(r.body)
  {
    hide TakeBlob, DecodeImage, EncodeBlob, EncodeRid, EncodeName;
    match r.body {
      case Update(before, after, rid, table) =>
        var s := (EncodeBlob(after) + (EncodeRid(rid) + EncodeName(table))) + rest;
        assert EncodeBody(r) + rest == EncodeBlob(before) + s;
        BlobRoundTrip(before, s);
        ImageRoundTrip(after, rid, table, rest);
      case Insert(value, rid, table) => ImageRoundTrip(value, rid, table, rest);
      case Delete(value, rid, table) => ImageRoundTrip(value, rid, table, rest);
      case _ =>
    }
  }

  /** Reading back a serialised record, whatever follows it. */
  lemma {:induction false} RoundTrip(r: Record, rest: bytes)
    requires Fits(r)
    ensures Decode(Encode(r) + rest) == Some(r)
    ensures DecodeHeader(Encode(r) + rest).totLen == TotLen(r)
  {
    hide EncodeHeader, EncodeBody, DecodeHeader, DecodeBody;
    assert Encode(r) + rest == EncodeHeader(r) + (EncodeBody(r) + rest);
    HeaderRoundTrip(r, EncodeBody(r) + rest);
    assert (Encode(r) + rest)[HEADER_SIZE..] == EncodeBody(r) + rest;
    BodyRoundTrip(r, rest);
  }

  // ------------------------------------------------------------- whole logs

  ghost predicate AllFit(rs: seq<Record>) {
    forall i :: 0 <= i < |rs| ==> Fits(rs[i])
  }

  function EncodeAll(rs: seq<Record>): (b: bytes)
    requires AllFit(rs)
  {
    if |rs| == 0 then [] else EncodeAll(rs[..|rs| - 1]) + Encode(rs[|rs| - 1])
  }

  lemma {:induction false} EncodeAllConcat(rs: seq<Record>, ts: seq<Record>)
    requires AllFit(rs) && AllFit(ts)
    ensures AllFit(rs + ts) && EncodeAll(rs + ts) == EncodeAll(rs) + EncodeAll(ts)
  {
    hide Encode, Fits;
    if |ts| == 0 {
      assert rs + ts == rs;
    } else {
      var n := |ts| - 1;
      EncodeAllConcat(rs, ts[..n]);
      assert (rs + ts)[..|rs| + n] == rs + ts[..n];
    }
  }

  // ------------------------------------------------------------- writing into a buffer

  /** memcpy of `src` to `dest` at `offset`. */
  method Copy(dest: array<byte>, offset: int, src: bytes)
    requires 0 <= offset && offset + |src| <= dest.Length
    modifies dest
    ensures dest[..] == old(dest[..])[..offset] + src + old(dest[..])[offset + |src|..]
  {
    forall i | 0 <= i < |src| {
      dest[offset + i] := src[i];
    }
  }

  lemma {:induction false} CopyTwice(d0: bytes, d1: bytes, d2: bytes, start: int, a: bytes, b: bytes)
    requires 0 <= start && start + |a| + |b| <= |d0|
    requires d1 == d0[..start] + a + d0[start + |a|..]
    requires |d1| == |d0| && d2 == d1[..start + |a|] + b + d1[start + |a| + |b|..]
    ensures d2 == d0[..start] + (a + b) + d0[start + |a| + |b|..]
  {
    assert d1[..start + |a|] == d0[..start] + a;
    assert d1[start + |a| + |b|..] == d0[start + |a| + |b|..];
  }

  /** Writes the next piece behind the bytes `done` already written from `start` on. */
  method Continue(
      dest: array<byte>, ghost d0: bytes, start: int, offset: int, piece: bytes, ghost done: bytes) returns (next: int)
    requires 0 <= start && offset == start + |done| && offset + |piece| <= dest.Length && |d0| == dest.Length
    requires dest[..] == d0[..start] + done + d0[start + |done|..]
    modifies dest
    ensures next == offset + |piece|
    ensures dest[..] == d0[..start] + (done + piece) + d0[start + |done| + |piece|..]
  {
    ghost var d1 := dest[..];
    Copy(dest, offset, piece);
    CopyTwice(d0, d1, dest[..], start, done, piece);
    next := offset + |piece|;
  }

  /** Writes value, rid and table name. */
  method PutImage(
      dest: array<byte>, ghost d0: bytes, start: int, offset: int, v: bytes, rid: Rid, table: bytes, ghost done: bytes)
    requires |v| < TWO31 && IsInt32(rid.pageNo) && IsInt32(rid.slotNo)
    requires 0 <= start && offset == start + |done| && |d0| == dest.Length
    requires offset + 4 + |v| + 8 + 8 + |table| <= dest.Length
    requires dest[..] == d0[..start] + done + d0[start + |done|..]
    modifies dest
    ensures dest[..] == d0[..start] + (done + (EncodeBlob(v) + (EncodeRid(rid) + EncodeName(table))))
                        + d0[start + |done| + 4 + |v| + 8 + 8 + |table|..]
  {
    hide EncodeBlob, EncodeRid, EncodeName;
    var next := Continue(dest, d0, start, offset, EncodeBlob(v), done);
    next := Continue(dest, d0, start, next, EncodeRid(rid), done + EncodeBlob(v));
    next := Continue(dest, d0, start, next, EncodeName(table), done + EncodeBlob(v) + EncodeRid(rid));
    assert done + EncodeBlob(v) + EncodeRid(rid) + EncodeName(table) ==
           done + (EncodeBlob(v) + (EncodeRid(rid) + EncodeName(table)));
  }

  /** The serialize methods: header first, then field after field at a moving offset. */
  method Serialize(r: Record, dest: array<byte>, start: int)
    requires Fits(r) && 0 <= start && start + TotLen(r) <= dest.Length
    modifies dest
    ensures dest[..] == old(dest[..])[..start] + Encode(r) + old(dest[..])[start + TotLen(r)..]
  {
    hide EncodeHeader, EncodeBlob, EncodeRid, EncodeName;
    ghost var d0 := dest[..];
    assert d0 == d0[..start] + [] + d0[start..];
    var offset := Continue(dest, d0, start, start, EncodeHeader(r), []);
    ghost var done := EncodeHeader(r);
    assert [] + done == done;
    match r.body {
      case Update(before, after, rid, table) =>
        offset := Continue(dest, d0, start, offset, EncodeBlob(before), done);
        PutImage(dest, d0, start, offset, after, rid, table, done + EncodeBlob(before));
        assert done + EncodeBlob(before) + (EncodeBlob(after) + (EncodeRid(rid) + EncodeName(table))) == Encode(r);
      case Insert(value, rid, table) =>
        PutImage(dest, d0, start, offset, value, rid, table, done);
      case Delete(value, rid, table) =>
        PutImage(dest, d0, start, offset, value, rid, table, done);
      case _ =>
        assert Encode(r) == done;
    }
  }
}
