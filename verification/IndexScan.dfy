/** The index scan: a key range built from the conditions, and a filter for what the range does not settle. */
module IndexScan {
  import opened Basics
  import opened Plan
  import opened IxTree
  import opened IxChain
  import opened IxPosition
  import opened IxRebalance
  import IxKeys
  import IxSteps
  import IH = IxIndexHandle
  import IS = IxScan

  type Row = seq<int>

  datatype Filter = WithValue(col: int, op: CompOp, value: int) | WithColumn(col: int, op: CompOp, other: int)

  datatype ColRange = ColRange(lower: Option<int>, upper: Option<int>, equal: Option<int>, equalIndex: int)

  /** The indexed columns and how many values each can take; values are given by their position among them. */
  datatype Index = Index(cols: seq<int>, widths: seq<int>)

  predicate Satisfies(row: Row, f: Filter) {
    && 0 <= f.col < |row|
    && match f
       case WithValue(c, op, v) => Compare(row[c], op, v)
       case WithColumn(c, op, d) => 0 <= d < |row| && Compare(row[c], op, row[d])
  }

  predicate SatisfiesAll(row: Row, fs: seq<Filter>) {
    forall i :: 0 <= i < |fs| ==> Satisfies(row, fs[i])
  }

  /** What a condition asks of a row. */
  lemma {:induction false} SatisfiesMeaning(row: Row, f: Filter)
    ensures Satisfies(row, f) ==> 0 <= f.col < |row| && (f.WithColumn? ==> 0 <= f.other < |row|)
    ensures 0 <= f.col < |row| && (f.WithColumn? ==> 0 <= f.other < |row|) ==>
              var x, y := row[f.col], if f.WithColumn? then row[f.other] else f.value;
              && (f.op == EQ ==> (Satisfies(row, f) <==> x == y)) && (f.op == NE ==> (Satisfies(row, f) <==> x != y))
              && (f.op == LT ==> (Satisfies(row, f) <==> x < y)) && (f.op == GT ==> (Satisfies(row, f) <==> x > y))
              && (f.op == LE ==> (Satisfies(row, f) <==> x <= y)) && (f.op == GE ==> (Satisfies(row, f) <==> x >= y))
  {
  }

  ghost predicate IndexOk(ix: Index) {
    && |ix.cols| == |ix.widths| && (forall i :: 0 <= i < |ix.cols| ==> 0 <= ix.cols[i])
    && (forall i, j :: 0 <= i < j < |ix.cols| ==> ix.cols[i] != ix.cols[j])
  }

  ghost predicate RowOk(ix: Index, row: Row) {
    && |ix.cols| == |ix.widths|
    && forall i :: 0 <= i < |ix.cols| ==> 0 <= ix.cols[i] < |row| && 0 <= row[ix.cols[i]] < ix.widths[i]
  }

  ghost function KeyOf(ix: Index, row: Row): (k: seq<int>)
    requires RowOk(ix, row)
    ensures IxKeys.Fits(k, ix.widths) && forall i :: 0 <= i < |k| ==> k[i] == row[ix.cols[i]]
  {
    seq(|ix.cols|, i requires 0 <= i < |ix.cols| => row[ix.cols[i]])
  }

  /** Constants compared with an indexed column are values of that column. */
  ghost predicate FiltersOk(ix: Index, fs: seq<Filter>) {
    forall i, c :: (&& 0 <= i < |fs| && 0 <= c < |ix.cols| && c < |ix.widths| && fs[i].WithValue?
        && fs[i].col == ix.cols[c]) ==>
      0 <= fs[i].value < ix.widths[c]
  }

  // ------------------------------------------------------------- ranges

  predicate IsLower(op: CompOp) { op == GT || op == GE }
  predicate IsUpper(op: CompOp) { op == LT || op == LE }

  ghost predicate Stems(fs: seq<Filter>, n: int, col: int, r: ColRange) {
    && 0 <= n <= |fs|
    && (r.lower.Some? ==>
          exists i :: 0 <= i < n && fs[i].WithValue? && fs[i].col == col && IsLower(fs[i].op)
            && fs[i].value == r.lower.value)
    && (r.upper.Some? ==>
          exists i :: 0 <= i < n && fs[i].WithValue? && fs[i].col == col && IsUpper(fs[i].op)
            && fs[i].value == r.upper.value)
    && (r.equal.Some? ==> 0 <= r.equalIndex < n && fs[r.equalIndex] == WithValue(col, EQ, r.equal.value))
  }

  function FindCol(cols: seq<int>, c: int): (i: int)
    ensures -1 <= i < |cols| && (i >= 0 ==> cols[i] == c) && (i == -1 ==> c !in cols)
  {
    if |cols| == 0 then -1
    else if cols[|cols| - 1] == c then |cols| - 1
    else FindCol(cols[..|cols| - 1], c)
  }

  ghost predicate Bounds(f: Filter, col: int) {
    f.WithValue? && f.col == col
  }

  /** The last condition of each kind on a column wins. */
  ghost function LastLower(fs: seq<Filter>, col: int): Option<int> {
    if |fs| == 0 then None else
    var f := fs[|fs| - 1];
    if Bounds(f, col) && IsLower(f.op) then Some(f.value) else LastLower(fs[..|fs| - 1], col)
  }

  ghost function LastUpper(fs: seq<Filter>, col: int): Option<int> {
    if |fs| == 0 then None else
    var f := fs[|fs| - 1];
    if Bounds(f, col) && IsUpper(f.op) then Some(f.value) else LastUpper(fs[..|fs| - 1], col)
  }

  ghost function LastEqual(fs: seq<Filter>, col: int): Option<int> {
    if |fs| == 0 then None else
    var f := fs[|fs| - 1];
    if Bounds(f, col) && f.op == EQ then Some(f.value) else LastEqual(fs[..|fs| - 1], col)
  }

  ghost function LastEqualIndex(fs: seq<Filter>, col: int): int {
    if |fs| == 0 then 0 else
    var f := fs[|fs| - 1];
    if Bounds(f, col) && f.op == EQ then |fs| - 1 else LastEqualIndex(fs[..|fs| - 1], col)
  }

  ghost function RangeOf(fs: seq<Filter>, col: int): ColRange {
    ColRange(LastLower(fs, col), LastUpper(fs, col), LastEqual(fs, col), LastEqualIndex(fs, col))
  }

  ghost function AllRanges(ix: Index, fs: seq<Filter>): (r: seq<ColRange>)
    ensures |r| == |ix.cols| && forall c :: 0 <= c < |r| ==> r[c] == RangeOf(fs, ix.cols[c])
  {
    seq(|ix.cols|, c requires 0 <= c < |ix.cols| => RangeOf(fs, ix.cols[c]))
  }

  /** Condition `i` compares the column with a value by `a` or `b`, and no later one does. */
  ghost predicate LastOf(fs: seq<Filter>, col: int, a: CompOp, b: CompOp, i: int) {
    && 0 <= i < |fs| && fs[i].WithValue? && fs[i].col == col && (fs[i].op == a || fs[i].op == b)
    && forall j :: i < j < |fs| && fs[j].WithValue? && fs[j].col == col ==> fs[j].op != a && fs[j].op != b
  }

  /** No condition compares the column with a value by `a` or `b`. */
  ghost predicate NoneOf(fs: seq<Filter>, col: int, a: CompOp, b: CompOp) {
    forall j :: 0 <= j < |fs| && fs[j].WithValue? && fs[j].col == col ==> fs[j].op != a && fs[j].op != b
  }

  // The bounds of a column are the values of the last conditions of their kind, and absent exactly without any.

  lemma {:induction false} LowerMeaning(fs: seq<Filter>, col: int, i: int)
    ensures LastOf(fs, col, GT, GE, i) ==> LastLower(fs, col) == Some(fs[i].value)
    ensures NoneOf(fs, col, GT, GE) <==> LastLower(fs, col).None?
    decreases |fs|
  {
    if |fs| > 0 {
      var n := |fs| - 1;
      assert forall j :: 0 <= j < n ==> fs[..n][j] == fs[j];
      LowerMeaning(fs[..n], col, i);
      assert Bounds(fs[n], col) && (fs[n].op == GT || fs[n].op == GE) ==> !NoneOf(fs, col, GT, GE);
    }
  }

  lemma {:induction false} UpperMeaning(fs: seq<Filter>, col: int, i: int)
    ensures LastOf(fs, col, LT, LE, i) ==> LastUpper(fs, col) == Some(fs[i].value)
    ensures NoneOf(fs, col, LT, LE) <==> LastUpper(fs, col).None?
    decreases |fs|
  {
    if |fs| > 0 {
      var n := |fs| - 1;
      assert forall j :: 0 <= j < n ==> fs[..n][j] == fs[j];
      UpperMeaning(fs[..n], col, i);
      assert Bounds(fs[n], col) && (fs[n].op == LT || fs[n].op == LE) ==> !NoneOf(fs, col, LT, LE);
    }
  }

  lemma {:induction false} EqualMeaning(fs: seq<Filter>, col: int, i: int)
    ensures LastOf(fs, col, EQ, EQ, i) ==> LastEqual(fs, col) == Some(fs[i].value) && LastEqualIndex(fs, col) == i
    ensures NoneOf(fs, col, EQ, EQ) <==> LastEqual(fs, col).None?
    decreases |fs|
  {
    if |fs| > 0 {
      var n := |fs| - 1;
      assert forall j :: 0 <= j < n ==> fs[..n][j] == fs[j];
      EqualMeaning(fs[..n], col, i);
      assert Bounds(fs[n], col) && (fs[n].op == EQ || fs[n].op == EQ) ==> !NoneOf(fs, col, EQ, EQ);
    }
  }

  /** What is collected for a column. */
  lemma {:induction false} RangeMeaning(fs: seq<Filter>, col: int, i: int)
    ensures LastOf(fs, col, GT, GE, i) ==> RangeOf(fs, col).lower == Some(fs[i].value)
    ensures LastOf(fs, col, LT, LE, i) ==> RangeOf(fs, col).upper == Some(fs[i].value)
    ensures LastOf(fs, col, EQ, EQ, i) ==>
              RangeOf(fs, col).equal == Some(fs[i].value) && RangeOf(fs, col).equalIndex == i
    ensures NoneOf(fs, col, GT, GE) <==> RangeOf(fs, col).lower.None?
    ensures NoneOf(fs, col, LT, LE) <==> RangeOf(fs, col).upper.None?
    ensures NoneOf(fs, col, EQ, EQ) <==> RangeOf(fs, col).equal.None?
  {
    hide LastOf, NoneOf, LastLower, LastUpper, LastEqual, LastEqualIndex;
    LowerMeaning(fs, col, i);
    UpperMeaning(fs, col, i);
    EqualMeaning(fs, col, i);
  }

  /** A bound that is collected stems from a condition. */
  lemma {:induction false} RangeStems(fs: seq<Filter>, col: int)
    ensures Stems(fs, |fs|, col, RangeOf(fs, col))
  {
    if |fs| > 0 {
      var n := |fs| - 1;
      RangeStems(fs[..n], col);
      assert forall i :: 0 <= i < n ==> fs[..n][i] == fs[i];
    }
  }

  /** Collects for each indexed column the last bound of each kind. */
  method ExtractRanges(ix: Index, fs: seq<Filter>) returns (ranges: seq<ColRange>)
    requires IndexOk(ix)
    ensures ranges == AllRanges(ix, fs)
  {
    hide RangeOf;
    ranges := seq(|ix.cols|, _ => ColRange(None, None, None, 0));
    NoRanges(fs);
    var i := 0;
    while i < |fs|
      invariant 0 <= i <= |fs| && |ranges| == |ix.cols|
      invariant forall c :: 0 <= c < |ix.cols| ==> ranges[c] == RangeOf(fs[..i], ix.cols[c])
    {
      forall c | 0 <= c < |ix.cols|
        ensures RangeOf(fs[..i + 1], ix.cols[c]) == OneMore(ranges[c], fs[i], ix.cols[c], i)
      {
        RangeMore(fs, i, ix.cols[c]);
      }
      if fs[i].WithValue? {
        var k := FindCol(ix.cols, fs[i].col);
        if k >= 0 {
          match fs[i].op {
            case GT => ranges := ranges[k := ranges[k].(lower := Some(fs[i].value))];
            case GE => ranges := ranges[k := ranges[k].(lower := Some(fs[i].value))];
            case LT => ranges := ranges[k := ranges[k].(upper := Some(fs[i].value))];
            case LE => ranges := ranges[k := ranges[k].(upper := Some(fs[i].value))];
            case EQ => ranges := ranges[k := ranges[k].(equal := Some(fs[i].value), equalIndex := i)];
            case NE =>
          }
        }
      }
      i := i + 1;
    }
    assert fs[..i] == fs;
  }

  lemma {:induction false} NoRanges(fs: seq<Filter>)
    ensures forall col :: RangeOf(fs[..0], col) == ColRange(None, None, None, 0)
  {
  }

  /** What one more condition does to the range of a column. */
  ghost function OneMore(r: ColRange, f: Filter, col: int, i: int): ColRange {
    if !Bounds(f, col) then r
    else if IsLower(f.op) then r.(lower := Some(f.value))
    else if IsUpper(f.op) then r.(upper := Some(f.value))
    else if f.op == EQ then r.(equal := Some(f.value), equalIndex := i)
    else r
  }

  lemma {:induction false} RangeMore(fs: seq<Filter>, i: int, col: int)
    requires 0 <= i < |fs|
    ensures RangeOf(fs[..i + 1], col) == OneMore(RangeOf(fs[..i], col), fs[i], col, i)
  {
    assert fs[..i + 1][..i] == fs[..i];
  }

  /** How many leading index columns have an equality. */
  ghost function Leading(ranges: seq<ColRange>): (e: nat)
    ensures e <= |ranges| && (forall i :: 0 <= i < e ==> ranges[i].equal.Some?)
    ensures (e < |ranges| ==> ranges[e].equal.None?)
  {
    if |ranges| == 0 || ranges[0].equal.None? then 0 else 1 + Leading(ranges[1..])
  }

  method CountEqual(ranges: seq<ColRange>) returns (e: int)
    ensures e == Leading(ranges)
  {
    e := 0;
    while e < |ranges| && ranges[e].equal.Some?
      invariant 0 <= e <= |ranges| && forall i :: 0 <= i < e ==> ranges[i].equal.Some?
    {
      e := e + 1;
    }
  }

  /** The condition was turned into a leading part of the key and is not checked again. */
  ghost predicate Consumed(ranges: seq<ColRange>, e: int, i: int) {
    exists c :: 0 <= c < e && c < |ranges| && ranges[c].equalIndex == i
  }

  /** The conditions still to be checked on every row. */
  method Remaining(fs: seq<Filter>, ranges: seq<ColRange>, e: int) returns (fed: seq<Filter>)
    requires 0 <= e <= |ranges|
    ensures forall row :: SatisfiesAll(row, fed) <==>
              forall i :: 0 <= i < |fs| && !Consumed(ranges, e, i) ==> Satisfies(row, fs[i])
  {
    hide Satisfies;
    var used := {};
    var c := 0;
    while c < e
      invariant 0 <= c <= e && forall i :: i in used <==> Consumed(ranges, c, i)
    {
      used := used + {ranges[c].equalIndex};
      c := c + 1;
    }
    fed := [];
    var i := 0;
    while i < |fs|
      invariant 0 <= i <= |fs|
      invariant forall row :: SatisfiesAll(row, fed) <==>
                  forall j :: 0 <= j < i && !Consumed(ranges, e, j) ==> Satisfies(row, fs[j])
    {
      if i !in used {
        AppendFilter(fed, fs[i]);
        fed := fed + [fs[i]];
      }
      i := i + 1;
    }
  }

  lemma {:induction false} AppendFilter(fs: seq<Filter>, f: Filter)
    ensures forall row :: SatisfiesAll(row, fs + [f]) <==> SatisfiesAll(row, fs) && Satisfies(row, f)
  {
    hide Satisfies;
    forall row
      ensures SatisfiesAll(row, fs + [f]) <==> SatisfiesAll(row, fs) && Satisfies(row, f)
    {
      if SatisfiesAll(row, fs + [f]) {
        assert (fs + [f])[|fs|] == f;
        assert forall i :: 0 <= i < |fs| ==> (fs + [f])[i] == fs[i];
      }
    }
  }

  // ------------------------------------------------------------- keys

  /** Bound `i` of the range key: filled in while the columns have a bound, and extreme from there on. */
  ghost predicate Filled(ranges: seq<ColRange>, e: int, i: int, lower: bool) {
    forall j :: 0 <= e <= j <= i && j < |ranges| ==> if lower then ranges[j].lower.Some? else ranges[j].upper.Some?
  }

  ghost predicate IsRangeKey(ix: Index, ranges: seq<ColRange>, e: int, lower: bool, key: seq<int>) {
    && |key| == |ranges| == |ix.widths| && 0 <= e <= |ranges|
    && (forall i :: 0 <= i < e ==> ranges[i].equal == Some(key[i]))
    && (forall i :: e <= i < |key| ==>
          if Filled(ranges, e, i, lower) then Some(key[i]) == (if lower then ranges[i].lower else ranges[i].upper)
          else key[i] == if lower then 0 else ix.widths[i] - 1)
  }

  /** One end of the key range that the conditions give. */
  ghost function RangeKey(ix: Index, fs: seq<Filter>, lower: bool): (key: seq<int>)
    requires |ix.cols| == |ix.widths|
    ensures IsRangeKey(ix, AllRanges(ix, fs), Leading(AllRanges(ix, fs)), lower, key)
  {
    var ranges := AllRanges(ix, fs);
    var e := Leading(ranges);
    seq(|ranges|, i requires 0 <= i < |ranges| =>
          if i < e then ranges[i].equal.value
          else if Filled(ranges, e, i, lower) then (if lower then ranges[i].lower.value else ranges[i].upper.value)
          else if lower then 0 else ix.widths[i] - 1)
  }

  /** Column `s` is the first index column without an equality. */
  ghost predicate Stem(ix: Index, fs: seq<Filter>, s: int) {
    && 0 <= s <= |ix.cols| && (forall j :: 0 <= j < s ==> !NoneOf(fs, ix.cols[j], EQ, EQ))
    && (s < |ix.cols| ==> NoneOf(fs, ix.cols[s], EQ, EQ))
  }

  /** Every column from `s` to `i` has a condition with one of the two operators. */
  ghost predicate Unbroken(ix: Index, fs: seq<Filter>, s: int, i: int, a: CompOp, b: CompOp) {
    forall j :: 0 <= s <= j <= i && j < |ix.cols| ==> !NoneOf(fs, ix.cols[j], a, b)
  }

  /** The ends of the range in terms of the conditions: the leading equalities, then the last bounds for as long as
      every column has one, then the least or the greatest value. */
  lemma {:induction false} RangeKeyMeaning(ix: Index, fs: seq<Filter>, s: int, i: int, n: int)
    requires IndexOk(ix) && Stem(ix, fs, s) && 0 <= i < |ix.cols|
    ensures var lo, hi, col := RangeKey(ix, fs, true), RangeKey(ix, fs, false), ix.cols[i];
            && (i < s && LastOf(fs, col, EQ, EQ, n) ==> lo[i] == hi[i] == fs[n].value)
            && (i >= s && Unbroken(ix, fs, s, i, GT, GE) && LastOf(fs, col, GT, GE, n) ==> lo[i] == fs[n].value)
            && (i >= s && Unbroken(ix, fs, s, i, LT, LE) && LastOf(fs, col, LT, LE, n) ==> hi[i] == fs[n].value)
            && (i >= s && !Unbroken(ix, fs, s, i, GT, GE) ==> lo[i] == 0)
            && (i >= s && !Unbroken(ix, fs, s, i, LT, LE) ==> hi[i] == ix.widths[i] - 1)
  {
    hide LastOf, NoneOf, RangeOf;
    var ranges := AllRanges(ix, fs);
    forall j | 0 <= j < |ix.cols|
      ensures NoneOf(fs, ix.cols[j], EQ, EQ) <==> ranges[j].equal.None?
      ensures NoneOf(fs, ix.cols[j], GT, GE) <==> ranges[j].lower.None?
      ensures NoneOf(fs, ix.cols[j], LT, LE) <==> ranges[j].upper.None?
    {
      RangeMeaning(fs, ix.cols[j], n);
    }
    assert s == Leading(ranges);
    RangeMeaning(fs, ix.cols[i], n);
  }

  lemma {:induction false} RangeKeyUnique(
      ix: Index, ranges: seq<ColRange>, e: int, lower: bool, k: seq<int>, l: seq<int>)
    requires IsRangeKey(ix, ranges, e, lower, k) && IsRangeKey(ix, ranges, e, lower, l)
    ensures k == l
  {
    forall i | 0 <= i < |k|
      ensures k[i] == l[i]
    {
      if i < e {
        assert Some(k[i]) == Some(l[i]);
      } else if Filled(ranges, e, i, lower) {
        assert Some(k[i]) == Some(l[i]);
      }
    }
  }

  method BuildKey(ix: Index, ranges: seq<ColRange>, e: int, lower: bool) returns (key: seq<int>)
    requires |ranges| == |ix.widths| && 0 <= e <= |ranges| && forall i :: 0 <= i < e ==> ranges[i].equal.Some?
    ensures IsRangeKey(ix, ranges, e, lower, key)
  {
    key := seq(|ranges|, i requires 0 <= i < |ranges| =>
                 if i < e then ranges[i].equal.value else if lower then 0 else ix.widths[i] - 1);
    var i := e;
    while i < |ranges| && (if lower then ranges[i].lower.Some? else ranges[i].upper.Some?)
      invariant e <= i <= |ranges| && |key| == |ranges|
      invariant forall j :: 0 <= j < e ==> ranges[j].equal == Some(key[j])
      invariant forall j :: e <= j < i ==> (if lower then ranges[j].lower else ranges[j].upper) == Some(key[j])
      invariant forall j :: i <= j < |key| ==> key[j] == if lower then 0 else ix.widths[j] - 1
    {
      key := key[i := if lower then ranges[i].lower.value else ranges[i].upper.value];
      i := i + 1;
    }
    assert forall j :: e <= j < i ==> Filled(ranges, e, j, lower);
    assert forall j :: i <= j < |ranges| ==> !Filled(ranges, e, j, lower);
  }

  lemma {:induction false} RankComponents(a: seq<int>, b: seq<int>, widths: seq<int>)
    requires |a| == |b| == |widths| && (forall i :: 0 <= i < |a| ==> a[i] <= b[i] && widths[i] >= 0)
    ensures IxKeys.Rank(a, widths) <= IxKeys.Rank(b, widths)
  {
    if |a| > 0 {
      var n := |a| - 1;
      RankComponents(a[..n], b[..n], widths[..n]);
      Scale(IxKeys.Rank(a[..n], widths[..n]), IxKeys.Rank(b[..n], widths[..n]), widths[n]);
    }
  }

  lemma {:induction false} Scale(x: int, y: int, w: int)
    requires x <= y && w >= 0
    ensures x * w <= y * w
  {
  }

  /** A key between two keys with a common prefix has that prefix. */
  lemma {:induction false} CommonPrefix(l: seq<int>, k: seq<int>, u: seq<int>, widths: seq<int>, e: int)
    requires IxKeys.Fits(l, widths) && IxKeys.Fits(k, widths) && IxKeys.Fits(u, widths) && 0 <= e <= |widths|
    requires l[..e] == u[..e]
    requires IxKeys.Rank(l, widths) <= IxKeys.Rank(k, widths) <= IxKeys.Rank(u, widths)
    ensures k[..e] == l[..e]
  {
    if e > 0 {
      assert l[..e - 1] == l[..e][..e - 1] == u[..e][..e - 1] == u[..e - 1];
      CommonPrefix(l, k, u, widths, e - 1);
      assert l[e - 1] == l[..e][e - 1] == u[..e][e - 1] == u[e - 1];
      assert k[..e - 1] == u[..e - 1];
      if k[e - 1] < l[e - 1] {
        IxKeys.FirstDifference(k, l, widths, e - 1);
      } else if k[e - 1] > u[e - 1] {
        IxKeys.FirstDifference(u, k, widths, e - 1);
      }
      assert k[..e] == k[..e - 1] + [k[e - 1]] && l[..e] == l[..e - 1] + [l[e - 1]];
    }
  }

  lemma {:induction false} BoundHolds(ix: Index, fs: seq<Filter>, row: Row, c: int, r: ColRange)
    requires RowOk(ix, row) && SatisfiesAll(row, fs) && 0 <= c < |ix.cols| && Stems(fs, |fs|, ix.cols[c], r)
    ensures r.lower.Some? ==> r.lower.value <= row[ix.cols[c]]
    ensures r.upper.Some? ==> row[ix.cols[c]] <= r.upper.value
    ensures r.equal.Some? ==> row[ix.cols[c]] == r.equal.value
  {
    if r.lower.Some? {
      var i :| 0 <= i < |fs| && fs[i].WithValue? && fs[i].col == ix.cols[c] && IsLower(fs[i].op)
          && fs[i].value == r.lower.value;
      assert Satisfies(row, fs[i]);
    }
    if r.upper.Some? {
      var i :| 0 <= i < |fs| && fs[i].WithValue? && fs[i].col == ix.cols[c] && IsUpper(fs[i].op)
          && fs[i].value == r.upper.value;
      assert Satisfies(row, fs[i]);
    }
    if r.equal.Some? {
      assert Satisfies(row, fs[r.equalIndex]);
    }
  }

  ghost predicate RangesOf(ix: Index, fs: seq<Filter>, ranges: seq<ColRange>) {
    |ranges| == |ix.cols| && forall c :: 0 <= c < |ix.cols| ==> Stems(fs, |fs|, ix.cols[c], ranges[c])
  }

  /** Every row that satisfies the conditions lies in the range. */
  lemma {:induction false} RangeComplete(
      ix: Index, fs: seq<Filter>, ranges: seq<ColRange>, e: int, lo: seq<int>, hi: seq<int>, row: Row)
    requires IndexOk(ix) && RowOk(ix, row) && RangesOf(ix, fs, ranges) && SatisfiesAll(row, fs)
    requires IsRangeKey(ix, ranges, e, true, lo) && IsRangeKey(ix, ranges, e, false, hi)
    ensures IxKeys.Rank(lo, ix.widths) <= IxKeys.Rank(KeyOf(ix, row), ix.widths) <= IxKeys.Rank(hi, ix.widths)
  {
    hide Stems, SatisfiesAll;
    var k := KeyOf(ix, row);
    forall i | 0 <= i < |k|
      ensures lo[i] <= k[i] <= hi[i] && ix.widths[i] >= 0
    {
      BoundHolds(ix, fs, row, i, ranges[i]);
      assert Filled(ranges, e, i, true) && e <= i ==> ranges[i].lower.Some?;
      assert Filled(ranges, e, i, false) && e <= i ==> ranges[i].upper.Some?;
    }
    RankComponents(lo, k, ix.widths);
    RankComponents(k, hi, ix.widths);
  }

  lemma {:induction false} RangeKeyFits(
      ix: Index, fs: seq<Filter>, ranges: seq<ColRange>, e: int, lower: bool, key: seq<int>)
    requires IndexOk(ix) && FiltersOk(ix, fs) && RangesOf(ix, fs, ranges) && IsRangeKey(ix, ranges, e, lower, key)
    requires forall i :: 0 <= i < |ix.widths| ==> ix.widths[i] > 0
    ensures IxKeys.Fits(key, ix.widths)
  {
    forall i | 0 <= i < |key|
      ensures 0 <= key[i] < ix.widths[i]
    {
      assert Stems(fs, |fs|, ix.cols[i], ranges[i]);
      if i >= e && Filled(ranges, e, i, lower) {
        if lower {
          var j :| 0 <= j < |fs| && fs[j].WithValue? && fs[j].col == ix.cols[i] && IsLower(fs[j].op)
              && fs[j].value == ranges[i].lower.value;
        } else {
          var j :| 0 <= j < |fs| && fs[j].WithValue? && fs[j].col == ix.cols[i] && IsUpper(fs[j].op)
              && fs[j].value == ranges[i].upper.value;
        }
      } else if i < e {
        assert fs[ranges[i].equalIndex].WithValue? && fs[ranges[i].equalIndex].col == ix.cols[i];
      }
    }
  }

  /** Every row in the range satisfies the conditions that are not checked again. */
  lemma {:induction false} RangeSound(
      ix: Index, fs: seq<Filter>, ranges: seq<ColRange>, e: int, lo: seq<int>, hi: seq<int>, row: Row, i: int)
    requires IndexOk(ix) && RowOk(ix, row) && RangesOf(ix, fs, ranges)
    requires IsRangeKey(ix, ranges, e, true, lo) && IsRangeKey(ix, ranges, e, false, hi)
    requires IxKeys.Fits(lo, ix.widths) && IxKeys.Fits(hi, ix.widths)
    requires IxKeys.Rank(lo, ix.widths) <= IxKeys.Rank(KeyOf(ix, row), ix.widths) <= IxKeys.Rank(hi, ix.widths)
    requires 0 <= i < |fs| && Consumed(ranges, e, i)
    ensures Satisfies(row, fs[i])
  {
    hide IxKeys.Rank, Filled;
    var c :| 0 <= c < e && c < |ranges| && ranges[c].equalIndex == i;
    var k := KeyOf(ix, row);
    assert Stems(fs, |fs|, ix.cols[c], ranges[c]);
    assert forall j :: 0 <= j < e ==> Some(lo[j]) == Some(hi[j]);
    assert lo[..e] == hi[..e];
    CommonPrefix(lo, k, hi, ix.widths, e);
    assert k[c] == k[..e][c] == lo[..e][c] == lo[c];
    assert fs[i] == WithValue(ix.cols[c], EQ, lo[c]);
  }

  // ------------------------------------------------------------- the scan

  /** The index holds one entry per row, under the rank of its key. */
  ghost predicate IndexesTable(ix: Index, table: map<Rid, Row>, m: map<int, Rid>) {
    && (forall r :: r in table ==> RowOk(ix, table[r]))
    && (forall r :: r in table ==> var k := IxKeys.Rank(KeyOf(ix, table[r]), ix.widths); k in m && m[k] == r)
    && (forall k :: k in m ==> m[k] in table && IxKeys.Rank(KeyOf(ix, table[m[k]]), ix.widths) == k)
  }

  /** The rows an index scan delivers are exactly those that satisfy all conditions, each once, in key order. It fails
      exactly if some stored key lies strictly between the upper and the lower end of the key range that the conditions
      give, which takes contradictory conditions. */
  method ScanIndex(
      ih: IH.IxIndexHandle, ix: Index, table: map<Rid, Row>, fs: seq<Filter>) returns (out: Option<seq<Rid>>)
    requires ih.Valid() && IndexOk(ix) && FiltersOk(ix, fs) && IndexesTable(ix, table, ih.Contents())
    requires forall i :: 0 <= i < |ix.widths| ==> ix.widths[i] > 0
    ensures out.None? <==>
            exists e :: e in ih.Entries()
                && KeyRank(ix, RangeKey(ix, fs, false)) < e.key < KeyRank(ix, RangeKey(ix, fs, true))
    ensures out.Some? ==>
              && (forall r :: r in out.value <==> r in table && SatisfiesAll(table[r], fs))
              && (forall i, j :: 0 <= i < j < |out.value| ==> out.value[i] != out.value[j])
    ensures (exists r :: r in table && SatisfiesAll(table[r], fs)) ==> out.Some?
    ensures out.Some? ==>
              forall r :: r in out.value <==> r in table && forall i :: 0 <= i < |fs| ==> Satisfies(table[r], fs[i])
  {
    hide Satisfies, SatisfiesAll, IxKeys.Rank, Sound, IxSteps.Bounded, Chain, MapOf, Sorted, Stems, IsRangeKey,
         Consumed, FiltersOk, Rids, Between, AllRanges, Leading, RangeKey;
    var ranges := ExtractRanges(ix, fs);
    RangesStem(ix, fs);
    var e := CountEqual(ranges);
    var fed := Remaining(fs, ranges, e);
    var lo := BuildKey(ix, ranges, e, true);
    var hi := BuildKey(ix, ranges, e, false);
    RangeKeyUnique(ix, ranges, e, true, lo, RangeKey(ix, fs, true));
    RangeKeyUnique(ix, ranges, e, false, hi, RangeKey(ix, fs, false));
    KeySize(ix, ranges, e, true, lo);
    KeySize(ix, ranges, e, false, hi);
    RangeKeyFits(ix, fs, ranges, e, true, lo);
    RangeKeyFits(ix, fs, ranges, e, false, hi);
    var rids := IS.RangeScan(ih, IxKeys.Rank(lo, ix.widths), IxKeys.Rank(hi, ix.widths));
    ghost var es := Between(ih.Entries(), IxKeys.Rank(lo, ix.widths), IxKeys.Rank(hi, ix.widths));
    IS.EntriesSorted(ih);
    BetweenMember(ih.Entries(), IxKeys.Rank(lo, ix.widths), IxKeys.Rank(hi, ix.widths));
    NonemptyRange(ih, ix, table, fs, ranges, e, lo, hi);
    if rids.None? {
      return None;
    }
    EntriesOfTable(ih, ix, table, es);
    var result := FilterRows(table, fed, rids.value, es);
    forall r
      ensures r in result <==> r in table && SatisfiesAll(table[r], fs)
    {
      DeliveredRow(ih, ix, table, fs, ranges, e, lo, hi, es, fed, r, rids.value, result);
    }
    forall r | r in table
      ensures SatisfiesAll(table[r], fs) <==> forall i :: 0 <= i < |fs| ==> Satisfies(table[r], fs[i])
    {
      AllMeaning(table[r], fs);
    }
    out := Some(result);
  }

  lemma {:induction false} AllMeaning(row: Row, fs: seq<Filter>)
    ensures SatisfiesAll(row, fs) <==> forall i :: 0 <= i < |fs| ==> Satisfies(row, fs[i])
  {
  }

  ghost function KeyRank(ix: Index, key: seq<int>): int
    requires |key| == |ix.widths|
  {
    IxKeys.Rank(key, ix.widths)
  }

  lemma {:induction false} RangesStem(ix: Index, fs: seq<Filter>)
    ensures RangesOf(ix, fs, AllRanges(ix, fs))
  {
    hide RangeOf;
    forall c | 0 <= c < |ix.cols|
      ensures Stems(fs, |fs|, ix.cols[c], AllRanges(ix, fs)[c])
    {
      RangeStems(fs, ix.cols[c]);
    }
  }

  /** On an index that holds the key 4 alone, the conditions > 5 and < 3 make the scan fail, although the right answer
      is that no row satisfies them. */
  method ContradictoryScan() returns (out: Option<seq<Rid>>, table: map<Rid, Row>, fs: seq<Filter>)
    ensures fs == [WithValue(0, GT, 5), WithValue(0, LT, 3)] && table == map[Rid(1, 0) := [4]]
    ensures out.None? && forall r :: r in table ==> !SatisfiesAll(table[r], fs)
  {
    hide IH.IxIndexHandle.Valid, IH.IxIndexHandle.Contents, IH.IxIndexHandle.Entries, IndexesTable, SatisfiesAll,
         RangeKey, FiltersOk;
    var ix := Index([0], [10]);
    fs := [WithValue(0, GT, 5), WithValue(0, LT, 3)];
    table := map[Rid(1, 0) := [4]];
    var ih := new IH.IxIndexHandle(4);
    var leaf, ok := ih.InsertEntry(4, Rid(1, 0));
    OneRow(ix, table, fs);
    assert ih.Contents() == map[4 := Rid(1, 0)];
    OneKey(5);
    OneKey(3);
    ContradictoryKeys(ix, fs);
    EntriesOfTable(ih, ix, table, []);
    assert Entry(4, Rid(1, 0)) in ih.Entries();
    out := ScanIndex(ih, ix, table, fs);
  }

  lemma {:induction false} OneRow(ix: Index, table: map<Rid, Row>, fs: seq<Filter>)
    requires ix == Index([0], [10]) && table == map[Rid(1, 0) := [4]]
    requires fs == [WithValue(0, GT, 5), WithValue(0, LT, 3)]
    ensures IndexOk(ix) && FiltersOk(ix, fs) && IndexesTable(ix, table, map[4 := Rid(1, 0)])
    ensures forall r :: r in table ==> !SatisfiesAll(table[r], fs)
  {
    hide IxKeys.Rank, IndexesTable;
    OneRowIndexed(ix, table);
    assert !Satisfies([4], fs[0]);
  }

  lemma {:induction false} OneRowIndexed(ix: Index, table: map<Rid, Row>)
    requires ix == Index([0], [10]) && table == map[Rid(1, 0) := [4]]
    ensures IndexesTable(ix, table, map[4 := Rid(1, 0)])
  {
    hide IxKeys.Rank;
    OneKey(4);
    assert RowOk(ix, [4]);
    assert KeyOf(ix, [4]) == [4];
  }

  lemma {:induction false} OneKey(k: int)
    ensures IxKeys.Rank([k], [10]) == k
  {
    assert IxKeys.Rank([k], [10]) == IxKeys.Rank([k][..0], [10][..0]) * 10 + k;
  }

  lemma {:induction false} ContradictoryKeys(ix: Index, fs: seq<Filter>)
    requires ix == Index([0], [10]) && fs == [WithValue(0, GT, 5), WithValue(0, LT, 3)]
    ensures RangeKey(ix, fs, true) == [5] && RangeKey(ix, fs, false) == [3]
  {
    hide RangeOf;
    NoRanges(fs);
    RangeMore(fs, 0, 0);
    RangeMore(fs, 1, 0);
    assert fs[..2] == fs;
    var ranges := AllRanges(ix, fs);
    assert ranges == [ColRange(Some(5), Some(3), None, 0)] && Leading(ranges) == 0;
    assert Filled(ranges, 0, 0, true) && Filled(ranges, 0, 0, false);
    assert Some(RangeKey(ix, fs, true)[0]) == Some(5) && Some(RangeKey(ix, fs, false)[0]) == Some(3);
  }

  lemma {:induction false} KeySize(ix: Index, ranges: seq<ColRange>, e: int, lower: bool, key: seq<int>)
    requires IsRangeKey(ix, ranges, e, lower, key)
    ensures |key| == |ix.widths|
  {
  }

  lemma {:induction false} NonemptyRange(
      ih: IH.IxIndexHandle, ix: Index, table: map<Rid, Row>, fs: seq<Filter>, ranges: seq<ColRange>, e: int,
      lo: seq<int>, hi: seq<int>)
    requires IndexOk(ix) && RangesOf(ix, fs, ranges) && IndexesTable(ix, table, ih.Contents())
    requires IsRangeKey(ix, ranges, e, true, lo) && IsRangeKey(ix, ranges, e, false, hi) && |lo| == |hi| == |ix.widths|
    ensures (exists r :: r in table && SatisfiesAll(table[r], fs)) ==>
              IxKeys.Rank(lo, ix.widths) <= IxKeys.Rank(hi, ix.widths)
  {
    hide SatisfiesAll, IxKeys.Rank, Chain, MapOf, IsRangeKey, RangesOf;
    if r :| r in table && SatisfiesAll(table[r], fs) {
      RangeComplete(ix, fs, ranges, e, lo, hi, table[r]);
    }
  }

  /** What the entries found have to do with the rows. */
  lemma {:induction false} EntriesOfTable(ih: IH.IxIndexHandle, ix: Index, table: map<Rid, Row>, es: seq<Entry>)
    requires ih.Valid() && IndexesTable(ix, table, ih.Contents()) && Sorted(es)
    requires forall x :: x in es ==> x in ih.Entries()
    ensures forall i :: 0 <= i < |es| ==>
              es[i].rid in table && es[i].key == IxKeys.Rank(KeyOf(ix, table[es[i].rid]), ix.widths)
    ensures forall i, j :: 0 <= i < j < |es| ==> es[i].rid != es[j].rid
    ensures forall x :: x in ih.Entries() <==> x.key in ih.Contents() && ih.Contents()[x.key] == x.rid
  {
    hide Shaped, Sized, Separators, IxTree.Filled, Chain, MapOf, IxKeys.Rank, Ring, IxSteps.Bounded;
    RingStored(ih.pages, ih.g.leaves);
    ChainAscends(ih.pages, ih.g);
    MapOfSorted(ih.Entries());
    forall i | 0 <= i < |es|
      ensures es[i].rid in table && es[i].key == IxKeys.Rank(KeyOf(ix, table[es[i].rid]), ix.widths)
    {
      assert es[i] in es && es[i] in ih.Entries();
    }
    forall x: Entry | x.key in ih.Contents() && ih.Contents()[x.key] == x.rid
      ensures x in ih.Entries()
    {
      assert x == Entry(x.key, ih.Contents()[x.key]);
    }
  }

  method FilterRows(
      table: map<Rid, Row>, fed: seq<Filter>, rids: seq<Rid>, ghost es: seq<Entry>) returns (out: seq<Rid>)
    requires rids == Rids(es) && forall i :: 0 <= i < |es| ==> es[i].rid in table
    requires forall i, j :: 0 <= i < j < |es| ==> es[i].rid != es[j].rid
    ensures forall r :: r in out <==> r in rids && r in table && SatisfiesAll(table[r], fed)
    ensures forall i, j :: 0 <= i < j < |out| ==> out[i] != out[j]
  {
    hide SatisfiesAll;
    out := [];
    var i := 0;
    while i < |rids|
      invariant 0 <= i <= |rids|
      invariant forall r :: r in out <==> r in rids[..i] && r in table && SatisfiesAll(table[r], fed)
      invariant forall a, b :: 0 <= a < b < |out| ==> out[a] != out[b]
    {
      assert rids[i] == es[i].rid && rids[i] in table;
      assert rids[i] !in rids[..i];
      if SatisfiesAll(table[rids[i]], fed) {
        out := out + [rids[i]];
      }
      assert rids[..i + 1] == rids[..i] + [rids[i]];
      i := i + 1;
    }
    assert rids[..i] == rids;
  }

  lemma {:induction false} DeliveredRow(
      ih: IH.IxIndexHandle, ix: Index, table: map<Rid, Row>, fs: seq<Filter>, ranges: seq<ColRange>, e: int,
      lo: seq<int>, hi: seq<int>, es: seq<Entry>, fed: seq<Filter>, r: Rid, rids: seq<Rid>, result: seq<Rid>)
    requires IndexOk(ix) && RangesOf(ix, fs, ranges) && IndexesTable(ix, table, ih.Contents())
    requires IsRangeKey(ix, ranges, e, true, lo) && IsRangeKey(ix, ranges, e, false, hi)
    requires IxKeys.Fits(lo, ix.widths) && IxKeys.Fits(hi, ix.widths)
    requires forall row :: SatisfiesAll(row, fed) <==>
               forall i :: 0 <= i < |fs| && !Consumed(ranges, e, i) ==> Satisfies(row, fs[i])
    requires forall x :: x in ih.Entries() <==> x.key in ih.Contents() && ih.Contents()[x.key] == x.rid
    requires forall x :: x in es <==>
               x in ih.Entries() && IxKeys.Rank(lo, ix.widths) <= x.key <= IxKeys.Rank(hi, ix.widths)
    requires rids == Rids(es) && forall x :: x in result <==> x in rids && x in table && SatisfiesAll(table[x], fed)
    ensures r in result <==> r in table && SatisfiesAll(table[r], fs)
  {
    hide Satisfies, IxKeys.Rank, Chain, MapOf, IsRangeKey, RangesOf, Consumed;
    if r in table {
      var k := IxKeys.Rank(KeyOf(ix, table[r]), ix.widths);
      var x := Entry(k, r);
      assert x in ih.Entries();
      RidListed(es, rids, x, r);
      if SatisfiesAll(table[r], fs) {
        RangeComplete(ix, fs, ranges, e, lo, hi, table[r]);
        assert x in es;
      }
      if r in result {
        var i :| 0 <= i < |rids| && rids[i] == r;
        assert es[i] in es && es[i].rid == r && es[i].key == k;
        forall j | 0 <= j < |fs|
          ensures Satisfies(table[r], fs[j])
        {
          if Consumed(ranges, e, j) {
            RangeSound(ix, fs, ranges, e, lo, hi, table[r], j);
          }
        }
      }
    }
  }

  lemma {:induction false} RidListed(es: seq<Entry>, rids: seq<Rid>, x: Entry, r: Rid)
    requires rids == Rids(es) && x.rid == r
    ensures x in es ==> r in rids
  {
    if x in es {
      var i :| 0 <= i < |es| && es[i] == x;
      assert rids[i] == r;
    }
  }
}
