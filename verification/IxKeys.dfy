/** Composite index keys. A key holds one value per column, each given by its position among the
    values of that column in ascending order. Keys are compared column by column; the index
    modules use the rank of a key among all keys of its index instead. */
module IxKeys {

  ghost predicate Fits(k: seq<int>, widths: seq<int>) {
    |k| == |widths| && forall i :: 0 <= i < |k| ==> 0 <= k[i] < widths[i]
  }

  function Rank(k: seq<int>, widths: seq<int>): int
    requires |k| == |widths|
  {
    if |k| == 0 then 0
    else var n := |k| - 1; Rank(k[..n], widths[..n]) * widths[n] + k[n]
  }

  lemma {:induction false} FirstDifference(a: seq<int>, b: seq<int>, widths: seq<int>, i: int)
    requires Fits(a, widths) && Fits(b, widths) && 0 <= i < |a| && a[..i] == b[..i] && a[i] < b[i]
    ensures Rank(a, widths) < Rank(b, widths)
  {
    var n := |a| - 1;
    if i < n {
      assert a[..n][..i] == a[..i] && b[..n][..i] == b[..i];
      FirstDifference(a[..n], b[..n], widths[..n], i);
      Carry(Rank(a[..n], widths[..n]), Rank(b[..n], widths[..n]), widths[n], a[n], b[n]);
    }
  }

  lemma {:induction false} Carry(x: int, y: int, w: int, c: int, d: int)
    requires x < y && 0 <= c < w && 0 <= d
    ensures x * w + c < y * w + d
  {
    assert (x + 1) * w <= y * w;
  }

  /** Column-wise comparison is comparison of ranks, so the index may be understood over integers. */
  method Compare(a: seq<int>, b: seq<int>, widths: seq<int>) returns (r: int)
    requires Fits(a, widths) && Fits(b, widths)
    ensures r < 0 <==> Rank(a, widths) < Rank(b, widths)
    ensures r == 0 <==> a == b
    ensures r == 0 <==> Rank(a, widths) == Rank(b, widths)
  {
    var i := 0;
    while i < |widths|
      invariant 0 <= i <= |widths| && a[..i] == b[..i]
    {
      if a[i] < b[i] {
        FirstDifference(a, b, widths, i);
        return -1;
      } else if a[i] > b[i] {
        FirstDifference(b, a, widths, i);
        return 1;
      }
      i := i + 1;
    }
    assert a == a[..i] && b == b[..i];
    r := 0;
  }

  // ------------------------------------------------------------- node capacity

  const PAGE_SIZE: int := 4096
  const PAGE_HEADER_SIZE: int := 24
  const RID_SIZE: int := 8
  const MAX_KEY_SIZE: int := 512

  /** The order chosen for keys of `len` bytes. */
  function BtreeOrder(len: int): int
    requires 0 < len
  {
    (PAGE_SIZE - PAGE_HEADER_SIZE) / (len + RID_SIZE) - 1
  }

  /** Every admitted key length gives an order of at least six, whose order + 1 slots fit the page, and
      one more slot would not. */
  lemma {:induction false} OrderFits(len: int)
    requires 0 < len <= MAX_KEY_SIZE
    ensures BtreeOrder(len) >= 6
    ensures PAGE_HEADER_SIZE + (BtreeOrder(len) + 1) * (len + RID_SIZE) <= PAGE_SIZE
    ensures PAGE_HEADER_SIZE + (BtreeOrder(len) + 2) * (len + RID_SIZE) > PAGE_SIZE
  {
    var d := len + RID_SIZE;
    var q := (PAGE_SIZE - PAGE_HEADER_SIZE) / d;
    assert q * d <= PAGE_SIZE - PAGE_HEADER_SIZE < (q + 1) * d;
    assert 7 * d < (q + 1) * d;
  }
}
