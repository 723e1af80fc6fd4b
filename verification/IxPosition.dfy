/** Positions in the leaf chain: an Iid names a leaf and a slot, and stands for a rank in the
    ascending sequence of all entries. */
module IxPosition {
  import opened Basics
  import opened IxTree
  import opened IxRoute
  import opened IxInsert
  import opened IxChain
  import opened IxRebalance

  datatype Iid = Iid(pageNo: int, slotNo: int)

  /** First position whose key is not below `k`. */
  ghost predicate IsLowerBound(s: seq<Entry>, k: int, pos: int) {
    && 0 <= pos <= |s|
    && (forall i :: 0 <= i < pos ==> s[i].key < k)
    && (forall i :: pos <= i < |s| ==> k <= s[i].key)
  }

  /** First position whose key is above `k`. */
  ghost predicate IsUpperBound(s: seq<Entry>, k: int, pos: int) {
    && 0 <= pos <= |s|
    && (forall i :: 0 <= i < pos ==> s[i].key <= k)
    && (forall i :: pos <= i < |s| ==> k < s[i].key)
  }

  /** `iid` sits in leaf `j` and stands for rank `n`. A position behind the last slot of a leaf is
      used in the last leaf only, so every rank has one position. */
  ghost predicate At(pages: Pages, leaves: seq<int>, iid: Iid, j: int, n: int) {
    && Stored(pages, leaves) && 0 <= j < |leaves| && leaves[j] == iid.pageNo
    && 0 <= iid.slotNo <= |pages[leaves[j]].slots|
    && (iid.slotNo == |pages[leaves[j]].slots| ==> j == |leaves| - 1)
    && n == Rank(pages, leaves, j, iid.slotNo)
  }

  ghost predicate Canonical(pages: Pages, leaves: seq<int>, iid: Iid, n: int) {
    exists j :: At(pages, leaves, iid, j, n)
  }

  lemma {:induction false} RankMonotone(pages: Pages, leaves: seq<int>, i: int, j: int)
    requires Stored(pages, leaves) && 0 <= i <= j <= |leaves|
    ensures Rank(pages, leaves, i, 0) <= Rank(pages, leaves, j, 0)
    decreases j - i
  {
    if i < j {
      RankEntry(pages, leaves, i);
      RankMonotone(pages, leaves, i + 1, j);
    }
  }

  lemma {:induction false} SameRank(pages: Pages, leaves: seq<int>, a: Iid, i: int, b: Iid, j: int, n: int)
    requires At(pages, leaves, a, i, n) && At(pages, leaves, b, j, n)
    ensures i >= j
  {
    if i < j {
      RankEntry(pages, leaves, i);
      RankMonotone(pages, leaves, i + 1, j);
    }
  }

  /** Equal ranks have equal positions, so a scan stops exactly at its end position. */
  lemma {:induction false} PositionUnique(pages: Pages, leaves: seq<int>, a: Iid, b: Iid, n: int, m: int)
    requires Canonical(pages, leaves, a, n) && Canonical(pages, leaves, b, m)
    requires forall i, j :: 0 <= i < j < |leaves| ==> leaves[i] != leaves[j]
    ensures a == b <==> n == m
  {
    var i :| At(pages, leaves, a, i, n);
    var j :| At(pages, leaves, b, j, m);
    if n == m {
      SameRank(pages, leaves, a, i, b, j, n);
      SameRank(pages, leaves, b, j, a, i, n);
    }
  }

  lemma {:induction false} PositionRange(pages: Pages, leaves: seq<int>, iid: Iid, n: int)
    requires Canonical(pages, leaves, iid, n)
    ensures Stored(pages, leaves) && iid.pageNo in pages && 0 <= iid.slotNo <= |pages[iid.pageNo].slots|
    ensures 0 <= n <= |Chain(pages, leaves)|
    ensures n < |Chain(pages, leaves)| <==> iid.slotNo < |pages[iid.pageNo].slots|
    ensures n < |Chain(pages, leaves)| ==> Chain(pages, leaves)[n] == pages[iid.pageNo].slots[iid.slotNo]
  {
    hide Chain;
    var j :| At(pages, leaves, iid, j, n);
    RankEntry(pages, leaves, j);
    if j == |leaves| - 1 {
      assert leaves[..j + 1] == leaves;
    }
  }

  // ------------------------------------------------------------- ranks of routed keys

  lemma {:induction false} RouteSides(pages: Pages, root: int, g: Shape, k: int, p: int)
    requires Shaped(pages, root, g, Attached) && Ordered(pages, root, g, NO_PAGE) && Stored(pages, g.leaves)
    requires OnRoute(pages, g, k, p, 0) && g.info[p].lvl == 0
    ensures var j := g.info[p].fst;
            && j < |g.leaves| && g.leaves[j] == p
            && AllLess(Chain(pages, g.leaves[..j]), k) && AllGreater(Chain(pages, g.leaves[j + 1..]), k)
  {
    hide KidsOk, Up, Down, PendingOk, Separators, LeafOrder, Chain, Typed;
    var j := g.info[p].fst;
    assert g.leaves[j] == p && g.info[p].end == j + 1;
    LaterLeavesBelow(pages, root, g, p, k);
    var a, b := g.leaves[..j], g.leaves[j + 1..];
    forall i | 0 <= i < |Chain(pages, a)|
      ensures Chain(pages, a)[i].key < k
    {
      var e := Chain(pages, a)[i];
      ChainSource(pages, a, e);
      var m :| 0 <= m < |a| && e in pages[a[m]].slots;
      assert AllLess(pages[g.leaves[m]].slots, k);
    }
    forall i | 0 <= i < |Chain(pages, b)|
      ensures k < Chain(pages, b)[i].key
    {
      var e := Chain(pages, b)[i];
      ChainSource(pages, b, e);
      var m :| 0 <= m < |b| && e in pages[b[m]].slots;
      assert AllGreater(pages[g.leaves[j + 1 + m]].slots, k);
    }
  }

  lemma {:induction false} RouteRank(pages: Pages, root: int, g: Shape, k: int, p: int, pos: int)
    requires Shaped(pages, root, g, Attached) && Ordered(pages, root, g, NO_PAGE) && Stored(pages, g.leaves)
    requires p in g.info && OnRoute(pages, g, k, p, 0) && g.info[p].lvl == 0 && g.info[p].fst <= |g.leaves|
    requires p in pages
    ensures var n := Rank(pages, g.leaves, g.info[p].fst, pos);
            && (IsLowerBound(pages[p].slots, k, pos) ==> IsLowerBound(Chain(pages, g.leaves), k, n))
            && (IsUpperBound(pages[p].slots, k, pos) ==> IsUpperBound(Chain(pages, g.leaves), k, n))
  {
    hide Shaped, Ordered, Chain, OnRoute;
    var j := g.info[p].fst;
    RouteSides(pages, root, g, k, p);
    ChainAt(pages, g.leaves, j);
    SideBounds(Chain(pages, g.leaves[..j]), pages[p].slots, Chain(pages, g.leaves[j + 1..]), k, pos);
  }

  lemma {:induction false} SideBounds(a: seq<Entry>, s: seq<Entry>, b: seq<Entry>, k: int, pos: int)
    requires AllLess(a, k) && AllGreater(b, k)
    ensures IsLowerBound(s, k, pos) ==> IsLowerBound(a + s + b, k, |a| + pos)
    ensures IsUpperBound(s, k, pos) ==> IsUpperBound(a + s + b, k, |a| + pos)
  {
  }

  /** A slot of leaf `p`, moved on to the next leaf when it lies behind the last slot. */
  ghost predicate Settled(pages: Pages, leaves: seq<int>, j: int, pos: int, iid: Iid) {
    && Stored(pages, leaves) && 0 <= j < |leaves| && 0 <= pos <= |pages[leaves[j]].slots|
    && iid == if pos == |pages[leaves[j]].slots| && j + 1 < |leaves| then Iid(leaves[j + 1], 0) else Iid(leaves[j], pos)
  }

  lemma {:induction false} SettledCanonical(pages: Pages, leaves: seq<int>, j: int, pos: int, iid: Iid)
    requires Settled(pages, leaves, j, pos, iid)
    requires |leaves| > 1 ==> forall m :: 0 <= m < |leaves| ==> |pages[leaves[m]].slots| > 0
    ensures Canonical(pages, leaves, iid, Rank(pages, leaves, j, pos))
  {
    var n := Rank(pages, leaves, j, pos);
    if pos == |pages[leaves[j]].slots| && j + 1 < |leaves| {
      RankEntry(pages, leaves, j);
      assert At(pages, leaves, iid, j + 1, n);
    } else {
      assert At(pages, leaves, iid, j, n);
    }
  }

  lemma {:induction false} LeavesFilled(pages: Pages, root: int, g: Shape)
    requires Shaped(pages, root, g, Attached) && Ordered(pages, root, g, NO_PAGE) && Stored(pages, g.leaves)
    ensures |g.leaves| > 1 ==> forall m :: 0 <= m < |g.leaves| ==> |pages[g.leaves[m]].slots| > 0
  {
    hide KidsOk, Down, LeafOrder, Separators;
    forall m | 0 <= m < |g.leaves| && |g.leaves| > 1
      ensures |pages[g.leaves[m]].slots| > 0
    {
      var c := g.leaves[m];
      assert c in g.info && g.info[c] == Info(0, m, m + 1) && c != root;
    }
  }

  /** One step of a scan: to the next slot, or the first slot of the next leaf. */
  lemma {:induction false} StepCanonical(pages: Pages, leaves: seq<int>, iid: Iid, n: int, last: int, iid': Iid)
    requires Canonical(pages, leaves, iid, n) && Ring(pages, leaves) && last == leaves[|leaves| - 1]
    requires |leaves| > 1 ==> forall m :: 0 <= m < |leaves| ==> |pages[leaves[m]].slots| > 0
    requires iid.pageNo in pages && iid.slotNo < |pages[iid.pageNo].slots|
    requires iid' == if iid.pageNo != last && iid.slotNo + 1 == |pages[iid.pageNo].slots|
               then Iid(pages[iid.pageNo].next, 0)
                     else Iid(iid.pageNo, iid.slotNo + 1)
    ensures Canonical(pages, leaves, iid', n + 1)
  {
    hide Chain;
    var j :| At(pages, leaves, iid, j, n);
    assert leaves[j] != last <==> j < |leaves| - 1;
    assert j < |leaves| - 1 ==> pages[leaves[j]].next == leaves[j + 1];
    SettledCanonical(pages, leaves, j, iid.slotNo + 1, iid');
  }

  // ------------------------------------------------------------- what a range holds

  /** How many entries have a key below `k`. */
  ghost function CountBelow(es: seq<Entry>, k: int): nat {
    if |es| == 0 then 0 else CountBelow(es[..|es| - 1], k) + if es[|es| - 1].key < k then 1 else 0
  }

  /** How many entries have a key of at most `k`. */
  ghost function CountUpTo(es: seq<Entry>, k: int): nat {
    if |es| == 0 then 0 else CountUpTo(es[..|es| - 1], k) + if es[|es| - 1].key <= k then 1 else 0
  }

  /** The entries with lo <= key <= hi, in their order. */
  ghost function Between(es: seq<Entry>, lo: int, hi: int): seq<Entry> {
    if |es| == 0 then []
    else Between(es[..|es| - 1], lo, hi) + if lo <= es[|es| - 1].key <= hi then [es[|es| - 1]] else []
  }

  lemma {:induction false} BoundCounts(es: seq<Entry>, k: int, n: int)
    ensures IsLowerBound(es, k, n) ==> CountBelow(es, k) == n
    ensures IsUpperBound(es, k, n) ==> CountUpTo(es, k) == n
  {
    if |es| > 0 {
      var m := |es| - 1;
      BoundCounts(es[..m], k, if n > m then m else n);
    }
  }

  lemma {:induction false} BetweenMember(es: seq<Entry>, lo: int, hi: int)
    ensures forall e :: e in Between(es, lo, hi) <==> e in es && lo <= e.key <= hi
    ensures Sorted(es) ==> Sorted(Between(es, lo, hi))
  {
    if |es| > 0 {
      var m := |es| - 1;
      BetweenMember(es[..m], lo, hi);
      assert es == es[..m] + [es[m]];
      if Sorted(es) {
        var f := Between(es[..m], lo, hi);
        forall i | 0 <= i < |f|
          ensures f[i].key < es[m].key
        {
          assert f[i] in f && f[i] in es[..m];
        }
      }
    }
  }

  /** The part between the two ranks is what lies between the keys, unless the ranks cross; and they cross exactly if
      some key lies strictly between hi and lo. */
  lemma {:induction false} RangeRanks(es: seq<Entry>, lo: int, hi: int, a: int, b: int)
    requires IsLowerBound(es, lo, a) && IsUpperBound(es, hi, b)
    ensures a <= b ==> es[a..b] == Between(es, lo, hi)
    ensures a > b <==> exists e :: e in es && hi < e.key < lo
    ensures lo <= hi ==> a <= b
  {
    if a <= b {
      RangeIsBetween(es, lo, hi, a, b);
    } else {
      assert es[b] in es && hi < es[b].key < lo;
    }
  }

  lemma {:induction false} RangeIsBetween(es: seq<Entry>, lo: int, hi: int, a: int, b: int)
    requires IsLowerBound(es, lo, a) && IsUpperBound(es, hi, b) && a <= b
    ensures es[a..b] == Between(es, lo, hi)
  {
    hide Between;
    var x, y, z := es[..a], es[a..b], es[b..];
    assert es == x + y + z;
    BetweenConcat(x + y, z, lo, hi);
    BetweenConcat(x, y, lo, hi);
    BetweenPart(x, lo, hi);
    BetweenPart(y, lo, hi);
    BetweenPart(z, lo, hi);
  }

  lemma {:induction false} BetweenConcat(s: seq<Entry>, t: seq<Entry>, lo: int, hi: int)
    ensures Between(s + t, lo, hi) == Between(s, lo, hi) + Between(t, lo, hi)
  {
    if |t| == 0 {
      assert s + t == s;
    } else {
      var n := |t| - 1;
      BetweenConcat(s, t[..n], lo, hi);
      assert (s + t)[..|s| + n] == s + t[..n];
    }
  }

  lemma {:induction false} BetweenPart(s: seq<Entry>, lo: int, hi: int)
    ensures (forall i :: 0 <= i < |s| ==> lo <= s[i].key <= hi) ==> Between(s, lo, hi) == s
    ensures (forall i :: 0 <= i < |s| ==> !(lo <= s[i].key <= hi)) ==> Between(s, lo, hi) == []
  {
    if |s| > 0 {
      BetweenPart(s[..|s| - 1], lo, hi);
    }
  }

  function Rids(es: seq<Entry>): (r: seq<Rid>)
    ensures |r| == |es| && forall i :: 0 <= i < |r| ==> r[i] == es[i].rid
  {
    seq(|es|, i requires 0 <= i < |es| => es[i].rid)
  }
}
