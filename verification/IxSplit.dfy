/** Splitting a full leaf: the new right half joins the leaf chain and waits for a parent entry. */
module IxSplit {
  import opened Basics
  import opened IxTree
  import opened IxInsert

  /** A boundary position after one leaf is inserted behind position `j`. */
  function Shift(j: int, b: int): int {
    if b > j then b + 1 else b
  }

  ghost function SplitInfo(g: Shape, p: int, r: int): Info
    requires p in g.info && r in g.info
  {
    var j := g.info[p].fst;
    Info(g.info[r].lvl, Shift(j, g.info[r].fst), if r == p then g.info[p].end else Shift(j, g.info[r].end))
  }

  ghost function LeafSplitShape(g: Shape, p: int, q: int): Shape
    requires p in g.info && g.info[p].fst < |g.leaves|
  {
    var j := g.info[p].fst;
    Shape((map r | r in g.info :: SplitInfo(g, p, r))[q := Info(0, j + 1, j + 2)],
          g.leaves[..j + 1] + [q] + g.leaves[j + 1..])
  }

  /** `g'` is `g` with leaf `q` inserted behind leaf `p`. */
  ghost predicate Grown(g: Shape, g': Shape, p: int, q: int) {
    && p in g.info && q !in g.info && g.info[p].fst < |g.leaves|
    && var j := g.info[p].fst;
    && g.info[p] == Info(0, j, j + 1)
    && |g'.leaves| == |g.leaves| + 1
    && (forall i :: 0 <= i <= j ==> g'.leaves[i] == g.leaves[i])
    && g'.leaves[j + 1] == q
    && (forall i :: j + 1 < i < |g'.leaves| ==> g'.leaves[i] == g.leaves[i - 1])
    && (forall r :: r in g'.info <==> r in g.info || r == q)
    && (forall r :: r in g.info ==> r in g'.info && g'.info[r] == SplitInfo(g, p, r))
    && q in g'.info && g'.info[q] == Info(0, j + 1, j + 2)
  }

  lemma LeafSplitShapeGrown(g: Shape, p: int, q: int)
    requires LeafLevel(g) && p in g.info && g.info[p].lvl == 0 && q !in g.info
    ensures Grown(g, LeafSplitShape(g, p, q), p, q)
  {
  }

  /** `pages'` is `pages` with leaf `p` cut at `mid` and the rest moved to the new page `q`. */
  ghost predicate LeafSplit(pages: Pages, pages': Pages, p: int, q: int, mid: int) {
    && p in pages && q !in pages && q >= 2 && 0 < mid < |pages[p].slots|
    && p in pages' && q in pages'
    && pages'[p].isLeaf == pages'[q].isLeaf == pages[p].isLeaf
    && pages'[p].parent == pages'[q].parent == pages[p].parent
    && pages'[p].slots == pages[p].slots[..mid]
    && pages'[q].slots == pages[p].slots[mid..]
    && Agree(pages, pages', {p})
  }

  // ------------------------------------------------------------- shape

  lemma GrownLevels(pages: Pages, pages': Pages, g: Shape, g': Shape, p: int, q: int, mid: int)
    requires Typed(pages, g) && LeafLevel(g) && Grown(g, g', p, q) && LeafSplit(pages, pages', p, q, mid)
    ensures Typed(pages', g') && LeafLevel(g')
  {
    forall i | 0 <= i < |g'.leaves|
      ensures g'.leaves[i] in g'.info && g'.info[g'.leaves[i]] == Info(0, i, i + 1)
    {
      GrownLeaf(g, g', p, q, i);
    }
  }

  lemma GrownLeaf(g: Shape, g': Shape, p: int, q: int, i: int)
    requires LeafLevel(g) && Grown(g, g', p, q) && 0 <= i < |g'.leaves|
    ensures g'.leaves[i] in g'.info && g'.info[g'.leaves[i]] == Info(0, i, i + 1)
  {
    var j := g.info[p].fst;
    var i' := if i <= j then i else i - 1;
    assert g.leaves[i'] in g.info && g.info[g.leaves[i']] == Info(0, i', i' + 1);
    assert g.leaves[j] == p;
  }

  lemma GrownKids(pages: Pages, pages': Pages, g: Shape, g': Shape, p: int, q: int, mid: int, a: int)
    requires Grown(g, g', p, q) && LeafSplit(pages, pages', p, q, mid)
    requires Inner(pages, g, a) && KidsOk(pages, g, Attached, a)
    ensures Inner(pages', g', a) && KidsOk(pages', g', Pending(p, q), a)
  {
    var n := pages[a];
    assert pages'[a].slots == n.slots;
    var x := Pending(p, q);
    var j := g.info[p].fst;
    forall i | 0 <= i < |n.slots|
      ensures Kid(n.slots, i) in g.info && Kid(n.slots, i) in g'.info
      ensures g'.info[Kid(n.slots, i)].fst == Shift(j, g.info[Kid(n.slots, i)].fst)
      ensures Ext(g', x, Kid(n.slots, i)) == Shift(j, g.info[Kid(n.slots, i)].end)
      ensures KidOk(pages', g', x, a, Kid(n.slots, i), i == 0, i == |n.slots| - 1)
    {
      assert KidOk(pages, g, Attached, a, Kid(n.slots, i), i == 0, i == |n.slots| - 1);
    }
  }

  lemma GrownUp(pages: Pages, pages': Pages, root: int, g: Shape, g': Shape, p: int, q: int, mid: int)
    requires Typed(pages, g) && Up(pages, root, g, Attached)
    requires Grown(g, g', p, q) && LeafSplit(pages, pages', p, q, mid)
    ensures Up(pages', root, g', Pending(p, q)) && PendingOk(pages', root, g', Pending(p, q))
  {
    forall r | r in g'.info && r in pages' && r != root && r != q
      ensures Inner(pages', g', pages'[r].parent) && IsKid(pages'[pages'[r].parent].slots, r)
    {
      var a := pages[r].parent;
      assert Inner(pages, g, a) && IsKid(pages[a].slots, r);
      assert pages'[r].parent == a && pages'[a].slots == pages[a].slots;
      var i :| 0 <= i < |pages[a].slots| && Kid(pages[a].slots, i) == r;
      assert Kid(pages'[a].slots, i) == r;
    }
  }

  lemma LeafSplitShaped(pages: Pages, pages': Pages, root: int, g: Shape, g': Shape, p: int, q: int, mid: int)
    requires Shaped(pages, root, g, Attached) && Grown(g, g', p, q) && LeafSplit(pages, pages', p, q, mid)
    ensures Shaped(pages', root, g', Pending(p, q))
  {
    GrownLevels(pages, pages', g, g', p, q, mid);
    GrownUp(pages, pages', root, g, g', p, q, mid);
    forall a | Inner(pages', g', a)
      ensures KidsOk(pages', g', Pending(p, q), a)
    {
      assert Inner(pages, g, a) && KidsOk(pages, g, Attached, a);
      GrownKids(pages, pages', g, g', p, q, mid, a);
    }
  }

  // ------------------------------------------------------------- order

  lemma GrownSorted(pages: Pages, pages': Pages, g: Shape, g': Shape, p: int, q: int, mid: int, i: int)
    requires LeafLevel(g) && LeafOrder(pages, g)
    requires Grown(g, g', p, q) && LeafSplit(pages, pages', p, q, mid)
    requires 0 <= i < |g'.leaves|
    ensures g'.leaves[i] in pages' && Sorted(pages'[g'.leaves[i]].slots)
  {
    var j := g.info[p].fst;
    var i' := if i <= j then i else i - 1;
    assert g.leaves[j] == p;
    assert g.leaves[i'] in pages && Sorted(pages[g.leaves[i']].slots);
  }

  lemma GrownLeafOrder(pages: Pages, pages': Pages, g: Shape, g': Shape, p: int, q: int, mid: int)
    requires LeafLevel(g) && LeafOrder(pages, g)
    requires Grown(g, g', p, q) && LeafSplit(pages, pages', p, q, mid)
    ensures LeafOrder(pages', g')
  {
    forall i | 0 <= i < |g'.leaves|
      ensures g'.leaves[i] in pages' && Sorted(pages'[g'.leaves[i]].slots)
    {
      GrownSorted(pages, pages', g, g', p, q, mid, i);
    }
    forall i, m | 0 <= i < m < |g'.leaves| && g'.leaves[i] in pages' && g'.leaves[m] in pages'
      ensures Precedes(pages'[g'.leaves[i]].slots, pages'[g'.leaves[m]].slots)
    {
      GrownPrecedes(pages, pages', g, g', p, q, mid, i, m);
    }
  }

  lemma GrownPrecedes(pages: Pages, pages': Pages, g: Shape, g': Shape, p: int, q: int, mid: int, i: int, m: int)
    requires LeafLevel(g) && LeafOrder(pages, g)
    requires Grown(g, g', p, q) && LeafSplit(pages, pages', p, q, mid)
    requires 0 <= i < m < |g'.leaves| && g'.leaves[i] in pages' && g'.leaves[m] in pages'
    ensures Precedes(pages'[g'.leaves[i]].slots, pages'[g'.leaves[m]].slots)
  {
    var j := g.info[p].fst;
    var i', m' := if i <= j then i else i - 1, if m <= j then m else m - 1;
    if i' == m' {
      assert g.leaves[j] == p && Sorted(pages[p].slots);
    } else {
      assert Precedes(pages[g.leaves[i']].slots, pages[g.leaves[m']].slots);
      GrownPart(pages, pages', g, g', p, q, mid, i);
      GrownPart(pages, pages', g, g', p, q, mid, m);
      PartPrecedes(pages[g.leaves[i']].slots, pages[g.leaves[m']].slots,
                   pages'[g'.leaves[i]].slots, pages'[g'.leaves[m]].slots);
    }
  }

  /** Each leaf of the grown chain holds part of the leaf it came from. */
  lemma GrownPart(pages: Pages, pages': Pages, g: Shape, g': Shape, p: int, q: int, mid: int, i: int)
    requires LeafLevel(g) && Grown(g, g', p, q) && LeafSplit(pages, pages', p, q, mid)
    requires 0 <= i < |g'.leaves|
    requires forall m :: 0 <= m < |g.leaves| ==> g.leaves[m] in pages
    ensures g'.leaves[i] in pages'
    ensures var s := pages[g.leaves[if i <= g.info[p].fst then i else i - 1]].slots;
            forall e :: e in pages'[g'.leaves[i]].slots ==> e in s
  {
    var j := g.info[p].fst;
    var i' := if i <= j then i else i - 1;
    assert g.leaves[j] == p;
    assert g.leaves[i'] in pages;
    if i' != j {
      assert g.leaves[i'] != p;
      assert SameNode(pages[g.leaves[i']], pages'[g.leaves[i']]);
    }
  }

  lemma GrownAbove(pages: Pages, pages': Pages, g: Shape, g': Shape, p: int, q: int, mid: int, k: int, b: int)
    requires LeafLevel(g) && Grown(g, g', p, q) && LeafSplit(pages, pages', p, q, mid)
    requires forall m :: 0 <= m < |g.leaves| ==> g.leaves[m] in pages
    requires Above(pages, g, k, b)
    ensures Above(pages', g', k, Shift(g.info[p].fst, b))
  {
    var j := g.info[p].fst;
    forall i | 0 <= i < Shift(j, b) && i < |g'.leaves| && g'.leaves[i] in pages'
      ensures AllLess(pages'[g'.leaves[i]].slots, k)
    {
      var i' := if i <= j then i else i - 1;
      assert AllLess(pages[g.leaves[i']].slots, k);
      GrownPart(pages, pages', g, g', p, q, mid, i);
    }
  }

  lemma GrownSeparators(pages: Pages, pages': Pages, g: Shape, g': Shape, p: int, q: int, mid: int)
    requires Typed(pages, g) && LeafLevel(g) && Down(pages, g, Attached) && LeafOrder(pages, g)
    requires Separators(pages, g, NO_PAGE)
    requires Grown(g, g', p, q) && LeafSplit(pages, pages', p, q, mid)
    ensures Separators(pages', g', NO_PAGE)
  {
    forall a, i | Inner(pages', g', a) && 0 <= i < |pages'[a].slots|
      ensures EntryOk(pages', g', NO_PAGE, pages'[a].slots[i])
    {
      assert Inner(pages, g, a) && pages'[a].slots == pages[a].slots;
      KidFacts(pages, g, Attached, a, i);
      var e := pages[a].slots[i];
      assert EntryOk(pages, g, NO_PAGE, e);
      GrownAbove(pages, pages', g, g', p, q, mid, e.key, g.info[e.rid.pageNo].fst);
    }
  }

  /** Splitting a leaf gives a well-formed tree whose new leaf still waits for a parent entry. */
  lemma LeafSplitOrdered(pages: Pages, pages': Pages, root: int, g: Shape, g': Shape, p: int, q: int, mid: int)
    requires Shaped(pages, root, g, Attached) && Ordered(pages, root, g, NO_PAGE)
    requires Grown(g, g', p, q) && LeafSplit(pages, pages', p, q, mid)
    ensures Ordered(pages', root, g', NO_PAGE)
  {
    GrownLeafOrder(pages, pages', g, g', p, q, mid);
    GrownSeparators(pages, pages', g, g', p, q, mid);
  }
}
