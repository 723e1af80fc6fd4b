/** Merging two sibling leaves removes one leaf from the chain; a root with one child is dropped. */
module IxPrune {
  import opened Basics
  import opened IxTree
  import opened IxRoute
  import opened IxInsert
  import opened IxDelete
  import opened IxMerge
  import opened IxCoalesce

  ghost predicate LeafMerge(pages: Pages, pages': Pages, a: int, i: int, l: int, r: int) {
    Merged(pages, pages', a, i, l, r) && Agree(pages, pages', {a, l, r})
  }

  /** A boundary position after leaf `j + 1` is removed. */
  function Unshift(j: int, b: int): int {
    if b > j + 1 then b - 1 else b
  }

  ghost function LeafMergeShape(g: Shape, l: int, r: int): Shape
    requires l in g.info && r in g.info && g.info[l].fst + 2 <= |g.leaves|
  {
    var j := g.info[l].fst;
    Shape(map q | q in g.info && q != r :: Info(g.info[q].lvl, Unshift(j, g.info[q].fst), Unshift(j, g.info[q].end)),
          g.leaves[..j + 1] + g.leaves[j + 2..])
  }

  /** `g'` is `g` without the leaf at `j + 1`. */
  ghost predicate Pruned(g: Shape, g': Shape, j: int, l: int, r: int) {
    && AdjacentLeaves(g, j, l, r)
    && |g'.leaves| == |g.leaves| - 1
    && (forall m :: 0 <= m < |g'.leaves| ==> g'.leaves[m] == g.leaves[Skip(j, m)])
    && (forall q :: q in g'.info <==> q in g.info && q != r)
    && (forall q :: q in g'.info ==>
          g'.info[q] == Info(g.info[q].lvl, Unshift(j, g.info[q].fst), Unshift(j, g.info[q].end)))
    && (forall q :: q in g.info && q != r ==> g.info[q].fst != j + 1)
  }

  lemma LeafMergeShapePruned(pages: Pages, root: int, g: Shape, a: int, i: int, l: int, r: int)
    requires Shaped(pages, root, g, Attached) && Siblings(pages, g, a, i, l, r) && r in g.info && g.info[r].lvl == 0
    ensures l in g.info && g.info[l].fst + 2 <= |g.leaves|
    ensures Pruned(g, LeafMergeShape(g, l, r), g.info[l].fst, l, r)
  {
    hide KidsOk, Down, Up, PendingOk, LeafLevel, Typed;
    SiblingLeaves(pages, root, g, a, i, l, r);
    forall q | q in g.info && q != r
      ensures g.info[q].fst != g.info[l].fst + 1
    {
      if g.info[q].fst == g.info[l].fst + 1 {
        StartsBelow(pages, root, g, a, i, l, r, q);
      }
    }
  }

  // ------------------------------------------------------------- shape

  lemma PrunedLevels(pages: Pages, pages': Pages, g: Shape, g': Shape, j: int, a: int, i: int, l: int, r: int)
    requires Typed(pages, g) && LeafLevel(g) && Pruned(g, g', j, l, r) && LeafMerge(pages, pages', a, i, l, r)
    ensures Typed(pages', g') && LeafLevel(g')
  {
    forall m | 0 <= m < |g'.leaves|
      ensures g'.leaves[m] in g'.info && g'.info[g'.leaves[m]] == Info(0, m, m + 1)
    {
      var c := g.leaves[Skip(j, m)];
      assert c in g.info && g.info[c] == Info(0, Skip(j, m), Skip(j, m) + 1);
    }
    forall p | p in g'.info
      ensures p in pages' && p >= 2 && (pages'[p].isLeaf <==> g'.info[p].lvl == 0)
      ensures g'.info[p].fst < g'.info[p].end <= |g'.leaves|
      ensures g'.info[p].lvl == 0 ==> g'.leaves[g'.info[p].fst] == p
    {
      assert p in g.info && g.info[p].fst != j + 1;
    }
  }

  lemma PrunedOtherKids(
      pages: Pages, pages': Pages, g: Shape, g': Shape, j: int, a: int, i: int, l: int, r: int, q: int)
    requires Pruned(g, g', j, l, r) && LeafMerge(pages, pages', a, i, l, r)
    requires Inner(pages, g, q) && KidsOk(pages, g, Attached, q) && q != a && pages[r].parent == a
    ensures Inner(pages', g', q) && KidsOk(pages', g', Attached, q)
  {
    var s := pages[q].slots;
    assert q != l && q != r;
    assert pages'[q].slots == s;
    forall m | 0 <= m < |s|
      ensures Kid(s, m) in g.info && Kid(s, m) in g'.info
      ensures g'.info[Kid(s, m)].fst == Unshift(j, g.info[Kid(s, m)].fst)
      ensures g'.info[Kid(s, m)].end == Unshift(j, g.info[Kid(s, m)].end)
      ensures KidOk(pages', g', Attached, q, Kid(s, m), m == 0, m == |s| - 1)
    {
      assert KidOk(pages, g, Attached, q, Kid(s, m), m == 0, m == |s| - 1);
    }
  }

  lemma PrunedParentKid(
      pages: Pages, pages': Pages, root: int, g: Shape, g': Shape, j: int, a: int, i: int, l: int, r: int, m: int)
    requires Shaped(pages, root, g, Attached) && Siblings(pages, g, a, i, l, r)
    requires Pruned(g, g', j, l, r) && LeafMerge(pages, pages', a, i, l, r) && 0 <= m < |pages'[a].slots|
    ensures var c := Kid(pages'[a].slots, m);
            && c == Kid(pages[a].slots, Skip(i, m)) && c in g.info && c in g'.info
            && KidOk(pages', g', Attached, a, c, m == 0, m == |pages'[a].slots| - 1)
  {
    hide Up, LeafLevel, PendingOk, KidsOk, Down;
    SiblingFacts(pages, root, g, a, i, l, r);
    MergedSlot(pages, pages', a, i, l, r, m);
    var n := Skip(i, m);
    KidFacts(pages, g, Attached, a, n);
    KidFacts(pages, g, Attached, a, i + 1);
    DistinctKids(pages, root, g, a, n, a, i + 1);
  }

  lemma PrunedParentKids(
      pages: Pages, pages': Pages, root: int, g: Shape, g': Shape, j: int, a: int, i: int, l: int, r: int)
    requires Shaped(pages, root, g, Attached) && Siblings(pages, g, a, i, l, r)
    requires Pruned(g, g', j, l, r) && LeafMerge(pages, pages', a, i, l, r)
    ensures Inner(pages', g', a) && KidsOk(pages', g', Attached, a)
  {
    hide Up, LeafLevel, PendingOk, Down;
    SiblingFacts(pages, root, g, a, i, l, r);
    var s' := pages'[a].slots;
    forall m | 0 <= m < |s'|
      ensures KidOk(pages', g', Attached, a, Kid(s', m), m == 0, m == |s'| - 1)
    {
      PrunedParentKid(pages, pages', root, g, g', j, a, i, l, r, m);
    }
    forall m, n | 0 <= m < n < |s'|
      ensures Kid(s', m) in g'.info && Kid(s', n) in g'.info
      ensures g'.info[Kid(s', m)].end <= g'.info[Kid(s', n)].fst
      ensures n == m + 1 ==> g'.info[Kid(s', m)].end == g'.info[Kid(s', n)].fst
    {
      PrunedParentKid(pages, pages', root, g, g', j, a, i, l, r, m);
      PrunedParentKid(pages, pages', root, g, g', j, a, i, l, r, n);
      KidPair(pages, g, Attached, a, Skip(i, m), Skip(i, n));
      if m == i { KidPair(pages, g, Attached, a, i + 1, Skip(i, n)); }
    }
  }

  lemma PrunedUp(pages: Pages, pages': Pages, root: int, g: Shape, g': Shape, j: int, a: int, i: int, l: int, r: int)
    requires Shaped(pages, root, g, Attached) && Siblings(pages, g, a, i, l, r)
    requires Pruned(g, g', j, l, r) && LeafMerge(pages, pages', a, i, l, r)
    ensures Up(pages', root, g', Attached)
  {
    hide LeafLevel, PendingOk, KidsOk, Down;
    SiblingFacts(pages, root, g, a, i, l, r);
    forall p | p in g'.info && p in pages' && p != root
      ensures Inner(pages', g', pages'[p].parent) && IsKid(pages'[pages'[p].parent].slots, p)
    {
      assert Inner(pages, g, pages[p].parent) && IsKid(pages[pages[p].parent].slots, p);
      PrunedParent(pages, pages', g, g', j, a, i, l, r, p);
    }
  }

  lemma PrunedParent(pages: Pages, pages': Pages, g: Shape, g': Shape, j: int, a: int, i: int, l: int, r: int, p: int)
    requires Pruned(g, g', j, l, r) && LeafMerge(pages, pages', a, i, l, r) && Kid(pages[a].slots, i + 1) == r
    requires p in g'.info && p in pages && Inner(pages, g, pages[p].parent) && IsKid(pages[pages[p].parent].slots, p)
    ensures p in pages' && Inner(pages', g', pages'[p].parent) && IsKid(pages'[pages'[p].parent].slots, p)
  {
    hide IsKid;
    var b := pages[p].parent;
    assert b != l && b != r;
    if b == a {
      MergedKid(pages, pages', a, i, l, r, p);
    }
  }

  lemma LeafMergeShaped(
      pages: Pages, pages': Pages, root: int, g: Shape, g': Shape, j: int, a: int, i: int, l: int, r: int)
    requires Shaped(pages, root, g, Attached) && Siblings(pages, g, a, i, l, r)
    requires Pruned(g, g', j, l, r) && LeafMerge(pages, pages', a, i, l, r)
    ensures Shaped(pages', root, g', Attached)
  {
    hide KidsOk, Up, LeafLevel, LeafMerge;
    SiblingFacts(pages, root, g, a, i, l, r);
    PrunedLevels(pages, pages', g, g', j, a, i, l, r);
    PrunedUp(pages, pages', root, g, g', j, a, i, l, r);
    forall q | Inner(pages', g', q)
      ensures KidsOk(pages', g', Attached, q)
    {
      if q == a {
        PrunedParentKids(pages, pages', root, g, g', j, a, i, l, r);
      } else {
        assert Inner(pages, g, q) && KidsOk(pages, g, Attached, q);
        PrunedOtherKids(pages, pages', g, g', j, a, i, l, r, q);
      }
    }
  }

  // ------------------------------------------------------------- order

  /** The merged chain: leaf `j` holds the union, the others are as before. */
  lemma PrunedLeaf(pages: Pages, pages': Pages, g: Shape, g': Shape, j: int, a: int, i: int, l: int, r: int, m: int)
    requires Typed(pages, g) && LeafLevel(g) && LeafOrder(pages, g) && Inner(pages, g, a)
    requires Pruned(g, g', j, l, r) && LeafMerge(pages, pages', a, i, l, r) && 0 <= m < |g'.leaves|
    ensures g'.leaves[m] in pages' && Sorted(pages'[g'.leaves[m]].slots)
    ensures m == j ==> pages'[g'.leaves[m]].slots == pages[l].slots + pages[r].slots
    ensures m != j ==> g.leaves[Skip(j, m)] in pages && pages'[g'.leaves[m]].slots == pages[g.leaves[Skip(j, m)]].slots
  {
    var c := g.leaves[Skip(j, m)];
    assert c in g.info && g.info[c] == Info(0, Skip(j, m), Skip(j, m) + 1);
    assert Sorted(pages[g.leaves[Skip(j, m)]].slots);
    assert Sorted(pages[g.leaves[j]].slots) && Sorted(pages[g.leaves[j + 1]].slots);
    assert Precedes(pages[g.leaves[j]].slots, pages[g.leaves[j + 1]].slots);
  }

  lemma PrunedPrecedes(
      pages: Pages, pages': Pages, g: Shape, g': Shape, j: int, a: int, i: int, l: int, r: int, m: int, n: int)
    requires Typed(pages, g) && LeafLevel(g) && LeafOrder(pages, g) && Inner(pages, g, a)
    requires Pruned(g, g', j, l, r) && LeafMerge(pages, pages', a, i, l, r)
    requires 0 <= m < n < |g'.leaves| && g'.leaves[m] in pages' && g'.leaves[n] in pages'
    ensures Precedes(pages'[g'.leaves[m]].slots, pages'[g'.leaves[n]].slots)
  {
    hide Typed, LeafLevel, LeafMerge;
    PrunedLeaf(pages, pages', g, g', j, a, i, l, r, m);
    PrunedLeaf(pages, pages', g, g', j, a, i, l, r, n);
    assert Precedes(pages[g.leaves[Skip(j, m)]].slots, pages[g.leaves[Skip(j, n)]].slots);
    if m == j {
      assert Precedes(pages[g.leaves[j + 1]].slots, pages[g.leaves[Skip(j, n)]].slots);
    } else if n == j {
      assert Precedes(pages[g.leaves[m]].slots, pages[g.leaves[j + 1]].slots);
    }
  }

  lemma PrunedLeafOrder(pages: Pages, pages': Pages, g: Shape, g': Shape, j: int, a: int, i: int, l: int, r: int)
    requires Typed(pages, g) && LeafLevel(g) && LeafOrder(pages, g) && Inner(pages, g, a)
    requires Pruned(g, g', j, l, r) && LeafMerge(pages, pages', a, i, l, r)
    ensures LeafOrder(pages', g')
  {
    hide Typed, LeafLevel, LeafMerge, Pruned;
    forall m | 0 <= m < |g'.leaves|
      ensures g'.leaves[m] in pages' && Sorted(pages'[g'.leaves[m]].slots)
    {
      PrunedLeaf(pages, pages', g, g', j, a, i, l, r, m);
    }
    forall m, n | 0 <= m < n < |g'.leaves| && g'.leaves[m] in pages' && g'.leaves[n] in pages'
      ensures Precedes(pages'[g'.leaves[m]].slots, pages'[g'.leaves[n]].slots)
    {
      PrunedPrecedes(pages, pages', g, g', j, a, i, l, r, m, n);
    }
  }

  lemma PrunedAbove(
      pages: Pages, pages': Pages, g: Shape, g': Shape, j: int, a: int, i: int, l: int, r: int, k: int, b: int)
    requires Typed(pages, g) && LeafLevel(g) && LeafOrder(pages, g) && Inner(pages, g, a)
    requires Pruned(g, g', j, l, r) && LeafMerge(pages, pages', a, i, l, r)
    requires Above(pages, g, k, b) && b != j + 1
    ensures Above(pages', g', k, Unshift(j, b))
  {
    forall m | 0 <= m < Unshift(j, b) && m < |g'.leaves| && g'.leaves[m] in pages'
      ensures AllLess(pages'[g'.leaves[m]].slots, k)
    {
      PrunedLeaf(pages, pages', g, g', j, a, i, l, r, m);
      assert AllLess(pages[g.leaves[Skip(j, m)]].slots, k);
      if m == j {
        assert AllLess(pages[g.leaves[j + 1]].slots, k);
      }
    }
  }

  lemma PrunedEntry(
      pages: Pages, pages': Pages, root: int, g: Shape, g': Shape, j: int, a: int, i: int, l: int, r: int, q: int,
      m: int)
    requires Shaped(pages, root, g, Attached) && Ordered(pages, root, g, NO_PAGE) && Siblings(pages, g, a, i, l, r)
    requires Pruned(g, g', j, l, r) && LeafMerge(pages, pages', a, i, l, r)
    requires Inner(pages', g', q) && 0 <= m < |pages'[q].slots|
    ensures EntryOk(pages', g', NO_PAGE, pages'[q].slots[m])
  {
    hide Up, PendingOk, KidsOk, Down, LeafOrder, Above;
    SiblingFacts(pages, root, g, a, i, l, r);
    var e := pages'[q].slots[m];
    var n := if q == a then Skip(i, m) else m;
    if q == a { MergedSlot(pages, pages', a, i, l, r, m); }
    assert Inner(pages, g, q) && e == pages[q].slots[n];
    assert EntryOk(pages, g, NO_PAGE, e);
    KidFacts(pages, g, Attached, q, n);
    var c := Kid(pages[q].slots, n);
    if c == r {
      OnlyEntry(pages, root, g, a, i + 1, q, n);
    }
    assert c in g'.info;
    PrunedAbove(pages, pages', g, g', j, a, i, l, r, e.key, g.info[c].fst);
    assert c in pages' && |pages'[c].slots| > 0 ==> |pages[c].slots| > 0 && pages'[c].slots[0] == pages[c].slots[0];
  }

  /** Merging sibling leaves keeps the tree well formed. */
  lemma LeafMergeOrdered(
      pages: Pages, pages': Pages, root: int, g: Shape, g': Shape, j: int, a: int, i: int, l: int, r: int)
    requires Shaped(pages, root, g, Attached) && Ordered(pages, root, g, NO_PAGE) && Siblings(pages, g, a, i, l, r)
    requires Pruned(g, g', j, l, r) && LeafMerge(pages, pages', a, i, l, r)
    ensures Ordered(pages', root, g', NO_PAGE)
  {
    hide Up, PendingOk, KidsOk, LeafOrder, Down, EntryOk, LeafLevel;
    PrunedLeafOrder(pages, pages', g, g', j, a, i, l, r);
    forall q, m | Inner(pages', g', q) && 0 <= m < |pages'[q].slots|
      ensures EntryOk(pages', g', NO_PAGE, pages'[q].slots[m])
    {
      PrunedEntry(pages, pages', root, g, g', j, a, i, l, r, q, m);
    }
  }

  // ------------------------------------------------------------- dropping the root

  ghost predicate DropRoot(pages: Pages, pages': Pages, root: int, c: int) {
    && root in pages && |pages[root].slots| == 1 && Kid(pages[root].slots, 0) == c && c in pages && c != root
    && pages' == pages[c := pages[c].(parent := NO_PAGE)]
  }

  lemma DropRootShaped(pages: Pages, pages': Pages, root: int, g: Shape, c: int)
    requires Shaped(pages, root, g, Attached) && Inner(pages, g, root) && DropRoot(pages, pages', root, c)
    ensures Shaped(pages', c, g.(info := g.info - {root}), Attached)
  {
    KidFacts(pages, g, Attached, root, 0);
    DropRootUp(pages, pages', root, g, c);
    forall q | Inner(pages', g.(info := g.info - {root}), q)
      ensures KidsOk(pages', g.(info := g.info - {root}), Attached, q)
    {
      DropRootKids(pages, pages', root, g, c, q);
    }
  }

  lemma DropRootKids(pages: Pages, pages': Pages, root: int, g: Shape, c: int, q: int)
    requires Shaped(pages, root, g, Attached) && Inner(pages, g, root) && DropRoot(pages, pages', root, c)
    requires Inner(pages, g, q) && q != root
    ensures var g' := g.(info := g.info - {root});
            Inner(pages', g', q) && KidsOk(pages', g', Attached, q)
  {
    hide LeafLevel, PendingOk;
    var g' := g.(info := g.info - {root});
    var s := pages[q].slots;
    assert KidsOk(pages, g, Attached, q);
    KidFacts(pages, g, Attached, root, 0);
    forall m | 0 <= m < |s|
      ensures Kid(s, m) in g.info && Kid(s, m) != root && Kid(s, m) != c
      ensures KidOk(pages', g', Attached, q, Kid(s, m), m == 0, m == |s| - 1)
    {
      KidFacts(pages, g, Attached, q, m);
      DistinctKids(pages, root, g, q, m, root, 0);
    }
  }

  lemma DropRootUp(pages: Pages, pages': Pages, root: int, g: Shape, c: int)
    requires Shaped(pages, root, g, Attached) && Inner(pages, g, root) && DropRoot(pages, pages', root, c)
    ensures Up(pages', c, g.(info := g.info - {root}), Attached)
  {
    hide LeafLevel, PendingOk;
    var g' := g.(info := g.info - {root});
    KidFacts(pages, g, Attached, root, 0);
    forall p | p in g'.info && p in pages' && p != c
      ensures g'.info[p].lvl <= g'.info[c].lvl
      ensures Inner(pages', g', pages'[p].parent) && IsKid(pages'[pages'[p].parent].slots, p)
    {
      var b := pages[p].parent;
      assert Inner(pages, g, b) && IsKid(pages[b].slots, p);
      NotRoot(pages, root, g, p);
      var m :| 0 <= m < |pages[b].slots| && Kid(pages[b].slots, m) == p;
    }
  }

  lemma DropRootOrdered(pages: Pages, pages': Pages, root: int, g: Shape, c: int)
    requires Shaped(pages, root, g, Attached) && Ordered(pages, root, g, NO_PAGE)
    requires Inner(pages, g, root) && DropRoot(pages, pages', root, c)
    ensures Ordered(pages', c, g.(info := g.info - {root}), NO_PAGE)
    ensures LeavesKept(pages, pages', g)
  {
    hide Up, PendingOk, KidsOk, Down;
    var g' := g.(info := g.info - {root});
    forall j | 0 <= j < |g.leaves|
      ensures g.leaves[j] in pages && g.leaves[j] in pages' && pages'[g.leaves[j]].slots == pages[g.leaves[j]].slots
    {
      var p := g.leaves[j];
      assert p in g.info;
    }
    SameLeavesOrder(pages, pages', g, g');
    forall q, m | Inner(pages', g', q) && 0 <= m < |pages'[q].slots|
      ensures EntryOk(pages', g', NO_PAGE, pages'[q].slots[m])
    {
      assert Inner(pages, g, q) && pages'[q].slots == pages[q].slots;
      var e := pages[q].slots[m];
      assert EntryOk(pages, g, NO_PAGE, e);
      EntryKept(pages, pages', g, g', NO_PAGE, e);
    }
  }
}
