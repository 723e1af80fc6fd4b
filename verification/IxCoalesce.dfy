/** Merging a node into its left sibling, and dropping a root with a single child. */
module IxCoalesce {
  import opened Basics
  import opened IxTree
  import opened IxRoute
  import opened IxInsert
  import opened IxAttach
  import opened IxDelete
  import opened IxMerge

  /** `l` takes over the slots of its right sibling `r`, whose entry disappears from the parent. */
  ghost predicate Merged(pages: Pages, pages': Pages, a: int, i: int, l: int, r: int) {
    && a in pages && l in pages && r in pages && l != r && l != a && r != a && 0 <= i < |pages[a].slots| - 1
    && a in pages' && l in pages'
    && pages'[l].slots == pages[l].slots + pages[r].slots && |pages[l].slots| > 0
    && pages'[a].slots == EraseAt(pages[a].slots, i + 1)
    && pages'[a].isLeaf == pages[a].isLeaf && pages'[a].parent == pages[a].parent
    && pages'[l].isLeaf == pages[l].isLeaf && pages'[l].parent == pages[l].parent
  }

  /** Position in the old parent of slot `m` of the new parent. */
  function Skip(i: int, m: int): int { if m <= i then m else m + 1 }

  lemma MergedSlot(pages: Pages, pages': Pages, a: int, i: int, l: int, r: int, m: int)
    requires Merged(pages, pages', a, i, l, r) && 0 <= m < |pages'[a].slots|
    ensures Skip(i, m) < |pages[a].slots| && pages'[a].slots[m] == pages[a].slots[Skip(i, m)]
  {
  }

  lemma MergedKid(pages: Pages, pages': Pages, a: int, i: int, l: int, r: int, c: int)
    requires Merged(pages, pages', a, i, l, r) && IsKid(pages[a].slots, c) && c != Kid(pages[a].slots, i + 1)
    ensures IsKid(pages'[a].slots, c)
  {
    var m :| 0 <= m < |pages[a].slots| && Kid(pages[a].slots, m) == c;
    assert Kid(pages'[a].slots, if m <= i then m else m - 1) == c;
  }

  // ------------------------------------------------------------- inner nodes

  ghost predicate InnerMerge(pages: Pages, pages': Pages, a: int, i: int, l: int, r: int) {
    && Merged(pages, pages', a, i, l, r)
    && (forall p :: p in pages && p !in {a, l, r} ==>
          && p in pages' && pages'[p].isLeaf == pages[p].isLeaf && pages'[p].slots == pages[p].slots
          && pages'[p].parent == if IsKid(pages[r].slots, p) then l else pages[p].parent)
  }

  ghost function InnerMergeShape(g: Shape, l: int, r: int): Shape
    requires l in g.info && r in g.info
  {
    g.(info := (g.info - {r})[l := g.info[l].(end := g.info[r].end)])
  }

  lemma InnerMergeOwnKids(pages: Pages, pages': Pages, root: int, g: Shape, a: int, i: int, l: int, r: int)
    requires Shaped(pages, root, g, Attached) && Siblings(pages, g, a, i, l, r)
    requires l in g.info && r in g.info && g.info[r].lvl > 0 && InnerMerge(pages, pages', a, i, l, r)
    ensures Inner(pages', InnerMergeShape(g, l, r), l) && KidsOk(pages', InnerMergeShape(g, l, r), Attached, l)
  {
    hide Up, LeafLevel, PendingOk, Tiles, KidsOk, Owned;
    SiblingFacts(pages, root, g, a, i, l, r);
    var g' := InnerMergeShape(g, l, r);
    assert KidsOk(pages, g, Attached, l) && KidsOk(pages, g, Attached, r);
    KidsTile(pages, g, l);
    KidsTile(pages, g, r);
    var lo, b, hi, lvl := g.info[l].fst, g.info[r].fst, g.info[r].end, g.info[r].lvl - 1;
    TilesConcat(g, pages[l].slots, pages[r].slots, lo, b, hi, lvl);
    TilesLevel(g, pages'[l].slots, lo, hi, lvl, l, r);
    TilesKept(g, g', pages'[l].slots, lo, hi, lvl);
    MergeOwned(pages, pages', root, g, a, i, l, r);
    TilesAreKids(pages', g', l);
  }

  lemma MergeOwned(pages: Pages, pages': Pages, root: int, g: Shape, a: int, i: int, l: int, r: int)
    requires Shaped(pages, root, g, Attached) && Siblings(pages, g, a, i, l, r)
    requires l in g.info && r in g.info && g.info[r].lvl > 0 && InnerMerge(pages, pages', a, i, l, r)
    ensures Owned(pages', pages'[l].slots, l)
  {
    hide Up, LeafLevel, PendingOk, KidsOk, Down;
    SiblingFacts(pages, root, g, a, i, l, r);
    var s, t, all := pages[l].slots, pages[r].slots, pages'[l].slots;
    forall m | 0 <= m < |all|
      ensures Kid(all, m) in pages' && pages'[Kid(all, m)].parent == l
    {
      var c := Kid(all, m);
      if m < |s| {
        assert c == Kid(s, m);
        KidFacts(pages, g, Attached, l, m);
        NotShifted(pages, g, r, c);
      } else {
        assert c == Kid(t, m - |s|);
        assert IsKid(t, c);
        KidFacts(pages, g, Attached, r, m - |s|);
      }
    }
  }

  lemma InnerMergeParentKids(pages: Pages, pages': Pages, root: int, g: Shape, a: int, i: int, l: int, r: int)
    requires Shaped(pages, root, g, Attached) && Siblings(pages, g, a, i, l, r)
    requires l in g.info && r in g.info && g.info[r].lvl > 0 && InnerMerge(pages, pages', a, i, l, r)
    ensures Inner(pages', InnerMergeShape(g, l, r), a) && KidsOk(pages', InnerMergeShape(g, l, r), Attached, a)
  {
    hide Up, LeafLevel, PendingOk;
    SiblingFacts(pages, root, g, a, i, l, r);
    var g' := InnerMergeShape(g, l, r);
    var s, s' := pages[a].slots, pages'[a].slots;
    forall m | 0 <= m < |s'|
      ensures KidOk(pages', g', Attached, a, Kid(s', m), m == 0, m == |s'| - 1)
    {
      InnerMergeParentKid(pages, pages', root, g, a, i, l, r, m);
    }
    forall m, n | 0 <= m < n < |s'|
      ensures Kid(s', m) in g'.info && Kid(s', n) in g'.info
      ensures g'.info[Kid(s', m)].end <= g'.info[Kid(s', n)].fst
      ensures n == m + 1 ==> g'.info[Kid(s', m)].end == g'.info[Kid(s', n)].fst
    {
      InnerMergeParentKid(pages, pages', root, g, a, i, l, r, m);
      InnerMergeParentKid(pages, pages', root, g, a, i, l, r, n);
      KidPair(pages, g, Attached, a, Skip(i, m), Skip(i, n));
      if m == i { KidPair(pages, g, Attached, a, i + 1, Skip(i, n)); }
    }
  }

  lemma InnerMergeParentKid(pages: Pages, pages': Pages, root: int, g: Shape, a: int, i: int, l: int, r: int, m: int)
    requires Shaped(pages, root, g, Attached) && Siblings(pages, g, a, i, l, r)
    requires l in g.info && r in g.info && g.info[r].lvl > 0 && InnerMerge(pages, pages', a, i, l, r)
    requires 0 <= m < |pages'[a].slots|
    ensures var c, g' := Kid(pages'[a].slots, m), InnerMergeShape(g, l, r);
            && c == Kid(pages[a].slots, Skip(i, m)) && c in g.info && c in g'.info && c != r
            && g'.info[c].fst == g.info[c].fst
            && g'.info[c].end == (if m == i then g.info[r].end else g.info[c].end)
            && KidOk(pages', g', Attached, a, c, m == 0, m == |pages'[a].slots| - 1)
  {
    hide Up, LeafLevel, PendingOk, KidsOk, Down;
    SiblingFacts(pages, root, g, a, i, l, r);
    MergedSlot(pages, pages', a, i, l, r, m);
    var n := Skip(i, m);
    var c := Kid(pages[a].slots, n);
    KidFacts(pages, g, Attached, a, n);
    KidFacts(pages, g, Attached, a, i + 1);
    if n != i { DistinctKids(pages, root, g, a, n, a, i); }
    DistinctKids(pages, root, g, a, n, a, i + 1);
    if n != i {
      NotShifted(pages, g, r, c);
    }
  }

  lemma InnerMergeOtherKids(pages: Pages, pages': Pages, root: int, g: Shape, a: int, i: int, l: int, r: int, q: int)
    requires Shaped(pages, root, g, Attached) && Siblings(pages, g, a, i, l, r)
    requires l in g.info && r in g.info && g.info[r].lvl > 0 && InnerMerge(pages, pages', a, i, l, r)
    requires Inner(pages, g, q) && q !in {a, l, r}
    ensures Inner(pages', InnerMergeShape(g, l, r), q) && KidsOk(pages', InnerMergeShape(g, l, r), Attached, q)
  {
    hide Up, LeafLevel, PendingOk;
    SiblingFacts(pages, root, g, a, i, l, r);
    var g' := InnerMergeShape(g, l, r);
    var s := pages[q].slots;
    assert KidsOk(pages, g, Attached, q);
    forall m | 0 <= m < |s|
      ensures Kid(s, m) in g.info && Kid(s, m) != l && Kid(s, m) != r
      ensures KidOk(pages', g', Attached, q, Kid(s, m), m == 0, m == |s| - 1)
    {
      KidFacts(pages, g, Attached, q, m);
      NotShifted(pages, g, r, Kid(s, m));
    }
  }

  lemma InnerMergeUp(pages: Pages, pages': Pages, root: int, g: Shape, a: int, i: int, l: int, r: int)
    requires Shaped(pages, root, g, Attached) && Siblings(pages, g, a, i, l, r)
    requires l in g.info && r in g.info && g.info[r].lvl > 0 && InnerMerge(pages, pages', a, i, l, r)
    ensures Up(pages', root, InnerMergeShape(g, l, r), Attached)
  {
    hide LeafLevel, PendingOk, KidsOk, Down;
    SiblingFacts(pages, root, g, a, i, l, r);
    var g' := InnerMergeShape(g, l, r);
    NotShifted(pages, g, r, root);
    forall p | p in g'.info && p in pages' && p != root
      ensures Inner(pages', g', pages'[p].parent) && IsKid(pages'[pages'[p].parent].slots, p)
    {
      assert Inner(pages, g, pages[p].parent) && IsKid(pages[pages[p].parent].slots, p);
      InnerMergeParent(pages, pages', g, a, i, l, r, p);
    }
  }

  lemma InnerMergeParent(pages: Pages, pages': Pages, g: Shape, a: int, i: int, l: int, r: int, p: int)
    requires Typed(pages, g) && Down(pages, g, Attached) && Inner(pages, g, a) && Inner(pages, g, l)
    requires Inner(pages, g, r)
    requires InnerMerge(pages, pages', a, i, l, r) && Kid(pages[a].slots, i + 1) == r
    requires pages[l].parent == a && pages[r].parent == a
    requires g.info[l].lvl < g.info[a].lvl && g.info[r].lvl < g.info[a].lvl
    requires p in g.info && p in pages && p != r && Inner(pages, g, pages[p].parent)
    requires IsKid(pages[pages[p].parent].slots, p)
    ensures var g' := InnerMergeShape(g, l, r);
            p in pages' && Inner(pages', g', pages'[p].parent) && IsKid(pages'[pages'[p].parent].slots, p)
  {
    hide Down, KidsOk, Typed;
    var b := pages[p].parent;
    KidConcat(pages[l].slots, pages[r].slots, p);
    if b == r {
      assert p != a by { if p == a { Cycle(pages, g, b, p); } }
    } else {
      NotShifted(pages, g, r, p);
      assert pages'[p].parent == b;
      if b == a {
        MergedKid(pages, pages', a, i, l, r, p);
      }
    }
  }

  lemma InnerMergeLevels(pages: Pages, pages': Pages, root: int, g: Shape, a: int, i: int, l: int, r: int)
    requires Shaped(pages, root, g, Attached) && Siblings(pages, g, a, i, l, r)
    requires l in g.info && r in g.info && g.info[r].lvl > 0 && InnerMerge(pages, pages', a, i, l, r)
    ensures Typed(pages', InnerMergeShape(g, l, r)) && LeafLevel(InnerMergeShape(g, l, r))
  {
    hide Down, KidsOk, Up, PendingOk;
    SiblingFacts(pages, root, g, a, i, l, r);
  }

  lemma InnerMergeShaped(pages: Pages, pages': Pages, root: int, g: Shape, a: int, i: int, l: int, r: int)
    requires Shaped(pages, root, g, Attached) && Siblings(pages, g, a, i, l, r)
    requires l in g.info && r in g.info && g.info[r].lvl > 0 && InnerMerge(pages, pages', a, i, l, r)
    ensures Shaped(pages', root, InnerMergeShape(g, l, r), Attached)
  {
    hide KidsOk, Up, Typed, LeafLevel, Siblings;
    InnerMergeLevels(pages, pages', root, g, a, i, l, r);
    InnerMergeUp(pages, pages', root, g, a, i, l, r);
    var g' := InnerMergeShape(g, l, r);
    forall q | Inner(pages', g', q)
      ensures KidsOk(pages', g', Attached, q)
    {
      if q == a {
        InnerMergeParentKids(pages, pages', root, g, a, i, l, r);
      } else if q == l {
        InnerMergeOwnKids(pages, pages', root, g, a, i, l, r);
      } else {
        assert Inner(pages, g, q) by { TypedPage(pages, g, q); }
        InnerMergeOtherKids(pages, pages', root, g, a, i, l, r, q);
      }
    }
  }

  lemma InnerMergeEntry(
      pages: Pages, pages': Pages, root: int, g: Shape, a: int, i: int, l: int, r: int, q: int, m: int)
    requires Shaped(pages, root, g, Attached) && Separators(pages, g, NO_PAGE) && Siblings(pages, g, a, i, l, r)
    requires l in g.info && r in g.info && g.info[r].lvl > 0 && InnerMerge(pages, pages', a, i, l, r)
    requires LeavesKept(pages, pages', g)
    requires Inner(pages', InnerMergeShape(g, l, r), q) && 0 <= m < |pages'[q].slots|
    ensures EntryOk(pages', InnerMergeShape(g, l, r), NO_PAGE, pages'[q].slots[m])
  {
    hide Up, LeafLevel, PendingOk, KidsOk, LeavesKept, Down;
    SiblingFacts(pages, root, g, a, i, l, r);
    var g' := InnerMergeShape(g, l, r);
    var e := pages'[q].slots[m];
    var s := pages[l].slots;
    var q', m' := q, m;
    if q == a {
      MergedSlot(pages, pages', a, i, l, r, m);
      m' := Skip(i, m);
    } else if q == l && m >= |s| {
      q', m' := r, m - |s|;
    }
    assert Inner(pages, g, q') && e == pages[q'].slots[m'];
    assert EntryOk(pages, g, NO_PAGE, e);
    KidFacts(pages, g, Attached, q', m');
    if Kid(pages[q'].slots, m') == r {
      OnlyEntry(pages, root, g, a, i + 1, q', m');
    }
    EntryKept(pages, pages', g, g', NO_PAGE, e);
  }

  /** Merging inner siblings keeps the tree well formed. */
  lemma InnerMergeOrdered(pages: Pages, pages': Pages, root: int, g: Shape, a: int, i: int, l: int, r: int)
    requires Shaped(pages, root, g, Attached) && Ordered(pages, root, g, NO_PAGE) && Siblings(pages, g, a, i, l, r)
    requires l in g.info && r in g.info && g.info[r].lvl > 0 && InnerMerge(pages, pages', a, i, l, r)
    ensures LeavesKept(pages, pages', g) && Ordered(pages', root, InnerMergeShape(g, l, r), NO_PAGE)
  {
    hide Up, PendingOk, KidsOk, LeafOrder, Down, EntryOk;
    SiblingFacts(pages, root, g, a, i, l, r);
    var g' := InnerMergeShape(g, l, r);
    InnerMergeLeaves(pages, pages', g, a, i, l, r);
    SameLeavesOrder(pages, pages', g, g');
    forall q, m | Inner(pages', g', q) && 0 <= m < |pages'[q].slots|
      ensures EntryOk(pages', g', NO_PAGE, pages'[q].slots[m])
    {
      InnerMergeEntry(pages, pages', root, g, a, i, l, r, q, m);
    }
  }

  lemma InnerMergeLeaves(pages: Pages, pages': Pages, g: Shape, a: int, i: int, l: int, r: int)
    requires Typed(pages, g) && LeafLevel(g) && Inner(pages, g, a) && Inner(pages, g, l) && Inner(pages, g, r)
    requires InnerMerge(pages, pages', a, i, l, r)
    ensures LeavesKept(pages, pages', g)
  {
    forall j | 0 <= j < |g.leaves|
      ensures g.leaves[j] in pages && g.leaves[j] in pages' && pages'[g.leaves[j]].slots == pages[g.leaves[j]].slots
    {
      var c := g.leaves[j];
      assert c in g.info && g.info[c].lvl == 0;
    }
  }
}
