/** Redistribution and merging as steps between sound trees: sizes, leaf ring and chain contents. */
module IxRebalance {
  import opened Basics
  import opened IxTree
  import opened IxRoute
  import opened IxInsert
  import opened IxDelete
  import opened IxMerge
  import opened IxCoalesce
  import opened IxPrune
  import opened IxChain

  /** Node sizes. `over` may hold one slot too many, `under` one too few. */
  ghost predicate Sized(order: int, pages: Pages, root: int, g: Shape, over: int, under: int) {
    forall p :: p in g.info && p in pages ==>
      && (|pages[p].slots| <= order - 1 || (p == over && |pages[p].slots| == order))
      && (p != root ==> |pages[p].slots| >= order / 2 || (p == under && |pages[p].slots| == order / 2 - 1))
      && (p == root && g.info[p].lvl > 0 ==> |pages[p].slots| >= 2 || (p == under && |pages[p].slots| == 1))
  }

  /** A well-formed tree, up to a pending split, one low separator, and one node with a slot
      too many or too few. */
  ghost predicate Sound(order: int, pages: Pages, root: int, g: Shape, x: Orphan, low: int, over: int, under: int) {
    && order >= 4
    && Shaped(pages, root, g, x) && Ordered(pages, root, g, low) && Sized(order, pages, root, g, over, under)
    && Ring(pages, g.leaves)
  }

  ghost predicate Balanced(order: int, pages': Pages, l: int, r: int) {
    && l in pages' && r in pages'
    && order / 2 <= |pages'[l].slots| <= order - 1 && order / 2 <= |pages'[r].slots| <= order - 1
  }

  // ------------------------------------------------------------- redistribution

  lemma {:induction false} LeafShiftSized(
      order: int, pages: Pages, pages': Pages, root: int, g: Shape, a: int, i: int, l: int, r: int, node: int)
    requires Sized(order, pages, root, g, NO_PAGE, node) && LeafShift(pages, pages', a, i, l, r)
    requires Balanced(order, pages', l, r)
    requires (node == l || node == r) && l != root && r != root && Typed(pages, g)
    ensures Sized(order, pages', root, g, NO_PAGE, NO_PAGE)
  {
    assert |pages'[a].slots| == |pages[a].slots|;
  }

  lemma {:induction false} InnerShiftSized(
      order: int, pages: Pages, pages': Pages, root: int, g: Shape, a: int, i: int, l: int, r: int, node: int)
    requires Sized(order, pages, root, g, NO_PAGE, node) && InnerShift(pages, pages', a, i, l, r)
    requires Balanced(order, pages', l, r)
    requires (node == l || node == r) && l != root && r != root && Typed(pages, g)
    requires l in g.info && r in g.info && Kid(pages'[r].slots, 0) in g.info
    ensures Sized(order, pages', root, InnerShiftShape(pages', g, l, r), NO_PAGE, NO_PAGE)
  {
    assert |pages'[a].slots| == |pages[a].slots|;
  }

  lemma {:induction false} PairChain(pages: Pages, pages': Pages, leaves: seq<int>, j: int, l: int, r: int)
    requires Stored(pages, leaves) && Stored(pages', leaves)
    requires 0 <= j < |leaves| - 1 && leaves[j] == l && leaves[j + 1] == r
    requires pages'[l].slots + pages'[r].slots == pages[l].slots + pages[r].slots
    requires forall m :: 0 <= m < |leaves| && m != j && m != j + 1 ==> pages'[leaves[m]].slots == pages[leaves[m]].slots
    ensures Chain(pages', leaves) == Chain(pages, leaves)
  {
    var a, b := leaves[..j], leaves[j + 2..];
    assert leaves == a + [l, r] + b;
    ChainTwo(pages, l, r);
    ChainTwo(pages', l, r);
    ChainReplace(pages, pages', a, [l, r], [l, r], b);
  }

  lemma {:induction false} LeafShiftChain(pages: Pages, pages': Pages, g: Shape, a: int, i: int, l: int, r: int)
    requires Typed(pages, g) && LeafLevel(g) && LeafOrder(pages, g) && Inner(pages, g, a) && Ring(pages, g.leaves)
    requires l in g.info && AdjacentLeaves(g, g.info[l].fst, l, r) && LeafShift(pages, pages', a, i, l, r)
    ensures Stored(pages', g.leaves) && Chain(pages', g.leaves) == Chain(pages, g.leaves)
  {
    hide Chain;
    var j := g.info[l].fst;
    forall m | 0 <= m < |g.leaves|
      ensures g.leaves[m] in pages'
      ensures m != j && m != j + 1 ==> pages'[g.leaves[m]].slots == pages[g.leaves[m]].slots
    {
      LeafShiftPart(pages, pages', g, a, i, l, r, j, m);
    }
    PairChain(pages, pages', g.leaves, j, l, r);
  }

  /** Redistribution between leaves repairs an underfull leaf. */
  lemma {:induction false} LeafShiftSound(
      order: int, pages: Pages, pages': Pages, root: int, g: Shape, a: int, i: int, l: int, r: int, node: int)
    requires Sound(order, pages, root, g, Attached, NO_PAGE, NO_PAGE, node) && (node == l || node == r)
    requires Siblings(pages, g, a, i, l, r) && r in g.info && g.info[r].lvl == 0
    requires LeafShift(pages, pages', a, i, l, r) && SameLinks(pages, pages') && Balanced(order, pages', l, r)
    ensures Sound(order, pages', root, g, Attached, NO_PAGE, NO_PAGE, NO_PAGE)
    ensures Stored(pages, g.leaves) && Chain(pages', g.leaves) == Chain(pages, g.leaves)
  {
    hide KidsOk, Up, Down, EntryOk, LeafOrder, LeafLevel, Sized, Typed, Ring, SameLinks, Balanced, Chain,
         AdjacentLeaves, LeafShift, Separators, PendingOk;
    SiblingFacts(pages, root, g, a, i, l, r);
    SiblingLeaves(pages, root, g, a, i, l, r);
    LeafShiftOrdered(pages, pages', root, g, a, i, l, r);
    LeafShiftSized(order, pages, pages', root, g, a, i, l, r, node);
    RingKept(pages, pages', g.leaves);
    LeafShiftChain(pages, pages', g, a, i, l, r);
    RingStored(pages, g.leaves);
  }

  lemma {:induction false} RingStored(pages: Pages, leaves: seq<int>)
    requires Ring(pages, leaves)
    ensures Stored(pages, leaves)
  {
  }

  lemma {:induction false} RingDistinct(pages: Pages, leaves: seq<int>)
    requires Ring(pages, leaves)
    ensures forall i, j :: 0 <= i < j < |leaves| ==> leaves[i] != leaves[j]
  {
  }

  /** Redistribution between inner nodes repairs an underfull node. */
  lemma {:induction false} InnerShiftSound(
      order: int, pages: Pages, pages': Pages, root: int, g: Shape, a: int, i: int, l: int, r: int, node: int)
    requires Sound(order, pages, root, g, Attached, NO_PAGE, NO_PAGE, node) && (node == l || node == r)
    requires Siblings(pages, g, a, i, l, r) && r in g.info && g.info[r].lvl > 0
    requires InnerShift(pages, pages', a, i, l, r) && SameLinks(pages, pages') && Balanced(order, pages', l, r)
    ensures l in g.info && Kid(pages'[r].slots, 0) in g.info
    ensures Sound(order, pages', root, InnerShiftShape(pages', g, l, r), Attached, NO_PAGE, NO_PAGE, NO_PAGE)
    ensures Stored(pages, g.leaves) && Chain(pages', g.leaves) == Chain(pages, g.leaves)
  {
    hide KidsOk, Up, Down, EntryOk, LeafOrder, LeafLevel, Sized, Typed, Ring, SameLinks, Balanced, Chain, InnerShift,
         Separators, PendingOk;
    SiblingFacts(pages, root, g, a, i, l, r);
    ShiftedOf(pages, pages', a, i, l, r);
    InnerShiftShaped(pages, pages', root, g, a, i, l, r);
    InnerShiftOrdered(pages, pages', root, g, a, i, l, r);
    InnerShiftSized(order, pages, pages', root, g, a, i, l, r, node);
    RingKept(pages, pages', g.leaves);
    RingStored(pages, g.leaves);
    RingStored(pages', g.leaves);
    ChainKept(pages, pages', g.leaves);
  }

  // ------------------------------------------------------------- merging

  lemma {:induction false} LeafMergeSized(
      order: int, pages: Pages, pages': Pages, root: int, g: Shape, g': Shape, j: int, a: int, i: int, l: int, r: int,
      node: int)
    requires order >= 4 && Sized(order, pages, root, g, NO_PAGE, node) && LeafMerge(pages, pages', a, i, l, r)
    requires Pruned(g, g', j, l, r) && Typed(pages, g) && (node == l || node == r) && l != root && r != root
    requires l in g.info && r in g.info
    requires |pages[l].slots| + |pages[r].slots| < order && Inner(pages, g, a)
    ensures Sized(order, pages', root, g', NO_PAGE, a)
  {
    assert |pages'[a].slots| == |pages[a].slots| - 1;
    assert |pages[l].slots| >= order / 2 || |pages[r].slots| >= order / 2;
  }

  lemma {:induction false} MergeChain(
      pages: Pages, pages': Pages, leaves: seq<int>, ls: seq<int>, j: int, l: int, r: int)
    requires Stored(pages, leaves) && Stored(pages', ls)
    requires 0 <= j < |leaves| - 1 && leaves[j] == l && leaves[j + 1] == r && ls == leaves[..j + 1] + leaves[j + 2..]
    requires l in pages' && pages'[l].slots == pages[l].slots + pages[r].slots
    requires forall m :: 0 <= m < |leaves| && m != j && m != j + 1 ==>
               leaves[m] in pages' && pages'[leaves[m]].slots == pages[leaves[m]].slots
    ensures Chain(pages', ls) == Chain(pages, leaves)
  {
    var a, b := leaves[..j], leaves[j + 2..];
    assert leaves == a + [l, r] + b;
    assert ls == a + [l] + b;
    ChainTwo(pages, l, r);
    ChainOne(pages', l);
    ChainReplace(pages, pages', a, [l, r], [l], b);
  }

  lemma {:induction false} LeafMergeRing(pages: Pages, pages': Pages, g: Shape, j: int, a: int, i: int, l: int, r: int)
    requires Typed(pages, g) && LeafLevel(g) && Inner(pages, g, a) && Ring(pages, g.leaves)
    requires AdjacentLeaves(g, j, l, r)
    requires LeafMerge(pages, pages', a, i, l, r) && LinkedOut(pages, pages', l, r)
    ensures var ls := g.leaves[..j + 1] + g.leaves[j + 2..];
            && Ring(pages', ls) && Stored(pages, g.leaves)
            && Chain(pages', ls) == Chain(pages, g.leaves)
            && ls[0] == g.leaves[0]
            && ls[|ls| - 1] == if g.leaves[|g.leaves| - 1] == r then l else g.leaves[|g.leaves| - 1]
  {
    hide Chain;
    var ls := g.leaves[..j + 1] + g.leaves[j + 2..];
    RingErase(pages, pages', g.leaves, ls, j);
    forall m | 0 <= m < |g.leaves| && m != j && m != j + 1
      ensures g.leaves[m] in pages' && pages'[g.leaves[m]].slots == pages[g.leaves[m]].slots
    {
      var c := g.leaves[m];
      assert c in g.info && g.info[c] == Info(0, m, m + 1);
    }
    MergeChain(pages, pages', g.leaves, ls, j, l, r);
  }

  /** Merging leaves leaves at most the parent underfull. */
  lemma {:induction false} LeafMergeSound(
      order: int, pages: Pages, pages': Pages, root: int, g: Shape, a: int, i: int, l: int, r: int, node: int)
    requires Sound(order, pages, root, g, Attached, NO_PAGE, NO_PAGE, node) && (node == l || node == r)
    requires Siblings(pages, g, a, i, l, r) && r in g.info && g.info[r].lvl == 0
    requires LeafMerge(pages, pages', a, i, l, r) && LinkedOut(pages, pages', l, r)
    requires |pages[l].slots| + |pages[r].slots| < order
    ensures l in g.info && g.info[l].fst + 2 <= |g.leaves|
    ensures var g' := LeafMergeShape(g, l, r);
            && Sound(order, pages', root, g', Attached, NO_PAGE, NO_PAGE, a)
            && Stored(pages, g.leaves) && Chain(pages', g'.leaves) == Chain(pages, g.leaves)
            && |g'.leaves| > 0 && g'.leaves[0] == g.leaves[0]
            && g'.leaves[|g'.leaves| - 1] == (if g.leaves[|g.leaves| - 1] == r then l else g.leaves[|g.leaves| - 1])
            && a in g'.info && root in g'.info && g'.info[a].lvl == g.info[a].lvl
                 && g'.info[root].lvl == g.info[root].lvl
  {
    hide KidsOk, Up, Down, EntryOk, LeafOrder, LeafLevel, Sized, Typed, Ring, Chain, AdjacentLeaves, Merged, LeafMerge,
         LinkedOut, Pruned, Separators, PendingOk;
    SiblingFacts(pages, root, g, a, i, l, r);
    SiblingLeaves(pages, root, g, a, i, l, r);
    LeafMergeShapePruned(pages, root, g, a, i, l, r);
    var j, g' := g.info[l].fst, LeafMergeShape(g, l, r);
    LeafMergeShaped(pages, pages', root, g, g', j, a, i, l, r);
    LeafMergeOrdered(pages, pages', root, g, g', j, a, i, l, r);
    LeafMergeSized(order, pages, pages', root, g, g', j, a, i, l, r, node);
    LeafMergeRing(pages, pages', g, j, a, i, l, r);
    PrunedKnown(pages, root, g, g', j, l, r, a);
  }

  lemma {:induction false} PrunedKnown(pages: Pages, root: int, g: Shape, g': Shape, j: int, l: int, r: int, a: int)
    requires Pruned(g, g', j, l, r) && Up(pages, root, g, Attached) && a in g.info && a != r && r != root
    ensures a in g'.info && root in g'.info && g'.info[a].lvl == g.info[a].lvl && g'.info[root].lvl == g.info[root].lvl
  {
  }

  lemma {:induction false} InnerMergeSized(
      order: int, pages: Pages, pages': Pages, root: int, g: Shape, a: int, i: int, l: int, r: int, node: int)
    requires order >= 4 && Sized(order, pages, root, g, NO_PAGE, node) && InnerMerge(pages, pages', a, i, l, r)
    requires Typed(pages, g) && (node == l || node == r) && l != root && r != root && l in g.info && r in g.info
    requires |pages[l].slots| + |pages[r].slots| < order && Inner(pages, g, a)
    ensures Sized(order, pages', root, InnerMergeShape(g, l, r), NO_PAGE, a)
  {
    assert |pages'[a].slots| == |pages[a].slots| - 1;
    assert |pages[l].slots| >= order / 2 || |pages[r].slots| >= order / 2;
  }

  /** Merging inner nodes leaves at most the parent underfull. */
  lemma {:induction false} InnerMergeSound(
      order: int, pages: Pages, pages': Pages, root: int, g: Shape, a: int, i: int, l: int, r: int, node: int)
    requires Sound(order, pages, root, g, Attached, NO_PAGE, NO_PAGE, node) && (node == l || node == r)
    requires Siblings(pages, g, a, i, l, r) && r in g.info && g.info[r].lvl > 0
    requires InnerMerge(pages, pages', a, i, l, r) && SameLinks(pages, pages')
    requires |pages[l].slots| + |pages[r].slots| < order
    ensures l in g.info
    ensures var g' := InnerMergeShape(g, l, r);
            && Sound(order, pages', root, g', Attached, NO_PAGE, NO_PAGE, a)
            && Stored(pages, g.leaves) && Chain(pages', g.leaves) == Chain(pages, g.leaves)
            && a in g'.info && root in g'.info && g'.info[a].lvl == g.info[a].lvl
                 && g'.info[root].lvl == g.info[root].lvl
  {
    hide KidsOk, Up, Down, EntryOk, LeafOrder, LeafLevel, Sized, Typed, Ring, SameLinks, Chain, InnerMerge, Separators,
         PendingOk;
    SiblingFacts(pages, root, g, a, i, l, r);
    InnerMergeShaped(pages, pages', root, g, a, i, l, r);
    InnerMergeOrdered(pages, pages', root, g, a, i, l, r);
    InnerMergeSized(order, pages, pages', root, g, a, i, l, r, node);
    RingKept(pages, pages', g.leaves);
    RingStored(pages, g.leaves);
    RingStored(pages', g.leaves);
    ChainKept(pages, pages', g.leaves);
    RootKnown(pages, root, g);
  }

  lemma {:induction false} RootKnown(pages: Pages, root: int, g: Shape)
    requires Up(pages, root, g, Attached)
    ensures root in g.info && root in pages
  {
  }

  // ------------------------------------------------------------- root

  /** A root with a single child gives way to that child. */
  lemma {:induction false} DropRootSound(order: int, pages: Pages, pages': Pages, root: int, g: Shape, c: int)
    requires Sound(order, pages, root, g, Attached, NO_PAGE, NO_PAGE, root)
    requires Inner(pages, g, root) && DropRoot(pages, pages', root, c)
    ensures Sound(order, pages', c, g.(info := g.info - {root}), Attached, NO_PAGE, NO_PAGE, NO_PAGE)
    ensures Stored(pages, g.leaves) && Chain(pages', g.leaves) == Chain(pages, g.leaves)
  {
    hide KidsOk, Up, Down, EntryOk, LeafOrder, LeafLevel, Sized, Typed, Ring, Chain, Separators, PendingOk;
    DropRootShaped(pages, pages', root, g, c);
    DropRootOrdered(pages, pages', root, g, c);
    DropRootSized(order, pages, pages', root, g, c);
    RingKept(pages, pages', g.leaves);
    RingStored(pages, g.leaves);
    RingStored(pages', g.leaves);
    ChainKept(pages, pages', g.leaves);
  }

  lemma {:induction false} DropRootSized(order: int, pages: Pages, pages': Pages, root: int, g: Shape, c: int)
    requires order >= 4 && Sized(order, pages, root, g, NO_PAGE, root) && DropRoot(pages, pages', root, c)
    requires Typed(pages, g)
    ensures Sized(order, pages', c, g.(info := g.info - {root}), NO_PAGE, NO_PAGE)
  {
  }
}
