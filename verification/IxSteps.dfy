/** What the steps of insertion and deletion do to the whole invariant, and to the entries the index holds. */
module IxSteps {
  import opened Basics
  import opened IxTree
  import opened IxRoute
  import opened IxInsert
  import opened IxSplit
  import opened IxAttach
  import opened IxDelete
  import opened IxMerge
  import opened IxCoalesce
  import opened IxPrune
  import opened IxChain
  import opened IxRebalance
  import opened IxPosition

  ghost predicate Bounded(pages: Pages, nextPage: int) {
    nextPage >= 3 && forall p :: p in pages ==> p < nextPage
  }

  /** The first key of the split-off node separates the leaves before it from those behind. */
  ghost predicate Boundary(pages: Pages, g: Shape, q: int) {
    && q in g.info && q in pages && |pages[q].slots| > 0
    && Above(pages, g, pages[q].slots[0].key, g.info[q].fst)
    && AtMost(pages, g, pages[q].slots[0].key, g.info[q].fst)
  }

  /** Only keys in inner nodes differ. */
  ghost predicate OnlyKeys(pages: Pages, pages': Pages) {
    && pages'.Keys == pages.Keys
    && forall r :: r in pages ==>
         && pages'[r].isLeaf == pages[r].isLeaf && pages'[r].parent == pages[r].parent
         && pages'[r].prev == pages[r].prev && pages'[r].next == pages[r].next
         && |pages'[r].slots| == |pages[r].slots|
         && (pages[r].isLeaf ==> pages'[r].slots == pages[r].slots)
  }

  /** Only parent pointers differ: the children listed in `s` now belong to `q`. */
  ghost predicate OnlyParents(pages: Pages, pages': Pages, s: seq<Entry>, q: int) {
    && pages'.Keys == pages.Keys
    && forall r :: r in pages ==> pages'[r] == pages[r].(parent := if IsKid(s, r) then q else pages[r].parent)
  }

  lemma {:induction false} OnlyKeysStep(pages: Pages, pages1: Pages, pages2: Pages, q: int, i: int, k: int)
    requires OnlyKeys(pages, pages1) && q in pages1 && !pages1[q].isLeaf && 0 <= i < |pages1[q].slots|
    requires pages2 == pages1[q := pages1[q].(slots := pages1[q].slots[i := pages1[q].slots[i].(key := k)])]
    ensures OnlyKeys(pages, pages2)
  {
  }

  lemma {:induction false} OnlyKeysKept(
      order: int, pages: Pages, pages': Pages, root: int, g: Shape, over: int, under: int)
    requires OnlyKeys(pages, pages') && Sized(order, pages, root, g, over, under)
    requires Shaped(pages, root, g, Attached) && Ring(pages, g.leaves)
    ensures Sized(order, pages', root, g, over, under) && Ring(pages', g.leaves) && pages'.Keys == pages.Keys
    ensures Chain(pages', g.leaves) == Chain(pages, g.leaves) && LeavesKept(pages, pages', g)
  {
    hide KidsOk, Up, Down;
    forall j | 0 <= j < |g.leaves|
      ensures g.leaves[j] in pages && g.leaves[j] in pages' && pages'[g.leaves[j]].slots == pages[g.leaves[j]].slots
    {
      var c := g.leaves[j];
      assert c in g.info && g.info[c].lvl == 0 && c in pages;
    }
    RingKept(pages, pages', g.leaves);
    ChainKept(pages, pages', g.leaves);
  }

  // ------------------------------------------------------------- glue for the deletion steps

  lemma {:induction false} EraseMembers(a: seq<Entry>, s: seq<Entry>, b: seq<Entry>, pos: int)
    requires 0 <= pos < |s| && Sorted(a + s + b)
    ensures forall x :: x in a + EraseAt(s, pos) + b <==> x in a + s + b && x != s[pos]
  {
    hide EraseAt;
    var c, d := a + s + b, a + EraseAt(s, pos) + b;
    ErasedAt(a, s, b, pos);
    ErasedMembers(c, d, |a| + pos);
  }

  lemma {:induction false} ErasedAt(a: seq<Entry>, s: seq<Entry>, b: seq<Entry>, pos: int)
    requires 0 <= pos < |s|
    ensures (a + s + b)[|a| + pos] == s[pos] && |a + EraseAt(s, pos) + b| == |a + s + b| - 1
    ensures forall i :: 0 <= i < |a + EraseAt(s, pos) + b| ==>
              (a + EraseAt(s, pos) + b)[i] == (a + s + b)[if i < |a| + pos then i else i + 1]
  {
  }

  lemma {:induction false} ErasedMembers(c: seq<Entry>, d: seq<Entry>, n: int)
    requires Sorted(c) && 0 <= n < |c| && |d| == |c| - 1
    requires forall i :: 0 <= i < |d| ==> d[i] == c[if i < n then i else i + 1]
    ensures forall x :: x in d <==> x in c && x != c[n]
  {
    forall x | x in c && x != c[n]
      ensures x in d
    {
      var i :| 0 <= i < |c| && c[i] == x;
      assert d[if i < n then i else i - 1] == x;
    }
  }

  lemma {:induction false} EraseContents(pages: Pages, pages': Pages, root: int, g: Shape, p: int, pos: int)
    requires Shaped(pages, root, g, Attached) && Ordered(pages, root, g, NO_PAGE) && Ring(pages, g.leaves)
    requires LeafOrder(pages', g)
    requires p in g.info && g.info[p].lvl == 0 && 0 <= pos < |pages[p].slots|
    requires pages' == pages[p := pages[p].(slots := EraseAt(pages[p].slots, pos))]
    ensures Stored(pages', g.leaves) && Stored(pages, g.leaves)
    ensures MapOf(Chain(pages', g.leaves)) == MapOf(Chain(pages, g.leaves)) - {pages[p].slots[pos].key}
  {
    hide KidsOk, Up, Down, PendingOk, EntryOk, Separators, Chain, MapOf, Typed, EraseAt, Sorted;
    var j := g.info[p].fst;
    assert g.leaves[j] == p;
    LeafWriteChain(pages, pages', g.leaves, j, pages'[p]);
    ChainAscends(pages, g);
    ChainAscends(pages', g);
    EraseMembers(Chain(pages, g.leaves[..j]), pages[p].slots, Chain(pages, g.leaves[j + 1..]), pos);
    KeyPresent(pages, root, g, p, pos);
    MapErase(Chain(pages, g.leaves), Chain(pages', g.leaves), pages[p].slots[pos]);
  }

  lemma {:induction false} EraseSound(order: int, pages: Pages, pages': Pages, root: int, g: Shape, p: int, pos: int)
    requires Sound(order, pages, root, g, Attached, NO_PAGE, NO_PAGE, NO_PAGE)
    requires p in g.info && g.info[p].lvl == 0 && 0 <= pos < |pages[p].slots|
    requires pages' == pages[p := pages[p].(slots := EraseAt(pages[p].slots, pos))]
    ensures Sound(order, pages', root, g, Attached, NO_PAGE, NO_PAGE, p)
    ensures p != root ==> |pages'[p].slots| > 0
  {
    hide KidsOk, Up, Down, PendingOk, EntryOk, Separators, LeafLevel, Ring;
    LeafEraseOk(pages, pages', root, g, p, pos);
    RingKept(pages, pages', g.leaves);
  }

  /** The first key of a leaf that has just lost `k` is not `k`. */
  lemma {:induction false} FirstChanged(s: seq<Entry>, pos: int, k: int)
    requires Sorted(s) && 0 <= pos < |s| && s[pos].key == k && |s| > 1
    ensures EraseAt(s, pos)[0].key != k
  {
  }

  lemma {:induction false} NoUnder(order: int, pages: Pages, root: int, g: Shape, p: int)
    requires Sound(order, pages, root, g, Attached, NO_PAGE, NO_PAGE, NO_PAGE) && p in g.info
    ensures Sound(order, pages, root, g, Attached, NO_PAGE, NO_PAGE, p)
    ensures p in pages && (p != root ==> |pages[p].slots| > 0)
  {
    hide Down, Up, LeafLevel, Ordered, Ring;
  }

  lemma {:induction false} LowAnywhere(pages: Pages, root: int, g: Shape, p: int)
    requires Shaped(pages, root, g, Attached) && Ordered(pages, root, g, NO_PAGE)
    ensures Ordered(pages, root, g, p)
  {
    forall q, i | Inner(pages, g, q) && 0 <= i < |pages[q].slots|
      ensures EntryOk(pages, g, p, pages[q].slots[i])
    {
      assert EntryOk(pages, g, NO_PAGE, pages[q].slots[i]);
      KidFacts(pages, g, Attached, q, i);
    }
  }

  lemma {:induction false} LowerBoundRange(s: seq<Entry>, k: int, pos: int)
    requires IsLowerBound(s, k, pos)
    ensures 0 <= pos <= |s|
  {
  }

  lemma {:induction false} UpperBoundRange(s: seq<Entry>, k: int, pos: int)
    requires IsUpperBound(s, k, pos)
    ensures 0 <= pos <= |s|
  {
  }

  lemma {:induction false} OrderedLeaves(pages: Pages, root: int, g: Shape)
    requires Ordered(pages, root, g, NO_PAGE)
    ensures LeafOrder(pages, g)
  {
  }

  lemma {:induction false} SlotsFilled(order: int, pages: Pages, pages': Pages, root: int, g: Shape, p: int)
    requires OnlyKeys(pages, pages') && p in pages && |pages[p].slots| > 0
    ensures p in pages' && |pages'[p].slots| > 0
  {
  }

  lemma {:induction false} NoRoot(pages: Pages, g: Shape)
    ensures !Shaped(pages, NO_PAGE, g, Attached)
  {
  }

  lemma {:induction false} EmptyMap(es: seq<Entry>)
    ensures MapOf(es) == map[] <==> es == []
  {
    if es != [] {
      assert es[|es| - 1].key in MapOf(es);
    }
  }

  lemma {:induction false} NoMatch(pages: Pages, root: int, g: Shape, p: int, pos: int, k: int)
    requires Shaped(pages, root, g, Attached) && Ordered(pages, root, g, NO_PAGE) && Stored(pages, g.leaves)
    requires OnRoute(pages, g, k, p, 0) && g.info[p].lvl == 0
    requires IsLowerBound(pages[p].slots, k, pos) && Sorted(pages[p].slots)
    ensures var m := MapOf(Chain(pages, g.leaves));
            if pos < |pages[p].slots| && pages[p].slots[pos].key == k then k in m && m[k] == pages[p].slots[pos].rid
            else k !in m
  {
    hide KidsOk, Up, Down, Separators, Chain, MapOf;
    if pos < |pages[p].slots| && pages[p].slots[pos].key == k {
      KeyPresent(pages, root, g, p, pos);
    } else {
      assert forall i :: 0 <= i < |pages[p].slots| ==> pages[p].slots[i].key != k;
      KeyAbsent(pages, root, g, p, k);
      AbsentFromMap(pages, g, k);
    }
  }

  /** The neighbours of `leaf` in the ring point past it. */
  ghost predicate Unlinked(pages: Pages, pages': Pages, leaf: int) {
    && leaf in pages && pages'.Keys == pages.Keys
    && var prev, next := pages[leaf].prev, pages[leaf].next;
    && (forall p :: p in pages ==> pages'[p] == pages[p].(
          next := (if p == prev then next else pages[p].next),
          prev := (if p == next then prev else pages[p].prev)))
  }

  lemma {:induction false} UnlinkedSlots(pages: Pages, pages': Pages, leaf: int)
    requires Unlinked(pages, pages', leaf)
    ensures pages'.Keys == pages.Keys && forall p :: p in pages ==> pages'[p].slots == pages[p].slots
  {
  }

  lemma {:induction false} NotUnder(order: int, pages: Pages, root: int, g: Shape, p: int)
    requires Sized(order, pages, root, g, NO_PAGE, p) && p in g.info && p in pages
    requires p != root ==> |pages[p].slots| >= order / 2
    requires p == root && g.info[p].lvl > 0 ==> |pages[p].slots| >= 2
    ensures Sized(order, pages, root, g, NO_PAGE, NO_PAGE)
  {
  }

  lemma {:induction false} InnerRoot(pages: Pages, root: int, g: Shape)
    requires Shaped(pages, root, g, Attached) && root in g.info && g.info[root].lvl > 0
    ensures root in pages && |pages[root].slots| > 0
  {
    KidFacts0(pages, root, g);
  }

  lemma {:induction false} KidFacts0(pages: Pages, root: int, g: Shape)
    requires Down(pages, g, Attached) && Inner(pages, g, root)
    ensures |pages[root].slots| > 0
  {
    assert KidsOk(pages, g, Attached, root);
  }

  lemma {:induction false} OnlyKid(pages: Pages, root: int, g: Shape)
    requires Shaped(pages, root, g, Attached) && Inner(pages, g, root) && |pages[root].slots| == 1
    ensures var c := Kid(pages[root].slots, 0); c in pages && c != root
  {
    hide Up, LeafLevel, KidsOk, Typed;
    KidFacts(pages, g, Attached, root, 0);
  }

  /** Above the leaves there is always an entry. */
  lemma {:induction false} ChainFilled(
      order: int, pages: Pages, root: int, g: Shape, x: Orphan, low: int, over: int, under: int)
    requires Sound(order, pages, root, g, x, low, over, under) && root in g.info
    ensures Stored(pages, g.leaves)
    ensures g.info[root].lvl > 0 ==> Chain(pages, g.leaves) != []
  {
    hide KidsOk, Up, Down, Chain, Separators, LeafOrder, Sized;
    if g.info[root].lvl > 0 {
      var p := g.leaves[0];
      assert p in g.info && g.info[p].lvl == 0 && |pages[p].slots| > 0;
      ChainHolds(pages, g.leaves, 0, pages[p].slots[0]);
    }
  }

  /** A leaf that is the root is the whole chain. */
  lemma {:induction false} RootLeafChain(pages: Pages, root: int, g: Shape)
    requires Shaped(pages, root, g, Attached) && Stored(pages, g.leaves) && root in g.info && g.info[root].lvl == 0
    ensures root in pages && Chain(pages, g.leaves) == pages[root].slots
  {
    hide KidsOk, Down, Chain;
    assert g.leaves[0] == root && g.info[root] == Info(0, 0, 1);
    assert g.leaves == [root];
    ChainOne(pages, root);
  }

  lemma {:induction false} ParentKnown(order: int, pages: Pages, root: int, g: Shape, p: int)
    requires Sound(order, pages, root, g, Attached, NO_PAGE, NO_PAGE, p) && p in g.info && p in pages && p != root
    ensures var a := pages[p].parent;
            Inner(pages, g, a) && IsKid(pages[a].slots, p) && |pages[a].slots| >= 2 && a != p
    ensures |pages[p].slots| >= order / 2 - 1
    ensures g.info[root].lvl > 0
  {
    hide KidsOk, LeafLevel, Typed, Ordered, Ring;
    var a := pages[p].parent;
    assert Inner(pages, g, a) && IsKid(pages[a].slots, p);
    var m :| 0 <= m < |pages[a].slots| && Kid(pages[a].slots, m) == p;
    KidFacts(pages, g, Attached, a, m);
  }

  lemma {:induction false} NeighborKnown(
      order: int, pages: Pages, root: int, g: Shape, p: int, a: int, index: int, q: int)
    requires Sound(order, pages, root, g, Attached, NO_PAGE, NO_PAGE, p) && p in g.info && p in pages && p != root
    requires Inner(pages, g, a) && |pages[a].slots| >= 2 && 0 <= index < |pages[a].slots|
    requires Kid(pages[a].slots, index) == p
    requires q == Kid(pages[a].slots, if index == 0 then 1 else index - 1)
    ensures q in pages && |pages[q].slots| <= order - 1
    ensures if index == 0 then Siblings(pages, g, a, 0, p, q) else Siblings(pages, g, a, index - 1, q, p)
  {
    hide KidsOk, LeafLevel, Ordered, Ring, Up;
    KidFacts(pages, g, Attached, a, if index == 0 then 1 else index - 1);
  }

  /** What Coalesce needs to know about the two nodes. */
  lemma {:induction false} MergeKnown(
      order: int, pages: Pages, root: int, g: Shape, a: int, i: int, l: int, r: int, node: int)
    requires Sound(order, pages, root, g, Attached, NO_PAGE, NO_PAGE, node) && Siblings(pages, g, a, i, l, r)
    requires node == l || node == r
    requires node in pages && |pages[node].slots| > 0
    ensures l in g.info && r in g.info && l in pages && r in pages && l != r && l != a && r != a && a in pages
    ensures |pages[l].slots| > 0
    ensures g.info[l].lvl == g.info[r].lvl && g.info[a].lvl == g.info[l].lvl + 1
    ensures (pages[l].isLeaf <==> g.info[l].lvl == 0) && (pages[r].isLeaf <==> g.info[r].lvl == 0)
    ensures l != root && r != root && Inner(pages, g, a) && 0 <= i < |pages[a].slots| - 1
  {
    hide KidsOk, Up, Down, LeafLevel, Ordered, Ring;
    SiblingFacts(pages, root, g, a, i, l, r);
  }

  lemma {:induction false} LeafNeighbours(pages: Pages, root: int, g: Shape, a: int, i: int, l: int, r: int)
    requires Shaped(pages, root, g, Attached) && Siblings(pages, g, a, i, l, r) && Ring(pages, g.leaves)
    requires r in g.info && g.info[r].lvl == 0
    ensures l in pages && r in pages && pages[r].prev == l && pages[r].next in pages && pages[r].next != r
    ensures pages[r].next != l
  {
    hide KidsOk, Up, Down;
    SiblingLeaves(pages, root, g, a, i, l, r);
    var j := g.info[l].fst;
    NextLeaf(pages, g.leaves, j + 1);
    assert j + 2 < |g.leaves| ==> g.leaves[j + 2] != g.leaves[j];
  }

  lemma {:induction false} LeafMergeStep(
      pages: Pages, joined: Pages, moved: Pages, pages': Pages, a: int, i: int, l: int, r: int)
    requires a in pages && l in pages && r in pages && l != r && l != a && r != a && 0 <= i < |pages[a].slots| - 1
    requires |pages[l].slots| > 0 && pages[r].prev == l && pages[r].next in pages && pages[r].next != r
    requires pages[r].next != l
    requires joined == pages[l := pages[l].(slots := pages[l].slots + pages[r].slots)] && Unlinked(joined, moved, r)
    requires a in moved && moved[a].slots == pages[a].slots
    requires pages' == moved[a := moved[a].(slots := EraseAt(moved[a].slots, i + 1))]
    ensures LeafMerge(pages, pages', a, i, l, r) && LinkedOut(pages, pages', l, r) && pages'.Keys == pages.Keys
  {
  }

  lemma {:induction false} InnerMergeStep(
      pages: Pages, joined: Pages, moved: Pages, pages': Pages, root: int, g: Shape, a: int, i: int, l: int, r: int)
    requires Shaped(pages, root, g, Attached) && Siblings(pages, g, a, i, l, r) && Inner(pages, g, r)
    requires a in pages && l in pages && r in pages && l != r && l != a && r != a
    requires |pages[l].slots| > 0 && joined == pages[l := pages[l].(slots := pages[l].slots + pages[r].slots)]
    requires OnlyParents(joined, moved, pages[r].slots, l) && a in moved
    requires moved[a].slots == pages[a].slots
    requires pages' == moved[a := moved[a].(slots := EraseAt(moved[a].slots, i + 1))]
    ensures InnerMerge(pages, pages', a, i, l, r) && SameLinks(pages, pages') && pages'.Keys == pages.Keys
  {
    hide Up, LeafLevel, Typed, KidsOk, Down, IsKid, EraseAt;
    SiblingFacts(pages, root, g, a, i, l, r);
    KidParent(pages, g, r, a);
    KidParent(pages, g, r, l);
    KidParent(pages, g, r, r);
    SiblingParents(pages, root, g, a, i, l, r);
  }

  lemma {:induction false} JoinedKids(pages: Pages, joined: Pages, root: int, g: Shape, a: int, i: int, l: int, r: int)
    requires Shaped(pages, root, g, Attached) && Siblings(pages, g, a, i, l, r) && Inner(pages, g, r)
    requires l in pages && joined == pages[l := pages[l].(slots := pages[l].slots + pages[r].slots)]
    ensures forall m :: |pages[l].slots| <= m < |joined[l].slots| ==> Kid(joined[l].slots, m) in joined
  {
    hide Up, LeafLevel, KidsOk, Down, Typed;
    forall m | |pages[l].slots| <= m < |joined[l].slots|
      ensures Kid(joined[l].slots, m) in joined
    {
      KidFacts(pages, g, Attached, r, m - |pages[l].slots|);
      assert Kid(joined[l].slots, m) == Kid(pages[r].slots, m - |pages[l].slots|);
    }
  }

  lemma {:induction false} ParentsKept(pages: Pages, pages': Pages, s: seq<Entry>, q: int, a: int)
    requires OnlyParents(pages, pages', s, q) && a in pages
    ensures a in pages' && pages'[a].slots == pages[a].slots && pages'.Keys == pages.Keys
  {
  }

  lemma {:induction false} InnerMergeInfo(g: Shape, l: int, r: int, a: int, root: int)
    requires l in g.info && r in g.info
    ensures InnerMergeShape(g, l, r).leaves == g.leaves
  {
  }

  lemma {:induction false} KeysBounded(pages: Pages, pages': Pages, nextPage: int)
    requires Bounded(pages, nextPage) && pages'.Keys == pages.Keys
    ensures Bounded(pages', nextPage)
  {
  }

  lemma {:induction false} ErasedSize(order: int, pages: Pages, root: int, g: Shape, a: int)
    requires Sound(order, pages, root, g, Attached, NO_PAGE, NO_PAGE, a) && a in g.info && a in pages
    ensures a != root || g.info[a].lvl > 0 ==> |pages[a].slots| > 0
    ensures root in g.info && g.info[a].lvl <= g.info[root].lvl
  {
    hide Down, LeafOrder, Separators;
  }

  /** Neither sibling nor their parent is a child of the right sibling. */
  lemma {:induction false} SiblingParents(pages: Pages, root: int, g: Shape, a: int, i: int, l: int, r: int)
    requires Shaped(pages, root, g, Attached) && Siblings(pages, g, a, i, l, r) && Inner(pages, g, r)
    ensures !IsKid(pages[r].slots, a) && !IsKid(pages[r].slots, l) && !IsKid(pages[r].slots, r)
  {
    hide Up, LeafLevel, KidsOk;
    SiblingFacts(pages, root, g, a, i, l, r);
    KidParent(pages, g, r, l);
    KidParent(pages, g, r, r);
    if IsKid(pages[r].slots, a) {
      var m :| 0 <= m < |pages[r].slots| && Kid(pages[r].slots, m) == a;
      KidFacts(pages, g, Attached, r, m);
    }
  }

  /** `pages'` is `pages` after `moved` went from its old node into `node`. */
  ghost predicate MovedTo(pages: Pages, l: int, r: int, node: int, moved: Entry) {
    && l in pages && r in pages && l != r
    && (node == l ==> |pages[r].slots| > 0 && moved == pages[r].slots[0])
    && (node == r ==> |pages[l].slots| > 0 && moved == pages[l].slots[|pages[l].slots| - 1])
    && (node == l || node == r)
  }

  lemma {:induction false} ShiftKnown(pages: Pages, root: int, g: Shape, a: int, i: int, l: int, r: int)
    requires Shaped(pages, root, g, Attached) && Siblings(pages, g, a, i, l, r)
    ensures l in g.info && r in g.info && l in pages && r in pages && l != r && l != a && r != a && a in pages
    ensures g.info[l].lvl == g.info[r].lvl && (pages[l].isLeaf <==> g.info[l].lvl == 0)
    ensures (pages[r].isLeaf <==> g.info[l].lvl == 0)
    ensures l != root && r != root && g.info[a].lvl == g.info[l].lvl + 1
  {
    hide KidsOk, Up, Down, LeafLevel;
    SiblingFacts(pages, root, g, a, i, l, r);
  }

  /** One slot has moved between the siblings, and the separator of the right one is refreshed. */
  ghost predicate SlotMoved(pages: Pages, pages': Pages, a: int, i: int, l: int, r: int, node: int, moved: Entry) {
    && MovedTo(pages, l, r, node, moved) && a in pages && l != a && r != a && 0 <= i < |pages[a].slots| - 1
    && pages'.Keys == pages.Keys
    && (forall p :: p in pages ==>
          && pages'[p].isLeaf == pages[p].isLeaf && pages'[p].parent == pages[p].parent
          && pages'[p].prev == pages[p].prev && pages'[p].next == pages[p].next
          && (p != a && p != l && p != r ==> pages'[p].slots == pages[p].slots))
    && pages'[l].slots == (if node == l then pages[l].slots + [moved]
         else EraseAt(pages[l].slots, |pages[l].slots| - 1))
    && pages'[r].slots == (if node == l then EraseAt(pages[r].slots, 0) else [moved] + pages[r].slots)
    && |pages'[r].slots| > 0
    && pages'[a].slots == pages[a].slots[i + 1 := pages[a].slots[i + 1].(key := pages'[r].slots[0].key)]
  }

  lemma {:induction false} ConcatLeft(s: seq<Entry>, t: seq<Entry>)
    requires |t| > 0
    ensures (s + [t[0]]) + EraseAt(t, 0) == s + t
  {
    assert EraseAt(t, 0) == t[1..];
    assert t == [t[0]] + t[1..];
  }

  lemma {:induction false} ConcatRight(s: seq<Entry>, t: seq<Entry>)
    requires |s| > 0
    ensures EraseAt(s, |s| - 1) + ([s[|s| - 1]] + t) == s + t
  {
    assert EraseAt(s, |s| - 1) == s[..|s| - 1];
    assert s == s[..|s| - 1] + [s[|s| - 1]];
  }

  lemma {:induction false} SlotMovedStep(
      pages: Pages, pages': Pages, a: int, i: int, l: int, r: int, node: int, moved: Entry, x: int, y: int,
      s: seq<Entry>, t: seq<Entry>)
    requires MovedTo(pages, l, r, node, moved) && a in pages && l != a && r != a && 0 <= i < |pages[a].slots| - 1
    requires s == (if node == l then pages[l].slots + [moved] else EraseAt(pages[l].slots, |pages[l].slots| - 1))
    requires t == (if node == l then EraseAt(pages[r].slots, 0) else [moved] + pages[r].slots) && |t| > 0
    requires x == node && y == if node == l then r else l
    requires pages' == pages[x := pages[x].(slots := if node == l then s else t)]
                            [y := pages[y].(slots := if node == l then t else s)]
                            [a := pages[a].(slots := pages[a].slots[i + 1 := pages[a].slots[i + 1].(key := t[0].key)])]
    ensures SlotMoved(pages, pages', a, i, l, r, node, moved)
  {
  }

  lemma {:induction false} SlotMovedShift(
      order: int, pages: Pages, pages': Pages, a: int, i: int, l: int, r: int, node: int, moved: Entry)
    requires order >= 4 && SlotMoved(pages, pages', a, i, l, r, node, moved)
    requires |pages[node].slots| == order / 2 - 1
    requires var other := if node == l then r else l;
             |pages[other].slots| <= order - 1 && |pages[node].slots| + |pages[other].slots| >= order
    ensures LeafShift(pages, pages', a, i, l, r) && SameLinks(pages, pages') && Balanced(order, pages', l, r)
  {
    SlotMovedSizes(order, pages, pages', a, i, l, r, node, moved);
    hide Balanced, SameLinks, EraseAt;
    if node == l {
      ConcatLeft(pages[l].slots, pages[r].slots);
    } else {
      ConcatRight(pages[l].slots, pages[r].slots);
    }
  }

  lemma {:induction false} SlotMovedSizes(
      order: int, pages: Pages, pages': Pages, a: int, i: int, l: int, r: int, node: int, moved: Entry)
    requires order >= 4 && SlotMoved(pages, pages', a, i, l, r, node, moved)
    requires |pages[node].slots| == order / 2 - 1
    requires var other := if node == l then r else l;
             |pages[other].slots| <= order - 1 && |pages[node].slots| + |pages[other].slots| >= order
    ensures SameLinks(pages, pages') && Balanced(order, pages', l, r)
    ensures |pages[l].slots| > 0 && |pages[r].slots| > 0 && |pages'[l].slots| > 0 && |pages'[r].slots| > 0
  {
  }

  /** The child behind the moved slot. */
  lemma {:induction false} MovedKid(
      pages: Pages, root: int, g: Shape, a: int, i: int, l: int, r: int, node: int, moved: Entry)
    requires Shaped(pages, root, g, Attached) && Siblings(pages, g, a, i, l, r) && MovedTo(pages, l, r, node, moved)
    requires l in g.info && g.info[l].lvl > 0
    ensures moved.rid.pageNo in pages && moved.rid.pageNo !in {a, l, r}
    ensures pages[moved.rid.pageNo].parent == if node == l then r else l
    ensures IsKid(pages[if node == l then r else l].slots, moved.rid.pageNo)
  {
    hide KidsOk, Up, Down, LeafLevel;
    SiblingFacts(pages, root, g, a, i, l, r);
    var q := if node == l then r else l;
    var m := if node == l then 0 else |pages[l].slots| - 1;
    KidFacts(pages, g, Attached, q, m);
    assert Kid(pages[q].slots, m) == moved.rid.pageNo;
  }

  lemma {:induction false} InnerShiftStep(
      pages: Pages, shifted: Pages, pages': Pages, root: int, g: Shape, a: int, i: int, l: int, r: int, node: int,
      moved: Entry)
    requires Shaped(pages, root, g, Attached) && Siblings(pages, g, a, i, l, r) && MovedTo(pages, l, r, node, moved)
    requires l in g.info && g.info[l].lvl > 0 && LeafShift(pages, shifted, a, i, l, r)
    requires SlotMoved(pages, shifted, a, i, l, r, node, moved)
    requires moved.rid.pageNo in shifted
    requires pages' == shifted[moved.rid.pageNo := shifted[moved.rid.pageNo].(parent := node)]
    ensures InnerShift(pages, pages', a, i, l, r) && SameLinks(pages, pages') && pages'.Keys == pages.Keys
  {
    hide KidsOk, Up, Down, LeafLevel, IsKid, Typed;
    SiblingFacts(pages, root, g, a, i, l, r);
    MovedKid(pages, root, g, a, i, l, r, node, moved);
    var c := moved.rid.pageNo;
    var other := if node == l then r else l;
    forall p | p in pages && p !in {a, l, r}
      ensures p in pages' && pages'[p].isLeaf == pages[p].isLeaf && pages'[p].slots == pages[p].slots
      ensures pages'[p].parent == if IsKid(pages'[l].slots, p) then l
                                  else if IsKid(pages'[r].slots, p) then r else pages[p].parent
    {
      ShiftedHome(pages, pages', root, g, a, i, l, r, node, moved, p);
    }
  }

  /** After the move every child of the two siblings sits under the node its parent field names. */
  lemma {:induction false} ShiftedHome(
      pages: Pages, pages': Pages, root: int, g: Shape, a: int, i: int, l: int, r: int, node: int, moved: Entry, p: int)
    requires Shaped(pages, root, g, Attached) && Siblings(pages, g, a, i, l, r) && MovedTo(pages, l, r, node, moved)
    requires l in g.info && g.info[l].lvl > 0 && Shifted(pages, pages', a, i, l, r)
    requires pages'[l].slots == if node == l then pages[l].slots + [moved]
               else EraseAt(pages[l].slots, |pages[l].slots| - 1)
    requires pages'[r].slots == if node == l then EraseAt(pages[r].slots, 0) else [moved] + pages[r].slots
    requires p in pages && p !in {a, l, r} && p in pages'
    requires pages'[p].parent == if p == moved.rid.pageNo then node else pages[p].parent
    ensures pages'[p].parent == if IsKid(pages'[l].slots, p) then l
                                else if IsKid(pages'[r].slots, p) then r else pages[p].parent
  {
    hide KidsOk, Up, LeafLevel, IsKid, Typed;
    SiblingFacts(pages, root, g, a, i, l, r);
    MovedKid(pages, root, g, a, i, l, r, node, moved);
    var other := if node == l then r else l;
    var c := moved.rid.pageNo;
    KidAppend(pages[l].slots, moved);
    KidConcat([moved], pages[r].slots, p);
    KidAppend([], moved);
    assert [] + [moved] == [moved];
    NoKid(p);
    ShiftedKid(pages, pages', g, a, i, l, r, p);
    KidParent(pages, g, l, p);
    KidParent(pages, g, r, p);
    EraseKid(pages, root, g, other, if node == l then 0 else |pages[l].slots| - 1, p);
  }

  lemma {:induction false} NoKid(p: int)
    ensures !IsKid([], p)
  {
  }

  lemma {:induction false} KidParent(pages: Pages, g: Shape, q: int, p: int)
    requires Down(pages, g, Attached) && Inner(pages, g, q)
    ensures IsKid(pages[q].slots, p) ==> p in pages && pages[p].parent == q
  {
    assert KidsOk(pages, g, Attached, q);
  }

  lemma {:induction false} EraseKid(pages: Pages, root: int, g: Shape, q: int, m: int, p: int)
    requires Shaped(pages, root, g, Attached) && Inner(pages, g, q) && 0 <= m < |pages[q].slots|
    ensures IsKid(EraseAt(pages[q].slots, m), p) <==> IsKid(pages[q].slots, p) && p != Kid(pages[q].slots, m)
  {
    hide KidsOk, Up, Down, LeafLevel, Typed;
    var s := pages[q].slots;
    var t := EraseAt(s, m);
    if IsKid(t, p) {
      var n :| 0 <= n < |t| && Kid(t, n) == p;
      var n' := if n < m then n else n + 1;
      assert Kid(s, n') == p;
      DistinctKids(pages, root, g, q, n', q, m);
    }
    if IsKid(s, p) && p != Kid(s, m) {
      var n :| 0 <= n < |s| && Kid(s, n) == p;
      assert Kid(t, if n < m then n else n - 1) == p;
    }
  }

  lemma {:induction false} LeafSorted(pages: Pages, root: int, g: Shape, p: int)
    requires Shaped(pages, root, g, Attached) && Ordered(pages, root, g, NO_PAGE) && p in g.info && g.info[p].lvl == 0
    ensures p in pages && Sorted(pages[p].slots)
  {
    hide KidsOk, Up, Down;
    assert g.leaves[g.info[p].fst] == p;
  }

  lemma {:induction false} WriteBounded(pages: Pages, pages': Pages, nextPage: int, p: int, n: Node)
    requires Bounded(pages, nextPage) && p in pages && pages' == pages[p := n]
    ensures Bounded(pages', nextPage)
  {
  }

  lemma {:induction false} KeyPresent(pages: Pages, root: int, g: Shape, p: int, pos: int)
    requires Shaped(pages, root, g, Attached) && Ordered(pages, root, g, NO_PAGE) && Stored(pages, g.leaves)
    requires p in g.info && g.info[p].lvl == 0 && 0 <= pos < |pages[p].slots|
    ensures var e := pages[p].slots[pos];
            e in Chain(pages, g.leaves) && e.key in MapOf(Chain(pages, g.leaves))
                && MapOf(Chain(pages, g.leaves))[e.key] == e.rid
  {
    hide MapOf;
    ChainHolds(pages, g.leaves, g.info[p].fst, pages[p].slots[pos]);
    ChainAscends(pages, g);
    MapOfSorted(Chain(pages, g.leaves));
  }

  /** A key that is not in the leaf it is routed to is nowhere in the index. */
  lemma {:induction false} KeyAbsent(pages: Pages, root: int, g: Shape, p: int, k: int)
    requires Shaped(pages, root, g, Attached) && Ordered(pages, root, g, NO_PAGE) && Stored(pages, g.leaves)
    requires OnRoute(pages, g, k, p, 0) && g.info[p].lvl == 0
    requires forall i :: 0 <= i < |pages[p].slots| ==> pages[p].slots[i].key != k
    ensures forall e :: e in Chain(pages, g.leaves) ==> e.key != k
  {
    hide KidsOk, Up, Down, PendingOk, EntryOk, LeafOrder, Separators, Chain;
    LaterLeavesBelow(pages, root, g, p, k);
    forall e | e in Chain(pages, g.leaves)
      ensures e.key != k
    {
      ChainSource(pages, g.leaves, e);
      var j :| 0 <= j < |g.leaves| && e in pages[g.leaves[j]].slots;
      var b := g.info[p].fst;
      assert g.leaves[b] == p && g.info[p].end == b + 1;
      if j < b {
        assert AllLess(pages[g.leaves[j]].slots, k);
      } else if j > b {
        assert AllGreater(pages[g.leaves[j]].slots, k);
      }
    }
  }

  lemma {:induction false} AbsentFromMap(pages: Pages, g: Shape, k: int)
    requires LeafOrder(pages, g) && Stored(pages, g.leaves)
    requires forall e :: e in Chain(pages, g.leaves) ==> e.key != k
    ensures k !in MapOf(Chain(pages, g.leaves))
  {
    hide MapOf;
    ChainAscends(pages, g);
    MapOfSorted(Chain(pages, g.leaves));
  }

  /** Writing one leaf changes the chain in one place. */
  lemma {:induction false} LeafWriteChain(pages: Pages, pages': Pages, leaves: seq<int>, j: int, n: Node)
    requires Stored(pages, leaves) && 0 <= j < |leaves| && pages' == pages[leaves[j] := n]
    requires forall m :: 0 <= m < |leaves| && m != j ==> leaves[m] != leaves[j]
    ensures Stored(pages', leaves)
    ensures Chain(pages, leaves) == Chain(pages, leaves[..j]) + pages[leaves[j]].slots + Chain(pages, leaves[j + 1..])
    ensures Chain(pages', leaves) == Chain(pages, leaves[..j]) + n.slots + Chain(pages, leaves[j + 1..])
  {
    ChainAt(pages, leaves, j);
    ChainAt(pages', leaves, j);
    ChainKept(pages, pages', leaves[..j]);
    ChainKept(pages, pages', leaves[j + 1..]);
  }

  lemma {:induction false} InsertContents(pages: Pages, pages': Pages, root: int, g: Shape, p: int, pos: int, e: Entry)
    requires Shaped(pages, root, g, Attached) && Ordered(pages, root, g, NO_PAGE) && Ring(pages, g.leaves)
    requires OnRoute(pages, g, e.key, p, 0) && g.info[p].lvl == 0
    requires IsLowerBound(pages[p].slots, e.key, pos) && (pos < |pages[p].slots| ==> pages[p].slots[pos].key != e.key)
    requires pages' == pages[p := pages[p].(slots := InsertAt(pages[p].slots, pos, e))]
    ensures Stored(pages', g.leaves)
    ensures e.key !in MapOf(Chain(pages, g.leaves))
    ensures MapOf(Chain(pages', g.leaves)) == MapOf(Chain(pages, g.leaves))[e.key := e.rid]
  {
    hide KidsOk, Up, Down, PendingOk, EntryOk, Separators, Chain, MapOf, Typed;
    var j := g.info[p].fst;
    assert g.leaves[j] == p;
    LeafSorted(pages, root, g, p);
    assert forall i :: pos <= i < |pages[p].slots| ==> e.key < pages[p].slots[i].key;
    LeafInsertKeepsOrder(pages, pages', root, g, p, pos, e);
    LeafWriteChain(pages, pages', g.leaves, j, pages'[p]);
    KeyAbsent(pages, root, g, p, e.key);
    ChainAscends(pages, g);
    ChainAscends(pages', g);
    InsertMembers(Chain(pages, g.leaves[..j]), pages[p].slots, Chain(pages, g.leaves[j + 1..]), pos, e);
    MapInsert(Chain(pages, g.leaves), Chain(pages', g.leaves), e);
  }

  lemma {:induction false} InsertMembers(a: seq<Entry>, s: seq<Entry>, b: seq<Entry>, pos: int, e: Entry)
    requires 0 <= pos <= |s|
    ensures forall x :: x in a + InsertAt(s, pos, e) + b <==> x in a + s + b || x == e
  {
    assert s == s[..pos] + s[pos..];
  }

  lemma {:induction false} InsertSound(
      order: int, pages: Pages, pages': Pages, root: int, g: Shape, p: int, pos: int, e: Entry)
    requires Sound(order, pages, root, g, Attached, NO_PAGE, NO_PAGE, NO_PAGE)
    requires OnRoute(pages, g, e.key, p, 0) && g.info[p].lvl == 0
    requires IsLowerBound(pages[p].slots, e.key, pos) && (pos < |pages[p].slots| ==> pages[p].slots[pos].key != e.key)
    requires pages' == pages[p := pages[p].(slots := InsertAt(pages[p].slots, pos, e))]
    ensures Sound(order, pages', root, g, Attached, p, p, NO_PAGE)
  {
    hide KidsOk, Up, Down, PendingOk, EntryOk, Separators, LeafLevel, Ring;
    LeafSorted(pages, root, g, p);
    assert forall i :: pos <= i < |pages[p].slots| ==> e.key < pages[p].slots[i].key;
    LeafInsertKeepsOrder(pages, pages', root, g, p, pos, e);
    RingKept(pages, pages', g.leaves);
    assert Sized(order, pages', root, g, p, NO_PAGE);
  }

  /** If the first key of the leaf did not change, its separator is still right. */
  lemma {:induction false} FirstKept(pages: Pages, pages': Pages, root: int, g: Shape, p: int, pos: int, e: Entry)
    requires Shaped(pages, root, g, Attached) && Ordered(pages, root, g, NO_PAGE)
    requires Shaped(pages', root, g, Attached) && Ordered(pages', root, g, p)
    requires p in g.info && g.info[p].lvl == 0 && 0 < pos <= |pages[p].slots|
    requires pages' == pages[p := pages[p].(slots := InsertAt(pages[p].slots, pos, e))]
    ensures Ordered(pages', root, g, NO_PAGE)
  {
    hide KidsOk, Up, Down, PendingOk, LeafLevel, LeafOrder;
    forall q, i | Inner(pages', g, q) && 0 <= i < |pages'[q].slots|
      ensures EntryOk(pages', g, NO_PAGE, pages'[q].slots[i])
    {
      assert Inner(pages, g, q) && q != p;
      assert EntryOk(pages, g, NO_PAGE, pages[q].slots[i]);
      assert EntryOk(pages', g, p, pages'[q].slots[i]);
    }
  }

  lemma {:induction false} LastLeaf(leaves: seq<int>, ls: seq<int>, p: int, q: int)
    requires p in leaves && (forall i, j :: 0 <= i < j < |ls| ==> ls[i] != ls[j])
    requires exists j :: 0 <= j < |leaves| && leaves[j] == p && ls == leaves[..j + 1] + [q] + leaves[j + 1..]
    ensures ls[0] == leaves[0]
    ensures ls[|ls| - 1] == if leaves[|leaves| - 1] == p then q else leaves[|leaves| - 1]
  {
    var j :| 0 <= j < |leaves| && leaves[j] == p && ls == leaves[..j + 1] + [q] + leaves[j + 1..];
    assert ls[j] == p;
    if j + 1 < |leaves| { assert ls[|ls| - 1] == leaves[|leaves| - 1]; }
  }

  /** What insert_into_parent finds around the split node. */
  lemma {:induction false} PendingKnown(pages: Pages, root: int, g: Shape, l: int, q: int)
    requires Shaped(pages, root, g, Pending(l, q)) && Ordered(pages, root, g, NO_PAGE)
    ensures l in g.info && l in pages && q in g.info && q in pages && root in g.info && l != q
    ensures pages[l].parent == NO_PAGE <==> l == root
    ensures l != root ==> Inner(pages, g, pages[l].parent) && g.info[pages[l].parent].lvl == g.info[l].lvl + 1
    ensures l != root ==> g.info[pages[l].parent].lvl <= g.info[root].lvl
    ensures |pages[q].slots| > 0
  {
    hide LeafOrder, Separators;
    if l != root {
      var a := pages[l].parent;
      assert Inner(pages, g, a) && IsKid(pages[a].slots, l);
      var i :| 0 <= i < |pages[a].slots| && Kid(pages[a].slots, i) == l;
      KidFacts(pages, g, Pending(l, q), a, i);
    }
  }

  lemma {:induction false} EntryOf(pages: Pages, root: int, g: Shape, l: int, q: int, a: int) returns (i: int)
    requires Shaped(pages, root, g, Pending(l, q)) && l in g.info && l in pages && l != root && a == pages[l].parent
    ensures Inner(pages, g, a) && 0 <= i < |pages[a].slots| && Kid(pages[a].slots, i) == l
  {
    assert Inner(pages, g, a) && IsKid(pages[a].slots, l);
    i :| 0 <= i < |pages[a].slots| && Kid(pages[a].slots, i) == l;
  }

  lemma {:induction false} NotOver(order: int, pages: Pages, root: int, g: Shape, a: int)
    requires Sized(order, pages, root, g, a, NO_PAGE) && a in pages && |pages[a].slots| != order
    ensures Sized(order, pages, root, g, NO_PAGE, NO_PAGE)
  {
  }

  lemma {:induction false} AttachSized(
      order: int, pages: Pages, pages': Pages, root: int, g: Shape, x: Orphan, a: int, i: int)
    requires order >= 4 && Sized(order, pages, root, g, NO_PAGE, NO_PAGE) && Attach(pages, pages', a, i, x)
    requires Typed(pages, g)
    ensures Sized(order, pages', root, g, a, NO_PAGE)
  {
  }

  lemma {:induction false} AttachSound(
      order: int, pages: Pages, pages': Pages, root: int, g: Shape, l: int, q: int, a: int, i: int)
    requires Sound(order, pages, root, g, Pending(l, q), NO_PAGE, NO_PAGE, NO_PAGE)
    requires Boundary(pages, g, q) && Inner(pages, g, a) && Attach(pages, pages', a, i, Pending(l, q))
    ensures Sound(order, pages', root, g, Attached, NO_PAGE, a, NO_PAGE)
    ensures Chain(pages', g.leaves) == Chain(pages, g.leaves) && a in g.info
  {
    hide KidsOk, Up, Down, EntryOk, Ring, LeafOrder, LeafLevel, Sized;
    AttachShaped(pages, pages', root, g, Pending(l, q), a, i);
    AttachOrdered(pages, pages', root, g, Pending(l, q), a, i);
    AttachSized(order, pages, pages', root, g, Pending(l, q), a, i);
    RingKept(pages, pages', g.leaves);
    InnerWriteKeepsLeaves(pages, pages', g, a, pages'[a]);
    RingStored(pages, g.leaves);
    ChainKept(pages, pages', g.leaves);
  }

  lemma {:induction false} NewRootStep(pages: Pages, pages': Pages, root: int, g: Shape, l: int, q: int, r: int)
    requires l == root && l in pages && q in pages && l != q && r !in pages && r >= 2
    requires |pages[l].slots| > 0 && |pages[q].slots| > 0
    requires var n := Node(false, NO_PAGE, 0, 0,
               [Entry(pages[l].slots[0].key, Rid(l, -1)), Entry(pages[q].slots[0].key, Rid(q, -1))]);
             pages' == pages[r := n][l := pages[l].(parent := r)][q := pages[q].(parent := r)]
    ensures NewRoot(pages, pages', root, r, Pending(l, q)) && SameLinks(pages, pages')
    ensures pages'.Keys == pages.Keys + {r}
  {
  }

  lemma {:induction false} NewRootSized(
      order: int, pages: Pages, pages': Pages, root: int, g: Shape, l: int, q: int, r: int)
    requires order >= 4 && Sized(order, pages, root, g, NO_PAGE, NO_PAGE)
    requires NewRoot(pages, pages', root, r, Pending(l, q))
    requires Typed(pages, g) && root in g.info && |pages[root].slots| >= order / 2
    ensures Sized(order, pages', r, NewRootShape(g, root, r), NO_PAGE, NO_PAGE)
  {
  }

  lemma {:induction false} NewRootSound(
      order: int, pages: Pages, pages': Pages, root: int, g: Shape, l: int, q: int, r: int)
    requires Sound(order, pages, root, g, Pending(l, q), NO_PAGE, NO_PAGE, NO_PAGE) && Boundary(pages, g, q)
    requires l == root && l in g.info && l in pages && q in pages && l != q && r !in pages && r >= 2
    requires |pages[l].slots| >= order / 2
    requires var n := Node(false, NO_PAGE, 0, 0,
               [Entry(pages[l].slots[0].key, Rid(l, -1)), Entry(pages[q].slots[0].key, Rid(q, -1))]);
             pages' == pages[r := n][l := pages[l].(parent := r)][q := pages[q].(parent := r)]
    ensures Sound(order, pages', r, NewRootShape(g, root, r), Attached, NO_PAGE, NO_PAGE, NO_PAGE)
    ensures Chain(pages', g.leaves) == Chain(pages, g.leaves) && pages'.Keys == pages.Keys + {r}
  {
    hide KidsOk, Up, Down, EntryOk, Ring, LeafOrder, LeafLevel, Sized, Typed, NewRoot, SameLinks;
    NewRootStep(pages, pages', root, g, l, q, r);
    NewRootShaped(pages, pages', root, g, Pending(l, q), r);
    NewRootOrdered(pages, pages', root, g, Pending(l, q), r);
    NewRootSized(order, pages, pages', root, g, l, q, r);
    RingKept(pages, pages', g.leaves);
    RingStored(pages, g.leaves);
    RingStored(pages', g.leaves);
    ChainKept(pages, pages', g.leaves);
  }

  lemma {:induction false} KidAppend(s: seq<Entry>, e: Entry)
    ensures forall c :: IsKid(s + [e], c) <==> IsKid(s, c) || c == e.rid.pageNo
  {
    forall c
      ensures IsKid(s + [e], c) <==> IsKid(s, c) || c == e.rid.pageNo
    {
      KidConcat(s, [e], c);
      assert Kid([e], 0) == e.rid.pageNo;
    }
  }

  lemma {:induction false} KidsStored(pages: Pages, g: Shape, p: int, mid: int)
    requires Down(pages, g, Attached) && Inner(pages, g, p) && 0 <= mid <= |pages[p].slots|
    ensures forall i :: 0 <= i < |pages[p].slots| - mid ==>
              Kid(pages[p].slots[mid..], i) in pages && Kid(pages[p].slots[mid..], i) != p
  {
    forall i | 0 <= i < |pages[p].slots| - mid
      ensures Kid(pages[p].slots[mid..], i) in pages && Kid(pages[p].slots[mid..], i) != p
    {
      KidFacts(pages, g, Attached, p, mid + i);
    }
  }

  /** The successor link of a leaf stays inside the ring. */
  lemma {:induction false} NextLeaf(pages: Pages, leaves: seq<int>, j: int)
    requires Ring(pages, leaves) && 0 <= j < |leaves|
    ensures pages[leaves[j]].next in pages && pages[leaves[j]].next != leaves[j]
    ensures j + 1 < |leaves| ==> pages[leaves[j]].next == leaves[j + 1]
    ensures j + 1 == |leaves| ==> pages[leaves[j]].next == LEAF_HEADER_PAGE
    ensures pages[leaves[j]].prev in pages && pages[leaves[j]].prev != leaves[j]
    ensures j > 0 ==> pages[leaves[j]].prev == leaves[j - 1]
  {
    if j + 1 < |leaves| { assert leaves[j + 1] != leaves[j]; }
    if j > 0 { assert leaves[j - 1] != leaves[j]; }
  }

  // ------------------------------------------------------------- leaf split

  ghost predicate LeafSplitStep(pages: Pages, pages': Pages, p: int, q: int, mid: int) {
    && p in pages && q !in pages && q >= 2 && 0 < mid < |pages[p].slots| && pages[p].isLeaf
    && var n := pages[p];
    && n.next in pages && n.next != p
    && var cut := pages[q := Node(true, n.parent, p, n.next, n.slots[mid..])]
                       [p := n.(slots := n.slots[..mid], next := q)];
    && pages' == cut[n.next := cut[n.next].(prev := q)]
  }

  lemma {:induction false} LeafSplitStepOk(pages: Pages, pages': Pages, p: int, q: int, mid: int)
    requires LeafSplitStep(pages, pages', p, q, mid)
    ensures LeafSplit(pages, pages', p, q, mid) && LinkedIn(pages, pages', p, q)
    ensures pages'.Keys == pages.Keys + {q} && |pages'[p].slots| == mid
  {
  }

  lemma {:induction false} LeafSplitSound(
      order: int, pages: Pages, pages': Pages, root: int, g: Shape, g': Shape, p: int, q: int, mid: int)
    requires Sound(order, pages, root, g, Attached, NO_PAGE, p, NO_PAGE)
    requires p in g.info && g.info[p].lvl == 0 && |pages[p].slots| == order && mid == order / 2
    requires LeafSplitStep(pages, pages', p, q, mid) && g' == LeafSplitShape(g, p, q)
    ensures Sound(order, pages', root, g', Pending(p, q), NO_PAGE, NO_PAGE, NO_PAGE)
    ensures Boundary(pages', g', q)
    ensures Chain(pages', g'.leaves) == Chain(pages, g.leaves)
    ensures p in g'.info && root in g'.info && g'.info[p].lvl == 0 && g'.info[root].lvl == g.info[root].lvl
    ensures pages'.Keys == pages.Keys + {q} && |pages'[p].slots| == order / 2
  {
    hide KidsOk, Up, Down, EntryOk, LeafSplitStep, Ring, Typed, LeafLevel, LeafOrder, Separators, LeafSplit, LinkedIn,
         Grown, LeafSplitShape, Agree, Boundary, Sized, PendingOk;
    LeafSplitStepOk(pages, pages', p, q, mid);
    assert q !in g.info by { FreshPage(pages, g, q); }
    LeafSplitShapeGrown(g, p, q);
    GrownFacts(pages, root, g, g', p, q);
    LeafSplitShaped(pages, pages', root, g, g', p, q, mid);
    LeafSplitOrdered(pages, pages', root, g, g', p, q, mid);
    LeafSplitSized(order, pages, pages', root, g, g', p, q, mid);
    LeafSplitRing(pages, pages', g, g', p, q, mid);
    LeafSplitBoundary(pages', root, g', p, q);
  }

  /** What Split needs to know about the node it is given. */
  lemma {:induction false} NodeKnown(pages: Pages, root: int, g: Shape, p: int)
    requires Shaped(pages, root, g, Attached) && p in g.info && Stored(pages, g.leaves)
    ensures p in pages && root in g.info && (pages[p].isLeaf <==> g.info[p].lvl == 0)
    ensures g.info[p].lvl == 0 ==> g.info[p].fst < |g.leaves| && g.leaves[g.info[p].fst] == p
    ensures g.info[p].lvl > 0 ==> Inner(pages, g, p)
  {
  }

  lemma {:induction false} FreshPage(pages: Pages, g: Shape, q: int)
    requires Typed(pages, g) && q !in pages
    ensures q !in g.info
  {
  }

  lemma {:induction false} GrownFacts(pages: Pages, root: int, g: Shape, g': Shape, p: int, q: int)
    requires Grown(g, g', p, q) && Up(pages, root, g, Attached)
    ensures p in g'.info && root in g'.info && g'.info[p].lvl == 0 && g'.info[root].lvl == g.info[root].lvl
    ensures q in g'.info && g'.info[q].lvl == 0 && q != root
  {
  }

  lemma {:induction false} LeafSplitSized(
      order: int, pages: Pages, pages': Pages, root: int, g: Shape, g': Shape, p: int, q: int, mid: int)
    requires order >= 4 && Typed(pages, g) && Sized(order, pages, root, g, p, NO_PAGE) && Grown(g, g', p, q)
    requires LeafSplit(pages, pages', p, q, mid) && |pages[p].slots| == order && mid == order / 2
    ensures Sized(order, pages', root, g', NO_PAGE, NO_PAGE)
  {
    forall r | r in g'.info && r in pages'
      ensures |pages'[r].slots| <= order - 1
      ensures r != root ==> |pages'[r].slots| >= order / 2
      ensures r == root && g'.info[r].lvl > 0 ==> |pages'[r].slots| >= 2
    {
      if r != q && r != p {
        assert r in g.info && r in pages && SameNode(pages[r], pages'[r]);
      }
    }
  }

  lemma {:induction false} LeafSplitRing(pages: Pages, pages': Pages, g: Shape, g': Shape, p: int, q: int, mid: int)
    requires Typed(pages, g) && LeafLevel(g) && Grown(g, g', p, q) && Ring(pages, g.leaves)
    requires LeafSplit(pages, pages', p, q, mid) && LinkedIn(pages, pages', p, q)
    ensures Ring(pages', g'.leaves) && Chain(pages', g'.leaves) == Chain(pages, g.leaves)
  {
    var j := g.info[p].fst;
    assert g.leaves[j] == p;
    RingInsert(pages, pages', g.leaves, g'.leaves, j, q);
    LeafSplitChain(pages, pages', g.leaves, g'.leaves, j, p, q, mid);
  }

  lemma {:induction false} LeafSplitChain(
      pages: Pages, pages': Pages, leaves: seq<int>, ls: seq<int>, j: int, p: int, q: int, mid: int)
    requires LeafSplit(pages, pages', p, q, mid) && Stored(pages, leaves) && Stored(pages', ls)
    requires 0 <= j < |leaves| && leaves[j] == p && |ls| == |leaves| + 1 && ls[j + 1] == q
    requires forall m :: 0 <= m <= j ==> ls[m] == leaves[m]
    requires forall m :: j + 1 < m < |ls| ==> ls[m] == leaves[m - 1]
    requires forall m :: 0 <= m < |leaves| && m != j ==> leaves[m] != p
    ensures Chain(pages', ls) == Chain(pages, leaves)
  {
    var a, b := leaves[..j], leaves[j + 1..];
    assert leaves == a + [p] + b;
    assert ls == a + [p, q] + b;
    ChainOne(pages, p);
    ChainTwo(pages', p, q);
    assert pages[p].slots == pages'[p].slots + pages'[q].slots;
    forall m | 0 <= m < |leaves| && m != j
      ensures leaves[m] in pages && leaves[m] in pages' && pages'[leaves[m]].slots == pages[leaves[m]].slots
    {
      var c := leaves[m];
      assert c in pages && c != p;
    }
    ChainReplace(pages, pages', a, [p], [p, q], b);
  }

  lemma {:induction false} LeafSplitBoundary(pages: Pages, root: int, g: Shape, p: int, q: int)
    requires Typed(pages, g) && LeafLevel(g) && LeafOrder(pages, g) && Filled(pages, root, g)
    requires q in g.info && g.info[q].lvl == 0 && q != root
    ensures Boundary(pages, g, q)
  {
    var b := g.info[q].fst;
    assert g.leaves[b] == q;
    LeafAtMost(pages, g, pages[q].slots[0].key, b);
    forall j | 0 <= j < b && j < |g.leaves| && g.leaves[j] in pages
      ensures AllLess(pages[g.leaves[j]].slots, pages[q].slots[0].key)
    {
      assert Precedes(pages[g.leaves[j]].slots, pages[g.leaves[b]].slots);
    }
  }

  // ------------------------------------------------------------- inner split

  lemma {:induction false} InnerSplitSound(
      order: int, pages: Pages, cut: Pages, pages': Pages, root: int, g: Shape, p: int, q: int, mid: int)
    requires Sound(order, pages, root, g, Attached, NO_PAGE, p, NO_PAGE)
    requires Inner(pages, g, p) && |pages[p].slots| == order && mid == order / 2 && q !in pages && q >= 2
    requires var n := pages[p];
             cut == pages[q := Node(false, n.parent, 0, 0, n.slots[mid..])][p := n.(slots := n.slots[..mid])]
    requires OnlyParents(cut, pages', pages[p].slots[mid..], q)
    requires Kid(pages[p].slots, mid) in g.info
    ensures var g' := InnerSplitShape(pages, g, p, q, mid);
            && Sound(order, pages', root, g', Pending(p, q), NO_PAGE, NO_PAGE, NO_PAGE)
            && Boundary(pages', g', q)
            && Chain(pages', g'.leaves) == Chain(pages, g.leaves)
            && p in g'.info && root in g'.info && g'.info[p].lvl == g.info[p].lvl
                 && g'.info[root].lvl == g.info[root].lvl
    ensures pages'.Keys == pages.Keys + {q} && |pages'[p].slots| == order / 2
  {
    hide KidsOk, Up, Down, EntryOk, Ring, LeafOrder;
    var g' := InnerSplitShape(pages, g, p, q, mid);
    RootKnown(pages, root, g);
    InnerSplitStep(pages, cut, pages', root, g, p, q, mid);
    InnerSplitShaped(pages, pages', root, g, p, q, mid);
    InnerSplitOrdered(pages, pages', root, g, p, q, mid);
    RingKept(pages, pages', g.leaves);
    ChainKept(pages, pages', g.leaves);
    InnerBoundary(pages', root, g', p, q);
    InnerSplitSized(order, pages, pages', root, g, p, q, mid);
  }

  lemma {:induction false} InnerSplitStep(
      pages: Pages, cut: Pages, pages': Pages, root: int, g: Shape, p: int, q: int, mid: int)
    requires Shaped(pages, root, g, Attached)
    requires Inner(pages, g, p) && 0 < mid < |pages[p].slots| && q !in pages && q >= 2
    requires var n := pages[p];
             cut == pages[q := Node(false, n.parent, 0, 0, n.slots[mid..])][p := n.(slots := n.slots[..mid])]
    requires OnlyParents(cut, pages', pages[p].slots[mid..], q)
    ensures InnerSplit(pages, pages', p, q, mid) && SameLinks(pages, pages')
    ensures pages'.Keys == pages.Keys + {q}
  {
    hide Up, LeafLevel, KidsOk;
    KidsStored(pages, g, p, mid);
    assert !IsKid(pages[p].slots[mid..], p) && !IsKid(pages[p].slots[mid..], q);
  }

  lemma {:induction false} InnerSplitSized(
      order: int, pages: Pages, pages': Pages, root: int, g: Shape, p: int, q: int, mid: int)
    requires order >= 4 && Sized(order, pages, root, g, p, NO_PAGE) && Typed(pages, g)
    requires InnerSplit(pages, pages', p, q, mid) && p in g.info && |pages[p].slots| == order && mid == order / 2
    requires Kid(pages[p].slots, mid) in g.info
    ensures Sized(order, pages', root, InnerSplitShape(pages, g, p, q, mid), NO_PAGE, NO_PAGE)
  {
  }

  lemma {:induction false} InnerBoundary(pages: Pages, root: int, g: Shape, p: int, q: int)
    requires Shaped(pages, root, g, Pending(p, q)) && Ordered(pages, root, g, NO_PAGE) && Inner(pages, g, q)
    ensures Boundary(pages, g, q)
  {
    hide Up, LeafLevel, LeafOrder, KidsOk;
    assert q != root && |pages[q].slots| > 0;
    KidFacts(pages, g, Pending(p, q), q, 0);
    assert EntryOk(pages, g, NO_PAGE, pages[q].slots[0]);
    SeparatorAtMost(pages, root, g, Pending(p, q), q, 0);
  }

  lemma {:induction false} EqualRestores(pages: Pages, root: int, g: Shape, curr: int, parent: int, rank: int)
    requires Shaped(pages, root, g, Attached) && Ordered(pages, root, g, curr)
    requires Inner(pages, g, parent) && 0 <= rank < |pages[parent].slots| && Kid(pages[parent].slots, rank) == curr
    requires curr in g.info && |pages[curr].slots| > 0
    requires pages[parent].slots[rank].key <= pages[curr].slots[0].key
    ensures Ordered(pages, root, g, NO_PAGE)
  {
    hide LeafLevel, LeafOrder, Up;
    KidFacts(pages, g, Attached, parent, rank);
    forall q, i | Inner(pages, g, q) && 0 <= i < |pages[q].slots|
      ensures EntryOk(pages, g, NO_PAGE, pages[q].slots[i])
    {
      assert EntryOk(pages, g, curr, pages[q].slots[i]);
      KidFacts(pages, g, Attached, q, i);
      if Kid(pages[q].slots, i) == curr {
        OnlyEntry(pages, root, g, parent, rank, q, i);
      }
    }
  }
}
