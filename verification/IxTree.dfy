/** The B+ tree as a set of index pages, and what makes such a set a well-formed tree.

    The pages are flat: a node knows its parent, an inner node stores one (key, child)
    slot per child, and the leaves form a ring through the leaf header page. The ghost
    Shape records, for every reachable page, its level and the half-open interval of
    leaf positions it covers. All invariants are local to a page and its children. */
module IxTree {
  import opened Basics

  const LEAF_HEADER_PAGE: int := 1
  const INIT_ROOT_PAGE: int := 2

  datatype Entry = Entry(key: int, rid: Rid)
  datatype Node = Node(isLeaf: bool, parent: int, prev: int, next: int, slots: seq<Entry>)
  type Pages = map<int, Node>

  datatype Info = Info(lvl: nat, fst: nat, end: nat)
  datatype Shape = Shape(info: map<int, Info>, leaves: seq<int>)

  /** After a split the new right node is not yet known to any parent. */
  datatype Orphan = Attached | Pending(left: int, right: int)

  function Kid(s: seq<Entry>, i: int): int
    requires 0 <= i < |s|
  {
    s[i].rid.pageNo
  }

  // ------------------------------------------------------------- structure

  ghost predicate Typed(pages: Pages, g: Shape) {
    forall p :: p in g.info ==>
      && p in pages && p >= 2
      && (pages[p].isLeaf <==> g.info[p].lvl == 0)
      && g.info[p].fst < g.info[p].end <= |g.leaves|
  }

  ghost predicate LeafLevel(g: Shape) {
    && (forall j :: 0 <= j < |g.leaves| ==>
          g.leaves[j] in g.info && g.info[g.leaves[j]] == Info(0, j, j + 1))
    && (forall p :: p in g.info && g.info[p].lvl == 0 ==>
          && g.info[p].fst < |g.leaves|
          && g.leaves[g.info[p].fst] == p)
  }

  /** The end of the interval that the parent of `p` accounts to `p`. */
  ghost function Ext(g: Shape, x: Orphan, p: int): nat
    requires p in g.info
  {
    if x.Pending? && x.left == p && x.right in g.info then g.info[x.right].end else g.info[p].end
  }

  ghost predicate Inner(pages: Pages, g: Shape, p: int) {
    p in g.info && p in pages && g.info[p].lvl > 0
  }

  ghost predicate KidOk(pages: Pages, g: Shape, x: Orphan, p: int, c: int, first: bool, last: bool)
    requires p in g.info
  {
    && c in g.info && c in pages
    && pages[c].parent == p
    && g.info[c].lvl + 1 == g.info[p].lvl
    && (first ==> g.info[c].fst == g.info[p].fst)
    && (last ==> Ext(g, x, c) == g.info[p].end)
  }

  /** The children of `p` are its own, one level down, and tile its interval. */
  ghost predicate KidsOk(pages: Pages, g: Shape, x: Orphan, p: int)
    requires Inner(pages, g, p)
  {
    var s := pages[p].slots;
    && |s| > 0
    && (forall i :: 0 <= i < |s| ==> KidOk(pages, g, x, p, Kid(s, i), i == 0, i == |s| - 1))
    && (forall i, j :: 0 <= i < j < |s| ==>
          && Kid(s, i) in g.info && Kid(s, j) in g.info
          && Ext(g, x, Kid(s, i)) <= g.info[Kid(s, j)].fst
          && (j == i + 1 ==> Ext(g, x, Kid(s, i)) == g.info[Kid(s, j)].fst))
  }

  ghost predicate Down(pages: Pages, g: Shape, x: Orphan) {
    forall p :: Inner(pages, g, p) ==> KidsOk(pages, g, x, p)
  }

  lemma KidFacts(pages: Pages, g: Shape, x: Orphan, p: int, i: int)
    requires Down(pages, g, x) && Inner(pages, g, p) && 0 <= i < |pages[p].slots|
    ensures KidOk(pages, g, x, p, Kid(pages[p].slots, i), i == 0, i == |pages[p].slots| - 1)
  {
    assert KidsOk(pages, g, x, p);
  }

  lemma KidPair(pages: Pages, g: Shape, x: Orphan, p: int, i: int, j: int)
    requires Down(pages, g, x) && Inner(pages, g, p) && 0 <= i < j < |pages[p].slots|
    ensures Kid(pages[p].slots, i) in g.info && Kid(pages[p].slots, j) in g.info
    ensures Ext(g, x, Kid(pages[p].slots, i)) <= g.info[Kid(pages[p].slots, j)].fst
    ensures j == i + 1 ==> Ext(g, x, Kid(pages[p].slots, i)) == g.info[Kid(pages[p].slots, j)].fst
  {
    assert KidsOk(pages, g, x, p);
  }

  ghost predicate IsKid(s: seq<Entry>, c: int) {
    exists i :: 0 <= i < |s| && Kid(s, i) == c
  }

  ghost predicate Up(pages: Pages, root: int, g: Shape, x: Orphan) {
    && root in g.info && root in pages
    && pages[root].parent == NO_PAGE
    && g.info[root].fst == 0
    && Ext(g, x, root) == |g.leaves|
    && (forall p :: p in g.info ==> g.info[p].lvl <= g.info[root].lvl)
    && (forall p :: p in g.info && p in pages && p != root && !(x.Pending? && p == x.right) ==>
          Inner(pages, g, pages[p].parent) && IsKid(pages[pages[p].parent].slots, p))
  }

  ghost predicate PendingOk(pages: Pages, root: int, g: Shape, x: Orphan) {
    x.Pending? ==>
      && x.left in g.info && x.right in g.info && x.left != x.right && x.right != root
      && x.left in pages && x.right in pages
      && pages[x.right].parent == pages[x.left].parent
      && g.info[x.right].lvl == g.info[x.left].lvl
      && g.info[x.right].fst == g.info[x.left].end
  }

  ghost predicate Shaped(pages: Pages, root: int, g: Shape, x: Orphan) {
    && Typed(pages, g)
    && LeafLevel(g)
    && PendingOk(pages, root, g, x)
    && Down(pages, g, x)
    && Up(pages, root, g, x)
  }

  // ------------------------------------------------------------- key order

  ghost predicate Sorted(s: seq<Entry>) {
    forall i, j :: 0 <= i < j < |s| ==> s[i].key < s[j].key
  }

  ghost predicate AllLess(s: seq<Entry>, k: int) {
    forall i :: 0 <= i < |s| ==> s[i].key < k
  }

  ghost predicate AllGreater(s: seq<Entry>, k: int) {
    forall i :: 0 <= i < |s| ==> k < s[i].key
  }

  ghost predicate AllAtLeast(s: seq<Entry>, k: int) {
    forall i :: 0 <= i < |s| ==> k <= s[i].key
  }

  ghost predicate Precedes(s: seq<Entry>, t: seq<Entry>) {
    forall i, j :: 0 <= i < |s| && 0 <= j < |t| ==> s[i].key < t[j].key
  }

  lemma PartPrecedes(s: seq<Entry>, t: seq<Entry>, s': seq<Entry>, t': seq<Entry>)
    requires Precedes(s, t)
    requires (forall e :: e in s' ==> e in s) && (forall e :: e in t' ==> e in t)
    ensures Precedes(s', t')
  {
    forall i, j | 0 <= i < |s'| && 0 <= j < |t'|
      ensures s'[i].key < t'[j].key
    {
      assert s'[i] in s && t'[j] in t;
    }
  }

  /** All leaf keys at positions before `b` are below `k`. */
  ghost predicate Above(pages: Pages, g: Shape, k: int, b: int) {
    forall j :: 0 <= j < b && j < |g.leaves| && g.leaves[j] in pages ==> AllLess(pages[g.leaves[j]].slots, k)
  }

  /** All leaf keys at positions from `b` on are at least `k`. */
  ghost predicate AtMost(pages: Pages, g: Shape, k: int, b: int) {
    forall j :: 0 <= b <= j < |g.leaves| && g.leaves[j] in pages ==> AllAtLeast(pages[g.leaves[j]].slots, k)
  }

  /** All leaf keys at positions from `b` on exceed `k`. */
  ghost predicate Below(pages: Pages, g: Shape, k: int, b: int) {
    forall j :: 0 <= b <= j < |g.leaves| && g.leaves[j] in pages ==> AllGreater(pages[g.leaves[j]].slots, k)
  }

  ghost predicate LeafOrder(pages: Pages, g: Shape) {
    && (forall j :: 0 <= j < |g.leaves| ==> g.leaves[j] in pages && Sorted(pages[g.leaves[j]].slots))
    && (forall i, j :: 0 <= i < j < |g.leaves| && g.leaves[i] in pages && g.leaves[j] in pages ==>
          Precedes(pages[g.leaves[i]].slots, pages[g.leaves[j]].slots))
  }

  ghost predicate Filled(pages: Pages, root: int, g: Shape) {
    forall p :: p in g.info && p in pages && (p != root || g.info[p].lvl > 0) ==> |pages[p].slots| > 0
  }

  /** What a separator entry promises: its key exceeds every leaf key before the child, and does
      not exceed the child's own first key. It need not equal that key: deletes leave it behind.
      `low` names a child whose separator may be too large. */
  ghost predicate EntryOk(pages: Pages, g: Shape, low: int, e: Entry) {
    var c := e.rid.pageNo;
    c in g.info && c in pages ==>
      && Above(pages, g, e.key, g.info[c].fst)
      && (c != low && |pages[c].slots| > 0 ==> e.key <= pages[c].slots[0].key)
  }

  ghost predicate Separators(pages: Pages, g: Shape, low: int) {
    forall p, i :: Inner(pages, g, p) && 0 <= i < |pages[p].slots| ==> EntryOk(pages, g, low, pages[p].slots[i])
  }

  ghost predicate Ordered(pages: Pages, root: int, g: Shape, low: int) {
    && LeafOrder(pages, g)
    && Filled(pages, root, g)
    && Separators(pages, g, low)
  }

  // ------------------------------------------------------------- derived order

  /** A separator does not exceed any key at or after the leaf it points to. */
  lemma {:induction false} SeparatorAtMost(pages: Pages, root: int, g: Shape, x: Orphan, p: int, i: int)
    requires Shaped(pages, root, g, x) && Ordered(pages, root, g, NO_PAGE)
    requires Inner(pages, g, p) && 0 <= i < |pages[p].slots|
    ensures Kid(pages[p].slots, i) in g.info
    ensures AtMost(pages, g, pages[p].slots[i].key, g.info[Kid(pages[p].slots, i)].fst)
    decreases g.info[p].lvl
  {
    var c := Kid(pages[p].slots, i);
    KidFacts(pages, g, x, p, i);
    assert EntryOk(pages, g, NO_PAGE, pages[p].slots[i]);
    if g.info[c].lvl > 0 {
      SeparatorAtMost(pages, root, g, x, c, 0);
      KidFacts(pages, g, x, c, 0);
      var leaf := g.leaves[g.info[c].fst];
      assert leaf != root && |pages[leaf].slots| > 0;
      assert AllAtLeast(pages[leaf].slots, pages[c].slots[0].key);
    } else {
      assert g.leaves[g.info[c].fst] == c;
    }
    LeafAtMost(pages, g, pages[p].slots[i].key, g.info[c].fst);
  }

  lemma LeafAtMost(pages: Pages, g: Shape, k: int, b: int)
    requires LeafOrder(pages, g) && 0 <= b < |g.leaves|
    requires |pages[g.leaves[b]].slots| > 0 && k <= pages[g.leaves[b]].slots[0].key
    ensures AtMost(pages, g, k, b)
  {
    var s := pages[g.leaves[b]].slots;
    forall j | b <= j < |g.leaves| && g.leaves[j] in pages
      ensures AllAtLeast(pages[g.leaves[j]].slots, k)
    {
      assert Sorted(s);
      if b < j {
        assert Precedes(s, pages[g.leaves[j]].slots);
      }
    }
  }

  /** Hence the keys of an inner node strictly ascend. */
  lemma {:induction false} InnerSorted(pages: Pages, root: int, g: Shape, x: Orphan, p: int)
    requires Shaped(pages, root, g, x) && Ordered(pages, root, g, NO_PAGE)
    requires Inner(pages, g, p)
    ensures Sorted(pages[p].slots)
  {
    forall i, j | 0 <= i < j < |pages[p].slots|
      ensures pages[p].slots[i].key < pages[p].slots[j].key
    {
      SeparatorAtMost(pages, root, g, x, p, i);
      KidFacts(pages, g, x, p, i);
      KidFacts(pages, g, x, p, j);
      KidPair(pages, g, x, p, i, j);
      assert EntryOk(pages, g, NO_PAGE, pages[p].slots[j]);
      BoundaryOrder(pages, root, g, pages[p].slots[i].key, g.info[Kid(pages[p].slots, i)].fst,
                    pages[p].slots[j].key, g.info[Kid(pages[p].slots, j)].fst);
    }
  }

  /** Keys that bound different leaf positions are ordered like the positions. */
  lemma BoundaryOrder(pages: Pages, root: int, g: Shape, k: int, b: int, k': int, b': int)
    requires Typed(pages, g) && LeafLevel(g) && Filled(pages, root, g)
    requires 0 <= b < b' < |g.leaves| && root in g.info && (g.info[root].lvl == 0 ==> |g.leaves| == 1)
    requires AtMost(pages, g, k, b) && Above(pages, g, k', b')
    ensures k < k'
  {
    var leaf := g.leaves[b];
    assert leaf != root && |pages[leaf].slots| > 0;
    assert AllAtLeast(pages[leaf].slots, k) && AllLess(pages[leaf].slots, k');
    assert k <= pages[leaf].slots[0].key < k';
  }

  /** Rewriting an inner node leaves the leaves alone. */
  lemma InnerWriteKeepsLeaves(pages: Pages, pages': Pages, g: Shape, q: int, n: Node)
    requires Typed(pages, g) && LeafLevel(g) && Inner(pages, g, q) && pages' == pages[q := n]
    ensures LeavesKept(pages, pages', g)
  {
    forall j | 0 <= j < |g.leaves|
      ensures g.leaves[j] in pages && g.leaves[j] != q
    {
      var p := g.leaves[j];
      assert p in g.info && g.info[p].lvl == 0;
    }
  }

  ghost predicate LeavesKept(pages: Pages, pages': Pages, g: Shape) {
    forall j :: 0 <= j < |g.leaves| ==>
      g.leaves[j] in pages && g.leaves[j] in pages' && pages'[g.leaves[j]].slots == pages[g.leaves[j]].slots
  }
}
