/** What the steps of an insertion do to the tree: writing a leaf, refreshing
    separators upwards, splitting, and attaching the new node. */
module IxInsert {
  import opened Basics
  import opened IxTree
  import opened IxRoute

  function InsertAt(s: seq<Entry>, pos: int, e: Entry): (r: seq<Entry>)
    requires 0 <= pos <= |s|
    ensures |r| == |s| + 1 && r[pos] == e
    ensures forall i :: 0 <= i < pos ==> r[i] == s[i]
    ensures forall i :: pos < i < |r| ==> r[i] == s[i - 1]
  {
    s[..pos] + [e] + s[pos..]
  }

  /** Equal up to the links of the leaf ring. */
  ghost predicate SameNode(n: Node, m: Node) {
    n.isLeaf == m.isLeaf && n.parent == m.parent && n.slots == m.slots
  }

  ghost predicate Agree(pages: Pages, pages': Pages, except: set<int>) {
    forall r :: r in pages && r !in except ==> r in pages' && SameNode(pages[r], pages'[r])
  }

  /** Same pages, levels, parents and children; keys may differ. */
  ghost predicate SameSkeleton(pages: Pages, pages': Pages, g: Shape) {
    forall r :: r in g.info && r in pages ==>
      && r in pages'
      && pages[r].isLeaf == pages'[r].isLeaf
      && pages[r].parent == pages'[r].parent
      && (g.info[r].lvl > 0 ==> |pages[r].slots| == |pages'[r].slots|)
      && (g.info[r].lvl > 0 ==> forall i :: 0 <= i < |pages[r].slots| ==>
            Kid(pages[r].slots, i) == Kid(pages'[r].slots, i))
  }

  lemma SkeletonKeepsKids(pages: Pages, pages': Pages, g: Shape, x: Orphan, p: int)
    requires Inner(pages, g, p) && KidsOk(pages, g, x, p) && SameSkeleton(pages, pages', g)
    ensures Inner(pages', g, p) && KidsOk(pages', g, x, p)
  {
    assert forall i :: 0 <= i < |pages[p].slots| ==> Kid(pages[p].slots, i) == Kid(pages'[p].slots, i);
  }

  lemma SkeletonKeepsShape(pages: Pages, pages': Pages, root: int, g: Shape, x: Orphan)
    requires Shaped(pages, root, g, x) && SameSkeleton(pages, pages', g)
    ensures Shaped(pages', root, g, x)
  {
    forall p | Inner(pages', g, p)
      ensures KidsOk(pages', g, x, p)
    {
      assert Inner(pages, g, p) && KidsOk(pages, g, x, p);
      SkeletonKeepsKids(pages, pages', g, x, p);
    }
    forall p | p in g.info && p in pages' && p != root && !(x.Pending? && p == x.right)
      ensures Inner(pages', g, pages'[p].parent) && IsKid(pages'[pages'[p].parent].slots, p)
    {
      var a := pages[p].parent;
      assert Inner(pages, g, a) && IsKid(pages[a].slots, p);
      var i :| 0 <= i < |pages[a].slots| && Kid(pages[a].slots, i) == p;
      assert Kid(pages'[a].slots, i) == p;
    }
  }

  // ------------------------------------------------------------- writing a leaf

  lemma LaterLeavesBelow(pages: Pages, root: int, g: Shape, p: int, k: int)
    requires Shaped(pages, root, g, Attached) && Ordered(pages, root, g, NO_PAGE)
    requires OnRoute(pages, g, k, p, 0)
    ensures Below(pages, g, k, g.info[p].end)
  {
    forall j | g.info[p].end <= j < |g.leaves| && g.leaves[j] in pages
      ensures AllGreater(pages[g.leaves[j]].slots, k)
    {
      var q := g.leaves[j];
      assert q != root;
      var a := pages[q].parent;
      var m :| 0 <= m < |pages[a].slots| && Kid(pages[a].slots, m) == q;
      assert k < pages[a].slots[m].key;
      assert EntryOk(pages, g, NO_PAGE, pages[a].slots[m]);
      assert Sorted(pages[q].slots);
    }
  }

  /** Inserting a routed key into its leaf breaks nothing but, perhaps, the leaf's own separator. */
  lemma LeafInsertKeepsOrder(pages: Pages, pages': Pages, root: int, g: Shape, p: int, pos: int, e: Entry)
    requires Shaped(pages, root, g, Attached) && Ordered(pages, root, g, NO_PAGE)
    requires OnRoute(pages, g, e.key, p, 0) && g.info[p].lvl == 0
    requires 0 <= pos <= |pages[p].slots|
    requires forall i :: 0 <= i < pos ==> pages[p].slots[i].key < e.key
    requires forall i :: pos <= i < |pages[p].slots| ==> e.key < pages[p].slots[i].key
    requires pages' == pages[p := pages[p].(slots := InsertAt(pages[p].slots, pos, e))]
    ensures Shaped(pages', root, g, Attached)
    ensures Ordered(pages', root, g, p)
  {
    SkeletonKeepsShape(pages, pages', root, g, Attached);
    LaterLeavesBelow(pages, root, g, p, e.key);
    LeafInsertKeepsLeafOrder(pages, pages', g, g.info[p].fst, pos, e);
    LeafInsertKeepsSeparators(pages, pages', g, p, pos, e);
  }

  lemma LeafInsertKeepsLeafOrder(pages: Pages, pages': Pages, g: Shape, j: int, pos: int, e: Entry)
    requires LeafOrder(pages, g) && 0 <= j < |g.leaves|
    requires forall i :: 0 <= i < |g.leaves| && g.leaves[i] == g.leaves[j] ==> i == j
    requires Above(pages, g, e.key, j) && Below(pages, g, e.key, j + 1)
    requires 0 <= pos <= |pages[g.leaves[j]].slots|
    requires forall i :: 0 <= i < pos ==> pages[g.leaves[j]].slots[i].key < e.key
    requires forall i :: pos <= i < |pages[g.leaves[j]].slots| ==> e.key < pages[g.leaves[j]].slots[i].key
    requires var p := g.leaves[j];
             pages' == pages[p := pages[p].(slots := InsertAt(pages[p].slots, pos, e))]
    ensures LeafOrder(pages', g)
  {
    var p := g.leaves[j];
    var s, s' := pages[p].slots, pages'[p].slots;
    assert Sorted(s);
    forall i | 0 <= i < |g.leaves| && i != j
      ensures i < j ==> Precedes(pages'[g.leaves[i]].slots, s')
      ensures j < i ==> Precedes(s', pages'[g.leaves[i]].slots)
    {
      var t := pages[g.leaves[i]].slots;
      assert i < j ==> AllLess(t, e.key) && Precedes(t, s);
      assert j < i ==> AllGreater(t, e.key) && Precedes(s, t);
    }
  }

  lemma LeafInsertKeepsSeparators(pages: Pages, pages': Pages, g: Shape, p: int, pos: int, e: Entry)
    requires Typed(pages, g) && LeafLevel(g) && Separators(pages, g, NO_PAGE)
    requires OnRoute(pages, g, e.key, p, 0) && g.info[p].lvl == 0
    requires 0 <= pos <= |pages[p].slots|
    requires pages' == pages[p := pages[p].(slots := InsertAt(pages[p].slots, pos, e))]
    ensures Separators(pages', g, p)
  {
    forall q, i | Inner(pages', g, q) && 0 <= i < |pages'[q].slots|
      ensures EntryOk(pages', g, p, pages'[q].slots[i])
    {
      assert Inner(pages, g, q) && pages[q] == pages'[q];
      var s := pages[q].slots[i];
      assert EntryOk(pages, g, NO_PAGE, s);
      var c := Kid(pages[q].slots, i);
      if c in g.info {
        forall j | 0 <= j < g.info[c].fst && j < |g.leaves| && g.leaves[j] in pages'
          ensures AllLess(pages'[g.leaves[j]].slots, s.key)
        {
          assert AllLess(pages[g.leaves[j]].slots, s.key);
        }
      }
    }
  }

  // ------------------------------------------------------------- refreshing separators

  /** Copying the first key of a child into its parent moves the possibly broken entry up. */
  lemma SetSeparator(pages: Pages, pages': Pages, root: int, g: Shape, q: int, i: int)
    requires Shaped(pages, root, g, Attached)
    requires Inner(pages, g, q) && 0 <= i < |pages[q].slots|
    requires Kid(pages[q].slots, i) in pages && |pages[Kid(pages[q].slots, i)].slots| > 0
    requires Ordered(pages, root, g, Kid(pages[q].slots, i))
    requires pages' == pages[q := pages[q].(slots :=
                         pages[q].slots[i := pages[q].slots[i].(key := pages[Kid(pages[q].slots, i)].slots[0].key)])]
    ensures Shaped(pages', root, g, Attached)
    ensures Ordered(pages', root, g, q)
  {
    var c := Kid(pages[q].slots, i);
    KidFacts(pages, g, Attached, q, i);
    FirstKeyAbove(pages, root, g, c, c);
    SetSeparatorShape(pages, pages', root, g, q, i, pages[c].slots[0].key);
    InnerWriteKeepsLeaves(pages, pages', g, q, pages'[q]);
    SameLeavesOrder(pages, pages', g, g);
    SetSeparatorEntries(pages, pages', root, g, q, i);
  }

  lemma SetSeparatorShape(pages: Pages, pages': Pages, root: int, g: Shape, q: int, i: int, k: int)
    requires Shaped(pages, root, g, Attached) && Filled(pages, root, g)
    requires Inner(pages, g, q) && 0 <= i < |pages[q].slots|
    requires pages' == pages[q := pages[q].(slots := pages[q].slots[i := pages[q].slots[i].(key := k)])]
    ensures Shaped(pages', root, g, Attached) && Filled(pages', root, g)
  {
    assert forall m :: 0 <= m < |pages[q].slots| ==> Kid(pages[q].slots, m) == Kid(pages'[q].slots, m);
    assert SameSkeleton(pages, pages', g);
    SkeletonKeepsShape(pages, pages', root, g, Attached);
  }

  lemma SetSeparatorEntries(pages: Pages, pages': Pages, root: int, g: Shape, q: int, i: int)
    requires Shaped(pages, root, g, Attached)
    requires Inner(pages, g, q) && 0 <= i < |pages[q].slots|
    requires Kid(pages[q].slots, i) in g.info && |pages[Kid(pages[q].slots, i)].slots| > 0
    requires Above(pages, g, pages[Kid(pages[q].slots, i)].slots[0].key, g.info[Kid(pages[q].slots, i)].fst)
    requires Separators(pages, g, Kid(pages[q].slots, i))
    requires pages' == pages[q := pages[q].(slots :=
                         pages[q].slots[i := pages[q].slots[i].(key := pages[Kid(pages[q].slots, i)].slots[0].key)])]
    ensures Separators(pages', g, q)
  {
    var c := Kid(pages[q].slots, i);
    InnerWriteKeepsLeaves(pages, pages', g, q, pages'[q]);
    forall r, m | Inner(pages', g, r) && 0 <= m < |pages'[r].slots|
      ensures EntryOk(pages', g, q, pages'[r].slots[m])
    {
      assert Inner(pages, g, r);
      var e := pages'[r].slots[m];
      if r == q && m == i {
        KidFacts(pages, g, Attached, q, i);
        assert EntryOk(pages, g, q, e);
      } else {
        assert EntryOk(pages, g, c, e);
        DistinctKids(pages, root, g, r, m, q, i);
        assert EntryOk(pages, g, q, e);
      }
      EntryKept(pages, pages', g, g, q, e);
    }
  }

  /** An entry stays good when leaves and the first key of its child stay the same. */
  lemma EntryKept(pages: Pages, pages': Pages, g: Shape, g': Shape, low: int, e: Entry)
    requires EntryOk(pages, g, low, e)
    requires g.leaves == g'.leaves && LeavesKept(pages, pages', g)
    requires var c := e.rid.pageNo;
             c in g'.info && c in pages' ==>
               && c in g.info && c in pages && g'.info[c].fst == g.info[c].fst
               && (c != low && |pages'[c].slots| > 0 ==>
                     |pages[c].slots| > 0 && pages'[c].slots[0].key >= pages[c].slots[0].key)
    ensures EntryOk(pages', g', low, e)
  {
    var c := e.rid.pageNo;
    if c in g'.info && c in pages' {
      SameLeavesAbove(pages, pages', g, g', e.key, g.info[c].fst);
    }
  }

  lemma SameLeavesOrder(pages: Pages, pages': Pages, g: Shape, g': Shape)
    requires LeafOrder(pages, g) && g.leaves == g'.leaves && LeavesKept(pages, pages', g)
    ensures LeafOrder(pages', g')
  {
  }

  lemma SameLeavesAbove(pages: Pages, pages': Pages, g: Shape, g': Shape, k: int, b: int)
    requires g.leaves == g'.leaves && Above(pages, g, k, b) && LeavesKept(pages, pages', g)
    ensures Above(pages', g', k, b)
  {
  }

  lemma DistinctKids(pages: Pages, root: int, g: Shape, p: int, i: int, q: int, j: int)
    requires Shaped(pages, root, g, Attached)
    requires Inner(pages, g, p) && 0 <= i < |pages[p].slots|
    requires Inner(pages, g, q) && 0 <= j < |pages[q].slots|
    requires p != q || i != j
    ensures Kid(pages[p].slots, i) != Kid(pages[q].slots, j)
  {
    KidInside(pages, root, g, p, i);
    KidInside(pages, root, g, q, j);
    if p == q && i < j { KidPair(pages, g, Attached, p, i, j); }
    if p == q && j < i { KidPair(pages, g, Attached, p, j, i); }
  }

  /** The first key of any page exceeds all leaf keys before the page. */
  lemma FirstKeyAbove(pages: Pages, root: int, g: Shape, c: int, low: int)
    requires Shaped(pages, root, g, Attached) && Ordered(pages, root, g, low)
    requires c in g.info && |pages[c].slots| > 0
    ensures Above(pages, g, pages[c].slots[0].key, g.info[c].fst)
  {
    if g.info[c].lvl > 0 {
      var d := Kid(pages[c].slots, 0);
      KidFacts(pages, g, Attached, c, 0);
      assert EntryOk(pages, g, low, pages[c].slots[0]);
    } else {
      assert g.leaves[g.info[c].fst] == c;
    }
  }

  lemma SeparatorRestored(pages: Pages, root: int, g: Shape, low: int)
    requires Shaped(pages, root, g, Attached) && Ordered(pages, root, g, low)
    requires low in g.info
    requires low != root ==>
      forall i :: (&& Inner(pages, g, pages[low].parent) && 0 <= i < |pages[pages[low].parent].slots|
                   && Kid(pages[pages[low].parent].slots, i) == low && |pages[low].slots| > 0) ==>
                     pages[pages[low].parent].slots[i].key <= pages[low].slots[0].key
    ensures Ordered(pages, root, g, NO_PAGE)
  {
    forall q, i | Inner(pages, g, q) && 0 <= i < |pages[q].slots|
      ensures EntryOk(pages, g, NO_PAGE, pages[q].slots[i])
    {
      KidFacts(pages, g, Attached, q, i);
      assert EntryOk(pages, g, low, pages[q].slots[i]);
    }
  }
}
