/** Descending from the root to the leaf responsible for a key. */
module IxRoute {
  import opened Basics
  import opened IxTree

  /** The interval of a child lies inside the interval of its parent. */
  lemma KidInside(pages: Pages, root: int, g: Shape, p: int, i: int)
    requires Shaped(pages, root, g, Attached)
    requires Inner(pages, g, p) && 0 <= i < |pages[p].slots|
    ensures var c := Kid(pages[p].slots, i);
            c in g.info && g.info[p].fst <= g.info[c].fst < g.info[c].end <= g.info[p].end
    ensures var c := Kid(pages[p].slots, i);
            c in pages && pages[c].parent == p && g.info[c].lvl + 1 == g.info[p].lvl
  {
    var n := |pages[p].slots|;
    var c, a, z := Kid(pages[p].slots, i), Kid(pages[p].slots, 0), Kid(pages[p].slots, n - 1);
    assert KidsOk(pages, g, Attached, p);
  }

  /** Two pages of one level cover disjoint intervals. */
  lemma {:induction false} LevelDisjoint(pages: Pages, root: int, g: Shape, p: int, q: int)
    requires Shaped(pages, root, g, Attached)
    requires p in g.info && q in g.info && p != q && g.info[p].lvl == g.info[q].lvl
    ensures g.info[p].end <= g.info[q].fst || g.info[q].end <= g.info[p].fst
    decreases g.info[root].lvl - g.info[p].lvl
  {
    if p == root || q == root {
      NotRoot(pages, root, g, if p == root then q else p);
    } else {
      var a, b := pages[p].parent, pages[q].parent;
      var i :| 0 <= i < |pages[a].slots| && Kid(pages[a].slots, i) == p;
      var j :| 0 <= j < |pages[b].slots| && Kid(pages[b].slots, j) == q;
      KidInside(pages, root, g, a, i);
      KidInside(pages, root, g, b, j);
      if a != b {
        LevelDisjoint(pages, root, g, a, b);
      } else if i < j {
        KidPair(pages, g, Attached, a, i, j);
      } else {
        KidPair(pages, g, Attached, a, j, i);
      }
    }
  }

  lemma NotRoot(pages: Pages, root: int, g: Shape, p: int)
    requires Shaped(pages, root, g, Attached)
    requires p in g.info && p != root
    ensures g.info[p].lvl < g.info[root].lvl
  {
    var a := pages[p].parent;
    var i :| 0 <= i < |pages[a].slots| && Kid(pages[a].slots, i) == p;
    KidInside(pages, root, g, a, i);
  }

  /** A page and a page at its level or above it are nested or disjoint. */
  lemma {:induction false} Laminar(pages: Pages, root: int, g: Shape, p: int, q: int)
    requires Shaped(pages, root, g, Attached)
    requires p in g.info && q in g.info && g.info[p].lvl <= g.info[q].lvl
    ensures || g.info[p].end <= g.info[q].fst || g.info[q].end <= g.info[p].fst
            || g.info[q].fst <= g.info[p].fst < g.info[p].end <= g.info[q].end
    decreases g.info[q].lvl - g.info[p].lvl
  {
    if p == q {
    } else if g.info[p].lvl == g.info[q].lvl {
      LevelDisjoint(pages, root, g, p, q);
    } else {
      var a := pages[p].parent;
      var i :| 0 <= i < |pages[a].slots| && Kid(pages[a].slots, i) == p;
      KidInside(pages, root, g, a, i);
      Laminar(pages, root, g, a, q);
    }
  }

  /** What the search knows at page `p`: the key exceeds every leaf key before `p`, and is
      below every separator of a higher level that points behind `p`. */
  ghost predicate OnRoute(pages: Pages, g: Shape, k: int, p: int, lvl: int) {
    && p in g.info
    && Above(pages, g, k, g.info[p].fst)
    && (forall q, i ::
          (&& Inner(pages, g, q) && g.info[q].lvl > lvl && 0 <= i < |pages[q].slots|
           && Kid(pages[q].slots, i) in g.info && g.info[Kid(pages[q].slots, i)].fst >= g.info[p].end) ==>
            k < pages[q].slots[i].key)
  }

  /** The child that internal_lookup selects. */
  ghost predicate Selects(n: Node, k: int, i: int) {
    && 0 <= i < |n.slots|
    && (i == 0 || n.slots[i].key <= k)
    && (i + 1 < |n.slots| ==> k < n.slots[i + 1].key)
  }

  lemma RouteStart(pages: Pages, root: int, g: Shape, k: int)
    requires Shaped(pages, root, g, Attached)
    ensures OnRoute(pages, g, k, root, g.info[root].lvl)
  {
  }

  lemma {:induction false} RouteStep(pages: Pages, root: int, g: Shape, k: int, p: int, i: int)
    requires Shaped(pages, root, g, Attached) && Ordered(pages, root, g, NO_PAGE)
    requires Inner(pages, g, p) && OnRoute(pages, g, k, p, g.info[p].lvl)
    requires Selects(pages[p], k, i)
    ensures OnRoute(pages, g, k, Kid(pages[p].slots, i), g.info[p].lvl - 1)
  {
    var c := Kid(pages[p].slots, i);
    KidInside(pages, root, g, p, i);
    KidFacts(pages, g, Attached, p, i);
    if i + 1 < |pages[p].slots| { KidPair(pages, g, Attached, p, i, i + 1); }
    assert EntryOk(pages, g, NO_PAGE, pages[p].slots[i]);
    assert Above(pages, g, k, g.info[c].fst);
    forall q, j | Inner(pages, g, q) && g.info[q].lvl > g.info[p].lvl - 1 && 0 <= j < |pages[q].slots|
                  && Kid(pages[q].slots, j) in g.info && g.info[Kid(pages[q].slots, j)].fst >= g.info[c].end
      ensures k < pages[q].slots[j].key
    {
      RouteStepEntry(pages, root, g, k, p, i, q, j);
    }
  }

  lemma {:induction false} RouteStepEntry(pages: Pages, root: int, g: Shape, k: int, p: int, i: int, q: int, j: int)
    requires Shaped(pages, root, g, Attached) && Ordered(pages, root, g, NO_PAGE)
    requires Inner(pages, g, p) && OnRoute(pages, g, k, p, g.info[p].lvl)
    requires Selects(pages[p], k, i)
    requires Inner(pages, g, q) && g.info[q].lvl >= g.info[p].lvl && 0 <= j < |pages[q].slots|
    requires Kid(pages[p].slots, i) in g.info && Kid(pages[q].slots, j) in g.info
    requires g.info[Kid(pages[q].slots, j)].fst >= g.info[Kid(pages[p].slots, i)].end
    ensures k < pages[q].slots[j].key
  {
    var c, d := Kid(pages[p].slots, i), Kid(pages[q].slots, j);
    KidInside(pages, root, g, p, i);
    KidInside(pages, root, g, q, j);
    if q == p {
      InnerSorted(pages, root, g, Attached, p);
      if j < i { KidPair(pages, g, Attached, p, j, i); }
      assert i < j;
    } else if g.info[q].lvl > g.info[p].lvl {
      Laminar(pages, root, g, p, d);
    } else {
      LevelDisjoint(pages, root, g, p, q);
      assert g.info[p].end <= g.info[q].fst;
      var a := pages[q].parent;
      assert q != root by { if q == root { NotRoot(pages, root, g, p); } }
      var m :| 0 <= m < |pages[a].slots| && Kid(pages[a].slots, m) == q;
      KidInside(pages, root, g, a, m);
      assert EntryOk(pages, g, NO_PAGE, pages[a].slots[m]);
      assert k < pages[a].slots[m].key <= pages[q].slots[0].key;
      InnerSorted(pages, root, g, Attached, q);
    }
  }
}
