/** What the steps of a deletion do to the tree: erasing from a leaf, moving slots between
    adjacent siblings, merging siblings, and dropping a root with a single child. */
module IxDelete {
  import opened Basics
  import opened IxTree
  import opened IxRoute
  import opened IxInsert
  import opened IxAttach

  function EraseAt(s: seq<Entry>, pos: int): (r: seq<Entry>)
    requires 0 <= pos < |s|
    ensures |r| == |s| - 1
    ensures forall i :: 0 <= i < pos ==> r[i] == s[i]
    ensures forall i :: pos <= i < |r| ==> r[i] == s[i + 1]
  {
    s[..pos] + s[pos + 1..]
  }

  // ------------------------------------------------------------- erasing from a leaf

  lemma LeafEraseOk(pages: Pages, pages': Pages, root: int, g: Shape, p: int, pos: int)
    requires Shaped(pages, root, g, Attached) && Ordered(pages, root, g, NO_PAGE)
    requires p in g.info && g.info[p].lvl == 0 && 0 <= pos < |pages[p].slots|
    requires p == root || |pages[p].slots| > 1
    requires pages' == pages[p := pages[p].(slots := EraseAt(pages[p].slots, pos))]
    ensures Shaped(pages', root, g, Attached)
    ensures Ordered(pages', root, g, NO_PAGE)
  {
    SkeletonKeepsShape(pages, pages', root, g, Attached);
    LeafEraseLeafOrder(pages, pages', g, p, pos);
    LeafEraseSeparators(pages, pages', g, p, pos);
  }

  lemma LeafEraseLeafOrder(pages: Pages, pages': Pages, g: Shape, p: int, pos: int)
    requires LeafOrder(pages, g) && p in pages && 0 <= pos < |pages[p].slots|
    requires pages' == pages[p := pages[p].(slots := EraseAt(pages[p].slots, pos))]
    ensures LeafOrder(pages', g)
  {
    forall i | 0 <= i < |g.leaves|
      ensures Sorted(pages'[g.leaves[i]].slots)
    {
      assert Sorted(pages[g.leaves[i]].slots);
    }
    forall i, j | 0 <= i < j < |g.leaves| && g.leaves[i] in pages' && g.leaves[j] in pages'
      ensures Precedes(pages'[g.leaves[i]].slots, pages'[g.leaves[j]].slots)
    {
      assert Precedes(pages[g.leaves[i]].slots, pages[g.leaves[j]].slots);
    }
  }

  lemma LeafEraseSeparators(pages: Pages, pages': Pages, g: Shape, p: int, pos: int)
    requires Typed(pages, g) && LeafLevel(g) && LeafOrder(pages, g) && Separators(pages, g, NO_PAGE)
    requires p in g.info && g.info[p].lvl == 0 && 0 <= pos < |pages[p].slots|
    requires pages' == pages[p := pages[p].(slots := EraseAt(pages[p].slots, pos))]
    ensures Separators(pages', g, NO_PAGE)
  {
    assert g.leaves[g.info[p].fst] == p && Sorted(pages[p].slots);
    forall q, i | Inner(pages', g, q) && 0 <= i < |pages'[q].slots|
      ensures EntryOk(pages', g, NO_PAGE, pages'[q].slots[i])
    {
      assert Inner(pages, g, q);
      var e := pages[q].slots[i];
      assert EntryOk(pages, g, NO_PAGE, e);
      var c := e.rid.pageNo;
      if c in g.info {
        forall j | 0 <= j < g.info[c].fst && j < |g.leaves| && g.leaves[j] in pages'
          ensures AllLess(pages'[g.leaves[j]].slots, e.key)
        {
          assert AllLess(pages[g.leaves[j]].slots, e.key);
        }
      }
    }
  }

  // ------------------------------------------------------------- adjacent siblings

  /** `l` and `r` are children `i` and `i + 1` of `a`. */
  ghost predicate Siblings(pages: Pages, g: Shape, a: int, i: int, l: int, r: int) {
    && Inner(pages, g, a) && 0 <= i < |pages[a].slots| - 1
    && Kid(pages[a].slots, i) == l && Kid(pages[a].slots, i + 1) == r
  }

  lemma SiblingFacts(pages: Pages, root: int, g: Shape, a: int, i: int, l: int, r: int)
    requires Shaped(pages, root, g, Attached) && Siblings(pages, g, a, i, l, r)
    ensures l in g.info && r in g.info && l in pages && r in pages && l != r && l != a && r != a
    ensures l != root && r != root
    ensures pages[l].parent == a && pages[r].parent == a
    ensures g.info[l].lvl == g.info[r].lvl == g.info[a].lvl - 1
    ensures g.info[l].end == g.info[r].fst
    ensures g.info[a].fst <= g.info[l].fst && g.info[r].end <= g.info[a].end
  {
    KidInside(pages, root, g, a, i);
    KidInside(pages, root, g, a, i + 1);
    KidPair(pages, g, Attached, a, i, i + 1);
  }

  /** Only descendants of a right sibling start where it starts. */
  lemma StartsBelow(pages: Pages, root: int, g: Shape, a: int, i: int, l: int, r: int, c: int)
    requires Shaped(pages, root, g, Attached) && Siblings(pages, g, a, i, l, r)
    requires c in g.info && r in g.info && g.info[c].fst == g.info[r].fst
    ensures c == r || g.info[c].lvl < g.info[r].lvl
  {
    SiblingFacts(pages, root, g, a, i, l, r);
    if g.info[c].lvl > g.info[r].lvl {
      Laminar(pages, root, g, a, c);
    } else if c != r && g.info[c].lvl == g.info[r].lvl {
      LevelDisjoint(pages, root, g, c, r);
    }
  }

  /** No other entry points to the child of an entry. */
  lemma OnlyEntry(pages: Pages, root: int, g: Shape, a: int, i: int, q: int, m: int)
    requires Shaped(pages, root, g, Attached)
    requires Inner(pages, g, a) && 0 <= i < |pages[a].slots|
    requires Inner(pages, g, q) && 0 <= m < |pages[q].slots|
    requires Kid(pages[q].slots, m) == Kid(pages[a].slots, i)
    ensures q == a && m == i
  {
    if q != a || m != i {
      DistinctKids(pages, root, g, a, i, q, m);
    }
  }

  /** `pages'` redistributes the slots of two siblings and refreshes the separator of the right one. */
  ghost predicate Shifted(pages: Pages, pages': Pages, a: int, i: int, l: int, r: int) {
    && a in pages && l in pages && r in pages && l != r && l != a && r != a && 0 <= i < |pages[a].slots| - 1
    && a in pages' && l in pages' && r in pages'
    && pages'[l].slots + pages'[r].slots == pages[l].slots + pages[r].slots
    && |pages'[l].slots| > 0 && |pages'[r].slots| > 0 && |pages[l].slots| > 0
    && pages'[a].slots == pages[a].slots[i + 1 := pages[a].slots[i + 1].(key := pages'[r].slots[0].key)]
    && (forall p :: p in {a, l, r} ==> pages'[p].isLeaf == pages[p].isLeaf && pages'[p].parent == pages[p].parent)
  }

  ghost predicate LeafShift(pages: Pages, pages': Pages, a: int, i: int, l: int, r: int) {
    Shifted(pages, pages', a, i, l, r) && Agree(pages, pages', {a, l, r})
  }

  lemma ShiftSeqs(s: seq<Entry>, t: seq<Entry>, s': seq<Entry>, t': seq<Entry>)
    requires Sorted(s) && Sorted(t) && Precedes(s, t) && s' + t' == s + t
    ensures Sorted(s') && Sorted(t') && Precedes(s', t')
    ensures |s'| > 0 && |s| > 0 ==> s'[0] == s[0]
    ensures forall e :: e in s' || e in t' ==> e in s + t
  {
    var all := s + t;
    assert Sorted(all);
    assert forall i :: 0 <= i < |s'| ==> s'[i] == all[i];
    assert forall i :: 0 <= i < |t'| ==> t'[i] == all[|s'| + i];
  }

  lemma LeafShiftSkeleton(pages: Pages, pages': Pages, g: Shape, a: int, i: int, l: int, r: int)
    requires Inner(pages, g, a) && l in g.info && r in g.info && g.info[l].lvl == 0 && g.info[r].lvl == 0
    requires LeafShift(pages, pages', a, i, l, r)
    ensures SameSkeleton(pages, pages', g)
  {
    assert forall m :: 0 <= m < |pages[a].slots| ==> Kid(pages[a].slots, m) == Kid(pages'[a].slots, m);
  }

  lemma LeafShiftShaped(pages: Pages, pages': Pages, root: int, g: Shape, a: int, i: int, l: int, r: int)
    requires Shaped(pages, root, g, Attached)
    requires Siblings(pages, g, a, i, l, r) && r in g.info && g.info[r].lvl == 0
    requires LeafShift(pages, pages', a, i, l, r)
    ensures Shaped(pages', root, g, Attached)
  {
    hide KidsOk, Down, Up, Typed, LeafLevel, Shifted, Agree, PendingOk;
    SiblingFacts(pages, root, g, a, i, l, r);
    LeafShiftSkeleton(pages, pages', g, a, i, l, r);
    SkeletonKeepsShape(pages, pages', root, g, Attached);
  }

  lemma LeafShiftFilled(pages: Pages, pages': Pages, root: int, g: Shape, a: int, i: int, l: int, r: int)
    requires Typed(pages, g) && Filled(pages, root, g) && LeafShift(pages, pages', a, i, l, r)
    ensures Filled(pages', root, g)
  {
  }

  ghost predicate AdjacentLeaves(g: Shape, j: int, l: int, r: int) {
    && 0 <= j < |g.leaves| - 1 && g.leaves[j] == l && g.leaves[j + 1] == r
    && l in g.info && r in g.info && g.info[l] == Info(0, j, j + 1) && g.info[r] == Info(0, j + 1, j + 2)
  }

  /** A leaf other than the two siblings is as it was; the siblings hold parts of their old union. */
  lemma LeafShiftPart(pages: Pages, pages': Pages, g: Shape, a: int, i: int, l: int, r: int, j: int, m: int)
    requires Typed(pages, g) && LeafLevel(g) && LeafOrder(pages, g) && Inner(pages, g, a)
    requires AdjacentLeaves(g, j, l, r) && LeafShift(pages, pages', a, i, l, r) && 0 <= m < |g.leaves|
    ensures g.leaves[m] in pages && g.leaves[m] in pages' && Sorted(pages'[g.leaves[m]].slots)
    ensures m != j && m != j + 1 ==> pages'[g.leaves[m]].slots == pages[g.leaves[m]].slots
    ensures m == j || m == j + 1 ==>
              forall e :: e in pages'[g.leaves[m]].slots ==> e in pages[l].slots + pages[r].slots
  {
    var c := g.leaves[m];
    assert c in g.info && g.info[c] == Info(0, m, m + 1);
    assert Sorted(pages[g.leaves[m]].slots) && Sorted(pages[g.leaves[j]].slots) && Sorted(pages[g.leaves[j + 1]].slots);
    assert Precedes(pages[g.leaves[j]].slots, pages[g.leaves[j + 1]].slots);
    ShiftSeqs(pages[l].slots, pages[r].slots, pages'[l].slots, pages'[r].slots);
  }

  lemma LeafShiftPrecedes(pages: Pages, pages': Pages, g: Shape, a: int, i: int, l: int, r: int, j: int, m: int, n: int)
    requires Typed(pages, g) && LeafLevel(g) && LeafOrder(pages, g) && Inner(pages, g, a)
    requires AdjacentLeaves(g, j, l, r) && LeafShift(pages, pages', a, i, l, r)
    requires 0 <= m < n < |g.leaves| && g.leaves[m] in pages' && g.leaves[n] in pages'
    ensures Precedes(pages'[g.leaves[m]].slots, pages'[g.leaves[n]].slots)
  {
    LeafShiftPart(pages, pages', g, a, i, l, r, j, m);
    LeafShiftPart(pages, pages', g, a, i, l, r, j, n);
    assert Sorted(pages[g.leaves[j]].slots) && Sorted(pages[g.leaves[j + 1]].slots);
    assert Precedes(pages[g.leaves[j]].slots, pages[g.leaves[j + 1]].slots);
    if m == j && n == j + 1 {
      ShiftSeqs(pages[l].slots, pages[r].slots, pages'[l].slots, pages'[r].slots);
    } else {
      assert Precedes(pages[g.leaves[m]].slots, pages[g.leaves[n]].slots);
      var s := if m == j || m == j + 1 then pages[l].slots + pages[r].slots else pages[g.leaves[m]].slots;
      var t := if n == j || n == j + 1 then pages[l].slots + pages[r].slots else pages[g.leaves[n]].slots;
      if n < j || j + 1 < n {
        assert m == j || m == j + 1 ==>
               Precedes(pages[g.leaves[j]].slots, t) && Precedes(pages[g.leaves[j + 1]].slots, t);
      } else {
        assert Precedes(s, pages[g.leaves[j]].slots) && Precedes(s, pages[g.leaves[j + 1]].slots);
      }
      PartPrecedes(s, t, pages'[g.leaves[m]].slots, pages'[g.leaves[n]].slots);
    }
  }

  lemma LeafShiftLeafOrder(pages: Pages, pages': Pages, g: Shape, a: int, i: int, l: int, r: int, j: int)
    requires Typed(pages, g) && LeafLevel(g) && LeafOrder(pages, g) && Inner(pages, g, a)
    requires AdjacentLeaves(g, j, l, r) && LeafShift(pages, pages', a, i, l, r)
    ensures LeafOrder(pages', g)
  {
    forall m | 0 <= m < |g.leaves|
      ensures g.leaves[m] in pages' && Sorted(pages'[g.leaves[m]].slots)
    {
      LeafShiftPart(pages, pages', g, a, i, l, r, j, m);
    }
    forall m, n | 0 <= m < n < |g.leaves| && g.leaves[m] in pages' && g.leaves[n] in pages'
      ensures Precedes(pages'[g.leaves[m]].slots, pages'[g.leaves[n]].slots)
    {
      LeafShiftPrecedes(pages, pages', g, a, i, l, r, j, m, n);
    }
  }

  lemma PartLess(s: seq<Entry>, t: seq<Entry>, part: seq<Entry>, k: int)
    requires AllLess(s, k) && AllLess(t, k) && forall e :: e in part ==> e in s + t
    ensures AllLess(part, k)
  {
    forall i | 0 <= i < |part|
      ensures part[i].key < k
    {
      assert part[i] in s + t;
    }
  }

  /** A key above both leaves before the shift is above both after it. */
  lemma LeafShiftAbove(pages: Pages, pages': Pages, g: Shape, a: int, i: int, l: int, r: int, j: int, k: int, b: int)
    requires Typed(pages, g) && LeafLevel(g) && LeafOrder(pages, g) && Inner(pages, g, a)
    requires AdjacentLeaves(g, j, l, r) && LeafShift(pages, pages', a, i, l, r)
    requires Above(pages, g, k, b) && b != j + 1
    ensures Above(pages', g, k, b)
  {
    forall m | 0 <= m < b && m < |g.leaves| && g.leaves[m] in pages'
      ensures AllLess(pages'[g.leaves[m]].slots, k)
    {
      LeafShiftPart(pages, pages', g, a, i, l, r, j, m);
      assert AllLess(pages[g.leaves[m]].slots, k);
      if m == j || m == j + 1 {
        assert AllLess(pages[g.leaves[j]].slots, k) && AllLess(pages[g.leaves[j + 1]].slots, k);
        PartLess(pages[l].slots, pages[r].slots, pages'[g.leaves[m]].slots, k);
      }
    }
  }

  lemma LeafShiftNewEntry(pages': Pages, g: Shape, j: int, l: int, r: int, e: Entry)
    requires LeafOrder(pages', g) && AdjacentLeaves(g, j, l, r)
    requires r in pages' && |pages'[r].slots| > 0 && e.key == pages'[r].slots[0].key && e.rid.pageNo == r
    ensures EntryOk(pages', g, NO_PAGE, e)
  {
    forall n | 0 <= n < j + 1 && g.leaves[n] in pages'
      ensures AllLess(pages'[g.leaves[n]].slots, e.key)
    {
      assert Precedes(pages'[g.leaves[n]].slots, pages'[g.leaves[j + 1]].slots);
    }
  }

  lemma LeafShiftEntry(
      pages: Pages, pages': Pages, root: int, g: Shape, a: int, i: int, l: int, r: int, j: int, q: int, m: int)
    requires Shaped(pages, root, g, Attached) && Ordered(pages, root, g, NO_PAGE)
    requires Siblings(pages, g, a, i, l, r) && AdjacentLeaves(g, j, l, r) && LeafShift(pages, pages', a, i, l, r)
    requires Inner(pages, g, q) && 0 <= m < |pages[q].slots| && (q != a || m != i + 1)
    ensures EntryOk(pages', g, NO_PAGE, pages[q].slots[m])
  {
    var e := pages[q].slots[m];
    assert EntryOk(pages, g, NO_PAGE, e);
    KidFacts(pages, g, Attached, q, m);
    var c := Kid(pages[q].slots, m);
    if g.info[c].fst == j + 1 {
      StartsBelow(pages, root, g, a, i, l, r, c);
      OnlyEntry(pages, root, g, a, i + 1, q, m);
    } else {
      LeafShiftAbove(pages, pages', g, a, i, l, r, j, e.key, g.info[c].fst);
      FirstSlotKept(pages, pages', a, i, l, r, c);
    }
  }

  lemma FirstSlotKept(pages: Pages, pages': Pages, a: int, i: int, l: int, r: int, c: int)
    requires LeafShift(pages, pages', a, i, l, r) && c in pages && c != r
    ensures c in pages' && (|pages'[c].slots| > 0 ==> |pages[c].slots| > 0 && pages'[c].slots[0] == pages[c].slots[0])
  {
    if c == l {
      assert pages'[l].slots[0] == (pages'[l].slots + pages'[r].slots)[0];
    }
  }

  lemma LeafShiftSlot(pages: Pages, pages': Pages, g: Shape, a: int, i: int, l: int, r: int, q: int, m: int)
    requires LeafShift(pages, pages', a, i, l, r) && Typed(pages, g)
    requires l in g.info && r in g.info && g.info[l].lvl == 0 && g.info[r].lvl == 0
    requires Inner(pages', g, q) && 0 <= m < |pages'[q].slots|
    ensures Inner(pages, g, q) && m < |pages[q].slots|
    ensures q == a && m == i + 1 ==> pages'[q].slots[m] == pages[q].slots[m].(key := pages'[r].slots[0].key)
    ensures q != a || m != i + 1 ==> pages'[q].slots[m] == pages[q].slots[m]
  {
  }

  lemma LeafShiftSeparators(pages: Pages, pages': Pages, root: int, g: Shape, a: int, i: int, l: int, r: int, j: int)
    requires Shaped(pages, root, g, Attached) && Ordered(pages, root, g, NO_PAGE) && LeafOrder(pages', g)
    requires Siblings(pages, g, a, i, l, r) && AdjacentLeaves(g, j, l, r) && LeafShift(pages, pages', a, i, l, r)
    ensures Separators(pages', g, NO_PAGE)
  {
    hide KidsOk, Down, Up, Typed, LeafLevel, LeafOrder, Agree, EntryOk;
    forall q, m | Inner(pages', g, q) && 0 <= m < |pages'[q].slots|
      ensures EntryOk(pages', g, NO_PAGE, pages'[q].slots[m])
    {
      LeafShiftSlot(pages, pages', g, a, i, l, r, q, m);
      if q == a && m == i + 1 {
        LeafShiftNewEntry(pages', g, j, l, r, pages'[q].slots[m]);
      } else {
        LeafShiftEntry(pages, pages', root, g, a, i, l, r, j, q, m);
      }
    }
  }

  lemma SiblingLeaves(pages: Pages, root: int, g: Shape, a: int, i: int, l: int, r: int)
    requires Shaped(pages, root, g, Attached) && Siblings(pages, g, a, i, l, r)
    requires r in g.info && g.info[r].lvl == 0
    ensures l in g.info && AdjacentLeaves(g, g.info[l].fst, l, r)
  {
    hide KidsOk, Down, Up, PendingOk;
    SiblingFacts(pages, root, g, a, i, l, r);
  }

  /** Moving slots between sibling leaves keeps the tree well formed. */
  lemma LeafShiftOrdered(pages: Pages, pages': Pages, root: int, g: Shape, a: int, i: int, l: int, r: int)
    requires Shaped(pages, root, g, Attached) && Ordered(pages, root, g, NO_PAGE)
    requires Siblings(pages, g, a, i, l, r) && r in g.info && g.info[r].lvl == 0
    requires LeafShift(pages, pages', a, i, l, r)
    ensures Shaped(pages', root, g, Attached) && Ordered(pages', root, g, NO_PAGE)
  {
    hide KidsOk, Down, Up, Typed, LeafLevel, LeafOrder, Separators, Shifted, Agree, PendingOk, EntryOk, AdjacentLeaves;
    SiblingLeaves(pages, root, g, a, i, l, r);
    LeafShiftShaped(pages, pages', root, g, a, i, l, r);
    LeafShiftFilled(pages, pages', root, g, a, i, l, r);
    LeafShiftLeafOrder(pages, pages', g, a, i, l, r, g.info[l].fst);
    LeafShiftSeparators(pages, pages', root, g, a, i, l, r, g.info[l].fst);
  }
}
