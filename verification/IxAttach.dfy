/** Giving a split-off node its entry in the parent, splitting inner nodes, growing a new root. */
module IxAttach {
  import opened Basics
  import opened IxTree
  import opened IxInsert

  // ------------------------------------------------------------- entry in the parent

  ghost predicate Attach(pages: Pages, pages': Pages, a: int, i: int, x: Orphan) {
    && x.Pending? && x.right in pages && |pages[x.right].slots| > 0
    && a in pages && 0 <= i < |pages[a].slots| && Kid(pages[a].slots, i) == x.left
    && pages' == pages[a := pages[a].(slots :=
         InsertAt(pages[a].slots, i + 1, Entry(pages[x.right].slots[0].key, Rid(x.right, -1))))]
  }

  function Back(i: int, m: int): int { if m <= i then m else m - 1 }

  lemma AttachOtherKids(pages: Pages, pages': Pages, root: int, g: Shape, x: Orphan, a: int, i: int, r: int)
    requires PendingOk(pages, root, g, x) && Attach(pages, pages', a, i, x)
    requires Inner(pages, g, r) && KidsOk(pages, g, x, r) && r != a && pages[x.left].parent == a
    ensures Inner(pages', g, r) && KidsOk(pages', g, Attached, r)
  {
    var s := pages[r].slots;
    forall m | 0 <= m < |s|
      ensures Kid(s, m) in g.info && Ext(g, x, Kid(s, m)) == Ext(g, Attached, Kid(s, m))
      ensures KidOk(pages', g, Attached, r, Kid(s, m), m == 0, m == |s| - 1)
    {
      assert KidOk(pages, g, x, r, Kid(s, m), m == 0, m == |s| - 1);
    }
  }

  lemma AttachParentKids(pages: Pages, pages': Pages, root: int, g: Shape, x: Orphan, a: int, i: int)
    requires Typed(pages, g) && PendingOk(pages, root, g, x) && Attach(pages, pages', a, i, x)
    requires Inner(pages, g, a) && KidsOk(pages, g, x, a)
    ensures Inner(pages', g, a) && KidsOk(pages', g, Attached, a)
  {
    var s, s' := pages[a].slots, pages'[a].slots;
    assert KidOk(pages, g, x, a, x.left, i == 0, i == |s| - 1);
    forall m | 0 <= m < |s'|
      ensures KidOk(pages', g, Attached, a, Kid(s', m), m == 0, m == |s'| - 1)
    {
      AttachParentKid(pages, pages', root, g, x, a, i, m);
    }
    forall m, n | 0 <= m < n < |s'|
      ensures Kid(s', m) in g.info && Kid(s', n) in g.info
      ensures Ext(g, Attached, Kid(s', m)) <= g.info[Kid(s', n)].fst
      ensures n == m + 1 ==> Ext(g, Attached, Kid(s', m)) == g.info[Kid(s', n)].fst
    {
      AttachParentPair(pages, pages', root, g, x, a, i, m, n);
    }
  }

  /** The children before and behind the split node do not notice the split. */
  lemma OldKid(pages: Pages, root: int, g: Shape, x: Orphan, a: int, i: int, m: int)
    requires Typed(pages, g) && PendingOk(pages, root, g, x) && x.Pending?
    requires Inner(pages, g, a) && KidsOk(pages, g, x, a)
    requires 0 <= i < |pages[a].slots| && 0 <= m < |pages[a].slots| && Kid(pages[a].slots, i) == x.left
    ensures var c := Kid(pages[a].slots, m);
            && KidOk(pages, g, x, a, c, m == 0, m == |pages[a].slots| - 1)
            && (m != i ==> c != x.left && Ext(g, x, c) == Ext(g, Attached, c))
            && (m < i ==> g.info[c].end <= g.info[x.left].fst)
            && (m + 1 == i ==> g.info[c].end == g.info[x.left].fst)
            && (i < m ==> g.info[x.right].end <= g.info[c].fst)
            && (i + 1 == m ==> g.info[x.right].end == g.info[c].fst)
  {
    var s := pages[a].slots;
    var c := Kid(s, m);
    assert KidOk(pages, g, x, a, c, m == 0, m == |s| - 1);
    assert KidOk(pages, g, x, a, x.left, i == 0, i == |s| - 1);
    if m < i {
      assert Ext(g, x, Kid(s, m)) <= g.info[Kid(s, i)].fst;
    } else if i < m {
      assert Ext(g, x, Kid(s, i)) <= g.info[Kid(s, m)].fst;
    }
  }

  lemma AttachParentKid(pages: Pages, pages': Pages, root: int, g: Shape, x: Orphan, a: int, i: int, m: int)
    requires Typed(pages, g) && PendingOk(pages, root, g, x) && Attach(pages, pages', a, i, x)
    requires Inner(pages, g, a) && KidsOk(pages, g, x, a) && 0 <= m < |pages'[a].slots|
    ensures KidOk(pages', g, Attached, a, Kid(pages'[a].slots, m), m == 0, m == |pages'[a].slots| - 1)
  {
    OldKid(pages, root, g, x, a, i, i);
    if m != i + 1 {
      assert Kid(pages'[a].slots, m) == Kid(pages[a].slots, Back(i, m));
      OldKid(pages, root, g, x, a, i, Back(i, m));
    }
  }

  lemma AttachParentPair(pages: Pages, pages': Pages, root: int, g: Shape, x: Orphan, a: int, i: int, m: int, n: int)
    requires Typed(pages, g) && PendingOk(pages, root, g, x) && Attach(pages, pages', a, i, x)
    requires Inner(pages, g, a) && KidsOk(pages, g, x, a) && 0 <= m < n < |pages'[a].slots|
    ensures var c, d := Kid(pages'[a].slots, m), Kid(pages'[a].slots, n);
            && c in g.info && d in g.info
            && Ext(g, Attached, c) <= g.info[d].fst
            && (n == m + 1 ==> Ext(g, Attached, c) == g.info[d].fst)
  {
    var s := pages[a].slots;
    OldKid(pages, root, g, x, a, i, Back(i, m));
    OldKid(pages, root, g, x, a, i, Back(i, n));
    assert m != i + 1 ==> Kid(pages'[a].slots, m) == Kid(s, Back(i, m));
    assert n != i + 1 ==> Kid(pages'[a].slots, n) == Kid(s, Back(i, n));
    if Back(i, m) < Back(i, n) {
      assert Ext(g, x, Kid(s, Back(i, m))) <= g.info[Kid(s, Back(i, n))].fst;
    }
  }

  lemma AttachUp(pages: Pages, pages': Pages, root: int, g: Shape, x: Orphan, a: int, i: int)
    requires Typed(pages, g) && PendingOk(pages, root, g, x) && Attach(pages, pages', a, i, x)
    requires Up(pages, root, g, x) && Inner(pages, g, a) && pages[x.left].parent == a
    ensures Up(pages', root, g, Attached)
  {
    var s, s' := pages[a].slots, pages'[a].slots;
    assert Kid(s', i + 1) == x.right;
    forall r | r in g.info && r in pages' && r != root
      ensures Inner(pages', g, pages'[r].parent) && IsKid(pages'[pages'[r].parent].slots, r)
    {
      if r != x.right {
        var b := pages[r].parent;
        assert Inner(pages, g, b) && IsKid(pages[b].slots, r);
        var m :| 0 <= m < |pages[b].slots| && Kid(pages[b].slots, m) == r;
        assert Kid(pages'[b].slots, if b == a && m > i then m + 1 else m) == r;
      }
    }
  }

  lemma AttachShaped(pages: Pages, pages': Pages, root: int, g: Shape, x: Orphan, a: int, i: int)
    requires Shaped(pages, root, g, x) && Attach(pages, pages', a, i, x) && Inner(pages, g, a)
    ensures Shaped(pages', root, g, Attached)
  {
    KidFacts(pages, g, x, a, i);
    AttachUp(pages, pages', root, g, x, a, i);
    forall r | Inner(pages', g, r)
      ensures KidsOk(pages', g, Attached, r)
    {
      assert Inner(pages, g, r) && KidsOk(pages, g, x, r);
      if r == a {
        AttachParentKids(pages, pages', root, g, x, a, i);
      } else {
        AttachOtherKids(pages, pages', root, g, x, a, i, r);
      }
    }
  }

  /** The new entry lands right behind the entry of the split node. */
  lemma AttachPosition(pages: Pages, root: int, g: Shape, x: Orphan, a: int, i: int)
    requires Shaped(pages, root, g, x) && Ordered(pages, root, g, NO_PAGE)
    requires x.Pending? && Inner(pages, g, a) && 0 <= i < |pages[a].slots| && Kid(pages[a].slots, i) == x.left
    requires Above(pages, g, pages[x.right].slots[0].key, g.info[x.right].fst)
    requires AtMost(pages, g, pages[x.right].slots[0].key, g.info[x.right].fst)
    ensures pages[a].slots[i].key < pages[x.right].slots[0].key
    ensures i + 1 < |pages[a].slots| ==> pages[x.right].slots[0].key < pages[a].slots[i + 1].key
  {
    var k := pages[x.right].slots[0].key;
    KidFacts(pages, g, x, a, i);
    SeparatorAtMost(pages, root, g, x, a, i);
    BoundaryOrder(pages, root, g, pages[a].slots[i].key, g.info[x.left].fst, k, g.info[x.right].fst);
    if i + 1 < |pages[a].slots| {
      KidPair(pages, g, x, a, i, i + 1);
      assert EntryOk(pages, g, NO_PAGE, pages[a].slots[i + 1]);
      BoundaryOrder(pages, root, g, k, g.info[x.right].fst,
                    pages[a].slots[i + 1].key, g.info[Kid(pages[a].slots, i + 1)].fst);
    }
  }

  lemma AttachOrdered(pages: Pages, pages': Pages, root: int, g: Shape, x: Orphan, a: int, i: int)
    requires Shaped(pages, root, g, x) && Ordered(pages, root, g, NO_PAGE)
    requires Attach(pages, pages', a, i, x) && Inner(pages, g, a)
    requires Above(pages, g, pages[x.right].slots[0].key, g.info[x.right].fst)
    ensures Ordered(pages', root, g, NO_PAGE)
  {
    InnerWriteKeepsLeaves(pages, pages', g, a, pages'[a]);
    SameLeavesOrder(pages, pages', g, g);
    forall r, m | Inner(pages', g, r) && 0 <= m < |pages'[r].slots|
      ensures EntryOk(pages', g, NO_PAGE, pages'[r].slots[m])
    {
      AttachEntry(pages, pages', root, g, x, a, i, r, m);
    }
  }

  lemma AttachEntry(pages: Pages, pages': Pages, root: int, g: Shape, x: Orphan, a: int, i: int, r: int, m: int)
    requires Typed(pages, g) && LeafLevel(g) && Separators(pages, g, NO_PAGE)
    requires x.Pending? && x.right in g.info && x.right in pages
    requires Attach(pages, pages', a, i, x) && Inner(pages, g, a)
    requires Above(pages, g, pages[x.right].slots[0].key, g.info[x.right].fst)
    requires Inner(pages', g, r) && 0 <= m < |pages'[r].slots|
    ensures EntryOk(pages', g, NO_PAGE, pages'[r].slots[m])
  {
    assert Inner(pages, g, r);
    var e := pages'[r].slots[m];
    if r != a || m != i + 1 {
      assert e == pages[r].slots[if r == a then Back(i, m) else m];
    }
    assert EntryOk(pages, g, NO_PAGE, e);
    InnerWriteKeepsLeaves(pages, pages', g, a, pages'[a]);
    assert pages'[a].slots[0] == pages[a].slots[0];
    EntryKept(pages, pages', g, g, NO_PAGE, e);
  }

  // ------------------------------------------------------------- splitting an inner node

  /** `pages'` is `pages` with inner node `p` cut at `mid`, the rest moved to the new page `q`,
      and the moved children told about their new parent. */
  ghost predicate InnerSplit(pages: Pages, pages': Pages, p: int, q: int, mid: int) {
    && p in pages && q !in pages && q >= 2 && 0 < mid < |pages[p].slots|
    && p in pages' && q in pages'
    && pages'[p].isLeaf == pages'[q].isLeaf == pages[p].isLeaf
    && pages'[p].parent == pages'[q].parent == pages[p].parent
    && pages'[p].slots == pages[p].slots[..mid]
    && pages'[q].slots == pages[p].slots[mid..]
    && Adopted(pages, pages', {p}, pages[p].slots[mid..], q)
  }

  /** Apart from `except`, only the parent of the children listed in `s` changes, to `q`. */
  ghost predicate Adopted(pages: Pages, pages': Pages, except: set<int>, s: seq<Entry>, q: int) {
    forall r :: r in pages && r !in except ==>
      && r in pages'
      && pages'[r].isLeaf == pages[r].isLeaf
      && pages'[r].slots == pages[r].slots
      && pages'[r].parent == if IsKid(s, r) then q else pages[r].parent
  }

  ghost function InnerSplitShape(pages: Pages, g: Shape, p: int, q: int, mid: int): Shape
    requires p in pages && 0 <= mid < |pages[p].slots|
    requires p in g.info && Kid(pages[p].slots, mid) in g.info
  {
    var b := g.info[Kid(pages[p].slots, mid)].fst;
    g.(info := g.info[p := g.info[p].(end := b)][q := Info(g.info[p].lvl, b, g.info[p].end)])
  }

  lemma CutBounds(pages: Pages, g: Shape, p: int, mid: int)
    requires Typed(pages, g) && Down(pages, g, Attached) && Inner(pages, g, p) && 0 < mid < |pages[p].slots|
    ensures Kid(pages[p].slots, mid) in g.info
    ensures g.info[p].fst < g.info[Kid(pages[p].slots, mid)].fst < g.info[p].end
  {
    KidFacts(pages, g, Attached, p, 0);
    KidFacts(pages, g, Attached, p, mid);
    KidFacts(pages, g, Attached, p, |pages[p].slots| - 1);
    KidPair(pages, g, Attached, p, 0, mid);
    if mid < |pages[p].slots| - 1 { KidPair(pages, g, Attached, p, mid, |pages[p].slots| - 1); }
  }

  lemma InnerSplitLevels(pages: Pages, pages': Pages, g: Shape, p: int, q: int, mid: int)
    requires Typed(pages, g) && LeafLevel(g) && Down(pages, g, Attached) && Inner(pages, g, p)
    requires InnerSplit(pages, pages', p, q, mid)
    ensures Kid(pages[p].slots, mid) in g.info
    ensures Typed(pages', InnerSplitShape(pages, g, p, q, mid)) && LeafLevel(InnerSplitShape(pages, g, p, q, mid))
  {
    CutBounds(pages, g, p, mid);
  }

  lemma InnerSplitOtherKids(pages: Pages, pages': Pages, g: Shape, p: int, q: int, mid: int, r: int)
    requires Typed(pages, g) && Down(pages, g, Attached) && Inner(pages, g, p)
    requires InnerSplit(pages, pages', p, q, mid) && Kid(pages[p].slots, mid) in g.info
    requires Inner(pages, g, r) && r != p && KidsOk(pages, g, Attached, r)
    ensures var g' := InnerSplitShape(pages, g, p, q, mid);
            Inner(pages', g', r) && KidsOk(pages', g', Pending(p, q), r)
  {
    var g' := InnerSplitShape(pages, g, p, q, mid);
    var s := pages[r].slots;
    forall m | 0 <= m < |s|
      ensures Kid(s, m) in g.info && Kid(s, m) in g'.info
      ensures g'.info[Kid(s, m)].fst == g.info[Kid(s, m)].fst
      ensures Ext(g', Pending(p, q), Kid(s, m)) == g.info[Kid(s, m)].end
      ensures KidOk(pages', g', Pending(p, q), r, Kid(s, m), m == 0, m == |s| - 1)
    {
      assert KidOk(pages, g, Attached, r, Kid(s, m), m == 0, m == |s| - 1);
      NotAdopted(pages, g, p, mid, Kid(s, m));
    }
  }

  lemma NotAdopted(pages: Pages, g: Shape, p: int, mid: int, c: int)
    requires Down(pages, g, Attached) && Inner(pages, g, p) && 0 <= mid <= |pages[p].slots|
    requires c in pages && pages[c].parent != p
    ensures !IsKid(pages[p].slots[mid..], c)
  {
    if IsKid(pages[p].slots[mid..], c) {
      var i :| 0 <= i < |pages[p].slots| - mid && Kid(pages[p].slots[mid..], i) == c;
      KidFacts(pages, g, Attached, p, mid + i);
    }
  }

  lemma InnerSplitOwnKids(pages: Pages, pages': Pages, g: Shape, p: int, q: int, mid: int)
    requires Typed(pages, g) && Down(pages, g, Attached) && Inner(pages, g, p)
    requires InnerSplit(pages, pages', p, q, mid) && Kid(pages[p].slots, mid) in g.info
    ensures var g' := InnerSplitShape(pages, g, p, q, mid);
            && Inner(pages', g', p) && KidsOk(pages', g', Pending(p, q), p)
            && Inner(pages', g', q) && KidsOk(pages', g', Pending(p, q), q)
  {
    var g' := InnerSplitShape(pages, g, p, q, mid);
    var s := pages[p].slots;
    assert KidsOk(pages, g, Attached, p);
    forall m | 0 <= m < |s|
      ensures Kid(s, m) in g.info && Kid(s, m) in pages' && Kid(s, m) != p && Kid(s, m) != q
      ensures g'.info[Kid(s, m)] == g.info[Kid(s, m)] && Ext(g', Pending(p, q), Kid(s, m)) == g.info[Kid(s, m)].end
      ensures pages'[Kid(s, m)].parent == if m < mid then p else q
    {
      KidFacts(pages, g, Attached, p, m);
      AdoptedKid(pages, g, p, mid, m);
    }
    assert Ext(g, Attached, Kid(s, mid - 1)) == g.info[Kid(s, mid)].fst;
    assert forall m :: 0 <= m < mid ==> Kid(s[..mid], m) == Kid(s, m);
    assert forall m :: 0 <= m < |s| - mid ==> Kid(s[mid..], m) == Kid(s, mid + m);
  }

  lemma AdoptedKid(pages: Pages, g: Shape, p: int, mid: int, m: int)
    requires Typed(pages, g) && Down(pages, g, Attached) && Inner(pages, g, p)
    requires 0 <= mid <= |pages[p].slots| && 0 <= m < |pages[p].slots|
    ensures IsKid(pages[p].slots[mid..], Kid(pages[p].slots, m)) <==> mid <= m
  {
    var s := pages[p].slots;
    if mid <= m {
      assert Kid(s[mid..], m - mid) == Kid(s, m);
    } else if IsKid(s[mid..], Kid(s, m)) {
      var i :| 0 <= i < |s| - mid && Kid(s[mid..], i) == Kid(s, m);
      KidPair(pages, g, Attached, p, m, mid + i);
    }
  }

  lemma InnerSplitUp(pages: Pages, pages': Pages, root: int, g: Shape, p: int, q: int, mid: int)
    requires Shaped(pages, root, g, Attached) && Inner(pages, g, p)
    requires InnerSplit(pages, pages', p, q, mid) && Kid(pages[p].slots, mid) in g.info
    ensures var g' := InnerSplitShape(pages, g, p, q, mid);
            Up(pages', root, g', Pending(p, q)) && PendingOk(pages', root, g', Pending(p, q))
  {
    var g' := InnerSplitShape(pages, g, p, q, mid);
    NotAdopted(pages, g, p, mid, root);
    forall r | r in g'.info && r in pages' && r != root && r != q
      ensures Inner(pages', g', pages'[r].parent) && IsKid(pages'[pages'[r].parent].slots, r)
    {
      InnerSplitParent(pages, pages', root, g, p, q, mid, r);
    }
  }

  lemma InnerSplitParent(pages: Pages, pages': Pages, root: int, g: Shape, p: int, q: int, mid: int, r: int)
    requires Typed(pages, g) && Down(pages, g, Attached) && Up(pages, root, g, Attached) && Inner(pages, g, p)
    requires InnerSplit(pages, pages', p, q, mid) && Kid(pages[p].slots, mid) in g.info
    requires r in g.info && r != root
    ensures var g' := InnerSplitShape(pages, g, p, q, mid);
            r in pages' && Inner(pages', g', pages'[r].parent) && IsKid(pages'[pages'[r].parent].slots, r)
  {
    var a := pages[r].parent;
    assert Inner(pages, g, a) && IsKid(pages[a].slots, r);
    var i :| 0 <= i < |pages[a].slots| && Kid(pages[a].slots, i) == r;
    if a == p {
      KidFacts(pages, g, Attached, p, i);
      AdoptedKid(pages, g, p, mid, i);
      assert i < mid ==> Kid(pages'[p].slots, i) == r;
    } else {
      NotAdopted(pages, g, p, mid, r);
      assert Kid(pages'[a].slots, i) == r;
    }
  }

  lemma InnerSplitShaped(pages: Pages, pages': Pages, root: int, g: Shape, p: int, q: int, mid: int)
    requires Shaped(pages, root, g, Attached) && Inner(pages, g, p) && InnerSplit(pages, pages', p, q, mid)
    ensures Kid(pages[p].slots, mid) in g.info
    ensures Shaped(pages', root, InnerSplitShape(pages, g, p, q, mid), Pending(p, q))
  {
    InnerSplitLevels(pages, pages', g, p, q, mid);
    InnerSplitUp(pages, pages', root, g, p, q, mid);
    InnerSplitOwnKids(pages, pages', g, p, q, mid);
    var g' := InnerSplitShape(pages, g, p, q, mid);
    forall r | Inner(pages', g', r)
      ensures KidsOk(pages', g', Pending(p, q), r)
    {
      if r != p && r != q {
        assert Inner(pages, g, r) && KidsOk(pages, g, Attached, r);
        InnerSplitOtherKids(pages, pages', g, p, q, mid, r);
      }
    }
  }

  lemma InnerSplitOrdered(pages: Pages, pages': Pages, root: int, g: Shape, p: int, q: int, mid: int)
    requires Shaped(pages, root, g, Attached) && Ordered(pages, root, g, NO_PAGE)
    requires Inner(pages, g, p) && InnerSplit(pages, pages', p, q, mid)
    requires Kid(pages[p].slots, mid) in g.info
    ensures Ordered(pages', root, InnerSplitShape(pages, g, p, q, mid), NO_PAGE)
    ensures LeavesKept(pages, pages', g)
  {
    var g' := InnerSplitShape(pages, g, p, q, mid);
    forall j | 0 <= j < |g.leaves|
      ensures g.leaves[j] in pages' && pages'[g.leaves[j]].slots == pages[g.leaves[j]].slots
    {
      var c := g.leaves[j];
      assert c in g.info && g.info[c].lvl == 0;
    }
    SameLeavesOrder(pages, pages', g, g');
    forall r, m | Inner(pages', g', r) && 0 <= m < |pages'[r].slots|
      ensures EntryOk(pages', g', NO_PAGE, pages'[r].slots[m])
    {
      InnerSplitEntry(pages, pages', g, p, q, mid, r, m);
    }
  }

  lemma InnerSplitEntry(pages: Pages, pages': Pages, g: Shape, p: int, q: int, mid: int, r: int, m: int)
    requires Typed(pages, g) && Down(pages, g, Attached) && Separators(pages, g, NO_PAGE)
    requires LeavesKept(pages, pages', g)
    requires Inner(pages, g, p) && InnerSplit(pages, pages', p, q, mid)
    requires Kid(pages[p].slots, mid) in g.info
    requires Inner(pages', InnerSplitShape(pages, g, p, q, mid), r) && 0 <= m < |pages'[r].slots|
    ensures EntryOk(pages', InnerSplitShape(pages, g, p, q, mid), NO_PAGE, pages'[r].slots[m])
  {
    var g' := InnerSplitShape(pages, g, p, q, mid);
    var e := pages'[r].slots[m];
    var r', m' := if r == q then p else r, if r == q then mid + m else m;
    assert Inner(pages, g, r') && e == pages[r'].slots[m'];
    assert EntryOk(pages, g, NO_PAGE, e);
    KidFacts(pages, g, Attached, r', m');
    EntryKept(pages, pages', g, g', NO_PAGE, e);
  }

  // ------------------------------------------------------------- a new root

  ghost predicate NewRoot(pages: Pages, pages': Pages, root: int, q: int, x: Orphan) {
    && x.Pending? && x.left == root && q !in pages && q >= 2
    && x.left in pages && x.right in pages && x.left != x.right
    && |pages[x.left].slots| > 0 && |pages[x.right].slots| > 0
    && q in pages' && x.left in pages' && x.right in pages'
    && !pages'[q].isLeaf && pages'[q].parent == NO_PAGE
    && pages'[q].slots == [Entry(pages[x.left].slots[0].key, Rid(x.left, -1)),
                           Entry(pages[x.right].slots[0].key, Rid(x.right, -1))]
    && pages'[x.left] == pages[x.left].(parent := q)
    && pages'[x.right] == pages[x.right].(parent := q)
    && Agree(pages, pages', {x.left, x.right})
  }

  ghost function NewRootShape(g: Shape, root: int, q: int): Shape
    requires root in g.info
  {
    g.(info := g.info[q := Info(g.info[root].lvl + 1, 0, |g.leaves|)])
  }

  lemma NewRootKids(pages: Pages, pages': Pages, root: int, g: Shape, x: Orphan, q: int, r: int)
    requires PendingOk(pages, root, g, x) && NewRoot(pages, pages', root, q, x) && Typed(pages, g)
    requires Inner(pages, g, r) && KidsOk(pages, g, x, r) && pages[root].parent == NO_PAGE
    ensures Inner(pages', NewRootShape(g, root, q), r) && KidsOk(pages', NewRootShape(g, root, q), Attached, r)
  {
    var g' := NewRootShape(g, root, q);
    var s := pages[r].slots;
    assert pages'[r].slots == s;
    forall m | 0 <= m < |s|
      ensures Kid(s, m) in g.info && Kid(s, m) in g'.info && g'.info[Kid(s, m)] == g.info[Kid(s, m)]
      ensures Ext(g', Attached, Kid(s, m)) == Ext(g, x, Kid(s, m))
      ensures KidOk(pages', g', Attached, r, Kid(s, m), m == 0, m == |s| - 1)
    {
      assert KidOk(pages, g, x, r, Kid(s, m), m == 0, m == |s| - 1);
    }
  }

  lemma NewRootShaped(pages: Pages, pages': Pages, root: int, g: Shape, x: Orphan, q: int)
    requires Shaped(pages, root, g, x) && NewRoot(pages, pages', root, q, x)
    ensures Shaped(pages', q, NewRootShape(g, root, q), Attached)
  {
    hide KidsOk, Up, Down, IsKid;
    var g' := NewRootShape(g, root, q);
    NewRootDown(pages, pages', root, g, x, q);
    NewRootUp(pages, pages', root, g, x, q);
    assert Typed(pages', g') && LeafLevel(g');
  }

  lemma NewRootDown(pages: Pages, pages': Pages, root: int, g: Shape, x: Orphan, q: int)
    requires Shaped(pages, root, g, x) && NewRoot(pages, pages', root, q, x)
    ensures Down(pages', NewRootShape(g, root, q), Attached)
  {
    hide KidsOk, LeafLevel, IsKid;
    var g' := NewRootShape(g, root, q);
    NewRootOwnKids(pages, pages', root, g, x, q);
    forall r | Inner(pages', g', r)
      ensures KidsOk(pages', g', Attached, r)
    {
      if r != q {
        assert Inner(pages, g, r) && KidsOk(pages, g, x, r);
        NewRootKids(pages, pages', root, g, x, q, r);
      }
    }
  }

  lemma NewRootOwnKids(pages: Pages, pages': Pages, root: int, g: Shape, x: Orphan, q: int)
    requires PendingOk(pages, root, g, x) && NewRoot(pages, pages', root, q, x) && Typed(pages, g)
    requires Up(pages, root, g, x)
    ensures Inner(pages', NewRootShape(g, root, q), q) && KidsOk(pages', NewRootShape(g, root, q), Attached, q)
  {
    assert Kid(pages'[q].slots, 0) == x.left && Kid(pages'[q].slots, 1) == x.right;
  }

  lemma NewRootUp(pages: Pages, pages': Pages, root: int, g: Shape, x: Orphan, q: int)
    requires Typed(pages, g) && Up(pages, root, g, x) && PendingOk(pages, root, g, x)
    requires NewRoot(pages, pages', root, q, x)
    ensures Up(pages', q, NewRootShape(g, root, q), Attached)
  {
    var g' := NewRootShape(g, root, q);
    assert Kid(pages'[q].slots, 0) == x.left && Kid(pages'[q].slots, 1) == x.right;
    forall r | r in g'.info && r in pages' && r != q
      ensures Inner(pages', g', pages'[r].parent) && IsKid(pages'[pages'[r].parent].slots, r)
    {
      if r != x.left && r != x.right {
        var a := pages[r].parent;
        assert Inner(pages, g, a) && IsKid(pages[a].slots, r);
        assert pages'[a].slots == pages[a].slots && pages'[r].parent == a;
      }
    }
  }

  lemma NewRootOrdered(pages: Pages, pages': Pages, root: int, g: Shape, x: Orphan, q: int)
    requires Shaped(pages, root, g, x) && Ordered(pages, root, g, NO_PAGE)
    requires NewRoot(pages, pages', root, q, x)
    requires Above(pages, g, pages[x.right].slots[0].key, g.info[x.right].fst)
    ensures Ordered(pages', q, NewRootShape(g, root, q), NO_PAGE)
    ensures LeavesKept(pages, pages', g)
  {
    hide KidsOk, Up, Down, EntryOk;
    var g' := NewRootShape(g, root, q);
    NewRootLeaves(pages, pages', root, g, x, q);
    SameLeavesOrder(pages, pages', g, g');
    NewRootFilled(pages, pages', root, g, x, q);
    hide NewRoot, LeafLevel, LeafOrder;
    forall r, m | Inner(pages', g', r) && 0 <= m < |pages'[r].slots|
      ensures EntryOk(pages', g', NO_PAGE, pages'[r].slots[m])
    {
      NewRootEntry(pages, pages', root, g, x, q, r, m);
    }
  }

  lemma NewRootLeaves(pages: Pages, pages': Pages, root: int, g: Shape, x: Orphan, q: int)
    requires Typed(pages, g) && LeafLevel(g) && NewRoot(pages, pages', root, q, x)
    ensures LeavesKept(pages, pages', g)
  {
    forall j | 0 <= j < |g.leaves|
      ensures g.leaves[j] in pages && g.leaves[j] in pages' && pages'[g.leaves[j]].slots == pages[g.leaves[j]].slots
    {
      var c := g.leaves[j];
      assert c in g.info;
    }
  }

  lemma NewRootFilled(pages: Pages, pages': Pages, root: int, g: Shape, x: Orphan, q: int)
    requires Typed(pages, g) && root in g.info && Filled(pages, root, g) && NewRoot(pages, pages', root, q, x)
    ensures Filled(pages', q, NewRootShape(g, root, q))
  {
  }

  lemma NewRootEntry(pages: Pages, pages': Pages, root: int, g: Shape, x: Orphan, q: int, r: int, m: int)
    requires Typed(pages, g) && Down(pages, g, x) && Up(pages, root, g, x) && PendingOk(pages, root, g, x)
    requires NewRoot(pages, pages', root, q, x) && Separators(pages, g, NO_PAGE) && LeavesKept(pages, pages', g)
    requires Above(pages, g, pages[x.right].slots[0].key, g.info[x.right].fst)
    requires Inner(pages', NewRootShape(g, root, q), r) && 0 <= m < |pages'[r].slots|
    ensures EntryOk(pages', NewRootShape(g, root, q), NO_PAGE, pages'[r].slots[m])
  {
    hide KidsOk, IsKid;
    var e := pages'[r].slots[m];
    if r != q {
      assert Inner(pages, g, r) && e == pages[r].slots[m];
      KidFacts(pages, g, x, r, m);
    }
    assert EntryOk(pages, g, NO_PAGE, e);
    EntryKept(pages, pages', g, NewRootShape(g, root, q), NO_PAGE, e);
  }
}
