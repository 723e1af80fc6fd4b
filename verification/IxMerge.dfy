/** Moving children between inner siblings and merging siblings. */
module IxMerge {
  import opened Basics
  import opened IxTree
  import opened IxRoute
  import opened IxInsert
  import opened IxAttach
  import opened IxDelete

  // ------------------------------------------------------------- tilings

  /** The children listed in `s` tile the interval [lo, hi) on level `lvl`. */
  ghost predicate Tiles(g: Shape, s: seq<Entry>, lo: int, hi: int, lvl: int) {
    && |s| > 0
    && (forall i :: 0 <= i < |s| ==> Kid(s, i) in g.info && TileOk(g, Kid(s, i), lo, hi, lvl, i == 0, i == |s| - 1))
    && (forall i, j :: 0 <= i < j < |s| ==>
          && Kid(s, i) in g.info && Kid(s, j) in g.info
          && g.info[Kid(s, i)].end <= g.info[Kid(s, j)].fst
          && (j == i + 1 ==> g.info[Kid(s, i)].end == g.info[Kid(s, j)].fst))
  }

  ghost predicate TileOk(g: Shape, c: int, lo: int, hi: int, lvl: int, first: bool, last: bool)
    requires c in g.info
  {
    && g.info[c].lvl == lvl && g.info[c].fst < g.info[c].end
    && (first ==> g.info[c].fst == lo) && (last ==> g.info[c].end == hi)
  }

  ghost predicate Owned(pages: Pages, s: seq<Entry>, p: int) {
    forall i :: 0 <= i < |s| ==> Kid(s, i) in pages && pages[Kid(s, i)].parent == p
  }

  lemma KidsTile(pages: Pages, g: Shape, p: int)
    requires Typed(pages, g) && Inner(pages, g, p) && KidsOk(pages, g, Attached, p)
    ensures Tiles(g, pages[p].slots, g.info[p].fst, g.info[p].end, g.info[p].lvl - 1)
    ensures Owned(pages, pages[p].slots, p)
  {
    var s := pages[p].slots;
    forall i | 0 <= i < |s|
      ensures Kid(s, i) in g.info && Kid(s, i) in pages && pages[Kid(s, i)].parent == p
      ensures TileOk(g, Kid(s, i), g.info[p].fst, g.info[p].end, g.info[p].lvl - 1, i == 0, i == |s| - 1)
    {
      assert KidOk(pages, g, Attached, p, Kid(s, i), i == 0, i == |s| - 1);
    }
  }

  lemma TilesAreKids(pages: Pages, g: Shape, p: int)
    requires Inner(pages, g, p) && Owned(pages, pages[p].slots, p)
    requires Tiles(g, pages[p].slots, g.info[p].fst, g.info[p].end, g.info[p].lvl - 1)
    ensures KidsOk(pages, g, Attached, p)
  {
    var s := pages[p].slots;
    forall i | 0 <= i < |s|
      ensures KidOk(pages, g, Attached, p, Kid(s, i), i == 0, i == |s| - 1)
    {
      assert TileOk(g, Kid(s, i), g.info[p].fst, g.info[p].end, g.info[p].lvl - 1, i == 0, i == |s| - 1);
    }
  }

  lemma TilesConcat(g: Shape, s: seq<Entry>, t: seq<Entry>, lo: int, b: int, hi: int, lvl: int)
    requires Tiles(g, s, lo, b, lvl) && Tiles(g, t, b, hi, lvl)
    ensures Tiles(g, s + t, lo, hi, lvl)
  {
    var all := s + t;
    assert forall i :: 0 <= i < |s| ==> Kid(all, i) == Kid(s, i);
    assert forall i :: |s| <= i < |all| ==> Kid(all, i) == Kid(t, i - |s|);
    TilesBounds(g, s, lo, b, lvl);
    TilesBounds(g, t, b, hi, lvl);
    forall i | 0 <= i < |all|
      ensures Kid(all, i) in g.info && TileOk(g, Kid(all, i), lo, hi, lvl, i == 0, i == |all| - 1)
    {
      if i < |s| {
        assert TileOk(g, Kid(s, i), lo, b, lvl, i == 0, i == |s| - 1);
      } else {
        assert TileOk(g, Kid(t, i - |s|), b, hi, lvl, i - |s| == 0, i - |s| == |t| - 1);
      }
    }
    forall i, j | 0 <= i < j < |all|
      ensures g.info[Kid(all, i)].end <= g.info[Kid(all, j)].fst
      ensures j == i + 1 ==> g.info[Kid(all, i)].end == g.info[Kid(all, j)].fst
    {
      if i < |s| <= j {
        assert TileOk(g, Kid(s, i), lo, b, lvl, i == 0, i == |s| - 1);
        assert TileOk(g, Kid(t, j - |s|), b, hi, lvl, j - |s| == 0, j - |s| == |t| - 1);
        assert g.info[Kid(s, i)].end <= b <= g.info[Kid(t, j - |s|)].fst;
      }
    }
  }

  lemma TilesBounds(g: Shape, s: seq<Entry>, lo: int, hi: int, lvl: int)
    requires Tiles(g, s, lo, hi, lvl)
    ensures forall i :: 0 <= i < |s| ==>
              Kid(s, i) in g.info && lo <= g.info[Kid(s, i)].fst && g.info[Kid(s, i)].end <= hi
  {
    forall i | 0 <= i < |s|
      ensures lo <= g.info[Kid(s, i)].fst && g.info[Kid(s, i)].end <= hi
    {
      assert TileOk(g, Kid(s, i), lo, hi, lvl, i == 0, i == |s| - 1);
      assert TileOk(g, Kid(s, 0), lo, hi, lvl, true, 0 == |s| - 1);
      assert TileOk(g, Kid(s, |s| - 1), lo, hi, lvl, |s| - 1 == 0, true);
    }
  }

  lemma TilesSplit(g: Shape, s: seq<Entry>, t: seq<Entry>, lo: int, hi: int, lvl: int)
    requires Tiles(g, s + t, lo, hi, lvl) && |s| > 0 && |t| > 0
    ensures Kid(t, 0) in g.info
    ensures Tiles(g, s, lo, g.info[Kid(t, 0)].fst, lvl) && Tiles(g, t, g.info[Kid(t, 0)].fst, hi, lvl)
  {
    var all := s + t;
    assert forall i :: 0 <= i < |s| ==> Kid(s, i) == Kid(all, i);
    assert forall i :: 0 <= i < |t| ==> Kid(t, i) == Kid(all, |s| + i);
    var b := g.info[Kid(t, 0)].fst;
    forall i | 0 <= i < |s|
      ensures TileOk(g, Kid(s, i), lo, b, lvl, i == 0, i == |s| - 1)
    {
      assert TileOk(g, Kid(all, i), lo, hi, lvl, i == 0, i == |all| - 1);
      assert i == |s| - 1 ==> g.info[Kid(all, i)].end == g.info[Kid(all, |s|)].fst;
    }
    forall i | 0 <= i < |t|
      ensures TileOk(g, Kid(t, i), b, hi, lvl, i == 0, i == |t| - 1)
    {
      assert TileOk(g, Kid(all, |s| + i), lo, hi, lvl, |s| + i == 0, |s| + i == |all| - 1);
    }
  }

  /** Tilings only depend on the intervals of the listed children. */
  lemma TilesKept(g: Shape, g': Shape, s: seq<Entry>, lo: int, hi: int, lvl: int)
    requires Tiles(g, s, lo, hi, lvl)
    requires forall i :: 0 <= i < |s| && Kid(s, i) in g.info ==>
               Kid(s, i) in g'.info && g'.info[Kid(s, i)] == g.info[Kid(s, i)]
    ensures Tiles(g', s, lo, hi, lvl)
  {
    forall i | 0 <= i < |s|
      ensures Kid(s, i) in g'.info && TileOk(g', Kid(s, i), lo, hi, lvl, i == 0, i == |s| - 1)
    {
      assert TileOk(g, Kid(s, i), lo, hi, lvl, i == 0, i == |s| - 1);
    }
  }

  // ------------------------------------------------------------- moving children between siblings

  /** Slots move between the inner siblings `l` and `r`; moved children learn their new parent. */
  ghost predicate InnerShift(pages: Pages, pages': Pages, a: int, i: int, l: int, r: int) {
    && Shifted(pages, pages', a, i, l, r)
    && (forall p :: p in pages && p !in {a, l, r} ==>
          && p in pages' && pages'[p].isLeaf == pages[p].isLeaf && pages'[p].slots == pages[p].slots
          && pages'[p].parent == if IsKid(pages'[l].slots, p) then l
                                 else if IsKid(pages'[r].slots, p) then r else pages[p].parent)
  }

  ghost function InnerShiftShape(pages': Pages, g: Shape, l: int, r: int): Shape
    requires l in g.info && r in g.info && r in pages' && |pages'[r].slots| > 0 && Kid(pages'[r].slots, 0) in g.info
  {
    var b := g.info[Kid(pages'[r].slots, 0)].fst;
    g.(info := g.info[l := g.info[l].(end := b)][r := g.info[r].(fst := b)])
  }

  /** The old and the new children of the two siblings. */
  lemma ShiftTiles(pages: Pages, pages': Pages, root: int, g: Shape, a: int, i: int, l: int, r: int)
    requires Shaped(pages, root, g, Attached) && Siblings(pages, g, a, i, l, r)
    requires r in g.info && g.info[r].lvl > 0 && Shifted(pages, pages', a, i, l, r)
    ensures l in g.info && Kid(pages'[r].slots, 0) in g.info
    ensures var lvl, b := g.info[r].lvl - 1, g.info[Kid(pages'[r].slots, 0)].fst;
            && Tiles(g, pages[l].slots + pages[r].slots, g.info[l].fst, g.info[r].end, lvl)
            && Tiles(g, pages'[l].slots, g.info[l].fst, b, lvl) && Tiles(g, pages'[r].slots, b, g.info[r].end, lvl)
            && g.info[l].fst < b < g.info[r].end
  {
    hide Up, LeafLevel, PendingOk;
    SiblingFacts(pages, root, g, a, i, l, r);
    KidsTile(pages, g, l);
    KidsTile(pages, g, r);
    TilesConcat(g, pages[l].slots, pages[r].slots, g.info[l].fst, g.info[r].fst, g.info[r].end, g.info[r].lvl - 1);
    TilesSplit(g, pages'[l].slots, pages'[r].slots, g.info[l].fst, g.info[r].end, g.info[r].lvl - 1);
    TilesStart(g, pages'[l].slots, g.info[l].fst, g.info[Kid(pages'[r].slots, 0)].fst, g.info[r].lvl - 1);
    TilesStart(g, pages'[r].slots, g.info[Kid(pages'[r].slots, 0)].fst, g.info[r].end, g.info[r].lvl - 1);
  }

  lemma TilesStart(g: Shape, s: seq<Entry>, lo: int, hi: int, lvl: int)
    requires Tiles(g, s, lo, hi, lvl)
    ensures lo < hi
  {
    TilesBounds(g, s, lo, hi, lvl);
    assert TileOk(g, Kid(s, 0), lo, hi, lvl, true, 0 == |s| - 1);
  }

  /** A child of one of the siblings is a child of exactly one of them afterwards. */
  lemma ShiftedKid(pages: Pages, pages': Pages, g: Shape, a: int, i: int, l: int, r: int, c: int)
    requires Shifted(pages, pages', a, i, l, r)
    ensures IsKid(pages'[l].slots, c) || IsKid(pages'[r].slots, c) <==>
              IsKid(pages[l].slots, c) || IsKid(pages[r].slots, c)
  {
    KidConcat(pages[l].slots, pages[r].slots, c);
    KidConcat(pages'[l].slots, pages'[r].slots, c);
  }

  lemma KidConcat(s: seq<Entry>, t: seq<Entry>, c: int)
    ensures IsKid(s + t, c) <==> IsKid(s, c) || IsKid(t, c)
  {
    var all := s + t;
    if IsKid(s, c) {
      var i :| 0 <= i < |s| && Kid(s, i) == c;
      assert Kid(all, i) == c;
    }
    if IsKid(t, c) {
      var i :| 0 <= i < |t| && Kid(t, i) == c;
      assert Kid(all, |s| + i) == c;
    }
    if IsKid(all, c) {
      var i :| 0 <= i < |all| && Kid(all, i) == c;
      assert i < |s| ==> Kid(s, i) == c;
      assert i >= |s| ==> Kid(t, i - |s|) == c;
    }
  }

  /** Children of other nodes do not move. */
  lemma NotShifted(pages: Pages, g: Shape, p: int, c: int)
    requires Down(pages, g, Attached) && Inner(pages, g, p) && c in pages && pages[c].parent != p
    ensures !IsKid(pages[p].slots, c)
  {
    assert KidsOk(pages, g, Attached, p);
  }

  lemma TilesOwned(
      pages: Pages, pages': Pages, g: Shape, a: int, i: int, l: int, r: int, lo: int, b: int, hi: int, lvl: int)
    requires InnerShift(pages, pages', a, i, l, r) && Typed(pages, g)
    requires a in g.info && l in g.info && r in g.info
    requires lvl < g.info[l].lvl && lvl < g.info[r].lvl && lvl < g.info[a].lvl
    requires Tiles(g, pages'[l].slots, lo, b, lvl) && Tiles(g, pages'[r].slots, b, hi, lvl)
    ensures Owned(pages', pages'[l].slots, l) && Owned(pages', pages'[r].slots, r)
  {
    var s, t := pages'[l].slots, pages'[r].slots;
    TilesBounds(g, s, lo, b, lvl);
    TilesBounds(g, t, b, hi, lvl);
    forall m | 0 <= m < |s|
      ensures Kid(s, m) in pages' && pages'[Kid(s, m)].parent == l
    {
      assert TileOk(g, Kid(s, m), lo, b, lvl, m == 0, m == |s| - 1);
      assert IsKid(s, Kid(s, m));
    }
    forall m | 0 <= m < |t|
      ensures Kid(t, m) in pages' && pages'[Kid(t, m)].parent == r
    {
      var c := Kid(t, m);
      assert TileOk(g, c, b, hi, lvl, m == 0, m == |t| - 1);
      assert IsKid(t, c);
      assert forall n :: 0 <= n < |s| ==> g.info[Kid(s, n)].end <= b <= g.info[c].fst < g.info[c].end;
      assert !IsKid(s, c);
    }
  }

  lemma InnerShiftOwnKids(pages: Pages, pages': Pages, root: int, g: Shape, a: int, i: int, l: int, r: int)
    requires Shaped(pages, root, g, Attached) && Siblings(pages, g, a, i, l, r)
    requires r in g.info && g.info[r].lvl > 0 && InnerShift(pages, pages', a, i, l, r)
    requires l in g.info && Kid(pages'[r].slots, 0) in g.info
    ensures var g' := InnerShiftShape(pages', g, l, r);
            && Inner(pages', g', l) && KidsOk(pages', g', Attached, l)
            && Inner(pages', g', r) && KidsOk(pages', g', Attached, r)
  {
    hide Up, LeafLevel, PendingOk, Down, KidsOk, Tiles, Owned, InnerShift;
    SiblingFacts(pages, root, g, a, i, l, r);
    assert Shifted(pages, pages', a, i, l, r) by { ShiftedOf(pages, pages', a, i, l, r); }
    ShiftTiles(pages, pages', root, g, a, i, l, r);
    var lvl, b := g.info[r].lvl - 1, g.info[Kid(pages'[r].slots, 0)].fst;
    TilesOwned(pages, pages', g, a, i, l, r, g.info[l].fst, b, g.info[r].end, lvl);
    ShiftedKids(pages', g, l, r, g.info[l].fst, b, g.info[r].end, lvl);
  }

  lemma ShiftedOf(pages: Pages, pages': Pages, a: int, i: int, l: int, r: int)
    requires InnerShift(pages, pages', a, i, l, r)
    ensures Shifted(pages, pages', a, i, l, r)
  {
  }

  lemma ShiftedKids(pages': Pages, g: Shape, l: int, r: int, lo: int, b: int, hi: int, lvl: int)
    requires l in g.info && r in g.info && l in pages' && r in pages' && l != r
    requires |pages'[r].slots| > 0 && Kid(pages'[r].slots, 0) in g.info && b == g.info[Kid(pages'[r].slots, 0)].fst
    requires lo == g.info[l].fst && hi == g.info[r].end && g.info[l].lvl == g.info[r].lvl == lvl + 1 && lvl >= 0
    requires Tiles(g, pages'[l].slots, lo, b, lvl) && Tiles(g, pages'[r].slots, b, hi, lvl)
    requires Owned(pages', pages'[l].slots, l) && Owned(pages', pages'[r].slots, r)
    ensures var g' := InnerShiftShape(pages', g, l, r);
            && Inner(pages', g', l) && KidsOk(pages', g', Attached, l)
            && Inner(pages', g', r) && KidsOk(pages', g', Attached, r)
  {
    hide KidsOk, Tiles, Owned;
    var g' := InnerShiftShape(pages', g, l, r);
    TilesLevel(g, pages'[l].slots, lo, b, lvl, l, r);
    TilesLevel(g, pages'[r].slots, b, hi, lvl, l, r);
    TilesKept(g, g', pages'[l].slots, lo, b, lvl);
    TilesKept(g, g', pages'[r].slots, b, hi, lvl);
    TilesAreKids(pages', g', l);
    TilesAreKids(pages', g', r);
  }

  lemma TilesLevel(g: Shape, s: seq<Entry>, lo: int, hi: int, lvl: int, l: int, r: int)
    requires Tiles(g, s, lo, hi, lvl) && l in g.info && r in g.info && g.info[l].lvl > lvl && g.info[r].lvl > lvl
    ensures forall m :: 0 <= m < |s| ==> Kid(s, m) != l && Kid(s, m) != r
  {
    forall m | 0 <= m < |s|
      ensures Kid(s, m) != l && Kid(s, m) != r
    {
      assert TileOk(g, Kid(s, m), lo, hi, lvl, m == 0, m == |s| - 1);
    }
  }

  lemma InnerShiftParentKids(pages: Pages, pages': Pages, root: int, g: Shape, a: int, i: int, l: int, r: int)
    requires Shaped(pages, root, g, Attached) && Siblings(pages, g, a, i, l, r)
    requires r in g.info && g.info[r].lvl > 0 && InnerShift(pages, pages', a, i, l, r)
    requires l in g.info && Kid(pages'[r].slots, 0) in g.info
    ensures var g' := InnerShiftShape(pages', g, l, r);
            Inner(pages', g', a) && KidsOk(pages', g', Attached, a)
  {
    hide Up, LeafLevel, PendingOk;
    SiblingFacts(pages, root, g, a, i, l, r);
    ShiftTiles(pages, pages', root, g, a, i, l, r);
    var g' := InnerShiftShape(pages', g, l, r);
    var s, s' := pages[a].slots, pages'[a].slots;
    assert KidsOk(pages, g, Attached, a);
    forall m | 0 <= m < |s|
      ensures Kid(s', m) == Kid(s, m) && Kid(s, m) in g.info && Kid(s, m) in g'.info
      ensures m != i + 1 ==> g'.info[Kid(s, m)].fst == g.info[Kid(s, m)].fst
      ensures m != i ==> g'.info[Kid(s, m)].end == g.info[Kid(s, m)].end
      ensures KidOk(pages', g', Attached, a, Kid(s, m), m == 0, m == |s| - 1)
    {
      KidFacts(pages, g, Attached, a, m);
      if m < i { KidPair(pages, g, Attached, a, m, i); KidPair(pages, g, Attached, a, m, i + 1); }
      if m == i { KidPair(pages, g, Attached, a, m, i + 1); }
      if m > i + 1 { KidPair(pages, g, Attached, a, i, m); KidPair(pages, g, Attached, a, i + 1, m); }
      if m != i && m != i + 1 {
        NotShifted(pages, g, l, Kid(s, m));
        NotShifted(pages, g, r, Kid(s, m));
        ShiftedKid(pages, pages', g, a, i, l, r, Kid(s, m));
      }
    }
    forall m, n | 0 <= m < n < |s'|
      ensures g'.info[Kid(s', m)].end <= g'.info[Kid(s', n)].fst
      ensures n == m + 1 ==> g'.info[Kid(s', m)].end == g'.info[Kid(s', n)].fst
    {
      KidPair(pages, g, Attached, a, m, n);
      if m < i && n == i + 1 { KidPair(pages, g, Attached, a, m, i); }
      if m == i && n > i + 1 { KidPair(pages, g, Attached, a, i + 1, n); }
    }
  }

  lemma InnerShiftOtherKids(pages: Pages, pages': Pages, root: int, g: Shape, a: int, i: int, l: int, r: int, q: int)
    requires Shaped(pages, root, g, Attached) && Siblings(pages, g, a, i, l, r)
    requires r in g.info && g.info[r].lvl > 0 && InnerShift(pages, pages', a, i, l, r)
    requires l in g.info && Kid(pages'[r].slots, 0) in g.info
    requires Inner(pages, g, q) && q !in {a, l, r}
    ensures var g' := InnerShiftShape(pages', g, l, r);
            Inner(pages', g', q) && KidsOk(pages', g', Attached, q)
  {
    hide Up, LeafLevel, PendingOk;
    SiblingFacts(pages, root, g, a, i, l, r);
    var g' := InnerShiftShape(pages', g, l, r);
    var s := pages[q].slots;
    assert KidsOk(pages, g, Attached, q);
    forall m | 0 <= m < |s|
      ensures Kid(s, m) in g.info && Kid(s, m) != l && Kid(s, m) != r
      ensures KidOk(pages', g', Attached, q, Kid(s, m), m == 0, m == |s| - 1)
    {
      KidFacts(pages, g, Attached, q, m);
      NotShifted(pages, g, l, Kid(s, m));
      NotShifted(pages, g, r, Kid(s, m));
      ShiftedKid(pages, pages', g, a, i, l, r, Kid(s, m));
    }
  }

  lemma InnerShiftUp(pages: Pages, pages': Pages, root: int, g: Shape, a: int, i: int, l: int, r: int)
    requires Shaped(pages, root, g, Attached) && Siblings(pages, g, a, i, l, r)
    requires r in g.info && g.info[r].lvl > 0 && InnerShift(pages, pages', a, i, l, r)
    requires l in g.info && Kid(pages'[r].slots, 0) in g.info
    ensures Up(pages', root, InnerShiftShape(pages', g, l, r), Attached)
  {
    hide LeafLevel, PendingOk, KidsOk, Down;
    SiblingFacts(pages, root, g, a, i, l, r);
    var g' := InnerShiftShape(pages', g, l, r);
    NotShifted(pages, g, l, root);
    NotShifted(pages, g, r, root);
    ShiftedKid(pages, pages', g, a, i, l, r, root);
    forall p | p in g'.info && p in pages' && p != root
      ensures Inner(pages', g', pages'[p].parent) && IsKid(pages'[pages'[p].parent].slots, p)
    {
      assert Inner(pages, g, pages[p].parent) && IsKid(pages[pages[p].parent].slots, p);
      InnerShiftParent(pages, pages', root, g, a, i, l, r, p);
    }
  }

  lemma SameKids(s: seq<Entry>, t: seq<Entry>, c: int)
    requires |s| == |t| && forall m :: 0 <= m < |s| ==> s[m].rid == t[m].rid
    requires IsKid(s, c)
    ensures IsKid(t, c)
  {
    var m :| 0 <= m < |s| && Kid(s, m) == c;
    assert Kid(t, m) == c;
  }

  lemma InnerShiftParent(pages: Pages, pages': Pages, root: int, g: Shape, a: int, i: int, l: int, r: int, p: int)
    requires Typed(pages, g) && Down(pages, g, Attached) && Inner(pages, g, a) && Inner(pages, g, l)
    requires Inner(pages, g, r)
    requires InnerShift(pages, pages', a, i, l, r) && Kid(pages'[r].slots, 0) in g.info
    requires pages[l].parent == a && pages[r].parent == a
    requires g.info[l].lvl < g.info[a].lvl && g.info[r].lvl < g.info[a].lvl
    requires p in g.info && p in pages && Inner(pages, g, pages[p].parent) && IsKid(pages[pages[p].parent].slots, p)
    ensures var g' := InnerShiftShape(pages', g, l, r);
            p in pages' && Inner(pages', g', pages'[p].parent) && IsKid(pages'[pages'[p].parent].slots, p)
  {
    hide Down, KidsOk, Typed;
    var b := pages[p].parent;
    if b == l || b == r {
      ShiftedKid(pages, pages', g, a, i, l, r, p);
      assert p != a by { if p == a { Cycle(pages, g, b, p); } }
      assert p != l && p != r;
    } else {
      NotShifted(pages, g, l, p);
      NotShifted(pages, g, r, p);
      ShiftedKid(pages, pages', g, a, i, l, r, p);
      assert pages'[p].parent == b;
      SameKids(pages[b].slots, pages'[b].slots, p);
    }
  }

  lemma Cycle(pages: Pages, g: Shape, b: int, a: int)
    requires Down(pages, g, Attached) && Inner(pages, g, b) && Inner(pages, g, a) && IsKid(pages[b].slots, a)
    ensures g.info[a].lvl < g.info[b].lvl
  {
    var m :| 0 <= m < |pages[b].slots| && Kid(pages[b].slots, m) == a;
    KidFacts(pages, g, Attached, b, m);
  }

  lemma InnerShiftLevels(pages: Pages, pages': Pages, root: int, g: Shape, a: int, i: int, l: int, r: int)
    requires Shaped(pages, root, g, Attached) && Siblings(pages, g, a, i, l, r)
    requires r in g.info && g.info[r].lvl > 0 && InnerShift(pages, pages', a, i, l, r)
    ensures l in g.info && Kid(pages'[r].slots, 0) in g.info
    ensures Typed(pages', InnerShiftShape(pages', g, l, r)) && LeafLevel(InnerShiftShape(pages', g, l, r))
  {
    hide Down, KidsOk, Up, PendingOk, Tiles;
    SiblingFacts(pages, root, g, a, i, l, r);
    ShiftTiles(pages, pages', root, g, a, i, l, r);
  }

  lemma InnerShiftShaped(pages: Pages, pages': Pages, root: int, g: Shape, a: int, i: int, l: int, r: int)
    requires Shaped(pages, root, g, Attached) && Siblings(pages, g, a, i, l, r)
    requires r in g.info && g.info[r].lvl > 0 && InnerShift(pages, pages', a, i, l, r)
    ensures l in g.info && Kid(pages'[r].slots, 0) in g.info
    ensures Shaped(pages', root, InnerShiftShape(pages', g, l, r), Attached)
  {
    hide KidsOk, Up, Typed, LeafLevel, Siblings;
    InnerShiftLevels(pages, pages', root, g, a, i, l, r);
    InnerShiftUp(pages, pages', root, g, a, i, l, r);
    var g' := InnerShiftShape(pages', g, l, r);
    forall q | Inner(pages', g', q)
      ensures KidsOk(pages', g', Attached, q)
    {
      if q == a {
        InnerShiftParentKids(pages, pages', root, g, a, i, l, r);
      } else if q == l || q == r {
        InnerShiftOwnKids(pages, pages', root, g, a, i, l, r);
      } else {
        assert Inner(pages, g, q) by { TypedPage(pages, g, q); }
        InnerShiftOtherKids(pages, pages', root, g, a, i, l, r, q);
      }
    }
  }

  lemma TypedPage(pages: Pages, g: Shape, q: int)
    requires Typed(pages, g) && q in g.info
    ensures q in pages
  {
  }

  /** Every entry of the shifted tree is an old entry, or the refreshed separator of the right sibling,
      which repeats the separator of that sibling's first child. */
  lemma InnerShiftEntry(
      pages: Pages, pages': Pages, root: int, g: Shape, a: int, i: int, l: int, r: int, q: int, m: int)
    requires Shaped(pages, root, g, Attached) && Ordered(pages, root, g, NO_PAGE) && Siblings(pages, g, a, i, l, r)
    requires r in g.info && g.info[r].lvl > 0 && InnerShift(pages, pages', a, i, l, r) && LeavesKept(pages, pages', g)
    requires l in g.info && Kid(pages'[r].slots, 0) in g.info
    requires Inner(pages', InnerShiftShape(pages', g, l, r), q) && 0 <= m < |pages'[q].slots|
    ensures EntryOk(pages', InnerShiftShape(pages', g, l, r), NO_PAGE, pages'[q].slots[m])
  {
    hide Up, LeafLevel, PendingOk, LeafOrder, LeavesKept, KidsOk, EntryOk;
    SiblingFacts(pages, root, g, a, i, l, r);
    var g' := InnerShiftShape(pages', g, l, r);
    var e := pages'[q].slots[m];
    if q == a && m == i + 1 {
      ShiftNewEntry(pages, pages', g, a, i, l, r);
    } else if q == l || q == r {
      var all := pages[l].slots + pages[r].slots;
      var n := if q == l then m else |pages'[l].slots| + m;
      assert (pages'[l].slots + pages'[r].slots)[n] == e;
      var q', m' := if n < |pages[l].slots| then l else r, if n < |pages[l].slots| then n else n - |pages[l].slots|;
      assert e == pages[q'].slots[m'];
      ShiftOldEntry(pages, pages', root, g, a, i, l, r, q', m');
    } else {
      assert e == pages[q].slots[m];
      ShiftOldEntry(pages, pages', root, g, a, i, l, r, q, m);
    }
  }

  lemma ShiftOldEntry(pages: Pages, pages': Pages, root: int, g: Shape, a: int, i: int, l: int, r: int, q: int, m: int)
    requires Shaped(pages, root, g, Attached) && Separators(pages, g, NO_PAGE) && Siblings(pages, g, a, i, l, r)
    requires r in g.info && g.info[r].lvl > 0 && InnerShift(pages, pages', a, i, l, r) && LeavesKept(pages, pages', g)
    requires l in g.info && Kid(pages'[r].slots, 0) in g.info
    requires Inner(pages, g, q) && 0 <= m < |pages[q].slots| && (q != a || m != i + 1)
    ensures EntryOk(pages', InnerShiftShape(pages', g, l, r), NO_PAGE, pages[q].slots[m])
  {
    hide Up, LeafLevel, PendingOk, KidsOk, LeavesKept, Down;
    var e := pages[q].slots[m];
    var c := Kid(pages[q].slots, m);
    assert EntryOk(pages, g, NO_PAGE, e);
    KidFacts(pages, g, Attached, q, m);
    if c == r {
      OnlyEntry(pages, root, g, a, i + 1, q, m);
    } else {
      ShiftFirstSlot(pages, pages', a, i, l, r, c);
      EntryKept(pages, pages', g, InnerShiftShape(pages', g, l, r), NO_PAGE, e);
    }
  }

  lemma ShiftFirstSlot(pages: Pages, pages': Pages, a: int, i: int, l: int, r: int, c: int)
    requires InnerShift(pages, pages', a, i, l, r) && c in pages && c != r
    ensures c in pages' && (|pages'[c].slots| > 0 ==> |pages[c].slots| > 0 && pages'[c].slots[0] == pages[c].slots[0])
  {
    if c == l {
      assert pages'[l].slots[0] == (pages'[l].slots + pages'[r].slots)[0];
    }
  }

  lemma ShiftNewEntry(pages: Pages, pages': Pages, g: Shape, a: int, i: int, l: int, r: int)
    requires Typed(pages, g) && Separators(pages, g, NO_PAGE) && Inner(pages, g, l) && Inner(pages, g, r)
    requires InnerShift(pages, pages', a, i, l, r) && LeavesKept(pages, pages', g)
    requires Kid(pages'[r].slots, 0) in g.info && Kid(pages[a].slots, i + 1) == r
    ensures EntryOk(pages', InnerShiftShape(pages', g, l, r), NO_PAGE, pages'[a].slots[i + 1])
  {
    var g' := InnerShiftShape(pages', g, l, r);
    var d := pages'[r].slots[0];
    var n := |pages'[l].slots|;
    assert (pages'[l].slots + pages'[r].slots)[n] == d;
    var q, m := if n < |pages[l].slots| then l else r, if n < |pages[l].slots| then n else n - |pages[l].slots|;
    assert d == pages[q].slots[m];
    assert EntryOk(pages, g, NO_PAGE, d);
    assert d.rid.pageNo in pages;
    SameLeavesAbove(pages, pages', g, g', d.key, g.info[d.rid.pageNo].fst);
  }

  /** Moving children between inner siblings keeps the tree well formed. */
  lemma InnerShiftOrdered(pages: Pages, pages': Pages, root: int, g: Shape, a: int, i: int, l: int, r: int)
    requires Shaped(pages, root, g, Attached) && Ordered(pages, root, g, NO_PAGE) && Siblings(pages, g, a, i, l, r)
    requires r in g.info && g.info[r].lvl > 0 && InnerShift(pages, pages', a, i, l, r)
    requires l in g.info && Kid(pages'[r].slots, 0) in g.info
    ensures LeavesKept(pages, pages', g) && Ordered(pages', root, InnerShiftShape(pages', g, l, r), NO_PAGE)
  {
    hide Up, PendingOk, KidsOk, LeafOrder, Down, EntryOk;
    SiblingFacts(pages, root, g, a, i, l, r);
    var g' := InnerShiftShape(pages', g, l, r);
    InnerShiftLeaves(pages, pages', g, a, i, l, r);
    SameLeavesOrder(pages, pages', g, g');
    forall q, m | Inner(pages', g', q) && 0 <= m < |pages'[q].slots|
      ensures EntryOk(pages', g', NO_PAGE, pages'[q].slots[m])
    {
      InnerShiftEntry(pages, pages', root, g, a, i, l, r, q, m);
    }
  }

  lemma InnerShiftLeaves(pages: Pages, pages': Pages, g: Shape, a: int, i: int, l: int, r: int)
    requires Typed(pages, g) && LeafLevel(g) && Inner(pages, g, a) && Inner(pages, g, l) && Inner(pages, g, r)
    requires InnerShift(pages, pages', a, i, l, r)
    ensures LeavesKept(pages, pages', g)
  {
    forall j | 0 <= j < |g.leaves|
      ensures g.leaves[j] in pages && g.leaves[j] in pages' && pages'[g.leaves[j]].slots == pages[g.leaves[j]].slots
    {
      var c := g.leaves[j];
      assert c in g.info && g.info[c].lvl == 0;
    }
  }
}
