/** The leaf ring and what the index holds: the entries along the leaf chain, and the map they form. */
module IxChain {
  import opened Basics
  import opened IxTree
  import opened IxInsert
  import opened IxSplit
  import opened IxDelete
  import opened IxCoalesce
  import opened IxPrune

  // ------------------------------------------------------------- entries along the chain

  ghost predicate Stored(pages: Pages, leaves: seq<int>) {
    forall j :: 0 <= j < |leaves| ==> leaves[j] in pages
  }

  ghost function Chain(pages: Pages, leaves: seq<int>): (es: seq<Entry>)
    requires Stored(pages, leaves)
  {
    if |leaves| == 0 then []
    else Chain(pages, leaves[..|leaves| - 1]) + pages[leaves[|leaves| - 1]].slots
  }

  lemma {:induction false} ChainKept(pages: Pages, pages': Pages, leaves: seq<int>)
    requires Stored(pages, leaves) && Stored(pages', leaves)
    requires forall j :: 0 <= j < |leaves| ==> pages'[leaves[j]].slots == pages[leaves[j]].slots
    ensures Chain(pages', leaves) == Chain(pages, leaves)
  {
    if |leaves| > 0 {
      ChainKept(pages, pages', leaves[..|leaves| - 1]);
    }
  }

  lemma {:induction false} ChainConcat(pages: Pages, a: seq<int>, b: seq<int>)
    requires Stored(pages, a) && Stored(pages, b)
    ensures Stored(pages, a + b) && Chain(pages, a + b) == Chain(pages, a) + Chain(pages, b)
  {
    if |b| == 0 {
      assert a + b == a;
    } else {
      var b' := b[..|b| - 1];
      ChainConcat(pages, a, b');
      assert (a + b)[..|a + b| - 1] == a + b';
    }
  }

  /** The chain around the part `mid` of the leaves. */
  lemma {:induction false} ChainAround(pages: Pages, leaves: seq<int>, a: seq<int>, mid: seq<int>, b: seq<int>)
    requires Stored(pages, leaves) && leaves == a + mid + b
    ensures Stored(pages, a) && Stored(pages, mid) && Stored(pages, b)
    ensures Chain(pages, leaves) == Chain(pages, a) + Chain(pages, mid) + Chain(pages, b)
  {
    assert forall j :: 0 <= j < |a| ==> a[j] == leaves[j];
    assert forall j :: 0 <= j < |mid| ==> mid[j] == leaves[|a| + j];
    assert forall j :: 0 <= j < |b| ==> b[j] == leaves[|a| + |mid| + j];
    ChainConcat(pages, a, mid);
    ChainConcat(pages, a + mid, b);
  }

  lemma {:induction false} ChainOne(pages: Pages, p: int)
    requires p in pages
    ensures Stored(pages, [p]) && Chain(pages, [p]) == pages[p].slots
  {
    assert [p][..0] == [];
  }

  lemma {:induction false} ChainTwo(pages: Pages, p: int, q: int)
    requires p in pages && q in pages
    ensures Stored(pages, [p, q]) && Chain(pages, [p, q]) == pages[p].slots + pages[q].slots
  {
    ChainOne(pages, p);
    assert [p, q][..1] == [p];
  }

  /** Replacing one stretch of the leaves by another that holds the same entries keeps the chain. */
  lemma {:induction false} ChainReplace(
      pages: Pages, pages': Pages, a: seq<int>, mid: seq<int>, mid': seq<int>, b: seq<int>)
    requires Stored(pages, a + mid + b) && Stored(pages', a + mid' + b)
    requires Stored(pages, mid) && Stored(pages', mid') && Chain(pages, mid) == Chain(pages', mid')
    requires forall j :: 0 <= j < |a| ==> a[j] in pages && a[j] in pages' && pages'[a[j]].slots == pages[a[j]].slots
    requires forall j :: 0 <= j < |b| ==> b[j] in pages && b[j] in pages' && pages'[b[j]].slots == pages[b[j]].slots
    ensures Chain(pages, a + mid + b) == Chain(pages', a + mid' + b)
  {
    ChainAround(pages, a + mid + b, a, mid, b);
    ChainAround(pages', a + mid' + b, a, mid', b);
    ChainKept(pages, pages', a);
    ChainKept(pages, pages', b);
  }

  /** Position in the chain of slot `v` of leaf `j`. */
  ghost function Rank(pages: Pages, leaves: seq<int>, j: int, v: int): int
    requires Stored(pages, leaves) && 0 <= j <= |leaves|
  {
    |Chain(pages, leaves[..j])| + v
  }

  lemma {:induction false} ChainAt(pages: Pages, leaves: seq<int>, j: int)
    requires Stored(pages, leaves) && 0 <= j < |leaves|
    ensures Chain(pages, leaves) == Chain(pages, leaves[..j]) + pages[leaves[j]].slots + Chain(pages, leaves[j + 1..])
    ensures Chain(pages, leaves[..j + 1]) == Chain(pages, leaves[..j]) + pages[leaves[j]].slots
  {
    ChainOne(pages, leaves[j]);
    assert leaves == leaves[..j] + [leaves[j]] + leaves[j + 1..];
    ChainAround(pages, leaves, leaves[..j], [leaves[j]], leaves[j + 1..]);
    assert leaves[..j + 1][..j] == leaves[..j];
  }

  lemma {:induction false} RankEntry(pages: Pages, leaves: seq<int>, j: int)
    requires Stored(pages, leaves) && 0 <= j < |leaves|
    ensures Rank(pages, leaves, j + 1, 0) == Rank(pages, leaves, j, |pages[leaves[j]].slots|)
    ensures Rank(pages, leaves, j + 1, 0) <= |Chain(pages, leaves)|
    ensures forall v :: 0 <= v < |pages[leaves[j]].slots| ==>
              Chain(pages, leaves)[Rank(pages, leaves, j, v)] == pages[leaves[j]].slots[v]
  {
    hide Chain;
    ChainAt(pages, leaves, j);
  }

  /** Every entry of the chain sits in some leaf. */
  lemma {:induction false} ChainSource(pages: Pages, leaves: seq<int>, e: Entry)
    requires Stored(pages, leaves) && e in Chain(pages, leaves)
    ensures exists j :: 0 <= j < |leaves| && e in pages[leaves[j]].slots
  {
    var n := |leaves| - 1;
    if e !in pages[leaves[n]].slots {
      ChainSource(pages, leaves[..n], e);
      var j :| 0 <= j < n && e in pages[leaves[..n][j]].slots;
      assert leaves[j] == leaves[..n][j];
    }
  }

  lemma {:induction false} ChainHolds(pages: Pages, leaves: seq<int>, j: int, e: Entry)
    requires Stored(pages, leaves) && 0 <= j < |leaves| && e in pages[leaves[j]].slots
    ensures e in Chain(pages, leaves)
  {
    ChainAt(pages, leaves, j);
  }

  /** The chain is strictly ascending. */
  lemma {:induction false} ChainSorted(pages: Pages, g: Shape, n: int)
    requires LeafOrder(pages, g) && Stored(pages, g.leaves) && 0 <= n <= |g.leaves|
    ensures Sorted(Chain(pages, g.leaves[..n]))
  {
    if n > 0 {
      var a := g.leaves[..n - 1];
      ChainSorted(pages, g, n - 1);
      assert g.leaves[..n][..n - 1] == a;
      var c, s := Chain(pages, a), pages[g.leaves[n - 1]].slots;
      forall i, j | 0 <= i < |c| && 0 <= j < |s|
        ensures c[i].key < s[j].key
      {
        ChainSource(pages, a, c[i]);
        var m :| 0 <= m < |a| && c[i] in pages[a[m]].slots;
        assert Precedes(pages[g.leaves[m]].slots, s);
      }
      assert Sorted(s);
    }
  }

  lemma {:induction false} ChainAscends(pages: Pages, g: Shape)
    requires LeafOrder(pages, g) && Stored(pages, g.leaves)
    ensures Sorted(Chain(pages, g.leaves))
  {
    ChainSorted(pages, g, |g.leaves|);
    assert g.leaves[..|g.leaves|] == g.leaves;
  }

  // ------------------------------------------------------------- the map

  ghost function MapOf(es: seq<Entry>): (m: map<int, Rid>) {
    if |es| == 0 then map[]
    else MapOf(es[..|es| - 1])[es[|es| - 1].key := es[|es| - 1].rid]
  }

  lemma {:induction false} MapOfSorted(es: seq<Entry>)
    requires Sorted(es)
    ensures forall e :: e in es ==> e.key in MapOf(es) && MapOf(es)[e.key] == e.rid
    ensures forall k :: k in MapOf(es) ==> Entry(k, MapOf(es)[k]) in es
  {
    if |es| > 0 {
      var es', e := es[..|es| - 1], es[|es| - 1];
      MapOfSorted(es');
      assert es == es' + [e];
    }
  }

  lemma {:induction false} MapOfSize(es: seq<Entry>)
    requires Sorted(es)
    ensures |MapOf(es)| == |es|
  {
    if |es| > 0 {
      var es', e := es[..|es| - 1], es[|es| - 1];
      MapOfSize(es');
      MapOfSorted(es');
      assert e.key !in MapOf(es');
      assert MapOf(es).Keys == MapOf(es').Keys + {e.key};
    }
  }

  lemma {:induction false} MapInsert(es: seq<Entry>, es': seq<Entry>, e: Entry)
    requires Sorted(es) && Sorted(es')
    requires forall x :: x in es' <==> x in es || x == e
    requires e !in es
    ensures e.key !in MapOf(es) && MapOf(es') == MapOf(es)[e.key := e.rid]
  {
    hide MapOf;
    MapOfSorted(es);
    MapOfSorted(es');
    forall f | f in es
      ensures f.key != e.key
    {
      assert f in es' && e in es';
    }
    forall k | k in MapOf(es')
      ensures k == e.key || (k in MapOf(es) && MapOf(es')[k] == MapOf(es)[k])
    {
      var f := Entry(k, MapOf(es')[k]);
      assert f in es';
    }
    forall k | k in MapOf(es)
      ensures k in MapOf(es')
    {
      var f := Entry(k, MapOf(es)[k]);
      assert f in es && f in es';
    }
    assert e in es';
  }

  lemma {:induction false} MapErase(es: seq<Entry>, es': seq<Entry>, e: Entry)
    requires Sorted(es) && Sorted(es')
    requires forall x :: x in es' <==> x in es && x != e
    requires e in es
    ensures MapOf(es') == MapOf(es) - {e.key}
  {
    hide MapOf;
    MapOfSorted(es);
    MapOfSorted(es');
    forall k | k in MapOf(es')
      ensures k in MapOf(es) && k != e.key && MapOf(es')[k] == MapOf(es)[k]
    {
      var f := Entry(k, MapOf(es')[k]);
      assert f in es' && f in es;
    }
    forall k | k in MapOf(es) && k != e.key
      ensures k in MapOf(es')
    {
      var f := Entry(k, MapOf(es)[k]);
      assert f in es && f in es';
    }
  }

  // ------------------------------------------------------------- the leaf ring

  /** The leaves and the leaf header page form a doubly linked ring. */
  ghost predicate Ring(pages: Pages, leaves: seq<int>) {
    && LEAF_HEADER_PAGE in pages && |leaves| > 0 && Stored(pages, leaves)
    && (forall j :: 0 <= j < |leaves| ==> leaves[j] != LEAF_HEADER_PAGE)
    && (forall i, j :: 0 <= i < j < |leaves| ==> leaves[i] != leaves[j])
    && (forall i, j :: 0 <= i < |leaves| && 0 <= j < |leaves| && j == i + 1 ==>
          pages[leaves[i]].next == leaves[j] && pages[leaves[j]].prev == leaves[i])
    && pages[leaves[0]].prev == LEAF_HEADER_PAGE && pages[leaves[|leaves| - 1]].next == LEAF_HEADER_PAGE
    && pages[LEAF_HEADER_PAGE].next == leaves[0] && pages[LEAF_HEADER_PAGE].prev == leaves[|leaves| - 1]
  }

  ghost predicate SameLinks(pages: Pages, pages': Pages) {
    forall p :: p in pages ==> p in pages' && pages'[p].prev == pages[p].prev && pages'[p].next == pages[p].next
  }

  lemma {:induction false} RingKept(pages: Pages, pages': Pages, leaves: seq<int>)
    requires Ring(pages, leaves) && SameLinks(pages, pages')
    ensures Ring(pages', leaves)
  {
    forall j | 0 <= j < |leaves|
      ensures leaves[j] in pages' && pages'[leaves[j]].next == pages[leaves[j]].next
      ensures pages'[leaves[j]].prev == pages[leaves[j]].prev
    {
      var p := leaves[j];
      assert p in pages;
    }
  }

  /** Page `q` is linked in between leaf `p` and its successor. */
  ghost predicate LinkedIn(pages: Pages, pages': Pages, p: int, q: int) {
    && p in pages && q !in pages && p in pages' && q in pages'
    && var n := pages[p].next;
    && n in pages && n in pages' && n != p
    && (forall r :: r in pages ==> r in pages' && (r != p ==> pages'[r].next == pages[r].next))
    && (forall r :: r in pages ==> r in pages' && (r != n ==> pages'[r].prev == pages[r].prev))
    && pages'[p].next == q && pages'[q].prev == p && pages'[q].next == n && pages'[n].prev == q
  }

  lemma {:induction false} RingInsert(pages: Pages, pages': Pages, leaves: seq<int>, ls: seq<int>, j: int, q: int)
    requires Ring(pages, leaves) && 0 <= j < |leaves| && LinkedIn(pages, pages', leaves[j], q)
    requires |ls| == |leaves| + 1 && ls[j + 1] == q
    requires forall m :: 0 <= m <= j ==> ls[m] == leaves[m]
    requires forall m :: j + 1 < m < |ls| ==> ls[m] == leaves[m - 1]
    ensures Ring(pages', ls)
  {
    forall m | 0 <= m < |ls|
      ensures ls[m] in pages' && ls[m] != LEAF_HEADER_PAGE && (m != j + 1 ==> ls[m] in pages)
    {
      var c := ls[m];
      assert m != j + 1 ==> c == leaves[if m <= j then m else m - 1];
    }
    forall i, m | 0 <= i < |ls| && 0 <= m < |ls| && m == i + 1
      ensures pages'[ls[i]].next == ls[m] && pages'[ls[m]].prev == ls[i]
    {
      var a, b := if i <= j then i else i - 1, if m <= j then m else m - 1;
      var c, d := leaves[a], leaves[b];
      assert i != j && i != j + 1 ==> c != leaves[j];
      assert j + 1 < |leaves| ==> leaves[j + 1] == pages[leaves[j]].next;
      assert b != j + 1 && j + 1 < |leaves| ==> d != leaves[j + 1];
    }
    var first, last := leaves[0], leaves[|leaves| - 1];
    assert j + 1 < |leaves| ==> pages[leaves[j]].next == leaves[j + 1] && leaves[j + 1] != first && leaves[j] != last;
  }

  /** Leaf `q` between `p` and its own successor is unlinked. */
  ghost predicate LinkedOut(pages: Pages, pages': Pages, p: int, q: int) {
    && p in pages && q in pages && p in pages' && p != q
    && var n := pages[q].next;
    && n in pages && n in pages'
    && (forall r :: r in pages ==> r in pages' && (r != p && r != q ==> pages'[r].next == pages[r].next))
    && (forall r :: r in pages ==> r in pages' && (r != n && r != q ==> pages'[r].prev == pages[r].prev))
    && pages'[p].next == n && pages'[n].prev == p
  }

  lemma {:induction false} RingErase(pages: Pages, pages': Pages, leaves: seq<int>, ls: seq<int>, j: int)
    requires Ring(pages, leaves) && 0 <= j < |leaves| - 1 && LinkedOut(pages, pages', leaves[j], leaves[j + 1])
    requires |ls| == |leaves| - 1
    requires forall m :: 0 <= m <= j ==> ls[m] == leaves[m]
    requires forall m :: j < m < |ls| ==> ls[m] == leaves[m + 1]
    ensures Ring(pages', ls)
  {
    forall m | 0 <= m < |ls|
      ensures ls[m] in pages' && ls[m] in pages && ls[m] != LEAF_HEADER_PAGE && ls[m] != leaves[j + 1]
    {
      var c := leaves[Skip(j, m)];
      assert c in pages;
    }
    forall i, m | 0 <= i < |ls| && 0 <= m < |ls| && m == i + 1
      ensures pages'[ls[i]].next == ls[m] && pages'[ls[m]].prev == ls[i]
    {
      var c, d := leaves[Skip(j, i)], leaves[Skip(j, m)];
      assert i != j ==> c != leaves[j];
      assert j + 2 < |leaves| ==> leaves[j + 2] == pages[leaves[j + 1]].next;
      assert m != j + 1 && j + 2 < |leaves| ==> d != leaves[j + 2];
    }
    var first, last := leaves[0], leaves[|leaves| - 1];
    assert j + 2 < |leaves| ==>
           pages[leaves[j + 1]].next == leaves[j + 2] && leaves[j + 2] != first && leaves[j] != last;
    assert leaves[j + 1] != first && (j + 2 < |leaves| ==> leaves[j + 1] != last);
  }
}
