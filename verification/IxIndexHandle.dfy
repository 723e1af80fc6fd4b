/** The index: insertion, deletion and search on the page representation, with their
    effect on the finite map that the index stands for. */
module IxIndexHandle {
  import opened Basics
  import opened IxTree
  import opened IxRoute
  import opened IxInsert
  import opened IxSplit
  import opened IxAttach
  import opened IxDelete
  import opened IxMerge
  import opened IxCoalesce
  import opened IxPrune
  import opened IxChain
  import opened IxRebalance
  import opened IxPosition
  import opened IxSteps

  method LowerBound(s: seq<Entry>, k: int) returns (first: int)
    requires Sorted(s)
    ensures IsLowerBound(s, k, first)
  {
    first := 0;
    var len := |s|;
    while len > 0
      invariant 0 <= first && 0 <= len && first + len <= |s|
      invariant forall i :: 0 <= i < first ==> s[i].key < k
      invariant forall i :: first + len <= i < |s| ==> k <= s[i].key
    {
      var half := len / 2;
      var middle := first + half;
      if s[middle].key < k {
        first := middle + 1;
        len := len - half - 1;
      } else {
        len := half;
      }
    }
  }

  /** Searches all but the last slot, then looks at the slot it ends on. */
  method UpperBound(s: seq<Entry>, k: int) returns (r: int)
    requires Sorted(s)
    ensures IsUpperBound(s, k, r)
  {
    var first := 0;
    var len := |s| - 1;
    while len > 0
      invariant if |s| == 0 then first == 0 && len == -1 else 0 <= first && 0 <= len && first + len < |s|
      invariant forall i :: 0 <= i < first ==> s[i].key <= k
      invariant forall i :: first + len <= i < |s| - 1 ==> k < s[i].key
    {
      var half := len / 2;
      var middle := first + half;
      if s[middle].key <= k {
        first := middle + 1;
        len := len - half - 1;
      } else {
        len := half;
      }
    }
    r := if first < |s| && s[first].key > k then first else |s|;
  }

  /** The slot of an inner node that internal_lookup follows. */
  method InternalLookup(s: seq<Entry>, k: int) returns (i: int)
    requires Sorted(s) && |s| > 0
    ensures 0 <= i < |s| && (i == 0 || s[i].key <= k) && (i + 1 < |s| ==> k < s[i + 1].key)
  {
    var pos := LowerBound(s, k);
    if pos == 0 || (pos < |s| && s[pos].key == k) {
      i := pos;
    } else {
      i := pos - 1;
    }
  }

  method FindChild(s: seq<Entry>, c: int) returns (i: int)
    requires IsKid(s, c)
    ensures 0 <= i < |s| && Kid(s, i) == c
  {
    i := 0;
    while Kid(s, i) != c
      invariant 0 <= i < |s|
      invariant exists m :: i <= m < |s| && Kid(s, m) == c
      decreases |s| - i
    {
      i := i + 1;
    }
  }

  class IxIndexHandle {
    const order: int
    var pages: Pages
    var root: int
    var firstLeaf: int
    var lastLeaf: int
    var nextPage: int
    ghost var g: Shape

    /** The tree is well formed, and the header fields name its ends. */
    ghost predicate Valid()
      reads this
    {
      && Sound(order, pages, root, g, Attached, NO_PAGE, NO_PAGE, NO_PAGE)
      && Bounded(pages, nextPage)
      && firstLeaf == g.leaves[0] == INIT_ROOT_PAGE
      && lastLeaf == g.leaves[|g.leaves| - 1]
    }

    /** The entries in the order of the leaf chain. */
    ghost function Entries(): seq<Entry>
      reads this
    {
      if Stored(pages, g.leaves) then Chain(pages, g.leaves) else []
    }

    ghost function Contents(): map<int, Rid>
      reads this
    {
      MapOf(Entries())
    }

    /** A freshly created index: header page, leaf header page and one empty leaf as root. */
    constructor (order: int)
      requires order >= 4
      ensures Valid() && Contents() == map[] && this.order == order
    {
      this.order := order;
      pages := map[LEAF_HEADER_PAGE := Node(true, NO_PAGE, INIT_ROOT_PAGE, INIT_ROOT_PAGE, []),
                   INIT_ROOT_PAGE := Node(true, NO_PAGE, LEAF_HEADER_PAGE, LEAF_HEADER_PAGE, [])];
      root, firstLeaf, lastLeaf, nextPage := INIT_ROOT_PAGE, INIT_ROOT_PAGE, INIT_ROOT_PAGE, 3;
      g := Shape(map[INIT_ROOT_PAGE := Info(0, 0, 1)], [INIT_ROOT_PAGE]);
      new;
      ChainOne(pages, INIT_ROOT_PAGE);
    }

    /** Walks from the root to the leaf responsible for `k`. */
    method FindLeafPage(k: int) returns (p: int)
      requires Shaped(pages, root, g, Attached) && Ordered(pages, root, g, NO_PAGE)
      ensures p in g.info && g.info[p].lvl == 0 && OnRoute(pages, g, k, p, 0)
    {
      p := root;
      RouteStart(pages, root, g, k);
      while !pages[p].isLeaf
        invariant p in g.info && p in pages && OnRoute(pages, g, k, p, g.info[p].lvl)
        decreases g.info[p].lvl
      {
        InnerSorted(pages, root, g, Attached, p);
        var i := InternalLookup(pages[p].slots, k);
        RouteStep(pages, root, g, k, p, i);
        KidFacts(pages, g, Attached, p, i);
        p := Kid(pages[p].slots, i);
      }
    }

    /** Copies first keys upwards until a separator is already right. */
    method MaintainParent(node: int)
      requires Shaped(pages, root, g, Attached) && node in g.info && Ordered(pages, root, g, node)
      requires |pages[node].slots| > 0
      modifies `pages
      ensures Shaped(pages, root, g, Attached) && Ordered(pages, root, g, NO_PAGE)
      ensures OnlyKeys(old(pages), pages)
    {
      var curr := node;
      while pages[curr].parent != NO_PAGE
        invariant curr in g.info && curr in pages && |pages[curr].slots| > 0
        invariant Shaped(pages, root, g, Attached) && Ordered(pages, root, g, curr)
        invariant OnlyKeys(old(pages), pages)
        decreases g.info[root].lvl - g.info[curr].lvl
      {
        var parent := pages[curr].parent;
        var rank := FindChild(pages[parent].slots, curr);
        KidFacts(pages, g, Attached, parent, rank);
        if pages[parent].slots[rank].key == pages[curr].slots[0].key {
          EqualRestores(pages, root, g, curr, parent, rank);
          return;
        }
        ghost var before := pages;
        pages := pages[parent := pages[parent].(slots :=
          pages[parent].slots[rank := pages[parent].slots[rank].(key := pages[curr].slots[0].key)])];
        SetSeparator(before, pages, root, g, parent, rank);
        OnlyKeysStep(old(pages), before, pages, parent, rank, before[curr].slots[0].key);
        curr := parent;
      }
      SeparatorRestored(pages, root, g, curr);
    }
  
    /** Tells the children in slots [from..] of `q` that `q` is their parent. */
    method AdoptKids(q: int, from: int)
      requires q in pages && 0 <= from <= |pages[q].slots|
      requires forall i :: from <= i < |pages[q].slots| ==> Kid(pages[q].slots, i) in pages
      modifies `pages
      ensures OnlyParents(old(pages), pages, old(pages)[q].slots[from..], q)
    {
      var s := pages[q].slots;
      var i := from;
      while i < |s|
        invariant from <= i <= |s|
        invariant OnlyParents(old(pages), pages, s[from..i], q)
      {
        pages := pages[Kid(s, i) := pages[Kid(s, i)].(parent := q)];
        assert s[from..i + 1] == s[from..i] + [s[i]];
        KidAppend(s[from..i], s[i]);
        i := i + 1;
      }
      assert s[from..|s|] == s[from..];
    }

    /** Cuts an overfull node in half; the right half moves to a new page. */
    method Split(node: int) returns (q: int)
      requires Sound(order, pages, root, g, Attached, NO_PAGE, node, NO_PAGE) && Bounded(pages, nextPage)
      requires node in g.info && |pages[node].slots| == order
      modifies `pages, `nextPage, `g
      ensures Sound(order, pages, root, g, Pending(node, q), NO_PAGE, NO_PAGE, NO_PAGE) && Bounded(pages, nextPage)
      ensures Boundary(pages, g, q)
      ensures Chain(pages, g.leaves) == old(Chain(pages, g.leaves))
      ensures old(g.info[node].lvl > 0) ==> g.leaves == old(g.leaves)
      ensures old(g.info[node].lvl == 0) ==>
                var j := old(g.info[node].fst);
                0 <= j < |old(g.leaves)| && g.leaves == old(g.leaves)[..j + 1] + [q] + old(g.leaves)[j + 1..]
      ensures node in g.info && root in g.info
      ensures g.info[node].lvl == old(g.info[node].lvl) && g.info[root].lvl == old(g.info[root].lvl)
      ensures node in pages && |pages[node].slots| == order / 2
    {
      hide KidsOk, Up, Down, Typed, LeafLevel, Ordered, Sized, PendingOk, IsKid;
      NodeKnown(pages, root, g, node);
      q := nextPage;
      nextPage := nextPage + 1;
      var n := pages[node];
      var mid := |n.slots| / 2;
      ghost var before, g0 := pages, g;
      if n.isLeaf {
        pages := pages[q := Node(true, n.parent, node, n.next, n.slots[mid..])]
                      [node := n.(slots := n.slots[..mid], next := q)];
        NextLeaf(before, g0.leaves, g0.info[node].fst);
        pages := pages[n.next := pages[n.next].(prev := q)];
        g := LeafSplitShape(g0, node, q);
        LeafSplitSound(order, before, pages, root, g0, g, node, q, mid);
      } else {
        pages := pages[q := Node(false, n.parent, 0, 0, n.slots[mid..])][node := n.(slots := n.slots[..mid])];
        ghost var cut := pages;
        KidsStored(before, g0, node, mid);
        AdoptKids(q, 0);
        assert n.slots[mid..][0..] == n.slots[mid..];
        CutBounds(before, g0, node, mid);
        g := InnerSplitShape(before, g0, node, q, mid);
        InnerSplitSound(order, before, cut, pages, root, g0, node, q, mid);
      }
    }
  
    /** Gives the split-off node `q` its entry in the parent of `l`, splitting upwards as needed. */
    method InsertIntoParent(l: int, key: int, q: int)
      requires Sound(order, pages, root, g, Pending(l, q), NO_PAGE, NO_PAGE, NO_PAGE) && Bounded(pages, nextPage)
      requires Boundary(pages, g, q) && key == pages[q].slots[0].key && l in g.info && root in g.info
      requires l in pages && |pages[l].slots| >= order / 2
      modifies `pages, `root, `nextPage, `g
      ensures Sound(order, pages, root, g, Attached, NO_PAGE, NO_PAGE, NO_PAGE) && Bounded(pages, nextPage)
      ensures g.leaves == old(g.leaves) && Chain(pages, g.leaves) == old(Chain(pages, g.leaves))
      decreases g.info[root].lvl - g.info[l].lvl
    {
      hide KidsOk, Up, Down, Typed, LeafLevel, Ordered, Sized, PendingOk, IsKid, Chain, Above, AtMost;
      PendingKnown(pages, root, g, l, q);
      ghost var before, g0 := pages, g;
      if pages[l].parent == NO_PAGE {
        var r := nextPage;
        nextPage := nextPage + 1;
        pages := pages[r := Node(false, NO_PAGE, 0, 0, [Entry(pages[l].slots[0].key, Rid(l, -1)),
                                                         Entry(pages[q].slots[0].key, Rid(q, -1))])];
        pages := pages[l := pages[l].(parent := r)];
        pages := pages[q := pages[q].(parent := r)];
        g := NewRootShape(g0, root, r);
        NewRootSound(order, before, pages, root, g0, l, q, r);
        root := r;
      } else {
        var a := pages[l].parent;
        InnerSorted(pages, root, g, Pending(l, q), a);
        var pos := LowerBound(pages[a].slots, key);
        ghost var i := EntryOf(pages, root, g, l, q, a);
        AttachPosition(pages, root, g, Pending(l, q), a, i);
        assert pos == i + 1;
        if pos >= |pages[a].slots| || pages[a].slots[pos].key != key {
          pages := pages[a := pages[a].(slots := InsertAt(pages[a].slots, pos, Entry(key, Rid(q, -1))))];
        }
        AttachSound(order, before, pages, root, g, l, q, a, i);
        if |pages[a].slots| == order {
          var b := Split(a);
          InsertIntoParent(a, pages[b].slots[0].key, b);
        } else {
          NotOver(order, pages, root, g, a);
        }
      }
    }
  
    /** The last part of insert_entry: a leaf that has become full is split. */
    method SplitIfFull(leaf: int)
      requires Sound(order, pages, root, g, Attached, NO_PAGE, leaf, NO_PAGE) && Bounded(pages, nextPage)
      requires leaf in g.info && g.info[leaf].lvl == 0
      requires firstLeaf == g.leaves[0] == INIT_ROOT_PAGE && lastLeaf == g.leaves[|g.leaves| - 1]
      modifies `pages, `root, `lastLeaf, `nextPage, `g
      ensures Valid() && Entries() == old(Entries())
    {
      hide Shaped, Ordered, Sized, Chain, Ring, Above, AtMost;
      RingStored(pages, g.leaves);
      NodeKnown(pages, root, g, leaf);
      if |pages[leaf].slots| == order {
        ghost var leaves := g.leaves;
        var q := Split(leaf);
        InsertIntoParent(leaf, pages[q].slots[0].key, q);
        RingStored(pages, g.leaves);
        RingDistinct(pages, g.leaves);
        LastLeaf(leaves, g.leaves, leaf, q);
        if lastLeaf == leaf {
          lastLeaf := q;
        }
      } else {
        NotOver(order, pages, root, g, leaf);
      }
    }

    /** Inserts (key, value) unless the key is present. The page returned is the leaf written. */
    method InsertEntry(key: int, value: Rid) returns (leaf: int, success: bool)
      requires Valid()
      modifies `pages, `root, `lastLeaf, `nextPage, `g
      ensures Valid()
      ensures success <==> key !in old(Contents())
      ensures Contents() == if success then old(Contents())[key := value] else old(Contents())
    {
      hide Shaped, Ordered, Sized, MapOf, Chain, OnRoute, Boundary, OnlyKeys, Sorted;
      ghost var before := pages;
      leaf := FindLeafPage(key);
      NodeKnown(pages, root, g, leaf);
      LeafSorted(pages, root, g, leaf);
      var pos := LowerBound(pages[leaf].slots, key);
      if pos < |pages[leaf].slots| && pages[leaf].slots[pos].key == key {
        KeyPresent(pages, root, g, leaf, pos);
        return leaf, false;
      }
      var e := Entry(key, value);
      pages := pages[leaf := pages[leaf].(slots := InsertAt(pages[leaf].slots, pos, e))];
      InsertContents(before, pages, root, g, leaf, pos, e);
      InsertSound(order, before, pages, root, g, leaf, pos, e);
      WriteBounded(before, pages, nextPage, leaf, pages[leaf]);
      if pages[leaf].slots[0].key == key {
        ghost var written := pages;
        MaintainParent(leaf);
        OnlyKeysKept(order, written, pages, root, g, leaf, NO_PAGE);
      } else {
        FirstKept(before, pages, root, g, leaf, pos, e);
      }
      SplitIfFull(leaf);
      success := true;
    }
  
    ghost predicate Ends()
      reads this
    {
      |g.leaves| > 0 && firstLeaf == g.leaves[0] == INIT_ROOT_PAGE && lastLeaf == g.leaves[|g.leaves| - 1]
    }

    /** Moves one slot from the neighbour into the underfull node `node`, child `index` of `parent`. */
    method Redistribute(neighbor: int, node: int, parent: int, index: int)
      requires Sound(order, pages, root, g, Attached, NO_PAGE, NO_PAGE, node) && Bounded(pages, nextPage)
      requires node in g.info && node in pages && neighbor in pages && |pages[node].slots| == order / 2 - 1
      requires |pages[node].slots| + |pages[neighbor].slots| >= order && |pages[neighbor].slots| <= order - 1
      requires if index == 0 then Siblings(pages, g, parent, 0, node, neighbor)
               else Siblings(pages, g, parent, index - 1, neighbor, node)
      modifies `pages, `g
      ensures Sound(order, pages, root, g, Attached, NO_PAGE, NO_PAGE, NO_PAGE) && Bounded(pages, nextPage)
      ensures g.leaves == old(g.leaves) && Chain(pages, g.leaves) == old(Chain(pages, g.leaves))
    {
      hide Shaped, Ordered, Sized, Chain, Ring, IsKid, SlotMoved, LeafShift, SameLinks, InnerShift;
      ghost var before := pages;
      ghost var l, r := if index == 0 then node else neighbor, if index == 0 then neighbor else node;
      ghost var i := if index == 0 then 0 else index - 1;
      ShiftKnown(pages, root, g, parent, i, l, r);
      var moved;
      if index == 0 {
        moved := pages[neighbor].slots[0];
        pages := pages[node := pages[node].(slots := pages[node].slots + [moved])];
        pages := pages[neighbor := pages[neighbor].(slots := EraseAt(pages[neighbor].slots, 0))];
        pages := pages[parent := pages[parent].(slots :=
          pages[parent].slots[1 := pages[parent].slots[1].(key := pages[neighbor].slots[0].key)])];
      } else {
        var n := |pages[neighbor].slots|;
        moved := pages[neighbor].slots[n - 1];
        pages := pages[node := pages[node].(slots := [moved] + pages[node].slots)];
        pages := pages[neighbor := pages[neighbor].(slots := EraseAt(pages[neighbor].slots, n - 1))];
        pages := pages[parent := pages[parent].(slots :=
          pages[parent].slots[index := pages[parent].slots[index].(key := pages[node].slots[0].key)])];
      }
      SlotMovedStep(before, pages, parent, i, l, r, node, moved, node, neighbor, pages[l].slots, pages[r].slots);
      SlotMovedShift(order, before, pages, parent, i, l, r, node, moved);
      if pages[node].isLeaf {
        LeafShiftSound(order, before, pages, root, g, parent, i, l, r, node);
      } else {
        ghost var shifted := pages;
        MovedKid(before, root, g, parent, i, l, r, node, moved);
        pages := pages[moved.rid.pageNo := pages[moved.rid.pageNo].(parent := node)];
        InnerShiftStep(before, shifted, pages, root, g, parent, i, l, r, node, moved);
        InnerShiftSound(order, before, pages, root, g, parent, i, l, r, node);
        g := InnerShiftShape(pages, g, l, r);
      }
    }
  
    /** Takes leaf `leaf` out of the ring. */
    method EraseLeaf(leaf: int)
      requires leaf in pages && pages[leaf].prev in pages && pages[leaf].next in pages
      requires pages[leaf].prev != leaf && pages[leaf].next != leaf
      modifies `pages
      ensures Unlinked(old(pages), pages, leaf)
    {
      var prev := pages[leaf].prev;
      pages := pages[prev := pages[prev].(next := pages[leaf].next)];
      var next := pages[leaf].next;
      pages := pages[next := pages[next].(prev := pages[leaf].prev)];
    }

    /** Moves the slots of the inner node `r` into its left sibling `l` and takes `r` out of the tree. */
    method AbsorbInner(l: int, r: int, parent: int, i: int, ghost node: int)
      requires Sound(order, pages, root, g, Attached, NO_PAGE, NO_PAGE, node) && Bounded(pages, nextPage) && Ends()
      requires (node == l || node == r) && node in pages && |pages[node].slots| > 0 && root in g.info
      requires Siblings(pages, g, parent, i, l, r) && l in pages && r in pages
      requires |pages[l].slots| + |pages[r].slots| < order && !pages[r].isLeaf
      modifies `pages, `g
      ensures Sound(order, pages, root, g, Attached, NO_PAGE, NO_PAGE, parent) && Bounded(pages, nextPage) && Ends()
      ensures Chain(pages, g.leaves) == old(Chain(pages, g.leaves))
      ensures old(l in g.info) && parent in g.info && root in g.info && parent in pages
      ensures g.info[parent].lvl == old(g.info[l].lvl) + 1 && g.info[root].lvl == old(g.info[root].lvl)
    {
      hide Shaped, Ordered, Sized, Chain, Ring, IsKid, Merged, LeafMerge, InnerMerge, LinkedOut, SameLinks,
           LeafMergeShape, InnerMergeShape, EraseAt, OnlyParents, Siblings, Unlinked;
      ghost var before, g0 := pages, g;
      MergeKnown(order, pages, root, g, parent, i, l, r, node);
      var size := |pages[l].slots|;
      pages := pages[l := pages[l].(slots := pages[l].slots + pages[r].slots)];
      ghost var joined := pages;
      JoinedKids(before, pages, root, g, parent, i, l, r);
      AdoptKids(l, size);
      assert joined[l].slots[size..] == before[r].slots;
      ParentsKept(joined, pages, before[r].slots, l, parent);
      ghost var moved := pages;
      pages := pages[parent := pages[parent].(slots := EraseAt(pages[parent].slots, i + 1))];
      InnerMergeStep(before, joined, moved, pages, root, g0, parent, i, l, r);
      InnerMergeSound(order, before, pages, root, g0, parent, i, l, r, node);
      InnerMergeInfo(g0, l, r, parent, root);
      g := InnerMergeShape(g0, l, r);
      KeysBounded(before, pages, nextPage);
    }

    /** Moves the slots of leaf `r` into its left sibling `l` and takes `r` out of the tree and the ring. */
    method AbsorbLeaf(l: int, r: int, parent: int, i: int, ghost node: int)
      requires Sound(order, pages, root, g, Attached, NO_PAGE, NO_PAGE, node) && Bounded(pages, nextPage) && Ends()
      requires (node == l || node == r) && node in pages && |pages[node].slots| > 0 && root in g.info
      requires Siblings(pages, g, parent, i, l, r) && l in pages && r in pages
      requires |pages[l].slots| + |pages[r].slots| < order && pages[r].isLeaf
      modifies `pages, `lastLeaf, `g
      ensures Sound(order, pages, root, g, Attached, NO_PAGE, NO_PAGE, parent) && Bounded(pages, nextPage) && Ends()
      ensures Chain(pages, g.leaves) == old(Chain(pages, g.leaves))
      ensures old(l in g.info) && parent in g.info && root in g.info && parent in pages
      ensures g.info[parent].lvl == old(g.info[l].lvl) + 1 && g.info[root].lvl == old(g.info[root].lvl)
    {
      hide Shaped, Ordered, Sized, Chain, Ring, IsKid, Merged, LeafMerge, InnerMerge, LinkedOut, SameLinks,
           LeafMergeShape, InnerMergeShape, EraseAt, OnlyParents, Siblings, Unlinked;
      ghost var before, g0 := pages, g;
      MergeKnown(order, pages, root, g, parent, i, l, r, node);
      pages := pages[l := pages[l].(slots := pages[l].slots + pages[r].slots)];
      if r == lastLeaf {
        lastLeaf := l;
      }
      LeafNeighbours(before, root, g0, parent, i, l, r);
      ghost var joined := pages;
      EraseLeaf(r);
      UnlinkedSlots(joined, pages, r);
      ghost var moved := pages;
      pages := pages[parent := pages[parent].(slots := EraseAt(pages[parent].slots, i + 1))];
      LeafMergeStep(before, joined, moved, pages, parent, i, l, r);
      LeafMergeSound(order, before, pages, root, g0, parent, i, l, r, node);
      g := LeafMergeShape(g0, l, r);
      KeysBounded(before, pages, nextPage);
    }

    /** Merges child `index` of `parent` with its neighbour, the right one into the left one, and
        goes on with the parent if that has become underfull. */
    method Coalesce(neighbor: int, node: int, parent: int, index: int)
      requires Sound(order, pages, root, g, Attached, NO_PAGE, NO_PAGE, node) && Bounded(pages, nextPage) && Ends()
      requires node in g.info && node in pages && neighbor in pages && root in g.info && |pages[node].slots| > 0
      requires |pages[node].slots| + |pages[neighbor].slots| < order
      requires if index == 0 then Siblings(pages, g, parent, 0, node, neighbor)
               else Siblings(pages, g, parent, index - 1, neighbor, node)
      modifies `pages, `root, `lastLeaf, `g
      ensures Sound(order, pages, root, g, Attached, NO_PAGE, NO_PAGE, NO_PAGE) && Bounded(pages, nextPage) && Ends()
      ensures Chain(pages, g.leaves) == old(Chain(pages, g.leaves))
      decreases g.info[root].lvl - g.info[node].lvl, 0
    {
      hide Shaped, Ordered, Sized, Chain, Ring, IsKid, Siblings;
      var l, r, i := neighbor, node, index - 1;
      if index == 0 {
        l, r, i := node, neighbor, 0;
      }
      MergeKnown(order, pages, root, g, parent, i, l, r, node);
      if pages[r].isLeaf {
        AbsorbLeaf(l, r, parent, i, node);
      } else {
        AbsorbInner(l, r, parent, i, node);
      }
      ErasedSize(order, pages, root, g, parent);
      if |pages[parent].slots| < order / 2 {
        CoalesceOrRedistribute(parent);
      } else {
        NotUnder(order, pages, root, g, parent);
      }
    }

    /** Repairs a node after a deletion. On an empty root leaf the index loses its root. */
    method CoalesceOrRedistribute(node: int)
      requires Sound(order, pages, root, g, Attached, NO_PAGE, NO_PAGE, node) && Bounded(pages, nextPage) && Ends()
      requires node in g.info && node in pages && root in g.info && (node != root ==> |pages[node].slots| > 0)
      modifies `pages, `root, `lastLeaf, `g
      ensures Bounded(pages, nextPage) && Ends() && Ring(pages, g.leaves)
      ensures Chain(pages, g.leaves) == old(Chain(pages, g.leaves))
      ensures Chain(pages, g.leaves) != [] ==> Sound(order, pages, root, g, Attached, NO_PAGE, NO_PAGE, NO_PAGE)
      ensures Chain(pages, g.leaves) == [] ==> root == NO_PAGE
      ensures old(node != root || g.info[node].lvl > 0) ==> Chain(pages, g.leaves) != []
      decreases g.info[root].lvl - g.info[node].lvl, 1
    {
      hide Shaped, Ordered, Sized, Chain, Ring, IsKid;
      ChainFilled(order, pages, root, g, Attached, NO_PAGE, NO_PAGE, node);
      if node == root {
        AdjustRoot();
        return;
      }
      ParentKnown(order, pages, root, g, node);
      if |pages[node].slots| >= order / 2 {
        NotUnder(order, pages, root, g, node);
        return;
      }
      var parent := pages[node].parent;
      var index := FindChild(pages[parent].slots, node);
      var neighbor := if index == 0 then Kid(pages[parent].slots, 1) else Kid(pages[parent].slots, index - 1);
      NeighborKnown(order, pages, root, g, node, parent, index, neighbor);
      if |pages[node].slots| + |pages[neighbor].slots| >= order {
        Redistribute(neighbor, node, parent, index);
      } else {
        Coalesce(neighbor, node, parent, index);
      }
    }

    /** Removes `key`, if it is stored, and stored with `rid` when one is given. The index is usable
        afterwards exactly if an entry is left. */
    method DeleteEntry(key: int, rid: Option<Rid>)
      requires Valid()
      modifies `pages, `root, `lastLeaf, `g
      ensures rid.None? || (key in old(Contents()) && old(Contents())[key] == rid.value) ==> key !in Contents()
      ensures rid.Some? && key in old(Contents()) && old(Contents())[key] != rid.value ==> Contents() == old(Contents())
      ensures forall k :: k != key ==> (k in Contents() <==> k in old(Contents()))
      ensures forall k :: k in Contents() ==> k in old(Contents()) && Contents()[k] == old(Contents())[k]
      ensures Contents() != map[] ==> Valid()
      ensures Contents() == map[] ==> root == NO_PAGE && !Valid()
    {
      hide Shaped, Ordered, Sized, MapOf, Chain, OnRoute, OnlyKeys, Sorted, IsLowerBound, EraseAt, Ring, Stored,
           LeafOrder;
      ghost var before := pages;
      RingStored(pages, g.leaves);
      var leaf := FindLeafPage(key);
      NodeKnown(pages, root, g, leaf);
      LeafSorted(pages, root, g, leaf);
      var pos := LowerBound(pages[leaf].slots, key);
      LowerBoundRange(pages[leaf].slots, key, pos);
      NoMatch(pages, root, g, leaf, pos, key);
      if pos < |pages[leaf].slots| && pages[leaf].slots[pos].key == key
          && (rid.None? || pages[leaf].slots[pos].rid == rid.value) {
        pages := pages[leaf := pages[leaf].(slots := EraseAt(pages[leaf].slots, pos))];
        EraseSound(order, before, pages, root, g, leaf, pos);
        OrderedLeaves(pages, root, g);
        EraseContents(before, pages, root, g, leaf, pos);
        WriteBounded(before, pages, nextPage, leaf, pages[leaf]);
        if |before[leaf].slots| > 1 {
          FirstChanged(before[leaf].slots, pos, key);
        }
      } else {
        NoUnder(order, pages, root, g, leaf);
      }
      if |pages[leaf].slots| > 0 && pages[leaf].slots[0].key == key {
        ghost var written := pages;
        LowAnywhere(pages, root, g, leaf);
        MaintainParent(leaf);
        OnlyKeysKept(order, written, pages, root, g, NO_PAGE, leaf);
        RingStored(pages, g.leaves);
        KeysBounded(written, pages, nextPage);
        SlotsFilled(order, written, pages, root, g, leaf);
      }
      CoalesceOrRedistribute(leaf);
      RingStored(pages, g.leaves);
      EmptyMap(Chain(pages, g.leaves));
      NoRoot(pages, g);
    }

    /** The record id at a position; none behind the last slot of a leaf. */
    method GetRid(iid: Iid, ghost n: int) returns (r: Option<Rid>)
      requires Valid() && Canonical(pages, g.leaves, iid, n)
      ensures r == if n < |Entries()| then Some(Entries()[n].rid) else None
    {
      hide Shaped, Ordered, Sized, Chain, Canonical;
      PositionRange(pages, g.leaves, iid, n);
      if iid.slotNo >= |pages[iid.pageNo].slots| {
        return None;
      }
      r := Some(pages[iid.pageNo].slots[iid.slotNo].rid);
    }

    method Settle(leaf: int, pos: int) returns (iid: Iid)
      requires Valid() && leaf in g.info && g.info[leaf].lvl == 0 && leaf in pages && 0 <= pos <= |pages[leaf].slots|
      ensures g.info[leaf].fst < |g.leaves| && Stored(pages, g.leaves)
      ensures Canonical(pages, g.leaves, iid, Rank(pages, g.leaves, g.info[leaf].fst, pos))
    {
      hide Shaped, Ordered, Sized, Chain, Canonical;
      NodeKnown(pages, root, g, leaf);
      ghost var j := g.info[leaf].fst;
      NextLeaf(pages, g.leaves, j);
      assert leaf != lastLeaf <==> j + 1 < |g.leaves|;
      LeavesFilled(pages, root, g);
      if pos == |pages[leaf].slots| && leaf != lastLeaf {
        iid := Iid(pages[leaf].next, 0);
      } else {
        iid := Iid(leaf, pos);
      }
      SettledCanonical(pages, g.leaves, j, pos, iid);
    }

    /** The position of the first entry not below `key`. */
    method LowerBoundIid(key: int) returns (iid: Iid)
      requires Valid()
      ensures Canonical(pages, g.leaves, iid, CountBelow(Entries(), key))
      ensures IsLowerBound(Entries(), key, CountBelow(Entries(), key))
    {
      hide Shaped, Ordered, Sized, Chain, Canonical, OnRoute, IsLowerBound, IsUpperBound, Ring;
      RingStored(pages, g.leaves);
      var leaf := FindLeafPage(key);
      NodeKnown(pages, root, g, leaf);
      LeafSorted(pages, root, g, leaf);
      var pos := LowerBound(pages[leaf].slots, key);
      LowerBoundRange(pages[leaf].slots, key, pos);
      iid := Settle(leaf, pos);
      RouteRank(pages, root, g, key, leaf, pos);
      BoundCounts(Entries(), key, Rank(pages, g.leaves, g.info[leaf].fst, pos));
    }

    /** The position of the first entry above `key`. */
    method UpperBoundIid(key: int) returns (iid: Iid)
      requires Valid()
      ensures Canonical(pages, g.leaves, iid, CountUpTo(Entries(), key))
      ensures IsUpperBound(Entries(), key, CountUpTo(Entries(), key))
    {
      hide Shaped, Ordered, Sized, Chain, Canonical, OnRoute, IsLowerBound, IsUpperBound, Ring;
      RingStored(pages, g.leaves);
      var leaf := FindLeafPage(key);
      NodeKnown(pages, root, g, leaf);
      LeafSorted(pages, root, g, leaf);
      var pos := UpperBound(pages[leaf].slots, key);
      UpperBoundRange(pages[leaf].slots, key, pos);
      iid := Settle(leaf, pos);
      RouteRank(pages, root, g, key, leaf, pos);
      BoundCounts(Entries(), key, Rank(pages, g.leaves, g.info[leaf].fst, pos));
    }

    method LeafBegin() returns (iid: Iid)
      requires Valid()
      ensures Stored(pages, g.leaves) && Canonical(pages, g.leaves, iid, 0)
    {
      hide Shaped, Ordered, Sized, Canonical;
      LeavesFilled(pages, root, g);
      iid := Iid(firstLeaf, 0);
      assert g.leaves[..0] == [];
      SettledCanonical(pages, g.leaves, 0, 0, iid);
    }

    method LeafEnd() returns (iid: Iid)
      requires Valid()
      ensures Stored(pages, g.leaves) && Canonical(pages, g.leaves, iid, |Entries()|)
    {
      hide Shaped, Ordered, Sized, Canonical, Chain;
      LeavesFilled(pages, root, g);
      iid := Iid(lastLeaf, |pages[lastLeaf].slots|);
      ghost var j := |g.leaves| - 1;
      SettledCanonical(pages, g.leaves, j, |pages[lastLeaf].slots|, iid);
      RankEntry(pages, g.leaves, j);
      assert g.leaves[..j + 1] == g.leaves;
    }

    /** A root with one child gives way to it; an empty root leaf leaves the index without a root. */
    method AdjustRoot()
      requires Sound(order, pages, root, g, Attached, NO_PAGE, NO_PAGE, root) && Bounded(pages, nextPage) && Ends()
      requires root in g.info && root in pages
      modifies `pages, `root, `g
      ensures g.leaves == old(g.leaves) && Bounded(pages, nextPage) && Ring(pages, g.leaves)
      ensures Chain(pages, g.leaves) == old(Chain(pages, g.leaves))
      ensures Chain(pages, g.leaves) != [] ==> Sound(order, pages, root, g, Attached, NO_PAGE, NO_PAGE, NO_PAGE)
      ensures Chain(pages, g.leaves) == [] ==> root == NO_PAGE
    {
      hide Shaped, Ordered, Sized, Chain, Ring, IsKid;
      ChainFilled(order, pages, root, g, Attached, NO_PAGE, NO_PAGE, root);
      NodeKnown(pages, root, g, root);
      if pages[root].isLeaf {
        RootLeafChain(pages, root, g);
        if |pages[root].slots| == 0 {
          root := NO_PAGE;
        } else {
          NotUnder(order, pages, root, g, root);
        }
      } else if |pages[root].slots| == 1 {
        ghost var before := pages;
        var c := Kid(pages[root].slots, 0);
        OnlyKid(pages, root, g);
        pages := pages[c := pages[c].(parent := NO_PAGE)];
        DropRootSound(order, before, pages, root, g, c);
        g := g.(info := g.info - {root});
        root := c;
      } else {
        InnerRoot(pages, root, g);
        NotUnder(order, pages, root, g, root);
      }
    }
  }
}
