/** One index page as it lies in memory: a key array and a rid array with room for order + 1 slots, of
    which the first numKey are in use. What lies behind them is left over from earlier contents. */
module IxNode {
  import opened Basics
  import opened IxTree
  import opened IxInsert
  import opened IxDelete
  import opened IxChain
  import opened IxPosition
  import opened IxRebalance

  ghost function Zip(ks: seq<int>, rs: seq<Rid>): (s: seq<Entry>)
    requires |ks| == |rs|
    ensures |s| == |ks| && forall i :: 0 <= i < |s| ==> s[i] == Entry(ks[i], rs[i])
  {
    seq(|ks|, i requires 0 <= i < |ks| => Entry(ks[i], rs[i]))
  }

  /** The slots of a leaf after an insertion, in the index as on the page. */
  ghost function WithEntry(s: seq<Entry>, pos: int, e: Entry): seq<Entry>
    requires 0 <= pos <= |s|
  {
    if pos < |s| && s[pos].key == e.key then s else InsertAt(s, pos, e)
  }

  /** The slots of a leaf after a deletion, in the index as on the page. */
  ghost function WithoutEntry(s: seq<Entry>, pos: int, key: int, rid: Option<Rid>): seq<Entry>
    requires 0 <= pos <= |s|
  {
    if pos < |s| && s[pos].key == key && (rid.None? || s[pos].rid == rid.value) then EraseAt(s, pos) else s
  }

  lemma {:induction false} LowerBoundUnique(s: seq<Entry>, key: int, pos: int)
    requires IsLowerBound(s, key, pos)
    ensures forall q :: IsLowerBound(s, key, q) ==> q == pos
  {
    forall q | IsLowerBound(s, key, q)
      ensures q == pos
    {
      assert q > 0 ==> s[q - 1].key < key;
      assert pos > 0 ==> s[pos - 1].key < key;
    }
  }

  class IxNodeHandle {
    const order: int
    const isLeaf: bool
    const keys: array<int>
    const rids: array<Rid>
    var numKey: int

    ghost predicate Valid()
      reads this
    {
      order >= 4 && keys.Length == order + 1 && rids.Length == order + 1 && 0 <= numKey <= order
    }

    ghost function Slots(): (s: seq<Entry>)
      requires Valid()
      reads this, keys, rids
      ensures |s| == numKey && forall i :: 0 <= i < numKey ==> s[i] == Entry(keys[i], rids[i])
    {
      Zip(keys[..numKey], rids[..numKey])
    }

    /** An empty page. */
    constructor (order: int, isLeaf: bool)
      requires order >= 4
      ensures Valid() && Slots() == [] && fresh(keys) && fresh(rids) && this.isLeaf == isLeaf && this.order == order
    {
      this.order, this.isLeaf := order, isLeaf;
      keys := new int[order + 1](_ => 0);
      rids := new Rid[order + 1](_ => Rid(0, 0));
      numKey := 0;
    }

    method LowerBound(target: int) returns (first: int)
      requires Valid() && Sorted(Slots())
      ensures IsLowerBound(Slots(), target, first)
    {
      first := 0;
      var len := numKey;
      while len > 0
        invariant 0 <= first && 0 <= len && first + len <= numKey
        invariant forall i :: 0 <= i < first ==> Slots()[i].key < target
        invariant forall i :: first + len <= i < numKey ==> target <= Slots()[i].key
      {
        var half := len / 2;
        var middle := first + half;
        assert Slots()[middle].key == keys[middle];
        if keys[middle] < target {
          first := middle + 1;
          len := len - half - 1;
        } else {
          len := half;
        }
      }
    }

    /** Never searches the last slot in the loop; on an empty page it looks at a slot not in use, and
        answers 0 either way. */
    method UpperBound(target: int) returns (r: int)
      requires Valid() && Sorted(Slots())
      ensures IsUpperBound(Slots(), target, r)
    {
      var first := 0;
      var len := numKey - 1;
      while len > 0
        invariant if numKey == 0 then first == 0 && len == -1 else 0 <= first && 0 <= len && first + len < numKey
        invariant forall i :: 0 <= i < first ==> Slots()[i].key <= target
        invariant forall i :: first + len <= i < numKey - 1 ==> target < Slots()[i].key
      {
        var half := len / 2;
        var middle := first + half;
        assert Slots()[middle].key == keys[middle];
        if keys[middle] <= target {
          first := middle + 1;
          len := len - half - 1;
        } else {
          len := half;
        }
      }
      assert first < numKey ==> Slots()[first].key == keys[first];
      if keys[first] > target {
        r := first;
      } else {
        r := numKey;
      }
    }

    /** The lookup does not test whether the position it found is in use. It is right about `key` exactly
        if the slot behind the last one does not still hold a `key` above everything in use. */
    method LeafLookup(key: int) returns (found: bool, rid: Rid)
      requires Valid() && Sorted(Slots())
      ensures (found <==> key in MapOf(Slots())) <==> !Stale(key)
      ensures Stale(key) ==> found
      ensures key in MapOf(Slots()) ==> found && rid == MapOf(Slots())[key]
    {
      hide MapOf;
      var idx := LowerBound(key);
      MapOfSorted(Slots());
      if idx < numKey {
        assert Slots()[idx] == Entry(keys[idx], rids[idx]) && Slots()[idx] in Slots();
      }
      if keys[idx] == key {
        return true, rids[idx];
      }
      return false, Rid(0, 0);
    }

    /** The slot behind the last one still holds `key`, and `key` exceeds everything in use. */
    ghost predicate Stale(key: int)
      requires Valid()
      reads this, keys, rids
    {
      keys[numKey] == key && AllLess(Slots(), key)
    }

    /** Shifts the slots from `pos` on by `n` and writes `ks`, `rs` into the gap. An inner page shifts
        one rid more than it has slots, which still stays inside the page. */
    method InsertPairs(pos: int, ks: seq<int>, rs: seq<Rid>)
      requires Valid() && 0 <= pos <= numKey && |ks| == |rs| && |ks| > 0 && numKey + |ks| <= order
      modifies this, keys, rids
      ensures Valid() && Slots() == old(Slots())[..pos] + Zip(ks, rs) + old(Slots())[pos..]
    {
      var n := |ks|;
      ghost var k0, r0, m0 := keys[..], rids[..], numKey;
      ShiftUp(pos, n);
      ghost var k1, r1 := keys[..], rids[..];
      WritePairs(pos, ks, rs);
      numKey := numKey + n;
      Spliced(k0, r0, k1, r1, keys[..], rids[..], m0, pos, ks, rs);
    }

    /** Writes the pairs to the slots from `pos` on. */
    method WritePairs(pos: int, ks: seq<int>, rs: seq<Rid>)
      requires Valid() && 0 <= pos && |ks| == |rs| && pos + |ks| <= order
      modifies keys, rids
      ensures keys[..] == old(keys[..])[..pos] + ks + old(keys[..])[pos + |ks|..]
      ensures rids[..] == old(rids[..])[..pos] + rs + old(rids[..])[pos + |ks|..]
    {
      var i := 0;
      while i < |ks|
        invariant 0 <= i <= |ks|
        invariant forall m :: 0 <= m < keys.Length ==>
                    keys[m] == if pos <= m < pos + i then ks[m - pos] else old(keys[m])
        invariant forall m :: 0 <= m < rids.Length ==>
                    rids[m] == if pos <= m < pos + i then rs[m - pos] else old(rids[m])
      {
        keys[pos + i] := ks[i];
        rids[pos + i] := rs[i];
        i := i + 1;
      }
    }

    /** Makes room for `n` slots at `pos`. */
    method ShiftUp(pos: int, n: int)
      requires Valid() && 0 <= pos <= numKey && 0 < n && numKey + n <= order
      modifies keys, rids
      ensures keys[..pos] == old(keys[..pos]) && rids[..pos] == old(rids[..pos])
      ensures keys[pos + n..numKey + n] == old(keys[pos..numKey]) && rids[pos + n..numKey + n] == old(rids[pos..numKey])
    {
      forall i | pos <= i < numKey {
        keys[i + n] := keys[i];
      }
      var numRid := if isLeaf then numKey else numKey + 1;
      forall i | pos <= i < numRid {
        rids[i + n] := rids[i];
      }
    }

    /** Inserts one pair at its place unless the key is present; answers the new number of pairs. */
    method Insert(key: int, value: Rid) returns (n: int)
      requires Valid() && Sorted(Slots()) && numKey < order
      modifies this, keys, rids
      ensures Valid() && n == numKey && Sorted(Slots())
      ensures n == old(numKey) <==> key in old(MapOf(Slots()))
      ensures MapOf(Slots()) == if key in old(MapOf(Slots())) then old(MapOf(Slots()))
                else old(MapOf(Slots()))[key := value]
      ensures forall pos :: IsLowerBound(old(Slots()), key, pos) ==>
                Slots() == WithEntry(old(Slots()), pos, Entry(key, value))
    {
      hide MapOf;
      ghost var s := Slots();
      var pos := LowerBound(key);
      LowerBoundUnique(s, key, pos);
      MapOfSorted(s);
      if pos >= numKey || keys[pos] != key {
        InsertPairs(pos, [key], [value]);
        assert Slots() == InsertAt(s, pos, Entry(key, value));
        InsertedMap(s, pos, Entry(key, value));
      } else {
        assert s[pos] in s;
      }
      n := numKey;
    }

    method ErasePair(pos: int)
      requires Valid() && 0 <= pos < numKey
      modifies this, keys, rids
      ensures Valid() && Slots() == EraseAt(old(Slots()), pos)
      ensures pos == old(numKey) - 1 ==> keys[numKey] == old(keys[numKey - 1])
    {
      forall i | pos <= i < numKey - 1 {
        keys[i] := keys[i + 1];
      }
      forall i | pos <= i < numKey - 1 {
        rids[i] := rids[i + 1];
      }
      numKey := numKey - 1;
      assert Slots() == EraseAt(old(Slots()), pos);
    }

    /** Removes `key` if present, and present with `rid` when one is given. */
    method Remove(key: int, rid: Option<Rid>) returns (n: int)
      requires Valid() && Sorted(Slots())
      modifies this, keys, rids
      ensures Valid() && n == numKey && Sorted(Slots())
      ensures var m := old(MapOf(Slots()));
              MapOf(Slots()) == if key in m && (rid.Some? ==> m[key] == rid.value) then m - {key} else m
      ensures forall pos :: IsLowerBound(old(Slots()), key, pos) ==>
                Slots() == WithoutEntry(old(Slots()), pos, key, rid)
    {
      hide MapOf;
      ghost var s := Slots();
      var pos := LowerBound(key);
      LowerBoundUnique(s, key, pos);
      MapOfSorted(s);
      if pos < numKey {
        assert s[pos] == Entry(keys[pos], rids[pos]) && s[pos] in s;
      }
      if pos < numKey && keys[pos] == key && (rid.None? || rids[pos] == rid.value) {
        ErasePair(pos);
        ErasedMap(s, pos);
      }
      n := numKey;
    }
  }

  lemma {:induction false} Spliced(k0: seq<int>, r0: seq<Rid>, k1: seq<int>, r1: seq<Rid>, k2: seq<int>, r2: seq<Rid>,
                                   num: int, pos: int, ks: seq<int>, rs: seq<Rid>)
    requires |k0| == |r0| == |k1| == |r1| && |ks| == |rs| && 0 <= pos <= num && num + |ks| <= |k0|
    requires k1[..pos] == k0[..pos] && r1[..pos] == r0[..pos]
    requires k1[pos + |ks|..num + |ks|] == k0[pos..num] && r1[pos + |ks|..num + |ks|] == r0[pos..num]
    requires k2 == k1[..pos] + ks + k1[pos + |ks|..] && r2 == r1[..pos] + rs + r1[pos + |ks|..]
    ensures Zip(k2[..num + |ks|], r2[..num + |ks|]) ==
            Zip(k0[..num], r0[..num])[..pos] + Zip(ks, rs) + Zip(k0[..num], r0[..num])[pos..]
  {
    var n := |ks|;
    assert k2[..num + n] == k0[..pos] + ks + k0[pos..num];
    assert r2[..num + n] == r0[..pos] + rs + r0[pos..num];
  }

  lemma {:induction false} InsertedMap(s: seq<Entry>, pos: int, e: Entry)
    requires Sorted(s) && IsLowerBound(s, e.key, pos) && (pos < |s| ==> s[pos].key != e.key)
    ensures Sorted(InsertAt(s, pos, e)) && e.key !in MapOf(s)
    ensures MapOf(InsertAt(s, pos, e)) == MapOf(s)[e.key := e.rid]
  {
    hide MapOf;
    var t := InsertAt(s, pos, e);
    forall i | pos <= i < |s|
      ensures e.key < s[i].key
    {
      assert s[pos].key <= s[i].key;
    }
    assert forall x :: x in t <==> x in s || x == e by { assert s == s[..pos] + s[pos..]; }
    MapInsert(s, t, e);
  }

  lemma {:induction false} ErasedMap(s: seq<Entry>, pos: int)
    requires Sorted(s) && 0 <= pos < |s|
    ensures Sorted(EraseAt(s, pos)) && MapOf(EraseAt(s, pos)) == MapOf(s) - {s[pos].key}
  {
    hide MapOf;
    var t := EraseAt(s, pos);
    forall x | x in s && x != s[pos]
      ensures x in t
    {
      var i :| 0 <= i < |s| && s[i] == x;
      assert t[if i < pos then i else i - 1] == x;
    }
    assert forall i :: 0 <= i < |t| ==> t[i] == s[if i < pos then i else i + 1];
    MapErase(s, t, s[pos]);
  }

  /** A page of a well-formed index, in memory: there is room for one more slot, the slots become those that the index
      has after the insertion, and no slot beyond the order is used. */
  method InsertOnPage(node: IxNodeHandle, key: int, value: Rid, ghost pages: Pages, ghost root: int, ghost g: Shape,
                      ghost leaf: int) returns (n: int)
    requires Sound(node.order, pages, root, g, Attached, NO_PAGE, NO_PAGE, NO_PAGE) && leaf in g.info && leaf in pages
    requires Sorted(pages[leaf].slots) && leaf != NO_PAGE
    requires node.keys.Length == node.rids.Length == node.order + 1 && node.numKey == |pages[leaf].slots|
    requires forall i :: 0 <= i < node.numKey ==>
               i < node.keys.Length && i < node.rids.Length && pages[leaf].slots[i] == Entry(node.keys[i], node.rids[i])
    modifies node, node.keys, node.rids
    ensures node.Valid() && n == node.numKey <= node.order
    ensures forall pos :: IsLowerBound(pages[leaf].slots, key, pos) ==>
              node.Slots() == WithEntry(pages[leaf].slots, pos, Entry(key, value))
  {
    hide Shaped, Ordered, Ring;
    assert node.Slots() == pages[leaf].slots;
    n := node.Insert(key, value);
  }

  /** The failing family: looking up the last key of any page right after its removal finds it. */
  method LookupErased(node: IxNodeHandle) returns (found: bool, ghost key: int)
    requires node.Valid() && Sorted(node.Slots()) && node.numKey > 0
    modifies node, node.keys, node.rids
    ensures node.Valid() && Sorted(node.Slots())
    ensures key == old(node.Slots()[node.numKey - 1].key) && key !in MapOf(node.Slots()) && found
  {
    ghost var s := node.Slots();
    var last := node.keys[node.numKey - 1];
    key := last;
    node.ErasePair(node.numKey - 1);
    ErasedMap(s, |s| - 1);
    var rid;
    found, rid := node.LeafLookup(last);
  }
}
