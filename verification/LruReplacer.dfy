/** The replacer: unpinned frames, ordered by when they were last unpinned. */
module LruReplacer {

  class LruReplacer {
    var list: seq<int>                    // most recently unpinned first
    var hash: set<int>                    // the frames in the list
    ghost var clock: int
    ghost var stamp: map<int, int>        // when each frame was last unpinned

    ghost predicate Valid()
      reads this
    {
      && (forall f :: f in hash <==> f in list)
      && (forall i :: 0 <= i < |list| ==> list[i] in stamp && stamp[list[i]] < clock)
      && (forall i, j :: 0 <= i < j < |list| ==>
            list[i] in stamp && list[j] in stamp && stamp[list[i]] > stamp[list[j]])
    }

    constructor ()
      ensures Valid() && list == []
    {
      list, hash, clock, stamp := [], {}, 0, map[];
    }

    /** Takes out the frame whose last unpin is the oldest. */
    method Victim() returns (ok: bool, f: int)
      requires Valid()
      modifies `list, `hash
      ensures Valid() && (ok <==> old(list) != [])
      ensures ok ==> old(list) == list + [f] && f !in list && f in stamp
      ensures ok ==> forall g :: g in list ==> g in stamp && stamp[f] < stamp[g]
      ensures !ok ==> list == old(list) && f == -1
    {
      if |list| == 0 {
        return false, -1;
      }
      f := list[|list| - 1];
      ghost var before := list;
      list := list[..|list| - 1];
      hash := hash - {f};
      assert before == list + [f];
      assert forall i :: 0 <= i < |list| ==> list[i] == before[i];
      ok := true;
    }

    /** A pinned frame is no candidate. */
    method Pin(f: int)
      requires Valid()
      modifies `list, `hash
      ensures Valid() && f !in list && (forall g :: g != f ==> (g in list <==> g in old(list)))
      ensures f !in old(list) ==> list == old(list)
    {
      if f in hash {
        var i := 0;
        while list[i] != f
          invariant 0 <= i < |list| && exists j :: i <= j < |list| && list[j] == f
          decreases |list| - i
        {
          i := i + 1;
        }
        ghost var before := list;
        list := list[..i] + list[i + 1..];
        hash := hash - {f};
        Removed(before, list, i);
      }
    }

    /** A frame no longer pinned becomes the youngest candidate. */
    method Unpin(f: int)
      requires Valid()
      modifies this
      ensures Valid() && f in list && (forall g :: g != f ==> (g in list <==> g in old(list)))
      ensures f !in old(list) ==> list == [f] + old(list) && f in stamp && forall g :: g in old(list) ==>
                g in stamp && stamp[g] < stamp[f]
    {
      if f in hash {
        return;
      }
      ghost var before := list;
      list := [f] + list;
      hash := hash + {f};
      stamp := stamp[f := clock];
      clock := clock + 1;
      assert forall i :: 0 < i < |list| ==> list[i] == before[i - 1];
    }
  }

  lemma {:induction false} Removed(s: seq<int>, t: seq<int>, i: int)
    requires 0 <= i < |s| && t == s[..i] + s[i + 1..] && forall a, b :: 0 <= a < b < |s| ==> s[a] != s[b]
    ensures forall g :: g in t <==> g in s && g != s[i]
    ensures forall a :: 0 <= a < |t| ==> t[a] == s[if a < i then a else a + 1]
  {
    assert s == s[..i] + [s[i]] + s[i + 1..];
    forall g | g in t
      ensures g in s && g != s[i]
    {
      var a :| 0 <= a < |t| && t[a] == g;
      assert t[a] == s[if a < i then a else a + 1];
    }
  }
}
