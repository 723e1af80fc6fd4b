/** Construction of the join tree from the tables and conditions of a query. */
module Planner {
  import opened Plan

  datatype Query = Query(tables: seq<Name>, conds: seq<Cond>, onConds: seq<Cond>)

  /** What analysis guarantees: tables are distinct and have names, and conditions name tables of the query. An ON
      clause is an ordinary condition list: it may hold filters on one table as well. */
  ghost predicate WellFormed(q: Query) {
    && |q.tables| > 0 && "" !in q.tables
    && (forall i, j :: 0 <= i < j < |q.tables| ==> q.tables[i] != q.tables[j])
    && (forall c :: c in q.conds || c in q.onConds ==> Names(c, q.tables))
  }

  ghost predicate Names(c: Cond, tables: seq<Name>) {
    c.lhs.tab in tables && (c.rhs.Col? ==> c.rhs.col.tab in tables)
  }

  /** A comparison of columns of two tables. */
  predicate IsCross(c: Cond) {
    c.rhs.Col? && c.lhs.tab != c.rhs.col.tab
  }

  predicate SameTable(c: Cond) {
    c.rhs.Col? && c.lhs.tab == c.rhs.col.tab
  }

  // ------------------------------------------------------------- pop_conds

  /** The test of pop_conds. It takes a comparison of two columns of one table for whatever table it is asked. */
  predicate Pops(c: Cond, table: Name) {
    (c.lhs.tab == table && !c.rhs.Col?) || c.lhs.tab == RhsTab(c)
  }

  /** The conditions that the test leaves, in order. */
  ghost function Unpopped(cs: seq<Cond>, table: Name): seq<Cond> {
    if |cs| == 0 then []
    else Unpopped(cs[..|cs| - 1], table) + if Pops(cs[|cs| - 1], table) then [] else [cs[|cs| - 1]]
  }

  lemma {:induction false} UnpoppedConcat(a: seq<Cond>, b: seq<Cond>, table: Name)
    ensures Unpopped(a + b, table) == Unpopped(a, table) + Unpopped(b, table)
  {
    if |b| == 0 {
      assert a + b == a;
    } else {
      var n := |b| - 1;
      UnpoppedConcat(a, b[..n], table);
      assert (a + b)[..|a| + n] == a + b[..n];
    }
  }

  lemma {:induction false} UnpoppedRemove(cs: seq<Cond>, i: int, table: Name)
    requires 0 <= i < |cs| && Pops(cs[i], table)
    ensures Unpopped(cs[..i] + cs[i + 1..], table) == Unpopped(cs, table)
  {
    assert cs == (cs[..i] + [cs[i]]) + cs[i + 1..];
    UnpoppedConcat(cs[..i] + [cs[i]], cs[i + 1..], table);
    UnpoppedConcat(cs[..i], [cs[i]], table);
    UnpoppedConcat(cs[..i], cs[i + 1..], table);
    assert [cs[i]][..0] == [];
  }

  lemma {:induction false} UnpoppedAll(cs: seq<Cond>, table: Name)
    requires forall j :: 0 <= j < |cs| ==> !Pops(cs[j], table)
    ensures Unpopped(cs, table) == cs
  {
    hide Pops;
    if |cs| > 0 {
      var n := |cs| - 1;
      UnpoppedAll(cs[..n], table);
      assert cs == cs[..n] + [cs[n]];
    }
  }

  lemma {:induction false} NormsRemove(cs: seq<Cond>, i: int)
    requires 0 <= i < |cs|
    ensures Norms(cs) == multiset{Norm(cs[i])} + Norms(cs[..i] + cs[i + 1..])
  {
    hide Norm, Norms;
    assert cs == (cs[..i] + [cs[i]]) + cs[i + 1..];
    NormsConcat(cs[..i] + [cs[i]], cs[i + 1..]);
    NormsAppend(cs[..i], cs[i]);
    NormsConcat(cs[..i], cs[i + 1..]);
    Shuffle(Norms(cs[..i]), multiset{Norm(cs[i])}, Norms(cs[i + 1..]));
  }

  lemma {:induction false} Shuffle<T>(a: multiset<T>, b: multiset<T>, c: multiset<T>)
    ensures (a + b) + c == b + (a + c)
  {
  }

  method PopConds(conds: seq<Cond>, table: Name) returns (solved: seq<Cond>, rest: seq<Cond>)
    ensures Norms(solved) + Norms(rest) == Norms(conds)
    ensures forall c :: c in solved <==> c in conds && Pops(c, table)
    ensures forall c :: c in rest <==> c in conds && !Pops(c, table)
    ensures rest == Unpopped(conds, table)
  {
    hide Norm, Norms, Unpopped;
    solved, rest := [], conds;
    NormsNone(solved);
    var i := 0;
    while i < |rest|
      invariant 0 <= i <= |rest|
      invariant Norms(solved) + Norms(rest) == Norms(conds)
      invariant forall c :: c in solved || c in rest <==> c in conds
      invariant forall c :: c in solved ==> Pops(c, table)
      invariant forall j :: 0 <= j < i ==> !Pops(rest[j], table)
      invariant Unpopped(rest, table) == Unpopped(conds, table)
      decreases |rest| - i
    {
      if Pops(rest[i], table) {
        UnpoppedRemove(rest, i, table);
        NormsRemove(rest, i);
        NormsAppend(solved, rest[i]);
        Assoc(Norms(solved), multiset{Norm(rest[i])}, Norms(rest[..i] + rest[i + 1..]));
        RemoveMembers(rest, i);
        solved := solved + [rest[i]];
        rest := rest[..i] + rest[i + 1..];
      } else {
        i := i + 1;
      }
    }
    UnpoppedAll(rest, table);
  }

  lemma {:induction false} RemoveMembers(cs: seq<Cond>, i: int)
    requires 0 <= i < |cs|
    ensures forall c :: c in cs <==> c == cs[i] || c in cs[..i] + cs[i + 1..]
  {
    assert cs == cs[..i] + [cs[i]] + cs[i + 1..];
  }

  // ------------------------------------------------------------- push_conds

  datatype Pushed = Pushed(code: int, plan: Plan)

  /** Looks for the lowest join with the two sides of `c` on different sides, and adds `c` there, side-swapped if
      need be. The code says which sides were found: 1 the left, 2 the right, 3 both, and added. Nobody looks at the
      code of the whole tree. */
  function PushConds(c: Cond, p: Plan): Pushed {
    match p
    case Missing => Pushed(0, p)
    case Scan(t, _) => Pushed(if t == c.lhs.tab then 1 else if t == RhsTab(c) then 2 else 0, p)
    case Join(l, r, cs) =>
      var pl := PushConds(c, l);
      if pl.code == 3 then Pushed(3, Join(pl.plan, r, cs))
      else
        var pr := PushConds(c, r);
        if pr.code == 3 then Pushed(3, Join(l, pr.plan, cs))
        else if pl.code == 0 || pr.code == 0 then Pushed(pl.code + pr.code, p)
        else Pushed(3, Join(l, r, cs + [if pl.code == 2 && c.rhs.Col? then Swap(c) else c]))
  }

  /** A filter on one table that is already in the tree goes nowhere: it is lost. */
  lemma {:induction false} PushLoses(c: Cond, p: Plan)
    requires !IsCross(c) && Proper(p) && "" !in Tabs(p)
    ensures PushConds(c, p) == Pushed(if c.lhs.tab in Tabs(p) then 1 else 0, p)
  {
    if p.Join? {
      PushLoses(c, p.left);
      PushLoses(c, p.right);
    }
  }

  /** Every comparison of two tables sits at the join that brings them together, its left side to the left. */
  ghost predicate Sided(p: Plan) {
    p.Join? ==>
      && Sided(p.left) && Sided(p.right)
      && forall i :: 0 <= i < |p.conds| && IsCross(p.conds[i]) ==>
           p.conds[i].lhs.tab in Tabs(p.left) && p.conds[i].rhs.col.tab in Tabs(p.right)
  }

  /** Pushing a condition keeps that: it goes to the lowest join over its tables, side-swapped if need be. */
  lemma {:induction false} PushSided(c: Cond, p: Plan)
    requires Proper(p) && Sided(p) && "" !in Tabs(p)
    ensures Sided(PushConds(c, p).plan)
  {
    if !IsCross(c) {
      PushLoses(c, p);
    } else if p.Join? {
      PushSided(c, p.left);
      PushSided(c, p.right);
      PushMeaning(c, p.left);
      PushMeaning(c, p.right);
    }
  }

  /** Whatever is pushed, an improper tree stays improper. */
  lemma {:induction false} PushKeepsTabs(c: Cond, p: Plan)
    ensures Tabs(PushConds(c, p).plan) == Tabs(p) && (Proper(PushConds(c, p).plan) <==> Proper(p))
  {
    if p.Join? {
      PushKeepsTabs(c, p.left);
      PushKeepsTabs(c, p.right);
    }
  }

  lemma {:induction false} PushMeaning(c: Cond, p: Plan)
    requires c.rhs.Col? && c.lhs.tab != c.rhs.col.tab && Proper(p)
    ensures var a, b := c.lhs.tab in Tabs(p), c.rhs.col.tab in Tabs(p); var r := PushConds(c, p);
            && r.code == (if a && b then 3 else if a then 1 else if b then 2 else 0)
            && (r.code != 3 ==> r.plan == p)
            && Tabs(r.plan) == Tabs(p) && Proper(r.plan) && (Placed(r.plan) <==> Placed(p))
            && (r.code == 3 ==> PlanNorms(r.plan) == PlanNorms(p) + multiset{Norm(c)})
  {
    hide Norm, Norms;
    if p.Join? {
      PushMeaning(c, p.left);
      PushMeaning(c, p.right);
      var pl, pr := PushConds(c, p.left), PushConds(c, p.right);
      if pl.code == 3 {
        Rotate(PlanNorms(p.left), multiset{Norm(c)}, PlanNorms(p.right), Norms(p.conds));
      } else if pr.code == 3 {
        Rotate2(PlanNorms(p.left), PlanNorms(p.right), multiset{Norm(c)}, Norms(p.conds));
      } else if pl.code != 0 && pr.code != 0 {
        PushHere(c, p, if pl.code == 2 then Swap(c) else c);
      }
    }
  }

  lemma {:induction false} Rotate<T>(a: multiset<T>, b: multiset<T>, c: multiset<T>, d: multiset<T>)
    ensures ((a + b) + c) + d == ((a + c) + d) + b
  {
  }

  lemma {:induction false} Rotate2<T>(a: multiset<T>, c: multiset<T>, b: multiset<T>, d: multiset<T>)
    ensures (a + (c + b)) + d == ((a + c) + d) + b
  {
  }

  lemma {:induction false} PushHere(c: Cond, p: Plan, c': Cond)
    requires p.Join? && c.rhs.Col? && (c' == c || c' == Swap(c)) && c.lhs.tab in Tabs(p) && c.rhs.col.tab in Tabs(p)
    ensures var p' := Join(p.left, p.right, p.conds + [c']);
            && Tabs(p') == Tabs(p) && (Proper(p) ==> Proper(p')) && (Placed(p') <==> Placed(p))
            && PlanNorms(p') == PlanNorms(p) + multiset{Norm(c)}
  {
    hide Norm, Norms;
    SwapNorm(c);
    NormsAppend(p.conds, c');
    Assoc(PlanNorms(p.left) + PlanNorms(p.right), Norms(p.conds), multiset{Norm(c')});
    var p' := Join(p.left, p.right, p.conds + [c']);
    assert Over(c', Tabs(p'));
    assert forall i :: 0 <= i < |p.conds| ==> p'.conds[i] == p.conds[i];
  }

  // ------------------------------------------------------------- joining

  /** `p` joins exactly the scans in `used`. */
  ghost predicate Built(p: Plan, scans: seq<Plan>, tables: seq<Name>, used: set<int>) {
    && |scans| == |tables| && Proper(p)
    && (forall i :: i in used ==> 0 <= i < |tables|)
    && (forall i :: 0 <= i < |tables| ==> (tables[i] in Tabs(p) <==> i in used))
    && (forall t :: t in Tabs(p) ==> t in tables)
    && (Placed(p) <==> forall i :: i in used ==> Placed(scans[i]))
  }

  ghost predicate ScansOf(scans: seq<Plan>, tables: seq<Name>) {
    && |scans| == |tables| && (forall i :: 0 <= i < |scans| ==> scans[i].Scan? && scans[i].table == tables[i])
    && (forall i, j :: 0 <= i < j < |tables| ==> tables[i] != tables[j])
  }

  lemma {:induction false} ScanBuilt(scans: seq<Plan>, tables: seq<Name>, k: int)
    requires ScansOf(scans, tables) && 0 <= k < |tables|
    ensures Built(scans[k], scans, tables, {k})
  {
  }

  lemma {:induction false} JoinBuilt(
      x: Plan, ux: set<int>, p: Plan, up: set<int>, cs: seq<Cond>, scans: seq<Plan>, tables: seq<Name>)
    requires Built(x, scans, tables, ux) && Built(p, scans, tables, up) && ux !! up
    requires forall i :: 0 <= i < |cs| ==> Over(cs[i], Tabs(x) + Tabs(p))
    ensures Built(Join(x, p, cs), scans, tables, ux + up)
  {
    forall t | t in Tabs(x)
      ensures t !in Tabs(p)
    {
      assert t in tables;
      var i :| 0 <= i < |tables| && tables[i] == t;
    }
  }

  /** The conditions of the scans not yet used. */
  ghost function Unused(scans: seq<Plan>, used: set<int>): multiset<set<Cond>> {
    if |scans| == 0 then multiset{}
    else Unused(scans[..|scans| - 1], used) + if |scans| - 1 in used then multiset{} else PlanNorms(scans[|scans| - 1])
  }

  lemma {:induction false} UnusedSame(scans: seq<Plan>, u: set<int>, v: set<int>)
    requires forall i :: 0 <= i < |scans| ==> (i in u <==> i in v)
    ensures Unused(scans, u) == Unused(scans, v)
  {
    if |scans| > 0 {
      UnusedSame(scans[..|scans| - 1], u, v);
    }
  }

  lemma {:induction false} UnusedStep(scans: seq<Plan>, used: set<int>, k: int)
    requires 0 <= k < |scans| && k !in used
    ensures Unused(scans, used) == Unused(scans, used + {k}) + PlanNorms(scans[k])
  {
    hide PlanNorms;
    var n := |scans| - 1;
    if k == n {
      UnusedSame(scans[..n], used, used + {k});
    } else {
      UnusedStep(scans[..n], used, k);
      var y := if n in used then multiset{} else PlanNorms(scans[n]);
      SwapLast(Unused(scans[..n], used + {k}), PlanNorms(scans[k]), y);
    }
  }

  lemma {:induction false} SwapLast<T>(a: multiset<T>, b: multiset<T>, c: multiset<T>)
    ensures (a + b) + c == (a + c) + b
  {
  }

  /** Everything that is not yet in the tree, together with what is, makes up the query. */
  ghost predicate Accounts(p: Plan, scans: seq<Plan>, used: set<int>, rest: seq<Cond>, total: multiset<set<Cond>>) {
    PlanNorms(p) + Unused(scans, used) + Norms(rest) == total
  }

  /** The scans marked as used. */
  ghost function UsedOf(flags: seq<int>): set<int> {
    set i | 0 <= i < |flags| && flags[i] != -1
  }

  lemma {:induction false} MarkUsed(flags: seq<int>, k: int)
    requires 0 <= k < |flags|
    ensures UsedOf(flags[k := 1]) == UsedOf(flags) + {k}
  {
  }

  ghost predicate JoinedMatch(joined: seq<Name>, p: Plan) {
    forall t :: t in joined <==> t == "" || t in Tabs(p)
  }

  /** The scan of a table, its mark set and its name noted; -1 if there is none. */
  method PopScan(flags: seq<int>, table: Name, joined: seq<Name>, scans: seq<Plan>)
      returns (k: int, flags': seq<int>, joined': seq<Name>)
    requires |flags| == |scans| && (forall i :: 0 <= i < |scans| ==> scans[i].Scan?)
    ensures k == -1 ==> flags' == flags && joined' == joined && forall i :: 0 <= i < |scans| ==> scans[i].table != table
    ensures k != -1 ==>
              0 <= k < |scans| && scans[k].table == table && flags' == flags[k := 1] && joined' == joined + [table]
  {
    k := 0;
    while k < |scans|
      invariant 0 <= k <= |scans| && forall i :: 0 <= i < k ==> scans[i].table != table
    {
      if scans[k].table == table {
        flags' := flags[k := 1];
        joined' := joined + [table];
        return;
      }
      k := k + 1;
    }
    return -1, flags, joined;
  }

  lemma {:induction false} AccountScan(
      p: Plan, p': Plan, scans: seq<Plan>, used: set<int>, k: int, c: Cond, c': Cond, rest: seq<Cond>,
      total: multiset<set<Cond>>)
    requires 0 <= k < |scans| && k !in used && (c' == c || (c.rhs.Col? && c' == Swap(c)))
    requires p' == Join(scans[k], p, [c']) && Accounts(p, scans, used, [c] + rest, total)
    ensures Accounts(p', scans, used + {k}, rest, total)
  {
    hide Norm, Norms, PlanNorms, Unused;
    if c' != c {
      SwapNorm(c);
    }
    NormsOne(c');
    NormsOne(c);
    NormsConcat([c], rest);
    UnusedStep(scans, used, k);
    JoinNorms(scans[k], p, [c']);
    var s, a, u, n := PlanNorms(scans[k]), PlanNorms(p), Unused(scans, used + {k}), Norms(rest);
    MoveScan(s, a, u, n, multiset{Norm(c)});
  }

  lemma {:induction false} JoinNorms(l: Plan, r: Plan, cs: seq<Cond>)
    ensures PlanNorms(Join(l, r, cs)) == PlanNorms(l) + PlanNorms(r) + Norms(cs)
  {
  }

  lemma {:induction false} MoveScan<T>(s: multiset<T>, a: multiset<T>, u: multiset<T>, n: multiset<T>, c: multiset<T>)
    ensures ((s + a) + c) + u + n == a + (u + s) + (c + n)
  {
  }

  lemma {:induction false} AccountPlain(
      p: Plan, p': Plan, scans: seq<Plan>, used: set<int>, k: int, rest: seq<Cond>, total: multiset<set<Cond>>)
    requires 0 <= k < |scans| && k !in used && p' == Join(scans[k], p, []) && Accounts(p, scans, used, rest, total)
    ensures Accounts(p', scans, used + {k}, rest, total)
  {
    hide Norm, Norms, PlanNorms, Unused;
    NormsNone([]);
    UnusedStep(scans, used, k);
    JoinNorms(scans[k], p, []);
    MoveScan(PlanNorms(scans[k]), PlanNorms(p), Unused(scans, used + {k}), Norms(rest), multiset{});
  }

  lemma {:induction false} AccountPair(
      p: Plan, p': Plan, scans: seq<Plan>, used: set<int>, k: int, m: int, c: Cond, rest: seq<Cond>,
      total: multiset<set<Cond>>)
    requires 0 <= k < |scans| && 0 <= m < |scans| && k != m && k !in used && m !in used
    requires p' == Join(Join(scans[k], scans[m], [c]), p, []) && Accounts(p, scans, used, [c] + rest, total)
    ensures Accounts(p', scans, used + {k} + {m}, rest, total)
  {
    hide Norm, Norms, PlanNorms, Unused;
    NormsOne(c);
    NormsNone([]);
    NormsConcat([c], rest);
    UnusedStep(scans, used, k);
    UnusedStep(scans, used + {k}, m);
    JoinNorms(scans[k], scans[m], [c]);
    JoinNorms(Join(scans[k], scans[m], [c]), p, []);
    MovePair(PlanNorms(scans[k]), PlanNorms(scans[m]), PlanNorms(p), Unused(scans, used + {k} + {m}), Norms(rest),
        multiset{Norm(c)});
  }

  lemma {:induction false} MovePair<T>(
      s: multiset<T>, t: multiset<T>, a: multiset<T>, u: multiset<T>, n: multiset<T>, c: multiset<T>)
    ensures (((s + t) + c) + a + multiset{}) + u + n == a + ((u + t) + s) + (c + n)
  {
  }

  lemma {:induction false} AccountPushed(
      p: Plan, p': Plan, scans: seq<Plan>, used: set<int>, c: Cond, rest: seq<Cond>, total: multiset<set<Cond>>)
    requires PlanNorms(p') == PlanNorms(p) + multiset{Norm(c)} && Accounts(p, scans, used, [c] + rest, total)
    ensures Accounts(p', scans, used, rest, total)
  {
    hide Norm, Norms, PlanNorms, Unused;
    NormsOne(c);
    NormsConcat([c], rest);
    MoveCond(PlanNorms(p), multiset{Norm(c)}, Unused(scans, used), Norms(rest));
  }

  lemma {:induction false} MoveCond<T>(a: multiset<T>, c: multiset<T>, u: multiset<T>, n: multiset<T>)
    ensures (a + c) + u + n == a + u + (c + n)
  {
  }

  lemma {:induction false} FindTable(scans: seq<Plan>, tables: seq<Name>, t: Name)
    requires ScansOf(scans, tables) && t in tables
    ensures exists i :: 0 <= i < |scans| && scans[i].table == t
  {
    var i :| 0 <= i < |tables| && tables[i] == t;
    assert scans[i].table == t;
  }

  /** The tree so far, with the marks and names that go with it. */
  ghost predicate Progress(p: Plan, scans: seq<Plan>, tables: seq<Name>, flags: seq<int>, joined: seq<Name>) {
    && ScansOf(scans, tables) && "" !in tables
    && Built(p, scans, tables, UsedOf(flags)) && |flags| == |scans| && JoinedMatch(joined, p)
  }

  // ------------------------------------------------------------- which conditions get into the tree

  ghost predicate Mentions(cs: seq<Cond>, t: Name) {
    exists i :: 0 <= i < |cs| && (cs[i].lhs.tab == t || (cs[i].rhs.Col? && cs[i].rhs.col.tab == t))
  }

  /** A filter on one table is lost if an earlier condition has brought that table in. */
  ghost predicate Loses(done: seq<Cond>, c: Cond) {
    !IsCross(c) && Mentions(done, c.lhs.tab)
  }

  /** The conditions of `rest` that get into the tree, and those that do not, when `done` have been dealt with. */
  ghost function KeptAfter(done: seq<Cond>, rest: seq<Cond>): seq<Cond>
    decreases |rest|
  {
    if |rest| == 0 then []
    else (if Loses(done, rest[0]) then [] else [rest[0]]) + KeptAfter(done + [rest[0]], rest[1..])
  }

  ghost function LostAfter(done: seq<Cond>, rest: seq<Cond>): seq<Cond>
    decreases |rest|
  {
    if |rest| == 0 then []
    else (if Loses(done, rest[0]) then [rest[0]] else []) + LostAfter(done + [rest[0]], rest[1..])
  }

  lemma {:induction false} KeptAndLost(done: seq<Cond>, rest: seq<Cond>)
    ensures Norms(KeptAfter(done, rest)) + Norms(LostAfter(done, rest)) == Norms(rest)
    decreases |rest|
  {
    hide Norm, Norms, Loses;
    if |rest| == 0 {
      NormsNone(rest);
    } else {
      var c, done', rest' := rest[0], done + [rest[0]], rest[1..];
      var k, l := KeptAfter(done', rest'), LostAfter(done', rest');
      KeptAndLost(done', rest');
      assert rest == [c] + rest';
      NormsConcat([c], rest');
      NormsConcat([c], k);
      NormsConcat([c], l);
      assert [] + k == k && [] + l == l;
      Assoc(Norms([c]), Norms(k), Norms(l));
      Shuffle(Norms(k), Norms([c]), Norms(l));
      Assoc(Norms(k), Norms([c]), Norms(l));
    }
  }

  lemma {:induction false} MentionsMore(done: seq<Cond>, c: Cond, t: Name)
    ensures Mentions(done + [c], t) <==> Mentions(done, t) || c.lhs.tab == t || (c.rhs.Col? && c.rhs.col.tab == t)
  {
    var cs := done + [c];
    assert cs[|done|] == c;
    assert forall i :: 0 <= i < |done| ==> cs[i] == done[i];
  }

  /** The tables in the tree are those that the conditions dealt with mention. */
  ghost predicate TabsMentioned(p: Plan, done: seq<Cond>) {
    forall t :: t in Tabs(p) <==> Mentions(done, t)
  }

  lemma {:induction false} TabsMore(p: Plan, p': Plan, done: seq<Cond>, c: Cond, added: set<Name>)
    requires TabsMentioned(p, done) && Tabs(p') == added + Tabs(p) && c.lhs.tab in Tabs(p')
    requires c.rhs.Col? ==> c.rhs.col.tab in Tabs(p')
    requires forall t :: t in added ==> t == c.lhs.tab || (c.rhs.Col? && t == c.rhs.col.tab)
    ensures TabsMentioned(p', done + [c])
  {
    hide Mentions;
    forall t
      ensures t in Tabs(p') <==> Mentions(done + [c], t)
    {
      MentionsMore(done, c, t);
    }
  }

  /** Where the joining stands after the conditions `done`: the tree is improper for good, or everything that is to get
      into it is accounted for. */
  ghost predicate Joining(p: Plan, scans: seq<Plan>, tables: seq<Name>, flags: seq<int>, joined: seq<Name>,
                          done: seq<Cond>, rest: seq<Cond>, total: multiset<set<Cond>>) {
    && ScansOf(scans, tables) && "" !in tables && |flags| == |scans| && "" in joined
    && (Proper(p) ==>
          && Progress(p, scans, tables, flags, joined) && TabsMentioned(p, done)
          && Accounts(p, scans, UsedOf(flags), KeptAfter(done, rest), total))
  }

  /** The join for the first condition: proper exactly if the condition is a comparison across tables. A filter leaves
      the right child missing; a comparison within a table joins the table with itself. */
  method JoinFirst(
      c: Cond, scans: seq<Plan>, tables: seq<Name>, ghost rest: seq<Cond>, ghost total: multiset<set<Cond>>)
      returns (p: Plan, flags: seq<int>, joined: seq<Name>)
    requires ScansOf(scans, tables) && "" !in tables && |tables| > 0 && Names(c, tables)
    requires Unused(scans, {}) + Norms([c] + KeptAfter([c], rest)) == total
    ensures Joining(p, scans, tables, flags, joined, [c], rest, total) && (Proper(p) <==> IsCross(c))
    ensures Proper(p) ==> Sided(p)
  {
    hide Norm, Norms, PlanNorms, Unused, Placed, Mentions;
    flags := seq(|tables|, _ => -1);
    joined := seq(|tables|, _ => "");
    ghost var blank := flags;
    assert UsedOf(blank) == {};
    assert joined[0] == "" && joined[0] in joined;
    var k, m;
    FindTable(scans, tables, c.lhs.tab);
    k, flags, joined := PopScan(flags, c.lhs.tab, joined, scans);
    m, flags, joined := PopScan(flags, RhsTab(c), joined, scans);
    var right := if m == -1 then Missing else scans[m];
    p := Join(scans[k], right, [c]);
    if IsCross(c) {
      FindTable(scans, tables, c.rhs.col.tab);
      FirstProgress(p, scans, tables, blank, flags, joined, c, k, m);
      AccountFirst(p, scans, k, m, c, KeptAfter([c], rest), total);
    } else if c.rhs.Col? {
      FindTable(scans, tables, c.rhs.col.tab);
      assert k == m;
    }
    assert "" in joined;
    assert |flags| == |scans|;
    assert Proper(p) <==> IsCross(c);
    assert Proper(p) ==> Progress(p, scans, tables, flags, joined);
    assert Proper(p) ==> TabsMentioned(p, [c]);
    assert Proper(p) ==> Accounts(p, scans, UsedOf(flags), KeptAfter([c], rest), total);
  }

  lemma {:induction false} FirstProgress(
      p: Plan, scans: seq<Plan>, tables: seq<Name>, blank: seq<int>, flags: seq<int>, joined: seq<Name>, c: Cond,
      k: int, m: int)
    requires ScansOf(scans, tables) && "" !in tables && |tables| > 0 && IsCross(c) && UsedOf(blank) == {}
    requires |blank| == |scans|
    requires 0 <= k < |scans| && 0 <= m < |scans| && scans[k].table == c.lhs.tab && scans[m].table == c.rhs.col.tab
    requires flags == blank[k := 1][m := 1] && p == Join(scans[k], scans[m], [c])
    requires |joined| == |tables| + 2 && (forall i :: 0 <= i < |tables| ==> joined[i] == "")
    requires joined[|tables|] == c.lhs.tab && joined[|tables| + 1] == c.rhs.col.tab
    ensures Progress(p, scans, tables, flags, joined) && UsedOf(flags) == {k} + {m} && TabsMentioned(p, [c]) && k != m
  {
    hide Placed, Proper, Built, UsedOf;
    MarkUsed(blank, k);
    MarkUsed(blank[k := 1], m);
    assert {} + {k} + {m} == {k} + {m};
    ScanBuilt(scans, tables, k);
    ScanBuilt(scans, tables, m);
    JoinBuilt(scans[k], {k}, scans[m], {m}, [c], scans, tables);
    JoinedFirst(joined, p, tables, c);
    assert TabsMentioned(p, [c]) by {
      assert [c][0] == c;
    }
  }

  lemma {:induction false} JoinedFirst(joined: seq<Name>, p: Plan, tables: seq<Name>, c: Cond)
    requires |tables| > 0 && c.rhs.Col? && p.Join? && p.left.Scan? && p.right.Scan?
    requires p.left.table == c.lhs.tab && p.right.table == c.rhs.col.tab
    requires |joined| == |tables| + 2 && (forall i :: 0 <= i < |tables| ==> joined[i] == "")
    requires joined[|tables|] == c.lhs.tab && joined[|tables| + 1] == c.rhs.col.tab
    ensures JoinedMatch(joined, p)
  {
    assert joined[0] == "";
    assert joined[|tables|] in joined && joined[|tables| + 1] in joined;
  }

  lemma {:induction false} AccountFirst(
      p: Plan, scans: seq<Plan>, k: int, m: int, c: Cond, rest: seq<Cond>, total: multiset<set<Cond>>)
    requires 0 <= k < |scans| && 0 <= m < |scans| && k != m && p == Join(scans[k], scans[m], [c])
    requires Unused(scans, {}) + Norms([c] + rest) == total
    ensures Accounts(p, scans, {k} + {m}, rest, total)
  {
    hide Norm, Norms, PlanNorms, Unused;
    NormsOne(c);
    NormsConcat([c], rest);
    UnusedStep(scans, {}, k);
    assert {} + {k} == {k};
    UnusedStep(scans, {k}, m);
    JoinNorms(scans[k], scans[m], [c]);
    MoveFirst(PlanNorms(scans[k]), PlanNorms(scans[m]), Unused(scans, {k} + {m}), Norms(rest), multiset{Norm(c)});
  }

  lemma {:induction false} MoveFirst<T>(s: multiset<T>, t: multiset<T>, u: multiset<T>, n: multiset<T>, c: multiset<T>)
    ensures ((s + t) + c) + u + n == ((u + t) + s) + (c + n)
  {
  }

  lemma {:induction false} JoinedNext(joined: seq<Name>, joined': seq<Name>, p: Plan, p': Plan, added: set<Name>)
    requires JoinedMatch(joined, p) && Tabs(p') == added + Tabs(p)
    requires forall t :: t in joined' <==> t in joined || t in added
    ensures JoinedMatch(joined', p')
  {
  }

  /** The join, or the place in the tree, for one more condition. */
  method JoinNext(c: Cond, scans: seq<Plan>, tables: seq<Name>, p: Plan, flags: seq<int>, joined: seq<Name>,
                  ghost done: seq<Cond>, ghost rest: seq<Cond>, ghost total: multiset<set<Cond>>)
      returns (p': Plan, flags': seq<int>, joined': seq<Name>)
    requires Joining(p, scans, tables, flags, joined, done, [c] + rest, total) && Names(c, tables)
    requires Proper(p) ==> Sided(p)
    ensures Joining(p', scans, tables, flags', joined', done + [c], rest, total) && (Proper(p') <==> Proper(p))
    ensures Proper(p') ==> Sided(p')
  {
    hide Norm, Norms, PlanNorms, Unused, Accounts, Progress, UsedOf, Loses, TabsMentioned, KeptAfter, LostAfter;
    flags', joined' := flags, joined;
    var k, m := -1, -1;
    FindTable(scans, tables, c.lhs.tab);
    if c.lhs.tab !in joined' {
      k, flags', joined' := PopScan(flags', c.lhs.tab, joined', scans);
    }
    if RhsTab(c) !in joined' {
      FindTable(scans, tables, c.rhs.col.tab);
      m, flags', joined' := PopScan(flags', RhsTab(c), joined', scans);
    }
    if k != -1 && m != -1 {
      var temp := Join(scans[k], scans[m], [c]);
      p' := Join(temp, p, []);
      if Proper(p) {
        NextPair(c, scans, tables, p, flags, joined, done, rest, total, k, m);
        assert Sided(temp) && Sided(p');
      }
    } else if k != -1 || m != -1 {
      var n, c' := k, c;
      if m != -1 {
        n, c' := m, Swap(c);
      }
      p' := Join(scans[n], p, [c']);
      if Proper(p) {
        NextScan(c, c', scans, tables, p, flags, joined, done, rest, total, n);
        ScanSided(c, c', scans, tables, p, flags, joined, n);
      }
    } else {
      var pushed := PushConds(c, p);
      p' := pushed.plan;
      PushKeepsTabs(c, p);
      if Proper(p) {
        NextPushed(c, scans, tables, p, flags, joined, done, rest, total);
        NoBlank(scans, tables, p, flags, joined);
        PushSided(c, p);
      }
    }
  }

  lemma {:induction false} ScanSided(c: Cond, c': Cond, scans: seq<Plan>, tables: seq<Name>, p: Plan, flags: seq<int>,
                                     joined: seq<Name>, n: int)
    requires Progress(p, scans, tables, flags, joined) && Sided(p) && Names(c, tables) && "" !in tables
    requires 0 <= n < |scans| && scans[n].Scan?
    requires || (c' == c && scans[n].table == c.lhs.tab && RhsTab(c) in joined + [c.lhs.tab])
             || (c.rhs.Col? && c' == Swap(c) && scans[n].table == c.rhs.col.tab && c.lhs.tab in joined)
    ensures Sided(Join(scans[n], p, [c']))
  {
    OtherSide(c, c', p, scans[n].table, tables, joined);
  }

  lemma {:induction false} NoBlank(scans: seq<Plan>, tables: seq<Name>, p: Plan, flags: seq<int>, joined: seq<Name>)
    requires Progress(p, scans, tables, flags, joined) && "" !in tables
    ensures "" !in Tabs(p)
  {
  }

  /** What is to get into the tree next. */
  lemma {:induction false} KeptNext(
      p: Plan, scans: seq<Plan>, used: set<int>, done: seq<Cond>, c: Cond, rest: seq<Cond>, total: multiset<set<Cond>>)
    requires Accounts(p, scans, used, KeptAfter(done, [c] + rest), total)
    ensures !Loses(done, c) ==> Accounts(p, scans, used, [c] + KeptAfter(done + [c], rest), total)
    ensures Loses(done, c) ==> Accounts(p, scans, used, KeptAfter(done + [c], rest), total)
  {
    hide Norm, Norms, PlanNorms, Unused, Accounts, Loses;
    assert ([c] + rest)[1..] == rest;
    assert [] + KeptAfter(done + [c], rest) == KeptAfter(done + [c], rest);
  }

  lemma {:induction false} NextPair(
      c: Cond, scans: seq<Plan>, tables: seq<Name>, p: Plan, flags: seq<int>, joined: seq<Name>, done: seq<Cond>,
      rest: seq<Cond>, total: multiset<set<Cond>>, k: int, m: int)
    requires Joining(p, scans, tables, flags, joined, done, [c] + rest, total) && Proper(p) && c.rhs.Col?
    requires "" in joined
    requires 0 <= k < |scans| && 0 <= m < |scans| && scans[k].table == c.lhs.tab && scans[m].table == c.rhs.col.tab
    requires c.lhs.tab !in joined && c.rhs.col.tab !in joined + [c.lhs.tab]
    ensures var p' := Join(Join(scans[k], scans[m], [c]), p, []);
            Joining(p', scans, tables, flags[k := 1][m := 1], joined + [c.lhs.tab] + [c.rhs.col.tab], done + [c], rest,
                total)
            && Proper(p')
  {
    hide Norm, Norms, PlanNorms, Unused, Accounts, Mentions, Placed;
    SidesFree(scans, tables, p, flags, joined, k);
    SidesFree(scans, tables, p, flags, joined, m);
    PairProgress(c, scans, tables, p, flags, joined, k, m);
    var p' := Join(Join(scans[k], scans[m], [c]), p, []);
    TabsMore(p, p', done, c, {c.lhs.tab, c.rhs.col.tab});
    KeptNext(p, scans, UsedOf(flags), done, c, rest, total);
    AccountPair(p, p', scans, UsedOf(flags), k, m, c, KeptAfter(done + [c], rest), total);
  }

  lemma {:induction false} NextScan(
      c: Cond, c': Cond, scans: seq<Plan>, tables: seq<Name>, p: Plan, flags: seq<int>, joined: seq<Name>,
      done: seq<Cond>, rest: seq<Cond>, total: multiset<set<Cond>>, n: int)
    requires Joining(p, scans, tables, flags, joined, done, [c] + rest, total) && Proper(p) && Names(c, tables)
    requires 0 <= n < |scans| && scans[n].table !in joined
    requires || (c' == c && scans[n].table == c.lhs.tab && RhsTab(c) in joined + [c.lhs.tab])
             || (c.rhs.Col? && c' == Swap(c) && scans[n].table == c.rhs.col.tab && c.lhs.tab in joined)
    ensures Joining(Join(scans[n], p, [c']), scans, tables, flags[n := 1], joined + [scans[n].table], done + [c], rest,
              total)
    ensures Proper(Join(scans[n], p, [c']))
  {
    hide Norm, Norms, PlanNorms, Unused, Accounts, Mentions, Placed;
    SidesFree(scans, tables, p, flags, joined, n);
    ScanProgress(c, c', scans, tables, p, flags, joined, n);
    TabsMore(p, Join(scans[n], p, [c']), done, c, {scans[n].table});
    KeptNext(p, scans, UsedOf(flags), done, c, rest, total);
    AccountScan(p, Join(scans[n], p, [c']), scans, UsedOf(flags), n, c, c', KeptAfter(done + [c], rest), total);
  }

  lemma {:induction false} NextPushed(
      c: Cond, scans: seq<Plan>, tables: seq<Name>, p: Plan, flags: seq<int>, joined: seq<Name>, done: seq<Cond>,
      rest: seq<Cond>, total: multiset<set<Cond>>)
    requires Joining(p, scans, tables, flags, joined, done, [c] + rest, total) && Proper(p) && Names(c, tables)
    requires c.lhs.tab in joined && RhsTab(c) in joined
    ensures Joining(PushConds(c, p).plan, scans, tables, flags, joined, done + [c], rest, total)
  {
    hide Norm, Norms, PlanNorms, Unused, Accounts, Mentions, Placed, PushConds;
    KeptNext(p, scans, UsedOf(flags), done, c, rest, total);
    PushKeepsTabs(c, p);
    TabsMore(p, p, done, c, {});
    if IsCross(c) {
      PushProgress(c, scans, tables, p, flags, joined);
      AccountPushed(p, PushConds(c, p).plan, scans, UsedOf(flags), c, KeptAfter(done + [c], rest), total);
    } else {
      PushLoses(c, p);
    }
  }

  lemma {:induction false} SidesFree(
      scans: seq<Plan>, tables: seq<Name>, p: Plan, flags: seq<int>, joined: seq<Name>, k: int)
    requires Progress(p, scans, tables, flags, joined) && 0 <= k < |scans| && scans[k].Scan?
    requires scans[k].table !in joined
    ensures k !in UsedOf(flags) && scans[k].table !in Tabs(p)
  {
    hide Placed, Proper;
  }

  lemma {:induction false} PairProgress(
      c: Cond, scans: seq<Plan>, tables: seq<Name>, p: Plan, flags: seq<int>, joined: seq<Name>, k: int, m: int)
    requires Progress(p, scans, tables, flags, joined) && c.rhs.Col? && 0 <= k < |scans| && 0 <= m < |scans|
    requires k !in UsedOf(flags) && m !in UsedOf(flags) && k != m && scans[k].Scan? && scans[m].Scan?
    requires scans[k].table == c.lhs.tab && scans[m].table == c.rhs.col.tab
    ensures Progress(Join(Join(scans[k], scans[m], [c]), p, []), scans, tables,
                     flags[k := 1][m := 1], joined + [c.lhs.tab] + [c.rhs.col.tab])
            && UsedOf(flags[k := 1][m := 1]) == UsedOf(flags) + {k} + {m}
  {
    hide Placed, Proper, Built, UsedOf;
    var used, temp := UsedOf(flags), Join(scans[k], scans[m], [c]);
    MarkUsed(flags, k);
    MarkUsed(flags[k := 1], m);
    ScanBuilt(scans, tables, k);
    ScanBuilt(scans, tables, m);
    JoinBuilt(scans[k], {k}, scans[m], {m}, [c], scans, tables);
    JoinBuilt(temp, {k} + {m}, p, used, [], scans, tables);
    assert ({k} + {m}) + used == used + {k} + {m};
    JoinedNext(joined, joined + [c.lhs.tab] + [c.rhs.col.tab], p, Join(temp, p, []), {c.lhs.tab, c.rhs.col.tab});
  }

  lemma {:induction false} ScanProgress(
      c: Cond, c': Cond, scans: seq<Plan>, tables: seq<Name>, p: Plan, flags: seq<int>, joined: seq<Name>, n: int)
    requires Progress(p, scans, tables, flags, joined) && 0 <= n < |scans| && n !in UsedOf(flags) && scans[n].Scan?
    requires Names(c, tables)
    requires || (c' == c && scans[n].table == c.lhs.tab && RhsTab(c) in joined + [c.lhs.tab])
             || (c.rhs.Col? && c' == Swap(c) && scans[n].table == c.rhs.col.tab && c.lhs.tab in joined)
    ensures Progress(Join(scans[n], p, [c']), scans, tables, flags[n := 1], joined + [scans[n].table])
    ensures UsedOf(flags[n := 1]) == UsedOf(flags) + {n}
  {
    hide Placed, Proper, Built, UsedOf;
    var used := UsedOf(flags);
    MarkUsed(flags, n);
    ScanBuilt(scans, tables, n);
    OtherSide(c, c', p, scans[n].table, tables, joined);
    JoinBuilt(scans[n], {n}, p, used, [c'], scans, tables);
    assert {n} + used == used + {n};
    JoinedNext(joined, joined + [scans[n].table], p, Join(scans[n], p, [c']), {scans[n].table});
  }

  lemma {:induction false} PushProgress(
      c: Cond, scans: seq<Plan>, tables: seq<Name>, p: Plan, flags: seq<int>, joined: seq<Name>)
    requires Progress(p, scans, tables, flags, joined) && c.rhs.Col? && c.lhs.tab != c.rhs.col.tab
    requires c.lhs.tab in tables && c.rhs.col.tab in tables && c.lhs.tab in joined && c.rhs.col.tab in joined
    ensures Progress(PushConds(c, p).plan, scans, tables, flags, joined)
    ensures PlanNorms(PushConds(c, p).plan) == PlanNorms(p) + multiset{Norm(c)}
  {
    hide Placed, PlanNorms, Norm, PushConds;
    PushMeaning(c, p);
  }

  lemma {:induction false} OtherSide(c: Cond, c': Cond, p: Plan, t: Name, tables: seq<Name>, joined: seq<Name>)
    requires JoinedMatch(joined, p) && Names(c, tables) && "" !in tables
    requires || (c' == c && t == c.lhs.tab && RhsTab(c) in joined + [c.lhs.tab])
             || (c.rhs.Col? && c' == Swap(c) && t == c.rhs.col.tab && c.lhs.tab in joined)
    ensures Over(c', {t} + Tabs(p))
  {
  }

  // ------------------------------------------------------------- make_one_rel

  /** Comparisons of two columns of one table are on the first table only. */
  ghost predicate SameTableFirst(q: Query) {
    forall c :: c in q.conds && SameTable(c) ==> |q.tables| > 0 && c.lhs.tab == q.tables[0]
  }

  /** The comparisons across tables, in order. */
  ghost function CrossPart(cs: seq<Cond>): seq<Cond> {
    if |cs| == 0 then [] else CrossPart(cs[..|cs| - 1]) + if IsCross(cs[|cs| - 1]) then [cs[|cs| - 1]] else []
  }

  lemma {:induction false} CrossUnpopped(cs: seq<Cond>, table: Name)
    ensures CrossPart(Unpopped(cs, table)) == CrossPart(cs)
  {
    if |cs| > 0 {
      var n := |cs| - 1;
      var u := Unpopped(cs[..n], table);
      CrossUnpopped(cs[..n], table);
      assert (u + [cs[n]])[..|u|] == u && u + [] == u;
    }
  }

  lemma {:induction false} CrossAll(cs: seq<Cond>)
    requires forall c :: c in cs ==> IsCross(c)
    ensures CrossPart(cs) == cs
  {
    if |cs| > 0 {
      CrossAll(cs[..|cs| - 1]);
    }
  }

  lemma {:induction false} CrossNames(cs: seq<Cond>)
    ensures forall c :: c in CrossPart(cs) ==> c in cs && IsCross(c)
  {
    if |cs| > 0 {
      CrossNames(cs[..|cs| - 1]);
    }
  }

  method MakeScans(q: Query) returns (scans: seq<Plan>, rest: seq<Cond>)
    requires WellFormed(q)
    ensures ScansOf(scans, q.tables) && Unused(scans, {}) + Norms(rest) == Norms(q.conds)
    ensures rest == CrossPart(q.conds)
    ensures (forall i :: 0 <= i < |scans| ==> Placed(scans[i])) <==> SameTableFirst(q)
  {
    hide Norm, Norms, PlanNorms, CrossPart, Unpopped;
    scans, rest := [], q.conds;
    var i := 0;
    while i < |q.tables|
      invariant 0 <= i <= |q.tables| && |scans| == i
      invariant forall j :: 0 <= j < i ==> scans[j].Scan? && scans[j].table == q.tables[j]
      invariant Unused(scans, {}) + Norms(rest) == Norms(q.conds)
      invariant forall c :: c in rest ==> c in q.conds && forall j :: 0 <= j < i ==> !Pops(c, q.tables[j])
      invariant forall j :: 0 < j < i ==> Placed(scans[j])
      invariant i > 0 ==> (Placed(scans[0]) <==> SameTableFirst(q))
      invariant (i == 0 ==> rest == q.conds) && CrossPart(rest) == CrossPart(q.conds)
    {
      var solved, left := PopConds(rest, q.tables[i]);
      CrossUnpopped(rest, q.tables[i]);
      ScanPlaced(q, i, rest, solved);
      UnusedAppend(scans, Scan(q.tables[i], solved));
      ScanNorms(q.tables[i], solved);
      Assoc(Unused(scans, {}), Norms(solved), Norms(left));
      scans := scans + [Scan(q.tables[i], solved)];
      rest := left;
      i := i + 1;
    }
    forall c | c in rest
      ensures IsCross(c)
    {
      assert c in q.conds && c.lhs.tab in q.tables;
      var j :| 0 <= j < |q.tables| && q.tables[j] == c.lhs.tab;
      assert !Pops(c, q.tables[j]);
    }
    CrossAll(rest);
  }

  lemma {:induction false} UnusedAppend(scans: seq<Plan>, s: Plan)
    ensures Unused(scans + [s], {}) == Unused(scans, {}) + PlanNorms(s)
  {
    hide PlanNorms;
    assert (scans + [s])[..|scans|] == scans;
  }

  lemma {:induction false} ScanNorms(t: Name, cs: seq<Cond>)
    ensures PlanNorms(Scan(t, cs)) == Norms(cs)
  {
  }

  /** Which conditions end up at the scan of table `i`. */
  lemma {:induction false} ScanPlaced(q: Query, i: int, rest: seq<Cond>, solved: seq<Cond>)
    requires WellFormed(q) && 0 <= i < |q.tables| && (forall c :: c in rest ==> c in q.conds)
    requires (i == 0 ==> rest == q.conds)
    requires forall c :: c in solved <==> c in rest && Pops(c, q.tables[i])
    requires i > 0 ==> forall c :: c in rest ==> !Pops(c, q.tables[0])
    ensures i > 0 ==> Placed(Scan(q.tables[i], solved))
    ensures i == 0 ==> (Placed(Scan(q.tables[0], solved)) <==> SameTableFirst(q))
  {
    var s := Scan(q.tables[i], solved);
    if i > 0 {
      forall j | 0 <= j < |solved|
        ensures Over(solved[j], Tabs(s))
      {
        assert solved[j] in solved;
      }
    } else {
      if Placed(s) {
        forall c | c in q.conds && SameTable(c)
          ensures c.lhs.tab == q.tables[0]
        {
          assert c in solved;
          var j :| 0 <= j < |solved| && solved[j] == c;
          assert Over(s.conds[j], Tabs(s));
        }
      }
      if SameTableFirst(q) {
        forall j | 0 <= j < |solved|
          ensures Over(solved[j], Tabs(s))
        {
          assert solved[j] in solved;
        }
      }
    }
  }

  /** The conditions that the joins are built from, in order: comparisons across tables in WHERE, then all of ON. */
  ghost function JoinConds(q: Query): seq<Cond> {
    CrossPart(q.conds) + q.onConds
  }

  /** The first of them compares two tables. */
  ghost predicate StartsCross(q: Query) {
    |q.tables| == 1 || |JoinConds(q)| == 0 || IsCross(JoinConds(q)[0])
  }

  /** The ON conditions that get lost: all of them if there is one table, and otherwise the filters on a table that an
      earlier condition has brought in. */
  ghost function Lost(q: Query): seq<Cond> {
    if |q.tables| == 1 then q.onConds else LostAfter([], JoinConds(q))
  }

  /** The plan is what the query asks for: each table once, each condition once up to side swapping, and each over its
      tables. */
  ghost predicate Answers(p: Plan, q: Query) {
    && Proper(p) && Placed(p) && (forall t :: t in Tabs(p) <==> t in q.tables)
    && PlanNorms(p) == Norms(q.conds + q.onConds)
  }

  /** The join tree. It is proper exactly if the first join condition compares two tables. Then every table is scanned
      once and every condition that is not lost appears once; and each sits over its tables exactly if
      comparisons within a table in WHERE are on the first table. */
  method MakeOneRel(q: Query) returns (p: Plan)
    requires WellFormed(q)
    ensures Proper(p) <==> StartsCross(q)
    ensures StartsCross(q) ==>
              && (forall t :: t in Tabs(p) <==> t in q.tables) && (Placed(p) <==> SameTableFirst(q))
              && PlanNorms(p) + Norms(Lost(q)) == Norms(q.conds + q.onConds)
    ensures StartsCross(q) ==> Sided(p)
    ensures Answers(p, q) <==> StartsCross(q) && SameTableFirst(q) && Lost(q) == []
  {
    hide Norm, Norms, PlanNorms, Unused, Placed, Proper, Built, Accounts, UsedOf, KeptAfter, LostAfter, CrossPart;
    var scans, conds := MakeScans(q);
    ghost var rest := conds;
    if |q.tables| == 1 {
      SingleTable(q, scans, rest);
      AnswersWhen(scans[0], q);
      return scans[0];
    }
    conds := conds + q.onConds;
    ghost var total := Unused(scans, {}) + Norms(KeptAfter([], JoinConds(q)));
    JoinNames(q);
    var flags;
    p, flags := JoinTree(conds, scans, q.tables, total);
    p := JoinRest(p, scans, q.tables, flags, total);
    if StartsCross(q) {
      TotalNorms(q, scans, total, p);
    }
    AnswersWhen(p, q);
  }

  lemma {:induction false} JoinNames(q: Query)
    requires WellFormed(q)
    ensures forall i :: 0 <= i < |JoinConds(q)| ==> Names(JoinConds(q)[i], q.tables)
  {
    hide CrossPart;
    CrossNames(q.conds);
    forall i | 0 <= i < |JoinConds(q)|
      ensures Names(JoinConds(q)[i], q.tables)
    {
      var c := JoinConds(q)[i];
      assert c in CrossPart(q.conds) || c in q.onConds;
    }
  }

  lemma {:induction false} AnswersWhen(p: Plan, q: Query)
    requires Proper(p) <==> StartsCross(q)
    requires StartsCross(q) ==>
               && (forall t :: t in Tabs(p) <==> t in q.tables) && (Placed(p) <==> SameTableFirst(q))
               && PlanNorms(p) + Norms(Lost(q)) == Norms(q.conds + q.onConds)
    ensures Answers(p, q) <==> StartsCross(q) && SameTableFirst(q) && Lost(q) == []
  {
    hide Norm, Norms, PlanNorms, Placed, Proper, Lost, SameTableFirst, StartsCross;
    NormsSize(Lost(q));
    if PlanNorms(p) == Norms(q.conds + q.onConds) && PlanNorms(p) + Norms(Lost(q)) == Norms(q.conds + q.onConds) {
      assert |PlanNorms(p)| + |Norms(Lost(q))| == |PlanNorms(p)|;
    }
    if Lost(q) == [] {
      NormsNone(Lost(q));
    }
  }

  lemma {:induction false} NormsSize(cs: seq<Cond>)
    ensures |Norms(cs)| == |cs|
  {
    hide Norm;
    if |cs| > 0 {
      NormsSize(cs[..|cs| - 1]);
    }
  }

  /** The part of the tree that the join conditions call for; the first scan if there are none. */
  method JoinTree(conds0: seq<Cond>, scans: seq<Plan>, tables: seq<Name>, ghost total: multiset<set<Cond>>)
      returns (p: Plan, flags: seq<int>)
    requires ScansOf(scans, tables) && "" !in tables && |tables| > 0
    requires forall i :: 0 <= i < |conds0| ==> Names(conds0[i], tables)
    requires Unused(scans, {}) + Norms(KeptAfter([], conds0)) == total
    ensures |flags| == |scans| && (Proper(p) <==> |conds0| == 0 || IsCross(conds0[0]))
    ensures Proper(p) ==> Built(p, scans, tables, UsedOf(flags)) && Accounts(p, scans, UsedOf(flags), [], total)
    ensures Proper(p) ==> Sided(p)
  {
    hide Norm, Norms, PlanNorms, Unused, Placed, Proper, Built, Accounts, KeptAfter, Names;
    var conds := conds0;
    if |conds| >= 1 {
      var joined;
      ghost var done := [conds[0]];
      FirstKept(conds);
      p, flags, joined := JoinFirst(conds[0], scans, tables, conds[1..], total);
      conds := conds[1..];
      while |conds| > 0
        invariant Joining(p, scans, tables, flags, joined, done, conds, total)
        invariant forall i :: 0 <= i < |conds| ==> Names(conds[i], tables)
        invariant Proper(p) <==> IsCross(conds0[0])
        invariant Proper(p) ==> Sided(p)
        decreases |conds|
      {
        assert conds == [conds[0]] + conds[1..];
        p, flags, joined := JoinNext(conds[0], scans, tables, p, flags, joined, done, conds[1..], total);
        done := done + [conds[0]];
        conds := conds[1..];
      }
      NothingKept(done, conds);
    } else {
      NothingKept([], conds);
      p := scans[0];
      flags := seq(|tables|, _ => -1)[0 := 1];
      assert UsedOf(flags) == {0};
      ScanBuilt(scans, tables, 0);
      BuiltProper(p, scans, tables, {0});
      AccountNone(scans, [], total);
    }
  }

  lemma {:induction false} FirstKept(cs: seq<Cond>)
    requires |cs| > 0
    ensures KeptAfter([], cs) == [cs[0]] + KeptAfter([cs[0]], cs[1..])
  {
    assert !Mentions([], cs[0].lhs.tab);
    assert [] + [cs[0]] == [cs[0]];
  }

  lemma {:induction false} NothingKept(done: seq<Cond>, rest: seq<Cond>)
    requires |rest| == 0
    ensures KeptAfter(done, rest) == []
  {
  }

  lemma {:induction false} SingleTable(q: Query, scans: seq<Plan>, rest: seq<Cond>)
    requires WellFormed(q) && |q.tables| == 1 && ScansOf(scans, q.tables) && rest == CrossPart(q.conds)
    requires Unused(scans, {}) + Norms(rest) == Norms(q.conds)
    ensures rest == [] && PlanNorms(scans[0]) + Norms(Lost(q)) == Norms(q.conds + q.onConds)
    ensures Proper(scans[0]) && forall t :: t in Tabs(scans[0]) <==> t in q.tables
  {
    CrossNames(q.conds);
    NoCross(rest, q.tables);
    assert scans[..0] == [];
    NormsNone(rest);
    NormsConcat(q.conds, q.onConds);
  }

  lemma {:induction false} CrossTwo(c: Cond, tables: seq<Name>)
    requires IsCross(c) && Names(c, tables)
    ensures |tables| >= 2
  {
  }

  lemma {:induction false} NoCross(cs: seq<Cond>, tables: seq<Name>)
    requires (forall c :: c in cs ==> IsCross(c) && Names(c, tables)) && |tables| == 1
    ensures cs == []
  {
    if |cs| > 0 {
      CrossTwo(cs[0], tables);
    }
  }

  lemma {:induction false} TotalNorms(q: Query, scans: seq<Plan>, total: multiset<set<Cond>>, p: Plan)
    requires Unused(scans, {}) + Norms(CrossPart(q.conds)) == Norms(q.conds) && |q.tables| != 1
    requires total == Unused(scans, {}) + Norms(KeptAfter([], JoinConds(q))) && PlanNorms(p) == total
    ensures PlanNorms(p) + Norms(Lost(q)) == Norms(q.conds + q.onConds)
  {
    hide Norm, Norms, Unused, KeptAfter, LostAfter, CrossPart, PlanNorms;
    KeptAndLost([], JoinConds(q));
    NormsConcat(q.conds, q.onConds);
    NormsConcat(CrossPart(q.conds), q.onConds);
    Assoc(Unused(scans, {}), Norms(KeptAfter([], JoinConds(q))), Norms(LostAfter([], JoinConds(q))));
    Assoc(Unused(scans, {}), Norms(CrossPart(q.conds)), Norms(q.onConds));
  }

  lemma {:induction false} AccountNone(scans: seq<Plan>, conds: seq<Cond>, total: multiset<set<Cond>>)
    requires |scans| > 0 && Unused(scans, {}) + Norms(conds) == total
    ensures Accounts(scans[0], scans, {0}, conds, total)
  {
    hide Norm, Norms, PlanNorms, Unused;
    UnusedStep(scans, {}, 0);
    assert {} + {0} == {0};
  }

  /** Cross products with the tables no condition mentions. */
  method JoinRest(p: Plan, scans: seq<Plan>, tables: seq<Name>, flags: seq<int>, ghost total: multiset<set<Cond>>)
      returns (p': Plan)
    requires ScansOf(scans, tables) && |flags| == |scans|
    requires Proper(p) ==> Built(p, scans, tables, UsedOf(flags)) && Accounts(p, scans, UsedOf(flags), [], total)
    requires Proper(p) ==> Sided(p)
    ensures (Proper(p') <==> Proper(p)) && (Proper(p) ==> Sided(p'))
    ensures Proper(p) ==>
              && (forall t :: t in Tabs(p') <==> t in tables) && PlanNorms(p') == total
              && (Placed(p') <==> forall i :: 0 <= i < |scans| ==> Placed(scans[i]))
  {
    hide Norm, Norms, PlanNorms, Unused, Placed, Accounts;
    p' := p;
    ghost var used := UsedOf(flags);
    ghost var u := used;
    var i := 0;
    while i < |tables|
      invariant 0 <= i <= |tables| && (Proper(p') <==> Proper(p)) && (Proper(p) ==> Sided(p'))
      invariant Proper(p) ==> Built(p', scans, tables, u) && Accounts(p', scans, u, [], total)
      invariant (forall j :: 0 <= j < i ==> j in u) && (forall j :: i <= j < |tables| ==> (j in u <==> j in used))
    {
      if flags[i] == -1 {
        if Proper(p') {
          ScanBuilt(scans, tables, i);
          JoinBuilt(scans[i], {i}, p', u, [], scans, tables);
          AccountPlain(p', Join(scans[i], p', []), scans, u, i, [], total);
        }
        p' := Join(scans[i], p', []);
        assert {i} + u == u + {i};
        u := u + {i};
      }
      i := i + 1;
    }
    if Proper(p') {
      AccountDone(p', scans, u, total);
      AllTables(p', scans, tables, u);
    }
  }

  lemma {:induction false} AllTables(p: Plan, scans: seq<Plan>, tables: seq<Name>, used: set<int>)
    requires Built(p, scans, tables, used) && forall j :: 0 <= j < |tables| ==> j in used
    ensures forall t :: t in Tabs(p) <==> t in tables
    ensures Placed(p) <==> forall i :: 0 <= i < |scans| ==> Placed(scans[i])
  {
    hide Placed, Proper;
    forall t | t in tables
      ensures t in Tabs(p)
    {
      var j :| 0 <= j < |tables| && tables[j] == t;
    }
    assert forall j :: j in used <==> 0 <= j < |scans|;
  }

  lemma {:induction false} BuiltProper(p: Plan, scans: seq<Plan>, tables: seq<Name>, used: set<int>)
    requires Built(p, scans, tables, used)
    ensures Proper(p)
  {
  }

  lemma {:induction false} AccountDone(p: Plan, scans: seq<Plan>, used: set<int>, total: multiset<set<Cond>>)
    requires Accounts(p, scans, used, [], total) && forall i :: 0 <= i < |scans| ==> i in used
    ensures PlanNorms(p) == total
  {
    UnusedAll(scans, used);
  }

  lemma {:induction false} UnusedAll(scans: seq<Plan>, used: set<int>)
    requires forall i :: 0 <= i < |scans| ==> i in used
    ensures Unused(scans, used) == multiset{}
  {
    if |scans| > 0 {
      UnusedAll(scans[..|scans| - 1], used);
    }
  }

  /** The conditions that the plan checks. */
  ghost function Checked(q: Query): seq<Cond> {
    if |q.tables| == 1 then q.conds else SinglePart(q.conds) + KeptAfter([], JoinConds(q))
  }

  ghost function SinglePart(cs: seq<Cond>): seq<Cond> {
    if |cs| == 0 then [] else SinglePart(cs[..|cs| - 1]) + if IsCross(cs[|cs| - 1]) then [] else [cs[|cs| - 1]]
  }

  lemma {:induction false} SingleAndCross(cs: seq<Cond>)
    ensures Norms(SinglePart(cs)) + Norms(CrossPart(cs)) == Norms(cs)
  {
    hide Norm, Norms;
    if |cs| == 0 {
      NormsNone(cs);
    } else {
      var n := |cs| - 1;
      var s, x, c := SinglePart(cs[..n]), CrossPart(cs[..n]), cs[n];
      SingleAndCross(cs[..n]);
      assert cs == cs[..n] + [c] && s + [] == s && x + [] == x;
      NormsAppend(cs[..n], c);
      NormsAppend(s, c);
      NormsAppend(x, c);
      Assoc(Norms(s), Norms(x), multiset{Norm(c)});
      SwapLast(Norms(s), multiset{Norm(c)}, Norms(x));
    }
  }

  lemma {:induction false} CheckedNorms(q: Query, p: Plan)
    requires PlanNorms(p) + Norms(Lost(q)) == Norms(q.conds + q.onConds)
    ensures PlanNorms(p) == Norms(Checked(q))
  {
    hide Norm, Norms, PlanNorms, KeptAfter, LostAfter, SinglePart, CrossPart;
    NormsConcat(q.conds, q.onConds);
    if |q.tables| != 1 {
      var s, x, k, l := SinglePart(q.conds), CrossPart(q.conds), KeptAfter([], JoinConds(q)),
          LostAfter([], JoinConds(q));
      SingleAndCross(q.conds);
      KeptAndLost([], JoinConds(q));
      NormsConcat(x, q.onConds);
      NormsConcat(s, k);
      Assoc(Norms(s), Norms(x), Norms(q.onConds));
      Assoc(Norms(s), Norms(k), Norms(l));
    }
    Cancel(PlanNorms(p), Norms(Checked(q)), Norms(Lost(q)));
  }

  lemma {:induction false} Cancel<T>(a: multiset<T>, b: multiset<T>, c: multiset<T>)
    requires a + c == b + c
    ensures a == b
  {
    forall x
      ensures a[x] == b[x]
    {
      assert (a + c)[x] == (b + c)[x];
    }
  }

  /** With nothing lost, the plan checks all conditions. */
  lemma {:induction false} CheckedAll(q: Query, db: Database, env: Env)
    requires Norms(Checked(q)) + Norms(Lost(q)) == Norms(q.conds + q.onConds) && Lost(q) == []
    ensures HoldsAll(db, env, Checked(q)) <==> HoldsAll(db, env, q.conds + q.onConds)
  {
    hide Norm, Norms, HoldsAll, Checked, Lost, NormHolds;
    NormsNone(Lost(q));
    NormsHold(db, env, Checked(q));
    NormsHold(db, env, q.conds + q.onConds);
  }

  /** For every query whose plan is proper, the plan delivers exactly the combinations of rows that satisfy the
      conditions it checks: all but the lost ones. With nothing lost these are the rows the query asks for. */
  method PlanQuery(q: Query) returns (p: Plan)
    requires WellFormed(q) && SameTableFirst(q) && StartsCross(q)
    ensures Proper(p) && Placed(p)
    ensures forall db, env ::
              Yields(p, db, env) <==> Combines(db, env, set t | t in q.tables) && HoldsAll(db, env, Checked(q))
    ensures Lost(q) == [] ==> forall db, env ::
              Yields(p, db, env) <==> Combines(db, env, set t | t in q.tables) && HoldsAll(db, env, q.conds + q.onConds)
  {
    hide Norm, Norms, PlanNorms, Placed, Proper, HoldsAll, Yields, Combines, PlanHolds, Checked, Lost;
    p := MakeOneRel(q);
    CheckedNorms(q, p);
    assert Tabs(p) == set t | t in q.tables;
    forall db, env
      ensures Yields(p, db, env) <==> Combines(db, env, set t | t in q.tables) && HoldsAll(db, env, Checked(q))
      ensures Lost(q) == [] ==> (HoldsAll(db, env, Checked(q)) <==> HoldsAll(db, env, q.conds + q.onConds))
    {
      PlanMeaning(p, db, env);
      NormsHold(db, env, Checked(q));
      PlanHoldsNorms(p, db, env, Checked(q));
      if Lost(q) == [] {
        CheckedAll(q, db, env);
      }
    }
  }

  lemma {:induction false} PlanHoldsNorms(p: Plan, db: Database, env: Env, cs: seq<Cond>)
    requires PlanNorms(p) == Norms(cs)
    ensures PlanHolds(p, db, env) <==> forall n :: n in Norms(cs) ==> NormHolds(db, env, n)
  {
    hide PlanNorms, Norms, NormHolds;
  }

  // ------------------------------------------------------------- queries that go wrong

  function EqualIds(): Cond {
    Cond(TabCol("a", "id"), EQ, Col(TabCol("b", "id")))
  }

  function FilterA(): Cond {
    Cond(TabCol("a", "x"), EQ, Val(5))
  }

  lemma {:induction false} FilterLost()
    ensures KeptAfter([], [EqualIds(), FilterA()]) == [EqualIds()]
    ensures LostAfter([], [EqualIds(), FilterA()]) == [FilterA()]
  {
    var c, d := EqualIds(), FilterA();
    assert !Mentions([], "a") && [c][0].lhs.tab == "a" && Mentions([c], "a");
    assert [c, d][1..] == [d] && [] + [c] == [c] && [d][1..] == [];
    assert KeptAfter([c], [d]) == [] && LostAfter([c], [d]) == [d];
  }

  /** FROM a, b ON a.id = b.id AND a.x = 5: the filter is lost, and a row with another x is delivered. */
  method LostFilter() returns (q: Query, p: Plan, ghost db: Database, ghost env: Env)
    ensures q == Query(["a", "b"], [], [EqualIds(), FilterA()]) && WellFormed(q) && SameTableFirst(q) && StartsCross(q)
    ensures Lost(q) == [FilterA()] && Yields(p, db, env) && !Holds(db, env, FilterA())
  {
    q := Query(["a", "b"], [], [EqualIds(), FilterA()]);
    assert JoinConds(q) == [EqualIds(), FilterA()];
    FilterLost();
    p := PlanQuery(q);
    db := map["a" := [map["id" := 1, "x" := 0]], "b" := [map["id" := 1]]];
    env := map["a" := 0, "b" := 0];
    assert Checked(q) == [EqualIds()];
    assert Holds(db, env, EqualIds());
    assert Combines(db, env, set t | t in q.tables);
  }

  /** FROM a, b ON a.x = 5 AND a.id = b.id: the first join has no right child. */
  method MissingChild() returns (q: Query, p: Plan)
    ensures q == Query(["a", "b"], [], [FilterA(), EqualIds()]) && WellFormed(q) && SameTableFirst(q) && !Proper(p)
  {
    q := Query(["a", "b"], [], [FilterA(), EqualIds()]);
    assert JoinConds(q) == [FilterA(), EqualIds()];
    p := MakeOneRel(q);
  }

  /** FROM a, b WHERE b.x = b.y: the comparison is left at the scan of a. */
  method Misplaced() returns (q: Query, p: Plan)
    ensures var c := Cond(TabCol("b", "x"), EQ, Col(TabCol("b", "y")));
            q == Query(["a", "b"], [c], []) && WellFormed(q) && StartsCross(q) && Lost(q) == []
    ensures Proper(p) && !Placed(p)
  {
    var c := Cond(TabCol("b", "x"), EQ, Col(TabCol("b", "y")));
    q := Query(["a", "b"], [c], []);
    assert CrossPart([c]) == [] by { assert [c][..0] == []; }
    assert JoinConds(q) == [] && c in q.conds;
    p := MakeOneRel(q);
  }
}
