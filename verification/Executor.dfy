/** The iterators that run a plan: table scans with a filter and nested-loop joins, nested to any depth. */
module Executor {
  import opened Plan
  import Planner

  // ------------------------------------------------------------- what a plan delivers, in order

  /** The combinations that satisfy the conditions, in order. */
  ghost function Accept(db: Database, cs: seq<Cond>, s: seq<Env>): seq<Env> {
    if |s| == 0 then [] else
    var n := |s| - 1;
    Accept(db, cs, s[..n]) + if HoldsAll(db, s[n], cs) then [s[n]] else []
  }

  function TableSize(db: Database, t: Name): nat {
    if t in db then |db[t]| else 0
  }

  ghost function RowsOf(t: Name, n: nat): (s: seq<Env>)
    ensures |s| == n && forall i :: 0 <= i < n ==> s[i] == map[t := i]
  {
    seq(n, i => map[t := i])
  }

  /** One left row with every right row. */
  ghost function PairRow(l: Env, rs: seq<Env>): (s: seq<Env>)
    ensures |s| == |rs| && forall j :: 0 <= j < |rs| ==> s[j] == l + rs[j]
  {
    seq(|rs|, j requires 0 <= j < |rs| => l + rs[j])
  }

  /** All pairs, left-major. */
  ghost function Product(ls: seq<Env>, rs: seq<Env>): seq<Env> {
    if |ls| == 0 then [] else Product(ls[..|ls| - 1], rs) + PairRow(ls[|ls| - 1], rs)
  }

  ghost function Eval(p: Plan, db: Database): seq<Env> {
    match p
    case Scan(t, cs) => Accept(db, cs, RowsOf(t, TableSize(db, t)))
    case Join(l, r, cs) => Accept(db, cs, Product(Eval(l, db), Eval(r, db)))
    case Missing => []
  }

  lemma {:induction false} AcceptConcat(db: Database, cs: seq<Cond>, s: seq<Env>, t: seq<Env>)
    ensures Accept(db, cs, s + t) == Accept(db, cs, s) + Accept(db, cs, t)
  {
    if |t| == 0 {
      assert s + t == s;
    } else {
      var n := |t| - 1;
      AcceptConcat(db, cs, s, t[..n]);
      assert (s + t)[..|s| + n] == s + t[..n];
    }
  }

  lemma {:induction false} AcceptMember(db: Database, cs: seq<Cond>, s: seq<Env>, e: Env)
    ensures e in Accept(db, cs, s) <==> e in s && HoldsAll(db, e, cs)
  {
    if |s| > 0 {
      AcceptMember(db, cs, s[..|s| - 1], e);
      assert s == s[..|s| - 1] + [s[|s| - 1]];
    }
  }

  lemma {:induction false} ProductMember(ls: seq<Env>, rs: seq<Env>, e: Env)
    ensures e in Product(ls, rs) <==> exists i, j :: 0 <= i < |ls| && 0 <= j < |rs| && e == ls[i] + rs[j]
  {
    if |ls| > 0 {
      var n := |ls| - 1;
      ProductMember(ls[..n], rs, e);
      assert e in PairRow(ls[n], rs) <==> exists j :: 0 <= j < |rs| && e == ls[n] + rs[j];
      if e in Product(ls[..n], rs) {
        var i, j :| 0 <= i < n && 0 <= j < |rs| && e == ls[..n][i] + rs[j];
        assert e == ls[i] + rs[j];
      }
      if i, j :| 0 <= i < |ls| && 0 <= j < |rs| && e == ls[i] + rs[j] {
        if i < n {
          assert e == ls[..n][i] + rs[j];
        } else {
          assert PairRow(ls[n], rs)[j] == e;
        }
      }
    }
  }

  lemma {:induction false} YieldsKeys(p: Plan, db: Database, e: Env)
    requires Yields(p, db, e)
    ensures e.Keys == Tabs(p)
  {
  }

  lemma {:induction false} MergeRestrict(a: Env, b: Env, x: set<Name>, y: set<Name>)
    requires a.Keys == x && b.Keys == y && x !! y
    ensures (a + b).Keys == x + y && Restrict(a + b, x) == a && Restrict(a + b, y) == b
  {
  }

  lemma {:induction false} ScanMeaning(t: Name, cs: seq<Cond>, db: Database, e: Env)
    ensures e in Eval(Scan(t, cs), db) <==> Yields(Scan(t, cs), db, e)
  {
    hide HoldsAll, Accept;
    var rows := RowsOf(t, TableSize(db, t));
    AcceptMember(db, cs, rows, e);
    if Combines(db, e, {t}) {
      assert e == map[t := e[t]] == rows[e[t]];
    }
  }

  /** A pair of child results is a result if the join conditions hold. */
  lemma {:induction false} PairYields(p: Plan, db: Database, a: Env, b: Env)
    requires p.Join? && Proper(p) && Yields(p.left, db, a) && Yields(p.right, db, b)
    ensures Yields(p, db, a + b) <==> HoldsAll(db, a + b, p.conds)
  {
    hide HoldsAll;
    YieldsKeys(p.left, db, a);
    YieldsKeys(p.right, db, b);
    MergeRestrict(a, b, Tabs(p.left), Tabs(p.right));
  }

  lemma {:induction false} YieldsSplit(p: Plan, db: Database, e: Env)
    requires p.Join? && Yields(p, db, e)
    ensures var a, b := Restrict(e, Tabs(p.left)), Restrict(e, Tabs(p.right));
            Yields(p.left, db, a) && Yields(p.right, db, b) && e == a + b && HoldsAll(db, e, p.conds)
  {
    hide HoldsAll;
  }

  /** The sequence holds exactly the combinations the plan yields. */
  lemma {:induction false} EvalMeaning(p: Plan, db: Database, e: Env)
    requires Proper(p)
    ensures e in Eval(p, db) <==> Yields(p, db, e)
    decreases p
  {
    hide HoldsAll, Accept, Product, Yields;
    match p {
      case Scan(t, cs) => ScanMeaning(t, cs, db, e);
      case Join(l, r, cs) =>
        var ls, rs := Eval(l, db), Eval(r, db);
        AcceptMember(db, cs, Product(ls, rs), e);
        ProductMember(ls, rs, e);
        if i, j :| 0 <= i < |ls| && 0 <= j < |rs| && e == ls[i] + rs[j] {
          EvalMeaning(l, db, ls[i]);
          EvalMeaning(r, db, rs[j]);
          PairYields(p, db, ls[i], rs[j]);
        }
        if Yields(p, db, e) {
          YieldsSplit(p, db, e);
          var a, b := Restrict(e, Tabs(l)), Restrict(e, Tabs(r));
          EvalMeaning(l, db, a);
          EvalMeaning(r, db, b);
          var i :| 0 <= i < |ls| && ls[i] == a;
          var j :| 0 <= j < |rs| && rs[j] == b;
          assert e == ls[i] + rs[j];
        }
    }
  }

  ghost predicate NoRepeats(s: seq<Env>) {
    forall i, j :: 0 <= i < j < |s| ==> s[i] != s[j]
  }

  lemma {:induction false} AcceptNoRepeats(db: Database, cs: seq<Cond>, s: seq<Env>)
    requires NoRepeats(s)
    ensures NoRepeats(Accept(db, cs, s))
  {
    if |s| > 0 {
      var n := |s| - 1;
      AcceptNoRepeats(db, cs, s[..n]);
      AcceptMember(db, cs, s[..n], s[n]);
    }
  }

  lemma {:induction false} ProductNoRepeats(ls: seq<Env>, rs: seq<Env>, x: set<Name>, y: set<Name>)
    requires NoRepeats(ls) && NoRepeats(rs) && x !! y
    requires (forall i :: 0 <= i < |ls| ==> ls[i].Keys == x) && (forall j :: 0 <= j < |rs| ==> rs[j].Keys == y)
    ensures NoRepeats(Product(ls, rs))
  {
    if |ls| > 0 {
      var n := |ls| - 1;
      var before, row := Product(ls[..n], rs), PairRow(ls[n], rs);
      ProductNoRepeats(ls[..n], rs, x, y);
      forall i, j | 0 <= i < j < |row|
        ensures row[i] != row[j]
      {
        MergeRestrict(ls[n], rs[i], x, y);
        MergeRestrict(ls[n], rs[j], x, y);
      }
      forall i, j | 0 <= i < |before| && 0 <= j < |row|
        ensures before[i] != row[j]
      {
        ProductMember(ls[..n], rs, before[i]);
        var a, b :| 0 <= a < n && 0 <= b < |rs| && before[i] == ls[..n][a] + rs[b];
        MergeRestrict(ls[a], rs[b], x, y);
        MergeRestrict(ls[n], rs[j], x, y);
      }
    }
  }

  /** Each combination is delivered once. */
  lemma {:induction false} EvalNoRepeats(p: Plan, db: Database)
    requires Proper(p)
    ensures NoRepeats(Eval(p, db))
  {
    match p {
      case Scan(t, cs) =>
        var rows := RowsOf(t, TableSize(db, t));
        forall i, j | 0 <= i < j < |rows|
          ensures rows[i] != rows[j]
        {
          assert rows[i][t] == i && rows[j][t] == j;
        }
        AcceptNoRepeats(db, cs, rows);
      case Join(l, r, cs) =>
        var ls, rs := Eval(l, db), Eval(r, db);
        EvalNoRepeats(l, db);
        EvalNoRepeats(r, db);
        EvalKeys(l, db);
        EvalKeys(r, db);
        ProductNoRepeats(ls, rs, Tabs(l), Tabs(r));
        AcceptNoRepeats(db, cs, Product(ls, rs));
    }
  }

  lemma {:induction false} EvalKeys(p: Plan, db: Database)
    requires Proper(p)
    ensures forall i :: 0 <= i < |Eval(p, db)| ==> Eval(p, db)[i].Keys == Tabs(p)
  {
    forall i | 0 <= i < |Eval(p, db)|
      ensures Eval(p, db)[i].Keys == Tabs(p)
    {
      EvalMeaning(p, db, Eval(p, db)[i]);
      YieldsKeys(p, db, Eval(p, db)[i]);
    }
  }

  // ------------------------------------------------------------- positions

  /** What a scan has delivered before row `k`. */
  ghost function ScanBefore(db: Database, cs: seq<Cond>, rows: seq<Env>, k: int): seq<Env>
    requires 0 <= k <= |rows|
  {
    Accept(db, cs, rows[..k])
  }

  lemma {:induction false} ScanStep(db: Database, cs: seq<Cond>, rows: seq<Env>, k: int)
    requires 0 <= k <= |rows|
    ensures k < |rows| ==>
              ScanBefore(db, cs, rows, k + 1) == ScanBefore(db, cs, rows, k) + if HoldsAll(db, rows[k], cs)
                then [rows[k]] else []
    ensures k == |rows| ==> ScanBefore(db, cs, rows, k) == Accept(db, cs, rows)
    ensures |ScanBefore(db, cs, rows, k)| <= |Accept(db, cs, rows)|
    ensures k < |rows| && HoldsAll(db, rows[k], cs) ==>
              var n := |ScanBefore(db, cs, rows, k)|; n < |Accept(db, cs, rows)| && Accept(db, cs, rows)[n] == rows[k]
  {
    assert rows == rows[..k] + rows[k..];
    AcceptConcat(db, cs, rows[..k], rows[k..]);
    if k < |rows| {
      assert rows[..k + 1][..k] == rows[..k];
      assert rows[k..] == [rows[k]] + rows[k + 1..];
      AcceptConcat(db, cs, [rows[k]], rows[k + 1..]);
      assert [rows[k]][..0] == [];
    } else {
      assert rows[..k] == rows;
    }
  }

  /** What a join has delivered before pair (i, j). */
  ghost function JoinBefore(db: Database, cs: seq<Cond>, ls: seq<Env>, rs: seq<Env>, i: int, j: int): seq<Env>
    requires 0 <= i <= |ls| && 0 <= j <= |rs|
  {
    Accept(db, cs, Product(ls[..i], rs)) + if i < |ls| then Accept(db, cs, PairRow(ls[i], rs)[..j]) else []
  }

  lemma {:induction false} JoinStart(db: Database, cs: seq<Cond>, ls: seq<Env>, rs: seq<Env>)
    ensures JoinBefore(db, cs, ls, rs, 0, 0) == []
  {
    assert ls[..0] == [];
    if 0 < |ls| {
      assert PairRow(ls[0], rs)[..0] == [];
    }
  }

  lemma {:induction false} JoinInner(db: Database, cs: seq<Cond>, ls: seq<Env>, rs: seq<Env>, i: int, j: int)
    requires 0 <= i < |ls| && 0 <= j < |rs|
    ensures JoinBefore(db, cs, ls, rs, i, j + 1) ==
            JoinBefore(db, cs, ls, rs, i, j) + if HoldsAll(db, ls[i] + rs[j], cs) then [ls[i] + rs[j]] else []
  {
    var row := PairRow(ls[i], rs);
    assert row[..j + 1][..j] == row[..j];
  }

  lemma {:induction false} JoinOuter(db: Database, cs: seq<Cond>, ls: seq<Env>, rs: seq<Env>, i: int)
    requires 0 <= i < |ls|
    ensures JoinBefore(db, cs, ls, rs, i + 1, 0) == JoinBefore(db, cs, ls, rs, i, |rs|)
  {
    assert ls[..i + 1][..i] == ls[..i];
    assert PairRow(ls[i], rs)[..|rs|] == PairRow(ls[i], rs);
    AcceptConcat(db, cs, Product(ls[..i], rs), PairRow(ls[i], rs));
    if i + 1 < |ls| {
      assert PairRow(ls[i + 1], rs)[..0] == [];
    }
  }

  lemma {:induction false} JoinEnd(db: Database, cs: seq<Cond>, ls: seq<Env>, rs: seq<Env>, j: int)
    requires 0 <= j <= |rs|
    ensures JoinBefore(db, cs, ls, rs, |ls|, j) == Accept(db, cs, Product(ls, rs))
  {
    assert ls[..|ls|] == ls;
  }

  lemma {:induction false} ProductSplit(ls: seq<Env>, rs: seq<Env>, i: int) returns (after: seq<Env>)
    requires 0 <= i <= |ls|
    ensures Product(ls, rs) == Product(ls[..i], rs) + after
  {
    if i == |ls| {
      assert ls[..i] == ls;
      after := [];
    } else {
      var n := |ls| - 1;
      var rest := ProductSplit(ls[..n], rs, i);
      assert ls[..n][..i] == ls[..i];
      after := rest + PairRow(ls[n], rs);
    }
  }

  /** The pair at which the join stops is the next one of the sequence. */
  lemma {:induction false} JoinEmits(db: Database, cs: seq<Cond>, ls: seq<Env>, rs: seq<Env>, i: int, j: int)
    requires 0 <= i < |ls| && 0 <= j < |rs| && HoldsAll(db, ls[i] + rs[j], cs)
    ensures var all, n := Accept(db, cs, Product(ls, rs)), |JoinBefore(db, cs, ls, rs, i, j)|;
            n < |all| && all[n] == ls[i] + rs[j]
  {
    var row := PairRow(ls[i], rs);
    var after := ProductSplit(ls, rs, i + 1);
    assert ls[..i + 1][..i] == ls[..i];
    AcceptConcat(db, cs, Product(ls[..i + 1], rs), after);
    AcceptConcat(db, cs, Product(ls[..i], rs), row);
    ScanStep(db, cs, row, j);
  }

  // ------------------------------------------------------------- the iterators

  class Executor {
    const plan: Plan
    const db: Database
    const left: Executor?
    const right: Executor?
    var pos: int
    var isend: bool
    ghost const Repr: set<object>

    /** The tree of iterators mirrors the plan, and children share nothing. Nothing here ever changes. */
    ghost predicate Shape()
      decreases plan
    {
      && this in Repr && !plan.Missing?
      && (plan.Join? ==>
            && left != null && right != null && left.db == db && right.db == db
            && left.plan == plan.left && right.plan == plan.right
            && left.Repr <= Repr && right.Repr <= Repr && this !in left.Repr && this !in right.Repr
                 && left.Repr !! right.Repr
            && left.Shape() && right.Shape())
    }

    /** The iterator stands before element `n` of its sequence; behind the last one it is at its end. */
    ghost predicate At(n: int)
      requires Shape()
      reads Repr
      decreases plan
    {
      match plan
      case Scan(t, cs) =>
        var rows := RowsOf(t, TableSize(db, t));
        0 <= pos <= |rows| && n == |ScanBefore(db, cs, rows, pos)| && (pos < |rows| ==> HoldsAll(db, rows[pos], cs))
      case Join(l, r, cs) =>
        var ls, rs := Eval(l, db), Eval(r, db);
        if isend then n == |Eval(plan, db)|
        else exists i, j :: (&& 0 <= i < |ls| && 0 <= j < |rs| && left.At(i) && right.At(j)
                             && HoldsAll(db, ls[i] + rs[j], cs) && n == |JoinBefore(db, cs, ls, rs, i, j)|)
    }

    constructor (plan: Plan, db: Database, left: Executor?, right: Executor?, ghost repr: set<object>)
      requires plan.Join? ==>
                 && left != null && right != null && left.db == db && right.db == db
                 && left.plan == plan.left && right.plan == plan.right && left.Shape() && right.Shape()
                 && left.Repr <= repr && right.Repr <= repr && left.Repr !! right.Repr
      requires !plan.Missing? && forall x :: x in repr ==> allocated(x)
      ensures Shape() && this.plan == plan && this.db == db && Repr == repr + {this}
    {
      this.plan, this.db, this.left, this.right := plan, db, left, right;
      pos, isend := 0, false;
      Repr := repr + {this};
    }

    method IsEnd(ghost n: int) returns (b: bool)
      requires Shape() && At(n)
      ensures b <==> n == |Eval(plan, db)|
      ensures 0 <= n <= |Eval(plan, db)|
    {
      match plan {
        case Scan(t, cs) =>
          ScanStep(db, cs, RowsOf(t, TableSize(db, t)), pos);
          b := pos == TableSize(db, t);
        case Join(l, r, cs) =>
          if !isend {
            ghost var ls, rs := Eval(l, db), Eval(r, db);
            ghost var i, j :| 0 <= i < |ls| && 0 <= j < |rs| && left.At(i) && right.At(j)
                              && HoldsAll(db, ls[i] + rs[j], cs) && n == |JoinBefore(db, cs, ls, rs, i, j)|;
            JoinEmits(db, cs, ls, rs, i, j);
          }
          b := isend;
      }
    }

    /** The current combination of rows. */
    method Next(ghost n: int) returns (e: Env)
      requires Shape() && At(n) && n < |Eval(plan, db)|
      ensures 0 <= n && e == Eval(plan, db)[n]
      decreases plan
    {
      match plan {
        case Scan(t, cs) =>
          ScanStep(db, cs, RowsOf(t, TableSize(db, t)), pos);
          e := map[t := pos];
        case Join(l, r, cs) =>
          ghost var ls, rs := Eval(l, db), Eval(r, db);
          ghost var i, j :| 0 <= i < |ls| && 0 <= j < |rs| && left.At(i) && right.At(j)
                            && HoldsAll(db, ls[i] + rs[j], cs) && n == |JoinBefore(db, cs, ls, rs, i, j)|;
          JoinEmits(db, cs, ls, rs, i, j);
          var a := left.Next(i);
          var b := right.Next(j);
          e := a + b;
      }
    }

    /** Advances a scan to the next row that satisfies its conditions. */
    method SkipRows(ghost n: int)
      requires Shape() && plan.Scan? && 0 <= pos <= TableSize(db, plan.table)
      requires n == |ScanBefore(db, plan.conds, RowsOf(plan.table, TableSize(db, plan.table)), pos)|
      modifies `pos
      ensures At(n)
    {
      ghost var rows := RowsOf(plan.table, TableSize(db, plan.table));
      while pos < TableSize(db, plan.table) && !HoldsAll(db, map[plan.table := pos], plan.conds)
        invariant 0 <= pos <= |rows| && n == |ScanBefore(db, plan.conds, rows, pos)|
        decreases |rows| - pos
      {
        ScanStep(db, plan.conds, rows, pos);
        pos := pos + 1;
      }
    }

    /** Leaves the current row of a scan. */
    method StepRow(ghost n: int)
      requires Shape() && At(n) && plan.Scan? && n < |Eval(plan, db)|
      modifies `pos
      ensures At(n + 1)
    {
      ScanStep(db, plan.conds, RowsOf(plan.table, TableSize(db, plan.table)), pos);
      pos := pos + 1;
      SkipRows(n + 1);
    }

    /** Looks for the next pair that satisfies the join conditions, from pair (i, j) on. */
    method FindPair(ghost n: int, ghost i0: int, ghost j0: int)
      requires Shape() && plan.Join? && left.At(i0) && right.At(j0)
      requires 0 <= i0 <= |Eval(plan.left, db)| && 0 <= j0 <= |Eval(plan.right, db)|
      requires n == |JoinBefore(db, plan.conds, Eval(plan.left, db), Eval(plan.right, db), i0, j0)|
      modifies Repr
      ensures At(n)
      decreases plan, 0
    {
      hide Executor.At, Eval, Accept, Product, JoinBefore, HoldsAll;
      ghost var i, j := i0, j0;
      ghost var ls, rs := Eval(plan.left, db), Eval(plan.right, db);
      isend := false;
      while true
        invariant 0 <= i <= |ls| && 0 <= j <= |rs| && left.At(i) && right.At(j) && !isend
        invariant n == |JoinBefore(db, plan.conds, ls, rs, i, j)|
        decreases |ls| - i, |rs| - j
      {
        var done := left.IsEnd(i);
        if done {
          break;
        }
        var exhausted := right.IsEnd(j);
        if exhausted {
          left.NextTuple(i);
          right.BeginTuple();
          JoinOuter(db, plan.conds, ls, rs, i);
          i, j := i + 1, 0;
        } else {
          var a := left.Next(i);
          var b := right.Next(j);
          if HoldsAll(db, a + b, plan.conds) {
            JoinAt(this, i, j, n);
            return;
          }
          right.NextTuple(j);
          JoinInner(db, plan.conds, ls, rs, i, j);
          j := j + 1;
        }
      }
      isend := true;
      JoinAtEnd(this, j, n);
    }

    /** (Re)starts the iterator. */
    method BeginTuple()
      requires Shape()
      modifies Repr
      ensures At(0)
      decreases plan, 1
    {
      match plan {
        case Scan(t, cs) =>
          pos := 0;
          ghost var rows := RowsOf(t, TableSize(db, t));
          assert rows[..0] == [];
          SkipRows(0);
        case Join(l, r, cs) =>
          left.BeginTuple();
          right.BeginTuple();
          JoinStart(db, cs, Eval(l, db), Eval(r, db));
          FindPair(0, 0, 0);
      }
    }

    /** Moves on to the next element. */
    method NextTuple(ghost n: int)
      requires Shape() && At(n) && n < |Eval(plan, db)|
      modifies Repr
      ensures At(n + 1)
      decreases plan, 1
    {
      hide Executor.At, Eval, Accept, Product, JoinBefore, HoldsAll;
      match plan {
        case Scan(t, cs) =>
          StepRow(n);
        case Join(l, r, cs) =>
          ghost var i, j := AtPair(this, n);
          right.NextTuple(j);
          JoinInner(db, cs, Eval(l, db), Eval(r, db), i, j);
          FindPair(n + 1, i, j + 1);
      }
    }
  }

  lemma {:induction false} JoinAt(e: Executor, i: int, j: int, n: int)
    requires e.Shape() && e.plan.Join? && !e.isend && 0 <= i < |Eval(e.plan.left, e.db)|
    requires 0 <= j < |Eval(e.plan.right, e.db)|
    requires e.left.At(i) && e.right.At(j)
    requires HoldsAll(e.db, Eval(e.plan.left, e.db)[i] + Eval(e.plan.right, e.db)[j], e.plan.conds)
    requires n == |JoinBefore(e.db, e.plan.conds, Eval(e.plan.left, e.db), Eval(e.plan.right, e.db), i, j)|
    ensures e.At(n)
  {
    hide Accept, Product, JoinBefore, HoldsAll;
  }

  lemma {:induction false} JoinAtEnd(e: Executor, j: int, n: int)
    requires e.Shape() && e.plan.Join? && e.isend && 0 <= j <= |Eval(e.plan.right, e.db)|
    requires var ls := Eval(e.plan.left, e.db);
             n == |JoinBefore(e.db, e.plan.conds, ls, Eval(e.plan.right, e.db), |ls|, j)|
    ensures e.At(n)
  {
    hide Accept, Product, JoinBefore, HoldsAll;
    JoinEnd(e.db, e.plan.conds, Eval(e.plan.left, e.db), Eval(e.plan.right, e.db), j);
  }

  /** The positions of the children of a join that is not at its end. */
  lemma {:induction false} AtPair(e: Executor, n: int) returns (i: int, j: int)
    requires e.Shape() && e.At(n) && e.plan.Join? && n < |Eval(e.plan, e.db)|
    ensures 0 <= i < |Eval(e.plan.left, e.db)| && 0 <= j < |Eval(e.plan.right, e.db)| && e.left.At(i) && e.right.At(j)
    ensures HoldsAll(e.db, Eval(e.plan.left, e.db)[i] + Eval(e.plan.right, e.db)[j], e.plan.conds)
    ensures n == |JoinBefore(e.db, e.plan.conds, Eval(e.plan.left, e.db), Eval(e.plan.right, e.db), i, j)|
  {
    hide Accept, Product, JoinBefore, HoldsAll;
    var ls, rs := Eval(e.plan.left, e.db), Eval(e.plan.right, e.db);
    i, j :| 0 <= i < |ls| && 0 <= j < |rs| && e.left.At(i) && e.right.At(j)
            && HoldsAll(e.db, ls[i] + rs[j], e.plan.conds) && n == |JoinBefore(e.db, e.plan.conds, ls, rs, i, j)|;
  }

  /** The iterators for a plan. */
  method Build(plan: Plan, db: Database) returns (e: Executor)
    requires Complete(plan)
    ensures fresh(e.Repr) && e.Shape() && e.plan == plan && e.db == db
    decreases plan
  {
    match plan {
      case Scan(_, _) =>
        e := new Executor(plan, db, null, null, {});
      case Join(l, r, _) =>
        var a := Build(l, db);
        var b := Build(r, db);
        e := new Executor(plan, db, a, b, a.Repr + b.Repr);
    }
  }

  /** Running a plan to its end delivers each combination of rows that the plan yields, once; and a second run of
      the same iterators delivers the same again. */
  method Execute(e: Executor) returns (out: seq<Env>)
    requires e.Shape() && Proper(e.plan)
    modifies e.Repr
    ensures out == Eval(e.plan, e.db) && NoRepeats(out)
    ensures forall env :: env in out <==> Yields(e.plan, e.db, env)
  {
    hide Executor.At, Eval, Yields, Proper, NoRepeats;
    e.BeginTuple();
    out := [];
    ghost var n := 0;
    ghost var all := Eval(e.plan, e.db);
    while true
      invariant 0 <= n <= |all| && e.At(n) && out == all[..n]
      decreases |all| - n
    {
      var done := e.IsEnd(n);
      if done {
        break;
      }
      var row := e.Next(n);
      out := out + [row];
      e.NextTuple(n);
      n := n + 1;
    }
    EvalNoRepeats(e.plan, e.db);
    forall env
      ensures env in out <==> Yields(e.plan, e.db, env)
    {
      EvalMeaning(e.plan, e.db, env);
    }
  }

  /** From a query to rows: planning and running it delivers each combination of rows that satisfies the conditions the
      plan checks exactly once; with nothing lost these are all conditions of the query. */
  method RunQuery(q: Planner.Query, db: Database) returns (out: seq<Env>)
    requires Planner.WellFormed(q) && Planner.SameTableFirst(q) && Planner.StartsCross(q)
    ensures NoRepeats(out)
    ensures forall env ::
              env in out <==> Combines(db, env, set t | t in q.tables) && HoldsAll(db, env, Planner.Checked(q))
    ensures Planner.Lost(q) == [] ==> forall env :: env in out <==>
              && env.Keys == (set t | t in q.tables) && (forall t :: t in q.tables ==> t in db && 0 <= env[t] < |db[t]|)
              && (forall c :: c in q.conds || c in q.onConds ==> Holds(db, env, c))
  {
    hide Eval, Yields, HoldsAll, NoRepeats, Combines, Proper, Complete, Planner.Checked, Planner.Lost;
    var p := Planner.PlanQuery(q);
    ProperComplete(p);
    var e := Build(p, db);
    out := Execute(e);
    forall env: Env
      ensures Combines(db, env, set t | t in q.tables) && HoldsAll(db, env, q.conds + q.onConds) <==>
                && env.Keys == (set t | t in q.tables)
                && (forall t :: t in q.tables ==> t in db && 0 <= env[t] < |db[t]|)
                && (forall c :: c in q.conds || c in q.onConds ==> Holds(db, env, c))
    {
      CombinesMeaning(q.tables, db, env);
      HoldsAllMeaning(q.conds, q.onConds, db, env);
    }
  }

  lemma {:induction false} CombinesMeaning(tables: seq<Name>, db: Database, env: Env)
    ensures Combines(db, env, set t | t in tables) <==>
              && env.Keys == (set t | t in tables) && (forall t :: t in tables ==> t in db && 0 <= env[t] < |db[t]|)
  {
    assert forall t :: t in tables ==> t in (set s | s in tables);
  }

  lemma {:induction false} HoldsAllMeaning(a: seq<Cond>, b: seq<Cond>, db: Database, env: Env)
    ensures HoldsAll(db, env, a + b) <==> forall c :: c in a || c in b ==> Holds(db, env, c)
  {
    assert forall i :: 0 <= i < |a + b| ==> (a + b)[i] in a || (a + b)[i] in b;
    if HoldsAll(db, env, a + b) {
      forall c | c in a || c in b
        ensures Holds(db, env, c)
      {
        assert c in a + b;
        var i :| 0 <= i < |a + b| && (a + b)[i] == c;
      }
    }
  }
}
