/** Query plans: scans with filters, nested-loop joins with conditions, and what they compute. */
module Plan {

  type Name = string

  datatype TabCol = TabCol(tab: Name, col: Name)
  datatype CompOp = EQ | NE | LT | GT | LE | GE
  datatype Rhs = Val(value: int) | Col(col: TabCol)
  datatype Cond = Cond(lhs: TabCol, op: CompOp, rhs: Rhs)

  /** A child that the planner failed to find is missing: null in the tree. */
  datatype Plan =
    | Scan(table: Name, conds: seq<Cond>)
    | Join(left: Plan, right: Plan, conds: seq<Cond>)
    | Missing

  /** The table named on the right of a condition; a plain value leaves the name empty. */
  function RhsTab(c: Cond): Name {
    if c.rhs.Col? then c.rhs.col.tab else ""
  }

  function SwapOp(op: CompOp): CompOp {
    match op
    case EQ => EQ
    case NE => NE
    case LT => GT
    case GT => LT
    case LE => GE
    case GE => LE
  }

  /** The same comparison with its sides exchanged. */
  function Swap(c: Cond): Cond
    requires c.rhs.Col?
  {
    Cond(c.rhs.col, SwapOp(c.op), Col(c.lhs))
  }

  // ------------------------------------------------------------- meaning

  type Row = map<Name, int>
  type Database = map<Name, seq<Row>>
  type Env = map<Name, int>               // which row of each table

  function Compare(x: int, op: CompOp, y: int): bool {
    match op
    case EQ => x == y
    case NE => x != y
    case LT => x < y
    case GT => x > y
    case LE => x <= y
    case GE => x >= y
  }

  function CellOf(db: Database, env: Env, c: TabCol): int {
    if c.tab in env && c.tab in db && 0 <= env[c.tab] < |db[c.tab]| && c.col in db[c.tab][env[c.tab]]
    then db[c.tab][env[c.tab]][c.col] else 0
  }

  predicate Holds(db: Database, env: Env, c: Cond) {
    Compare(CellOf(db, env, c.lhs), c.op, if c.rhs.Col? then CellOf(db, env, c.rhs.col) else c.rhs.value)
  }

  /** The operators are those of a linear order, and LT is its strict part. */
  lemma {:induction false} CompareLaws(x: int, y: int, z: int)
    ensures Compare(x, EQ, y) <==> x == y
    ensures Compare(x, LT, y) <==> x < y
    ensures Compare(x, LT, y) || Compare(x, EQ, y) || Compare(x, GT, y)
    ensures !(Compare(x, LT, y) && Compare(x, EQ, y)) && !(Compare(x, EQ, y) && Compare(x, GT, y))
    ensures !(Compare(x, LT, y) && Compare(x, GT, y))
    ensures Compare(x, NE, y) <==> !Compare(x, EQ, y)
    ensures Compare(x, GE, y) <==> !Compare(x, LT, y)
    ensures Compare(x, LE, y) <==> !Compare(x, GT, y)
    ensures Compare(x, LT, y) && Compare(y, LT, z) ==> Compare(x, LT, z)
  {
  }

  /** The row of table `t` that a combination names, if it exists. */
  ghost function RowAt(db: Database, env: Env, t: Name): seq<Row> {
    if t in env && t in db && 0 <= env[t] < |db[t]| then [db[t][env[t]]] else []
  }

  /** A condition looks only at the rows that the combination names. */
  lemma {:induction false} HoldsLocal(db: Database, db': Database, env: Env, cs: seq<Cond>)
    requires forall t :: t in env ==> RowAt(db, env, t) == RowAt(db', env, t)
    ensures HoldsAll(db, env, cs) <==> HoldsAll(db', env, cs)
  {
    forall i | 0 <= i < |cs|
      ensures Holds(db, env, cs[i]) <==> Holds(db', env, cs[i])
    {
      CellLocal(db, db', env, cs[i].lhs);
      if cs[i].rhs.Col? {
        CellLocal(db, db', env, cs[i].rhs.col);
      }
    }
  }

  lemma {:induction false} CellLocal(db: Database, db': Database, env: Env, c: TabCol)
    requires forall t :: t in env ==> RowAt(db, env, t) == RowAt(db', env, t)
    ensures CellOf(db, env, c) == CellOf(db', env, c)
  {
    if c.tab in env {
      assert RowAt(db, env, c.tab) == RowAt(db', env, c.tab);
      assert |RowAt(db, env, c.tab)| > 0 ==> RowAt(db, env, c.tab)[0] == RowAt(db', env, c.tab)[0];
    }
  }

  /** The column is there to be read. */
  ghost predicate Readable(db: Database, env: Env, c: TabCol) {
    c.tab in env && c.tab in db && 0 <= env[c.tab] < |db[c.tab]| && c.col in db[c.tab][env[c.tab]]
  }

  /** What a condition asks of the stored values. */
  lemma {:induction false} HoldsMeaning(db: Database, env: Env, c: Cond)
    requires Readable(db, env, c.lhs) && (c.rhs.Col? ==> Readable(db, env, c.rhs.col))
    ensures var x := db[c.lhs.tab][env[c.lhs.tab]][c.lhs.col];
            var y := if c.rhs.Col? then db[c.rhs.col.tab][env[c.rhs.col.tab]][c.rhs.col.col] else c.rhs.value;
            && (c.op == EQ ==> (Holds(db, env, c) <==> x == y)) && (c.op == NE ==> (Holds(db, env, c) <==> x != y))
            && (c.op == LT ==> (Holds(db, env, c) <==> x < y)) && (c.op == GT ==> (Holds(db, env, c) <==> x > y))
            && (c.op == LE ==> (Holds(db, env, c) <==> x <= y)) && (c.op == GE ==> (Holds(db, env, c) <==> x >= y))
  {
  }

  predicate HoldsAll(db: Database, env: Env, cs: seq<Cond>) {
    forall i :: 0 <= i < |cs| ==> Holds(db, env, cs[i])
  }

  /** A combination of rows, one per table. */
  ghost predicate Combines(db: Database, env: Env, tabs: set<Name>) {
    env.Keys == tabs && forall t :: t in tabs ==> t in db && 0 <= env[t] < |db[t]|
  }

  ghost function Tabs(p: Plan): set<Name> {
    match p
    case Scan(t, _) => {t}
    case Join(l, r, _) => Tabs(l) + Tabs(r)
    case Missing => {}
  }

  ghost function Restrict(env: Env, tabs: set<Name>): Env {
    map t | t in env && t in tabs :: env[t]
  }

  /** The plan delivers this combination of rows. */
  ghost predicate Yields(p: Plan, db: Database, env: Env) {
    match p
    case Scan(t, cs) => Combines(db, env, {t}) && HoldsAll(db, env, cs)
    case Join(l, r, cs) =>
      && env.Keys == Tabs(p) && HoldsAll(db, env, cs)
      && Yields(l, db, Restrict(env, Tabs(l))) && Yields(r, db, Restrict(env, Tabs(r)))
    case Missing => false
  }

  // ------------------------------------------------------------- structure

  /** No child is missing. */
  ghost predicate Complete(p: Plan) {
    match p
    case Scan(_, _) => true
    case Join(l, r, _) => Complete(l) && Complete(r)
    case Missing => false
  }

  /** No child is missing and no table occurs twice. */
  ghost predicate Proper(p: Plan) {
    match p
    case Scan(_, _) => true
    case Join(l, r, _) => Proper(l) && Proper(r) && Tabs(l) !! Tabs(r)
    case Missing => false
  }

  lemma {:induction false} ProperComplete(p: Plan)
    requires Proper(p)
    ensures Complete(p)
  {
    if p.Join? {
      ProperComplete(p.left);
      ProperComplete(p.right);
    }
  }

  ghost predicate Over(c: Cond, tabs: set<Name>) {
    c.lhs.tab in tabs && (c.rhs.Col? ==> c.rhs.col.tab in tabs)
  }

  /** Every condition sits at a node whose subtree holds its tables. */
  ghost predicate Placed(p: Plan) {
    && (!p.Missing? ==> forall i :: 0 <= i < |p.conds| ==> Over(p.conds[i], Tabs(p)))
    && (p.Join? ==> Placed(p.left) && Placed(p.right))
  }

  /** A condition up to exchange of its sides. */
  ghost function Norm(c: Cond): set<Cond> {
    if c.rhs.Col? then {c, Swap(c)} else {c}
  }

  ghost function Norms(cs: seq<Cond>): multiset<set<Cond>> {
    if |cs| == 0 then multiset{} else Norms(cs[..|cs| - 1]) + multiset{Norm(cs[|cs| - 1])}
  }

  /** All conditions of a plan, with multiplicity. */
  ghost function PlanNorms(p: Plan): multiset<set<Cond>> {
    match p
    case Scan(_, cs) => Norms(cs)
    case Join(l, r, cs) => PlanNorms(l) + PlanNorms(r) + Norms(cs)
    case Missing => multiset{}
  }

  lemma {:induction false} SwapNorm(c: Cond)
    requires c.rhs.Col?
    ensures Swap(c).rhs.Col? && Norm(Swap(c)) == Norm(c)
  {
    assert Swap(Swap(c)) == c;
  }

  lemma {:induction false} Assoc<T>(x: multiset<T>, y: multiset<T>, z: multiset<T>)
    ensures (x + y) + z == x + (y + z)
  {
  }

  lemma {:induction false} NormsAppend(cs: seq<Cond>, c: Cond)
    ensures Norms(cs + [c]) == Norms(cs) + multiset{Norm(c)}
  {
    hide Norm;
    assert (cs + [c])[..|cs|] == cs;
  }

  lemma {:induction false} NormsConcat(a: seq<Cond>, b: seq<Cond>)
    ensures Norms(a + b) == Norms(a) + Norms(b)
  {
    hide Norm, Norms;
    if |b| == 0 {
      assert a + b == a;
      NormsNone(b);
    } else {
      var n := |b| - 1;
      NormsConcat(a, b[..n]);
      NormsAppend(b[..n], b[n]);
      NormsAppend(a + b[..n], b[n]);
      assert b[..n] + [b[n]] == b;
      assert (a + b[..n]) + [b[n]] == a + b;
      Assoc(Norms(a), Norms(b[..n]), multiset{Norm(b[n])});
    }
  }

  lemma {:induction false} NormsNone(cs: seq<Cond>)
    requires |cs| == 0
    ensures Norms(cs) == multiset{}
  {
  }

  lemma {:induction false} NormsOne(c: Cond)
    ensures Norms([c]) == multiset{Norm(c)}
  {
    assert [c][..0] == [];
  }

  // ------------------------------------------------------------- a plan is the filtered product

  ghost predicate NormHolds(db: Database, env: Env, n: set<Cond>) {
    forall c :: c in n ==> Holds(db, env, c)
  }

  lemma {:induction false} NormHoldsOne(db: Database, env: Env, c: Cond)
    ensures NormHolds(db, env, Norm(c)) <==> Holds(db, env, c)
  {
    assert c in Norm(c);
  }

  lemma {:induction false} NormsHold(db: Database, env: Env, cs: seq<Cond>)
    ensures (forall n :: n in Norms(cs) ==> NormHolds(db, env, n)) <==> HoldsAll(db, env, cs)
  {
    hide Norm, Holds, NormHolds, Norms;
    NormsStep(cs);
    if |cs| > 0 {
      var k := |cs| - 1;
      NormsHold(db, env, cs[..k]);
      NormHoldsOne(db, env, cs[k]);
      assert HoldsAll(db, env, cs) <==> HoldsAll(db, env, cs[..k]) && Holds(db, env, cs[k]);
    }
  }

  lemma {:induction false} NormsStep(cs: seq<Cond>)
    ensures |cs| == 0 ==> forall n :: n !in Norms(cs)
    ensures |cs| > 0 ==> forall n :: n in Norms(cs) <==> n in Norms(cs[..|cs| - 1]) || n == Norm(cs[|cs| - 1])
  {
    hide Norm;
  }

  /** Conditions only look at the tables they name. */
  lemma {:induction false} RestrictHolds(db: Database, env: Env, tabs: set<Name>, c: Cond)
    requires Over(c, tabs)
    ensures Holds(db, Restrict(env, tabs), c) <==> Holds(db, env, c)
  {
  }

  lemma {:induction false} NormsOver(cs: seq<Cond>, tabs: set<Name>, n: set<Cond>)
    requires (forall i :: 0 <= i < |cs| ==> Over(cs[i], tabs)) && n in Norms(cs)
    ensures forall c :: c in n ==> Over(c, tabs)
  {
    if |cs| > 0 && n != Norm(cs[|cs| - 1]) {
      NormsOver(cs[..|cs| - 1], tabs, n);
    }
  }

  lemma {:induction false} PlanNormsOver(p: Plan, n: set<Cond>)
    requires Placed(p) && n in PlanNorms(p)
    ensures forall c :: c in n ==> Over(c, Tabs(p))
  {
    match p {
      case Scan(_, cs) => NormsOver(cs, Tabs(p), n);
      case Join(l, r, cs) =>
        if n in Norms(cs) {
          NormsOver(cs, Tabs(p), n);
        } else if n in PlanNorms(l) {
          PlanNormsOver(l, n);
        } else {
          PlanNormsOver(r, n);
        }
    }
  }

  ghost predicate PlanHolds(p: Plan, db: Database, env: Env) {
    forall n :: n in PlanNorms(p) ==> NormHolds(db, env, n)
  }

  lemma {:induction false} RestrictPlan(p: Plan, db: Database, env: Env)
    requires Placed(p)
    ensures PlanHolds(p, db, Restrict(env, Tabs(p))) <==> PlanHolds(p, db, env)
  {
    forall n | n in PlanNorms(p)
      ensures NormHolds(db, Restrict(env, Tabs(p)), n) <==> NormHolds(db, env, n)
    {
      PlanNormsOver(p, n);
      forall c | c in n
        ensures Holds(db, Restrict(env, Tabs(p)), c) <==> Holds(db, env, c)
      {
        RestrictHolds(db, env, Tabs(p), c);
      }
    }
  }

  /** A plan without repeated tables and with every condition in its place denotes the filtered product. */
  lemma {:induction false} PlanMeaning(p: Plan, db: Database, env: Env)
    requires Proper(p) && Placed(p)
    ensures Yields(p, db, env) <==> Combines(db, env, Tabs(p)) && PlanHolds(p, db, env)
    decreases p, 1
  {
    match p {
      case Scan(t, cs) => NormsHold(db, env, cs);
      case Join(l, r, cs) =>
        NormsHold(db, env, cs);
        if env.Keys == Tabs(p) {
          JoinMeaning(p, db, env);
        }
    }
  }

  lemma {:induction false} JoinMeaning(p: Plan, db: Database, env: Env)
    requires p.Join? && Proper(p) && Placed(p) && env.Keys == Tabs(p)
    ensures Yields(p, db, env) <==>
            HoldsAll(db, env, p.conds) && Combines(db, env, Tabs(p)) && PlanHolds(p.left, db, env)
                && PlanHolds(p.right, db, env)
    ensures PlanHolds(p, db, env) <==>
            PlanHolds(p.left, db, env) && PlanHolds(p.right, db, env) && forall n :: n in Norms(p.conds) ==>
                NormHolds(db, env, n)
    decreases p, 0
  {
    hide NormHolds, Norms, HoldsAll;
    var l, r := p.left, p.right;
    PlanMeaning(l, db, Restrict(env, Tabs(l)));
    PlanMeaning(r, db, Restrict(env, Tabs(r)));
    RestrictPlan(l, db, env);
    RestrictPlan(r, db, env);
    RestrictCombines(db, env, Tabs(l), Tabs(r));
    assert forall n :: n in PlanNorms(p) <==> n in PlanNorms(l) || n in PlanNorms(r) || n in Norms(p.conds);
  }

  lemma {:induction false} RestrictCombines(db: Database, env: Env, a: set<Name>, b: set<Name>)
    requires env.Keys == a + b
    ensures Combines(db, env, a + b) <==> Combines(db, Restrict(env, a), a) && Combines(db, Restrict(env, b), b)
  {
  }
}
