/**
 Predicate pushdown: WHERE conjuncts that mention one table move from above a join to just above
 that table's scan, on the sides a join preserves.  The rewritten plan returns the same rows.
 */
module Pushdown {
  import opened Values
  import opened Plans

  // ---------------------------------------------------------------- conjunctions

  function SplitAnd(e: Expr): (cs: seq<Expr>)
    ensures cs != []
  {
    match e
    case And(l, r) => SplitAnd(l) + SplitAnd(r)
    case _ => [e]
  }

  function Conjoin(cs: seq<Expr>): Expr
    requires cs != []
  {
    if |cs| == 1 then cs[0] else And(Conjoin(cs[..|cs| - 1]), cs[|cs| - 1])
  }

  method ConjoinLoop(cs: seq<Expr>) returns (acc: Expr)
    requires cs != []
    ensures acc == Conjoin(cs)
  {
    acc := cs[0];
    for i := 1 to |cs|
      invariant acc == Conjoin(cs[..i])
    {
      acc := And(acc, cs[i]);
      assert cs[..i + 1][..i] == cs[..i];
    }
    assert cs[..|cs|] == cs;
  }

  predicate AllPass(cs: seq<Expr>, r: Row) {
    forall i :: 0 <= i < |cs| ==> Passes(cs[i], r)
  }

  lemma AllPassConcat(a: seq<Expr>, b: seq<Expr>, r: Row)
    ensures AllPass(a + b, r) <==> AllPass(a, r) && AllPass(b, r)
  {
    if AllPass(a + b, r) {
      assert forall i :: 0 <= i < |a| ==> a[i] == (a + b)[i];
      assert forall i :: 0 <= i < |b| ==> b[i] == (a + b)[|a| + i];
    }
  }

  lemma {:induction false} SplitPasses(e: Expr, r: Row)
    ensures Passes(e, r) <==> AllPass(SplitAnd(e), r)
  {
    match e
    case And(a, b) =>
      SplitPasses(a, r);
      SplitPasses(b, r);
      AllPassConcat(SplitAnd(a), SplitAnd(b), r);
    case _ =>
      assert SplitAnd(e)[0] == e;
  }

  lemma {:induction false} ConjoinPasses(cs: seq<Expr>, r: Row)
    requires cs != []
    ensures Passes(Conjoin(cs), r) <==> AllPass(cs, r)
  {
    if |cs| > 1 {
      var n := |cs| - 1;
      ConjoinPasses(cs[..n], r);
      assert cs == cs[..n] + [cs[n]];
      AllPassConcat(cs[..n], [cs[n]], r);
    }
  }

  // ---------------------------------------------------------------- tables of a plan, tables of a conjunct

  /** Table t is scanned somewhere in p outside derived tables. */
  predicate Visible(p: Plan, t: string) {
    match p
    case Scan(u, _) => u == t
    case Derived(_, _) => false
    case Join(l, r, _, _, _, _) => Visible(l, t) || Visible(r, t)
    case SetOp(l, r, _) => Visible(l, t) || Visible(r, t)
    case _ => Visible(p.input, t)
  }

  function SubtreeTables(p: Plan): (tables: set<string>)
    ensures forall t :: t in tables <==> Visible(p, t)
  {
    match p
    case Scan(t, _) => {t}
    case Derived(_, _) => {}
    case Join(l, r, _, _, _, _) => SubtreeTables(l) + SubtreeTables(r)
    case SetOp(l, r, _) => SubtreeTables(l) + SubtreeTables(r)
    case Filter(q, _) => SubtreeTables(q)
    case Project(q, _) => SubtreeTables(q)
    case Aggregate(q, _, _) => SubtreeTables(q)
    case Window(q, _, _, _) => SubtreeTables(q)
    case Sort(q, _, _) => SubtreeTables(q)
    case Limit(q, _, _) => SubtreeTables(q)
    case Distinct(q) => SubtreeTables(q)
  }

  function Children(p: Plan): seq<Plan> {
    match p
    case Scan(_, _) => []
    case Derived(q, _) => [q]
    case Join(l, r, _, _, _, _) => [l, r]
    case SetOp(l, r, _) => [l, r]
    case Filter(q, _) => [q]
    case Project(q, _) => [q]
    case Aggregate(q, _, _) => [q]
    case Window(q, _, _, _) => [q]
    case Sort(q, _, _) => [q]
    case Limit(q, _, _) => [q]
    case Distinct(q) => [q]
  }

  function Size(p: Plan): nat {
    1 + match p
        case Scan(_, _) => 0
        case Derived(q, _) => Size(q)
        case Join(l, r, _, _, _, _) => Size(l) + Size(r)
        case SetOp(l, r, _) => Size(l) + Size(r)
        case Filter(q, _) => Size(q)
        case Project(q, _) => Size(q)
        case Aggregate(q, _, _) => Size(q)
        case Window(q, _, _, _) => Size(q)
        case Sort(q, _, _) => Size(q)
        case Limit(q, _, _) => Size(q)
        case Distinct(q) => Size(q)
  }

  function StackTables(ps: seq<Plan>): set<string> {
    if ps == [] then {} else StackTables(ps[..|ps| - 1]) + SubtreeTables(ps[|ps| - 1])
  }

  function StackSize(ps: seq<Plan>): nat {
    if ps == [] then 0 else StackSize(ps[..|ps| - 1]) + Size(ps[|ps| - 1])
  }

  lemma StackPush(ps: seq<Plan>, p: Plan)
    requires !p.Scan? && !p.Derived?
    ensures StackTables(ps + Children(p)) == StackTables(ps) + SubtreeTables(p)
    ensures StackSize(ps + Children(p)) < StackSize(ps) + Size(p)
  {
    var cs := Children(p);
    if |cs| == 2 {
      assert ps + cs == ps + [cs[0]] + [cs[1]];
      StackSnoc(ps, cs[0]);
      StackSnoc(ps + [cs[0]], cs[1]);
    } else {
      assert cs == [cs[0]];
      StackSnoc(ps, cs[0]);
    }
  }

  lemma StackSnoc(ps: seq<Plan>, p: Plan)
    ensures StackTables(ps + [p]) == StackTables(ps) + SubtreeTables(p)
    ensures StackSize(ps + [p]) == StackSize(ps) + Size(p)
  {
    assert (ps + [p])[..|ps|] == ps;
  }

  /** The stack walk that collects the tables of a subtree, stopping at derived tables. */
  method SubtreeTablesLoop(p: Plan) returns (tables: set<string>)
    ensures tables == SubtreeTables(p)
  {
    var stack := [p];
    tables := {};
    assert [p][..0] == [];
    while stack != []
      invariant tables + StackTables(stack) == SubtreeTables(p)
      decreases StackSize(stack)
    {
      var q := stack[|stack| - 1];
      stack := stack[..|stack| - 1];
      match q
      case Scan(t, _) => tables := tables + {t};
      case Derived(_, _) =>
      case _ =>
        StackPush(stack, q);
        stack := stack + Children(q);
    }
  }

  predicate AllKnown(schema: Schema, e: Expr) {
    forall c :: c in Columns(e) ==> exists t :: t in schema && c in schema[t]
  }

  function TablesOf(schema: Schema, e: Expr): set<string> {
    set t | t in schema && exists c :: c in Columns(e) && c in schema[t]
  }

  // ---------------------------------------------------------------- routing conjuncts

  datatype Shape = Shape(how: How, left: set<string>, right: set<string>)

  function PushSides(s: Shape): set<string> {
    match s.how
    case Left => s.left
    case Right => s.right
    case Inner => s.left + s.right
    case Semi => s.left
    case Anti => s.left
    case Full => {}
    case Cross => {}
  }

  /** The one table a conjunct may be pushed to, if any. */
  ghost function Dest(schema: Schema, s: Shape, c: Expr): Option<string> {
    var ts := TablesOf(schema, c) * (s.left + s.right);
    if !AllKnown(schema, c) || ts * (s.left * s.right) != {} then None
    else if |ts| != 1 then None
    else
      assert ts != {};
      var t :| t in ts;
      if t in PushSides(s) then Some(t) else None
  }

  type PerTable = map<string, seq<Expr>>

  function Push(m: PerTable, t: string, c: Expr): PerTable {
    m[t := (if t in m then m[t] else []) + [c]]
  }

  datatype Routed = Routed(pushable: PerTable, remaining: seq<Expr>)

  ghost function Route(schema: Schema, s: Shape, cs: seq<Expr>): Routed {
    if cs == [] then Routed(map[], [])
    else
      var n := |cs| - 1;
      var r := Route(schema, s, cs[..n]);
      var d := Dest(schema, s, cs[n]);
      if d.Some? then r.(pushable := Push(r.pushable, d.value, cs[n])) else r.(remaining := r.remaining + [cs[n]])
  }

  lemma SingletonPick(ts: set<string>, t: string)
    requires |ts| == 1 && t in ts
    ensures ts == {t}
  {
    var rest := ts - {t};
    assert |rest| == 0;
    assert rest == {};
    assert ts == rest + {t};
  }

  /** The conjunct loop. */
  method RouteLoop(schema: Schema, s: Shape, cs: seq<Expr>) returns (pushable: PerTable, remaining: seq<Expr>)
    ensures Routed(pushable, remaining) == Route(schema, s, cs)
  {
    pushable, remaining := map[], [];
    for i := 0 to |cs|
      invariant Routed(pushable, remaining) == Route(schema, s, cs[..i])
    {
      var c := cs[i];
      assert cs[..i + 1][..i] == cs[..i];
      var ts := TablesOf(schema, c) * (s.left + s.right);
      if !AllKnown(schema, c) || ts * (s.left * s.right) != {} || |ts| != 1 {
        remaining := remaining + [c];
      } else {
        assert ts != {};
        var t :| t in ts;
        SingletonPick(ts, t);
        if t in PushSides(s) {
          pushable := Push(pushable, t, c);
        } else {
          remaining := remaining + [c];
        }
      }
    }
    assert cs[..|cs|] == cs;
  }

  function Restrict(m: PerTable, ts: set<string>): PerTable {
    m - (m.Keys - ts)
  }

  /** Distribute routed conjuncts down a plan. */
  function Insert(p: Plan, m: PerTable): Plan {
    match p
    case Scan(t, _) => if t in m && m[t] != [] then Filter(p, Conjoin(m[t])) else p
    case Derived(_, _) => p
    case Join(l, r, onLeft, onRight, how, residual) =>
      Join(Insert(l, Restrict(m, SubtreeTables(l))), Insert(r, Restrict(m, SubtreeTables(r))), onLeft, onRight, how, residual)
    case SetOp(l, r, combine) =>
      SetOp(Insert(l, Restrict(m, SubtreeTables(l))), Insert(r, Restrict(m, SubtreeTables(r))), combine)
    case Filter(q, e) => Filter(Insert(q, m), e)
    case Project(q, items) => Project(Insert(q, m), items)
    case Aggregate(q, es, f) => Aggregate(Insert(q, m), es, f)
    case Window(q, es, names, f) => Window(Insert(q, m), es, names, f)
    case Sort(q, es, f) => Sort(Insert(q, m), es, f)
    case Limit(q, n, o) => Limit(Insert(q, m), n, o)
    case Distinct(q) => Distinct(Insert(q, m))
  }

  function ShapeOf(j: Plan): Shape
    requires j.Join?
  {
    Shape(j.how, SubtreeTables(j.left), SubtreeTables(j.right))
  }

  /** One filter directly above a join. */
  ghost function PushFilter(schema: Schema, j: Plan, e: Expr): Plan
    requires j.Join?
  {
    var r := Route(schema, ShapeOf(j), SplitAnd(e));
    if r.pushable == map[] then Filter(j, e)
    else if r.remaining == [] then Insert(j, r.pushable)
    else Filter(Insert(j, r.pushable), Conjoin(r.remaining))
  }

  /** The whole rewrite, children first. */
  ghost function PushPredicates(schema: Schema, p: Plan): Plan {
    match p
    case Scan(_, _) => p
    case Filter(q, e) =>
      var q' := PushPredicates(schema, q);
      if q'.Join? then PushFilter(schema, q', e) else Filter(q', e)
    case Join(l, r, onLeft, onRight, how, residual) =>
      Join(PushPredicates(schema, l), PushPredicates(schema, r), onLeft, onRight, how, residual)
    case SetOp(l, r, combine) => SetOp(PushPredicates(schema, l), PushPredicates(schema, r), combine)
    case Project(q, items) => Project(PushPredicates(schema, q), items)
    case Aggregate(q, es, f) => Aggregate(PushPredicates(schema, q), es, f)
    case Window(q, es, names, f) => Window(PushPredicates(schema, q), es, names, f)
    case Sort(q, es, f) => Sort(PushPredicates(schema, q), es, f)
    case Limit(q, n, o) => Limit(PushPredicates(schema, q), n, o)
    case Distinct(q) => Distinct(PushPredicates(schema, q))
    case Derived(q, alias) => Derived(PushPredicates(schema, q), alias)
  }

  // ---------------------------------------------------------------- filtering by a routed map

  predicate RowOk(m: PerTable, r: Row) {
    forall t :: t in m ==> AllPass(m[t], r)
  }

  function Keep(m: PerTable, rows: seq<Row>): seq<Row> {
    if rows == [] then [] else (if RowOk(m, rows[0]) then [rows[0]] else []) + Keep(m, rows[1..])
  }

  lemma {:induction false} KeepConcat(m: PerTable, a: seq<Row>, b: seq<Row>)
    ensures Keep(m, a + b) == Keep(m, a) + Keep(m, b)
  {
    if a == [] {
      assert a + b == b;
    } else {
      assert (a + b)[1..] == a[1..] + b;
      KeepConcat(m, a[1..], b);
    }
  }

  lemma {:induction false} KeepNothing(m: PerTable, rows: seq<Row>)
    requires m == map[]
    ensures Keep(m, rows) == rows
  {
    if rows != [] {
      KeepNothing(m, rows[1..]);
    }
  }

  lemma {:induction false} KeepSelect(m: PerTable, rows: seq<Row>, e: Expr)
    ensures Select(Keep(m, rows), e) == Keep(m, Select(rows, e))
  {
    if rows != [] {
      KeepSelect(m, rows[1..], e);
      var rest, sel := Keep(m, rows[1..]), Select(rows[1..], e);
      if RowOk(m, rows[0]) {
        assert ([rows[0]] + rest)[1..] == rest;
      } else {
        assert [] + rest == rest;
      }
      if Passes(e, rows[0]) {
        assert ([rows[0]] + sel)[1..] == sel;
      } else {
        assert [] + sel == sel;
      }
    }
  }

  lemma {:induction false} SelectIsKeep(m: PerTable, rows: seq<Row>, e: Expr)
    requires forall r :: Passes(e, r) <==> RowOk(m, r)
    ensures Select(rows, e) == Keep(m, rows)
  {
    if rows != [] {
      SelectIsKeep(m, rows[1..], e);
    }
  }

  lemma RestrictRestrict(m: PerTable, a: set<string>)
    ensures Restrict(Restrict(m, a), a) == Restrict(m, a)
  {
  }

  // ---------------------------------------------------------------- joins and pushed conjuncts

  /** On joined rows, `m` says the left part passes `ml` and the right part passes `mr`. */
  ghost predicate Splits(m: PerTable, ml: PerTable, mr: PerTable, lc: set<string>, rc: set<string>) {
    forall l: Row, r: Row :: l.Keys == lc && r.Keys == rc ==> (RowOk(m, l + r) <==> RowOk(ml, l) && RowOk(mr, r))
  }

  lemma KeepOne(m: PerTable, row: Row)
    ensures Keep(m, [row]) == if RowOk(m, row) then [row] else []
  {
    assert [row][1..] == [];
  }

  /** The joined row of one pair, if there is one. */
  function OnePair(j: On, l: Row, r: Row): seq<Row> {
    if Matches(j, l, r) then [l + r] else []
  }

  lemma KeepPair(j: On, l: Row, r: Row, m: PerTable)
    ensures Keep(m, OnePair(j, l, r)) == if RowOk(m, l + r) then OnePair(j, l, r) else []
  {
    KeepOne(m, l + r);
    assert Keep(m, []) == [];
  }

  lemma HitsCons(j: On, l: Row, r: Row, rest: seq<Row>)
    ensures Hits(j, l, [r] + rest) == OnePair(j, l, r) + Hits(j, l, rest)
  {
    assert ([r] + rest)[1..] == rest;
  }

  lemma HitsRightCons(j: On, l: Row, rest: seq<Row>, r: Row)
    ensures HitsRight(j, [l] + rest, r) == OnePair(j, l, r) + HitsRight(j, rest, r)
  {
    assert ([l] + rest)[1..] == rest;
  }

  lemma KeepCons(m: PerTable, r: Row, rest: seq<Row>)
    ensures Keep(m, [r] + rest) == if RowOk(m, r) then [r] + Keep(m, rest) else Keep(m, rest)
  {
    assert ([r] + rest)[1..] == rest;
  }

  lemma {:induction false} HitsKeep(j: On, l: Row, rs: seq<Row>, m: PerTable, ml: PerTable, mr: PerTable, lc: set<string>, rc: set<string>)
    requires Splits(m, ml, mr, lc, rc) && l.Keys == lc && AllOver(rs, rc)
    ensures Keep(m, Hits(j, l, rs)) == if RowOk(ml, l) then Hits(j, l, Keep(mr, rs)) else []
  {
    if rs != [] {
      var r, rest := rs[0], rs[1..];
      assert r in rs && AllOver(rest, rc) && rs == [r] + rest;
      HitsKeep(j, l, rest, m, ml, mr, lc, rc);
      HitsCons(j, l, r, rest);
      HitsCons(j, l, r, Keep(mr, rest));
      KeepCons(mr, r, rest);
      KeepConcat(m, OnePair(j, l, r), Hits(j, l, rest));
      KeepPair(j, l, r, m);
      assert RowOk(m, l + r) <==> RowOk(ml, l) && RowOk(mr, r);
    }
  }

  lemma {:induction false} HitsRightKeep(j: On, ls: seq<Row>, r: Row, m: PerTable, ml: PerTable, mr: PerTable, lc: set<string>, rc: set<string>)
    requires Splits(m, ml, mr, lc, rc) && r.Keys == rc && AllOver(ls, lc)
    ensures Keep(m, HitsRight(j, ls, r)) == if RowOk(mr, r) then HitsRight(j, Keep(ml, ls), r) else []
  {
    if ls != [] {
      var l, rest := ls[0], ls[1..];
      assert l in ls && AllOver(rest, lc) && ls == [l] + rest;
      HitsRightKeep(j, rest, r, m, ml, mr, lc, rc);
      HitsRightCons(j, l, rest, r);
      HitsRightCons(j, l, Keep(ml, rest), r);
      KeepCons(ml, l, rest);
      KeepConcat(m, OnePair(j, l, r), HitsRight(j, rest, r));
      KeepPair(j, l, r, m);
      assert RowOk(m, l + r) <==> RowOk(ml, l) && RowOk(mr, r);
    }
  }

  lemma {:induction false} InnerKeep(j: On, ls: seq<Row>, rs: seq<Row>, m: PerTable, ml: PerTable, mr: PerTable, lc: set<string>, rc: set<string>)
    requires Splits(m, ml, mr, lc, rc) && AllOver(ls, lc) && AllOver(rs, rc)
    ensures Keep(m, InnerRows(j, ls, rs)) == InnerRows(j, Keep(ml, ls), Keep(mr, rs))
  {
    if ls != [] {
      var l, rest := ls[0], ls[1..];
      assert l in ls;
      InnerKeep(j, rest, rs, m, ml, mr, lc, rc);
      HitsKeep(j, l, rs, m, ml, mr, lc, rc);
      KeepConcat(m, Hits(j, l, rs), InnerRows(j, rest, rs));
      if RowOk(ml, l) {
        assert ([l] + Keep(ml, rest))[1..] == Keep(ml, rest);
      } else {
        assert [] + Keep(ml, rest) == Keep(ml, rest);
      }
    }
  }

  lemma {:induction false} LeftKeep(j: On, ls: seq<Row>, rs: seq<Row>, m: PerTable, ml: PerTable, lc: set<string>, rc: set<string>)
    requires Splits(m, ml, map[], lc, rc) && AllOver(ls, lc) && AllOver(rs, rc)
    ensures Keep(m, LeftRows(j, ls, rs, rc)) == LeftRows(j, Keep(ml, ls), rs, rc)
  {
    if ls != [] {
      var l, rest := ls[0], ls[1..];
      assert l in ls;
      LeftKeep(j, rest, rs, m, ml, lc, rc);
      HitsKeep(j, l, rs, m, ml, map[], lc, rc);
      KeepNothing(map[], rs);
      KeepConcat(m, LeftOf(j, l, rs, rc), LeftRows(j, rest, rs, rc));
      assert RowOk(m, l + Pad(rc)) <==> RowOk(ml, l) && RowOk(map[], Pad(rc));
      if RowOk(ml, l) {
        assert ([l] + Keep(ml, rest))[1..] == Keep(ml, rest);
      } else {
        assert [] + Keep(ml, rest) == Keep(ml, rest);
      }
    }
  }

  lemma {:induction false} RightKeep(j: On, ls: seq<Row>, rs: seq<Row>, m: PerTable, mr: PerTable, lc: set<string>, rc: set<string>)
    requires Splits(m, map[], mr, lc, rc) && AllOver(ls, lc) && AllOver(rs, rc)
    ensures Keep(m, RightRows(j, ls, rs, lc)) == RightRows(j, ls, Keep(mr, rs), lc)
  {
    if rs != [] {
      var r, rest := rs[0], rs[1..];
      assert r in rs;
      RightKeep(j, ls, rest, m, mr, lc, rc);
      HitsRightKeep(j, ls, r, m, map[], mr, lc, rc);
      KeepNothing(map[], ls);
      KeepConcat(m, RightOf(j, ls, r, lc), RightRows(j, ls, rest, lc));
      assert RowOk(m, Pad(lc) + r) <==> RowOk(map[], Pad(lc)) && RowOk(mr, r);
      if RowOk(mr, r) {
        assert ([r] + Keep(mr, rest))[1..] == Keep(mr, rest);
      } else {
        assert [] + Keep(mr, rest) == Keep(mr, rest);
      }
    }
  }

  lemma {:induction false} SemiKeep(j: On, ls: seq<Row>, rs: seq<Row>, m: PerTable, keep: bool)
    ensures Keep(m, SemiRows(j, ls, rs, keep)) == SemiRows(j, Keep(m, ls), rs, keep)
  {
    if ls != [] {
      var l, rest := ls[0], ls[1..];
      SemiKeep(j, rest, rs, m, keep);
      KeepConcat(m, if (Hits(j, l, rs) != []) == keep then [l] else [], SemiRows(j, rest, rs, keep));
      if RowOk(m, l) {
        assert ([l] + Keep(m, rest))[1..] == Keep(m, rest);
      } else {
        assert [] + Keep(m, rest) == Keep(m, rest);
      }
    }
  }

  // ---------------------------------------------------------------- where a conjunct may go

  predicate SidesOk(how: How, onLeft: bool) {
    how in {Inner, Cross} || (onLeft && how in {Left, Semi, Anti}) || (!onLeft && how == Right)
  }

  /** Table `t` is scanned once in `p`, under filters and joins only, and every join on the way
      down preserves the side it lies on; joined inputs have no column name in common. */
  ghost predicate Reachable(db: Database, nulls: bool, p: Plan, t: string) {
    match p
    case Scan(u, columns) => u == t && columns.None? && t in db
    case Filter(q, _) => Reachable(db, nulls, q, t)
    case Join(l, r, _, _, how, _) =>
      && (how !in {Semi, Anti} ==> Eval(db, nulls, l).cols !! Eval(db, nulls, r).cols)
      && Visible(l, t) != Visible(r, t)
      && (if Visible(l, t) then SidesOk(how, true) && Reachable(db, nulls, l, t)
          else SidesOk(how, false) && Reachable(db, nulls, r, t))
    case _ => false
  }

  lemma {:induction false} ReachableCols(db: Database, nulls: bool, p: Plan, t: string)
    requires Reachable(db, nulls, p, t)
    ensures t in SubtreeTables(p) && t in db && db[t].cols <= Eval(db, nulls, p).cols
  {
    match p
    case Filter(q, _) => ReachableCols(db, nulls, q, t);
    case Join(l, r, _, _, how, _) =>
      JoinCols(db, nulls, p);
      if t in SubtreeTables(l) {
        ReachableCols(db, nulls, l, t);
      } else {
        ReachableCols(db, nulls, r, t);
      }
    case _ =>
  }

  lemma JoinCols(db: Database, nulls: bool, p: Plan)
    requires p.Join?
    ensures Eval(db, nulls, p.left).cols <= Eval(db, nulls, p).cols
    ensures p.how !in {Semi, Anti} ==> Eval(db, nulls, p.right).cols <= Eval(db, nulls, p).cols
  {
  }

  /** Every conjunct routed to a table of `p` can be evaluated on that table alone. */
  ghost predicate Routable(db: Database, nulls: bool, p: Plan, m: PerTable) {
    forall t :: t in m && t in SubtreeTables(p) ==>
      t in db && Reachable(db, nulls, p, t) && forall i :: 0 <= i < |m[t]| ==> Columns(m[t][i]) <= db[t].cols
  }

  lemma PassLocal(cs: seq<Expr>, a: Row, b: Row, cols: set<string>)
    requires forall i :: 0 <= i < |cs| ==> Columns(cs[i]) <= cols
    requires forall c :: c in cols ==> Cell(a, c) == Cell(b, c)
    ensures AllPass(cs, a) <==> AllPass(cs, b)
  {
    forall i | 0 <= i < |cs|
      ensures Passes(cs[i], a) <==> Passes(cs[i], b)
    {
      EvalLocal(cs[i], a, b);
    }
  }

  /** A conjunct of one side does not see the other side's columns. */
  lemma JoinSplits(db: Database, nulls: bool, p: Plan, m: PerTable)
    requires p.Join? && Routable(db, nulls, p, m)
    requires Eval(db, nulls, p.left).cols !! Eval(db, nulls, p.right).cols && p.how !in {Semi, Anti}
    ensures var ml, mr := Restrict(m, SubtreeTables(p.left)), Restrict(m, SubtreeTables(p.right));
            Splits(Restrict(m, SubtreeTables(p)), ml, mr, Eval(db, nulls, p.left).cols, Eval(db, nulls, p.right).cols)
  {
    var lc, rc := Eval(db, nulls, p.left).cols, Eval(db, nulls, p.right).cols;
    var ml, mr := Restrict(m, SubtreeTables(p.left)), Restrict(m, SubtreeTables(p.right));
    var all := Restrict(m, SubtreeTables(p));
    forall l: Row, r: Row | l.Keys == lc && r.Keys == rc
      ensures RowOk(all, l + r) <==> RowOk(ml, l) && RowOk(mr, r)
    {
      forall t | t in all
        ensures t in ml ==> (AllPass(all[t], l + r) <==> AllPass(ml[t], l))
        ensures t in mr ==> (AllPass(all[t], l + r) <==> AllPass(mr[t], r))
      {
        assert Reachable(db, nulls, p, t);
        if t in ml {
          ReachableCols(db, nulls, p.left, t);
          PassLocal(m[t], l + r, l, db[t].cols);
        } else {
          ReachableCols(db, nulls, p.right, t);
          PassLocal(m[t], l + r, r, db[t].cols);
        }
      }
      assert forall t :: t in all <==> t in ml || t in mr;
      assert forall t :: t in ml ==> all[t] == ml[t];
      assert forall t :: t in mr ==> all[t] == mr[t];
    }
  }

  lemma RoutableSides(db: Database, nulls: bool, p: Plan, m: PerTable)
    requires p.Join? && Routable(db, nulls, p, m)
    ensures Routable(db, nulls, p.left, Restrict(m, SubtreeTables(p.left)))
    ensures Routable(db, nulls, p.right, Restrict(m, SubtreeTables(p.right)))
    ensures !SidesOk(p.how, true) ==> Restrict(m, SubtreeTables(p.left)) == map[]
    ensures !SidesOk(p.how, false) ==> Restrict(m, SubtreeTables(p.right)) == map[]
  {
    var ml, mr := Restrict(m, SubtreeTables(p.left)), Restrict(m, SubtreeTables(p.right));
    forall t | t in ml
      ensures SidesOk(p.how, true) && Reachable(db, nulls, p.left, t)
    {
      assert Reachable(db, nulls, p, t);
    }
    forall t | t in mr
      ensures SidesOk(p.how, false) && Reachable(db, nulls, p.right, t)
    {
      assert Reachable(db, nulls, p, t);
    }
  }

  /** Filtering the inputs of a join by the routed conjuncts filters its output by them. */
  lemma JoinKeep(j: On, how: How, l: Rel, r: Rel, l': Rel, r': Rel, m: PerTable, ml: PerTable, mr: PerTable)
    requires l'.cols == l.cols && l'.rows == Keep(ml, l.rows) && r'.cols == r.cols && r'.rows == Keep(mr, r.rows)
    requires how !in {Semi, Anti} && m != map[] ==> Splits(m, ml, mr, l.cols, r.cols)
    requires how in {Semi, Anti} ==> m == ml
    requires m == map[] ==> ml == map[] && mr == map[]
    requires !SidesOk(how, true) ==> ml == map[]
    requires !SidesOk(how, false) ==> mr == map[]
    requires how == Full ==> m == map[]
    ensures JoinRel(j, how, l', r').cols == JoinRel(j, how, l, r).cols
    ensures JoinRel(j, how, l', r').rows == Keep(m, JoinRel(j, how, l, r).rows)
  {
    if m == map[] {
      KeepNothing(map[], l.rows);
      KeepNothing(map[], r.rows);
      KeepNothing(map[], JoinRel(j, how, l, r).rows);
    } else {
      match how
      case Inner => InnerKeep(j, l.rows, r.rows, m, ml, mr, l.cols, r.cols);
      case Cross => InnerKeep(j, l.rows, r.rows, m, ml, mr, l.cols, r.cols);
      case Left =>
        KeepNothing(map[], r.rows);
        LeftKeep(j, l.rows, r.rows, m, ml, l.cols, r.cols);
      case Right =>
        KeepNothing(map[], l.rows);
        RightKeep(j, l.rows, r.rows, m, mr, l.cols, r.cols);
      case Semi =>
        KeepNothing(map[], r.rows);
        SemiKeep(j.(nullsMatch := false), l.rows, r.rows, m, true);
      case Anti =>
        KeepNothing(map[], r.rows);
        SemiKeep(j.(nullsMatch := false), l.rows, r.rows, m, false);
    }
  }

  lemma ScanInsert(db: Database, nulls: bool, p: Plan, m: PerTable)
    requires p.Scan?
    ensures Eval(db, nulls, Insert(p, m)).cols == Eval(db, nulls, p).cols
    ensures Eval(db, nulls, Insert(p, m)).rows == Keep(Restrict(m, {p.table}), Eval(db, nulls, p).rows)
  {
    var t, r := p.table, Restrict(m, {p.table});
    if t in m && m[t] != [] {
      forall row
        ensures Passes(Conjoin(m[t]), row) <==> RowOk(r, row)
      {
        ConjoinPasses(m[t], row);
        assert r.Keys == {t} && r[t] == m[t];
      }
      SelectIsKeep(r, Eval(db, nulls, p).rows, Conjoin(m[t]));
    } else {
      KeepTrivial(r, Eval(db, nulls, p).rows);
    }
  }

  lemma {:induction false} KeepTrivial(m: PerTable, rows: seq<Row>)
    requires forall t :: t in m ==> m[t] == []
    ensures Keep(m, rows) == rows
  {
    if rows != [] {
      KeepTrivial(m, rows[1..]);
    }
  }

  /** Distributing routed conjuncts over a plan filters its result by exactly those conjuncts. */
  lemma {:induction false} InsertMeans(db: Database, nulls: bool, p: Plan, m: PerTable)
    requires Routable(db, nulls, p, m)
    ensures Eval(db, nulls, Insert(p, m)).cols == Eval(db, nulls, p).cols
    ensures Eval(db, nulls, Insert(p, m)).rows == Keep(Restrict(m, SubtreeTables(p)), Eval(db, nulls, p).rows)
    decreases p
  {
    match p
    case Scan(_, _) => ScanInsert(db, nulls, p, m);
    case Filter(q, e) =>
      RoutableInput(db, nulls, p, m);
      InsertMeans(db, nulls, q, m);
      KeepSelect(Restrict(m, SubtreeTables(q)), Eval(db, nulls, q).rows, e);
    case Join(l, r, onLeft, onRight, how, residual) => InsertMeansJoin(db, nulls, p, m);
    case _ =>
      NothingHere(db, nulls, p, m);
      InsertSame(db, nulls, p, m);
      KeepNothing(Restrict(m, SubtreeTables(p)), Eval(db, nulls, p).rows);
  }

  /** With nothing routed to its tables a plan is left as it is. */
  lemma {:induction false} InsertSame(db: Database, nulls: bool, p: Plan, m: PerTable)
    requires forall t :: t in m ==> t !in SubtreeTables(p)
    ensures Insert(p, m) == p
  {
    match p
    case Scan(_, _) =>
    case Derived(_, _) =>
    case Join(l, r, _, _, _, _) =>
      InsertSame(db, nulls, l, Restrict(m, SubtreeTables(l)));
      InsertSame(db, nulls, r, Restrict(m, SubtreeTables(r)));
    case SetOp(l, r, _) =>
      InsertSame(db, nulls, l, Restrict(m, SubtreeTables(l)));
      InsertSame(db, nulls, r, Restrict(m, SubtreeTables(r)));
    case _ => InsertSame(db, nulls, p.input, m);
  }

  lemma NothingHere(db: Database, nulls: bool, p: Plan, m: PerTable)
    requires !p.Scan? && !p.Filter? && !p.Join? && Routable(db, nulls, p, m)
    ensures Restrict(m, SubtreeTables(p)) == map[]
    ensures forall t :: t in m ==> t !in SubtreeTables(p)
  {
    assert forall t :: !Reachable(db, nulls, p, t);
  }

  /** How the conjuncts routed to a join divide over its sides. */
  lemma RoutedParts(db: Database, nulls: bool, p: Plan, m: PerTable)
    requires p.Join? && Routable(db, nulls, p, m)
    ensures var ml, mr, all := Restrict(m, SubtreeTables(p.left)), Restrict(m, SubtreeTables(p.right)), Restrict(m, SubtreeTables(p));
            && (p.how !in {Semi, Anti} && all != map[] ==>
                  Splits(all, ml, mr, Eval(db, nulls, p.left).cols, Eval(db, nulls, p.right).cols))
            && (p.how in {Semi, Anti} ==> all == ml) && (all == map[] ==> ml == map[] && mr == map[])
            && (p.how == Full ==> all == map[])
  {
    var ml, mr, all := Restrict(m, SubtreeTables(p.left)), Restrict(m, SubtreeTables(p.right)), Restrict(m, SubtreeTables(p));
    RoutableSides(db, nulls, p, m);
    assert forall t :: t in all <==> t in ml || t in mr;
    if all != map[] {
      var t :| t in all;
      assert Reachable(db, nulls, p, t);
      if p.how !in {Semi, Anti} { JoinSplits(db, nulls, p, m); }
    }
  }

  lemma {:induction false} InsertMeansJoin(db: Database, nulls: bool, p: Plan, m: PerTable)
    requires p.Join? && Routable(db, nulls, p, m)
    ensures Eval(db, nulls, Insert(p, m)).cols == Eval(db, nulls, p).cols
    ensures Eval(db, nulls, Insert(p, m)).rows == Keep(Restrict(m, SubtreeTables(p)), Eval(db, nulls, p).rows)
    decreases p, 0
  {
    var ml, mr, all := Restrict(m, SubtreeTables(p.left)), Restrict(m, SubtreeTables(p.right)), Restrict(m, SubtreeTables(p));
    RoutableSides(db, nulls, p, m);
    RestrictRestrict(m, SubtreeTables(p.left));
    RestrictRestrict(m, SubtreeTables(p.right));
    InsertMeans(db, nulls, p.left, ml);
    InsertMeans(db, nulls, p.right, mr);
    RoutedParts(db, nulls, p, m);
    JoinKeep(On(p.onLeft, p.onRight, p.residual, nulls), p.how, Eval(db, nulls, p.left), Eval(db, nulls, p.right),
             Eval(db, nulls, Insert(p.left, ml)), Eval(db, nulls, Insert(p.right, mr)), all, ml, mr);
  }

  // ---------------------------------------------------------------- the whole rewrite

  /** The join under a stack of filters, if there is one. */
  function TopJoin(p: Plan): Option<Shape> {
    match p
    case Join(_, _, _, _, _, _) => Some(ShapeOf(p))
    case Filter(q, _) => TopJoin(q)
    case _ => None
  }

  /** Each column is one of a joined table's. */
  predicate KnownToJoined(schema: Schema, s: Shape, c: Expr) {
    forall x :: x in Columns(c) ==> exists t :: t in schema && x in schema[t] && t in s.left + s.right
  }

  /** The routing asks only that some table of the schema, joined or not, has a column of that name.
      The scan a conjunct goes to has all its columns exactly when the joined tables have them. */
  lemma DestHasColumnsIff(schema: Schema, s: Shape, c: Expr)
    requires Dest(schema, s, c).Some?
    ensures var t := Dest(schema, s, c).value;
            t in schema && t in s.left + s.right && (Columns(c) <= schema[t] <==> KnownToJoined(schema, s, c))
  {
    var t, ts := Dest(schema, s, c).value, TablesOf(schema, c) * (s.left + s.right);
    SingletonPick(ts, t);
    if KnownToJoined(schema, s, c) {
      forall x | x in Columns(c) ensures x in schema[t] {
        var u :| u in schema && x in schema[u] && u in s.left + s.right;
        assert u in ts;
      }
    }
  }

  predicate Touches(schema: Schema, c: Expr, t: string) {
    t in schema && Columns(c) * schema[t] != {}
  }

  /** A conjunct over base columns that touches t and no other table of the join. */
  ghost predicate OnlyTouches(schema: Schema, j: Plan, c: Expr, t: string) {
    && Visible(j, t) && Touches(schema, c, t)
    && (forall u :: Visible(j, u) && Touches(schema, c, u) ==> u == t)
    && forall x :: x in Columns(c) ==> exists u :: u in schema && x in schema[u]
  }

  /** A filter above the join may act on that side alone; cross joins are left as they are. */
  predicate Preserved(how: How, onLeft: bool) {
    SidesOk(how, onLeft) && how != Cross
  }

  lemma TouchedTables(schema: Schema, c: Expr, u: string)
    ensures u in TablesOf(schema, c) <==> Touches(schema, c, u)
  {
    if Touches(schema, c, u) {
      var x :| x in Columns(c) * schema[u];
      assert x in Columns(c) && x in schema[u];
    }
    if u in TablesOf(schema, c) {
      var x :| x in Columns(c) && x in schema[u];
      assert x in Columns(c) * schema[u];
    }
  }

  lemma PushSidesArePreserved(s: Shape, t: string)
    requires (t in s.left) != (t in s.right)
    ensures t in PushSides(s) <==> Preserved(s.how, t in s.left)
  {
  }

  lemma DestMeans(schema: Schema, s: Shape, c: Expr, t: string, ts: set<string>)
    requires ts == TablesOf(schema, c) * (s.left + s.right)
    ensures Dest(schema, s, c) == Some(t) <==> AllKnown(schema, c) && ts == {t} && (t in s.left) != (t in s.right) && t in PushSides(s)
  {
    if Dest(schema, s, c).Some? { SingletonPick(ts, Dest(schema, s, c).value); }
    if ts == {t} {
      assert t in ts && (t in s.left * s.right <==> t in ts * (s.left * s.right));
    }
  }

  /** Where a conjunct goes, said of the plan: to the one joined table it touches, when that table
      stands on one side only and the join preserves that side. */
  lemma DestIff(schema: Schema, j: Plan, c: Expr, t: string)
    requires j.Join?
    ensures Dest(schema, ShapeOf(j), c) == Some(t) <==>
            OnlyTouches(schema, j, c, t) && Visible(j.left, t) != Visible(j.right, t) && Preserved(j.how, Visible(j.left, t))
  {
    var s := ShapeOf(j);
    var ts := TablesOf(schema, c) * (s.left + s.right);
    DestMeans(schema, s, c, t, ts);
    forall u ensures u in ts <==> Visible(j, u) && Touches(schema, c, u) { TouchedTables(schema, c, u); }
    assert ts == {t} <==> t in ts && forall u :: u in ts ==> u == t;
    if (t in s.left) != (t in s.right) { PushSidesArePreserved(s, t); }
  }

  /** What the plan must give a conjunct that belongs to one joined table: all its columns are that
      table's, and the table can be reached inside its side of the join. */
  ghost predicate FilterOk(db: Database, nulls: bool, schema: Schema, q: Plan, e: Expr) {
    match q
    case Filter(q2, _) => FilterOk(db, nulls, schema, q2, e)
    case Join(l, r, _, _, how, _) =>
      forall c, t :: c in SplitAnd(e) && OnlyTouches(schema, q, c, t) && Visible(l, t) != Visible(r, t) && Preserved(how, Visible(l, t)) ==>
        && Columns(c) <= schema[t]
        && (how !in {Semi, Anti} ==> Eval(db, nulls, l).cols !! Eval(db, nulls, r).cols)
        && (if Visible(l, t) then Reachable(db, nulls, l, t) else Reachable(db, nulls, r, t))
    case _ => true
  }

  /** The routing follows: each conjunct goes to a table that is reachable and has its columns. */
  ghost predicate RoutesWell(db: Database, nulls: bool, schema: Schema, q: Plan, s: Shape, e: Expr) {
    forall c :: c in SplitAnd(e) && Dest(schema, s, c).Some? ==>
      var t := Dest(schema, s, c).value; Reachable(db, nulls, q, t) && t in schema && Columns(c) <= schema[t]
  }

  lemma {:induction false} FilterRoutes(db: Database, nulls: bool, schema: Schema, q: Plan, e: Expr)
    requires FilterOk(db, nulls, schema, q, e) && TopJoin(q).Some?
    ensures RoutesWell(db, nulls, schema, q, TopJoin(q).value, e)
  {
    if q.Filter? {
      FilterRoutes(db, nulls, schema, q.input, e);
    } else {
      forall c | c in SplitAnd(e) && Dest(schema, ShapeOf(q), c).Some?
        ensures var t := Dest(schema, ShapeOf(q), c).value; Reachable(db, nulls, q, t) && t in schema && Columns(c) <= schema[t]
      {
        DestIff(schema, q, c, Dest(schema, ShapeOf(q), c).value);
      }
    }
  }

  ghost predicate PlanOk(db: Database, nulls: bool, schema: Schema, p: Plan) {
    match p
    case Scan(_, _) => true
    case Filter(q, e) => PlanOk(db, nulls, schema, q) && FilterOk(db, nulls, schema, q, e)
    case Join(l, r, _, _, _, _) => PlanOk(db, nulls, schema, l) && PlanOk(db, nulls, schema, r)
    case SetOp(l, r, _) => PlanOk(db, nulls, schema, l) && PlanOk(db, nulls, schema, r)
    case _ => PlanOk(db, nulls, schema, p.input)
  }

  /** Same shape, same reach: what a rewrite must keep for a filter above it. */
  ghost predicate Alike(db: Database, nulls: bool, p: Plan, p': Plan) {
    && SubtreeTables(p') == SubtreeTables(p) && TopJoin(p') == TopJoin(p)
    && forall t :: Reachable(db, nulls, p, t) ==> Reachable(db, nulls, p', t)
  }

  /** A join reaches what its inputs reach, as long as they keep their columns. */
  lemma JoinAlike(db: Database, nulls: bool, p: Plan, l: Plan, r: Plan)
    requires p.Join? && Alike(db, nulls, p.left, l) && Alike(db, nulls, p.right, r)
    requires Eval(db, nulls, l).cols == Eval(db, nulls, p.left).cols && Eval(db, nulls, r).cols == Eval(db, nulls, p.right).cols
    ensures Alike(db, nulls, p, Join(l, r, p.onLeft, p.onRight, p.how, p.residual))
  {
    var p' := Join(l, r, p.onLeft, p.onRight, p.how, p.residual);
    assert SubtreeTables(p') == SubtreeTables(p) && ShapeOf(p') == ShapeOf(p);
    forall t | Reachable(db, nulls, p, t) ensures Reachable(db, nulls, p', t) {
      JoinReach(db, nulls, p, l, r, t);
    }
  }

  lemma JoinReach(db: Database, nulls: bool, p: Plan, l: Plan, r: Plan, t: string)
    requires p.Join? && Alike(db, nulls, p.left, l) && Alike(db, nulls, p.right, r) && Reachable(db, nulls, p, t)
    requires Eval(db, nulls, l).cols == Eval(db, nulls, p.left).cols && Eval(db, nulls, r).cols == Eval(db, nulls, p.right).cols
    ensures Reachable(db, nulls, Join(l, r, p.onLeft, p.onRight, p.how, p.residual), t)
  {
    SameVisible(p.left, l, t);
    SameVisible(p.right, r, t);
    if Visible(p.left, t) {
      assert Reachable(db, nulls, p.left, t);
    } else {
      assert Reachable(db, nulls, p.right, t);
    }
  }

  lemma SameVisible(p: Plan, p': Plan, t: string)
    requires SubtreeTables(p) == SubtreeTables(p')
    ensures Visible(p, t) == Visible(p', t)
  {
    assert t in SubtreeTables(p) <==> t in SubtreeTables(p');
  }

  lemma {:induction false} InsertAlike(db: Database, nulls: bool, p: Plan, m: PerTable)
    requires Routable(db, nulls, p, m)
    ensures Alike(db, nulls, p, Insert(p, m))
  {
    match p
    case Scan(_, _) =>
    case Filter(q, e) =>
      RoutableInput(db, nulls, p, m);
      InsertAlike(db, nulls, q, m);
      FilterOfAlike(db, nulls, q, Insert(q, m), e);
    case Join(l, r, _, _, _, _) =>
      var ml, mr := Restrict(m, SubtreeTables(l)), Restrict(m, SubtreeTables(r));
      RoutableSides(db, nulls, p, m);
      InsertAlike(db, nulls, l, ml);
      InsertAlike(db, nulls, r, mr);
      InsertMeans(db, nulls, l, ml);
      InsertMeans(db, nulls, r, mr);
      JoinAlike(db, nulls, p, Insert(l, ml), Insert(r, mr));
    case _ =>
      NothingHere(db, nulls, p, m);
      InsertSame(db, nulls, p, m);
  }

  lemma RoutableInput(db: Database, nulls: bool, p: Plan, m: PerTable)
    requires p.Filter? && Routable(db, nulls, p, m)
    ensures Routable(db, nulls, p.input, m)
  {
    forall t | t in m && t in SubtreeTables(p.input) ensures Reachable(db, nulls, p.input, t) {
      assert Reachable(db, nulls, p, t);
    }
  }

  ghost predicate RoutedWell(db: Database, nulls: bool, schema: Schema, q: Plan, m: PerTable) {
    forall t :: t in m ==>
      t in schema && Reachable(db, nulls, q, t) && forall i :: 0 <= i < |m[t]| ==> Columns(m[t][i]) <= schema[t]
  }

  lemma PushPasses(m: PerTable, t: string, c: Expr, r: Row)
    ensures RowOk(Push(m, t, c), r) <==> RowOk(m, r) && Passes(c, r)
  {
    var was := if t in m then m[t] else [];
    var m' := Push(m, t, c);
    AllPassConcat(was, [c], r);
    assert [c][0] == c;
    assert AllPass([c], r) <==> Passes(c, r);
    assert m'[t] == was + [c];
    if RowOk(m', r) {
      assert AllPass(m'[t], r);
      forall u | u in m
        ensures AllPass(m[u], r)
      {
        assert u in m';
      }
    }
  }

  /** Routing loses no conjunct and invents none. */
  lemma {:induction false} RoutePasses(schema: Schema, s: Shape, cs: seq<Expr>, r: Row)
    ensures var x := Route(schema, s, cs);
            AllPass(cs, r) <==> RowOk(x.pushable, r) && AllPass(x.remaining, r)
  {
    if cs != [] {
      var n := |cs| - 1;
      var x := Route(schema, s, cs[..n]);
      RoutePasses(schema, s, cs[..n], r);
      assert cs == cs[..n] + [cs[n]];
      AllPassConcat(cs[..n], [cs[n]], r);
      assert [cs[n]][0] == cs[n];
      var d := Dest(schema, s, cs[n]);
      if d.Some? {
        PushPasses(x.pushable, d.value, cs[n], r);
      } else {
        AllPassConcat(x.remaining, [cs[n]], r);
      }
    }
  }

  lemma {:induction false} RouteWell(db: Database, nulls: bool, schema: Schema, q: Plan, s: Shape, cs: seq<Expr>)
    requires forall c :: c in cs && Dest(schema, s, c).Some? ==>
               var t := Dest(schema, s, c).value; Reachable(db, nulls, q, t) && t in schema && Columns(c) <= schema[t]
    ensures RoutedWell(db, nulls, schema, q, Route(schema, s, cs).pushable)
  {
    if cs != [] {
      var n := |cs| - 1;
      RouteWell(db, nulls, schema, q, s, cs[..n]);
      assert cs[n] in cs;
      var m, d := Route(schema, s, cs[..n]).pushable, Dest(schema, s, cs[n]);
      if d.Some? {
        PushWell(db, nulls, schema, q, m, d.value, cs[n]);
      }
    }
  }

  lemma PushWell(db: Database, nulls: bool, schema: Schema, q: Plan, m: PerTable, t: string, c: Expr)
    requires RoutedWell(db, nulls, schema, q, m) && Reachable(db, nulls, q, t) && t in schema && Columns(c) <= schema[t]
    ensures RoutedWell(db, nulls, schema, q, Push(m, t, c))
  {
  }

  lemma {:induction false} SelectRouted(m: PerTable, rest: seq<Expr>, rows: seq<Row>, e: Expr)
    requires forall r :: Passes(e, r) <==> RowOk(m, r) && AllPass(rest, r)
    ensures Select(rows, e) == if rest == [] then Keep(m, rows) else Select(Keep(m, rows), Conjoin(rest))
  {
    if rows != [] {
      SelectRouted(m, rest, rows[1..], e);
      var kept := Keep(m, rows[1..]);
      if rest != [] {
        ConjoinPasses(rest, rows[0]);
        if RowOk(m, rows[0]) {
          assert ([rows[0]] + kept)[1..] == kept;
        } else {
          assert [] + kept == kept;
        }
      }
    }
  }

  /** One filter above one join: the pushed plan returns the same rows. */
  lemma PushFilterMeans(db: Database, nulls: bool, schema: Schema, j: Plan, e: Expr)
    requires j.Join? && SchemaOk(db, schema) && FilterOk(db, nulls, schema, j, e)
    ensures Eval(db, nulls, PushFilter(schema, j, e)) == Eval(db, nulls, Filter(j, e))
  {
    FilterRoutes(db, nulls, schema, j, e);
    RoutedFilter(db, nulls, schema, j, e);
  }

  lemma RoutedFilter(db: Database, nulls: bool, schema: Schema, j: Plan, e: Expr)
    requires j.Join? && SchemaOk(db, schema) && RoutesWell(db, nulls, schema, j, ShapeOf(j), e)
    ensures Eval(db, nulls, PushFilter(schema, j, e)) == Eval(db, nulls, Filter(j, e))
    ensures Alike(db, nulls, j, PushFilter(schema, j, e))
  {
    var x := Route(schema, ShapeOf(j), SplitAnd(e));
    RouteWell(db, nulls, schema, j, ShapeOf(j), SplitAnd(e));
    RoutedIsRoutable(db, nulls, schema, j, x.pushable);
    SplitRouted(schema, ShapeOf(j), e);
    InsertMeans(db, nulls, j, x.pushable);
    InsertAlike(db, nulls, j, x.pushable);
    RestrictAll(x.pushable, SubtreeTables(j));
    PushedRows(db, nulls, j, e, x.pushable, x.remaining);
    FilterAlike(db, nulls, j, e);
    if x.remaining != [] { FilterAlike(db, nulls, Insert(j, x.pushable), Conjoin(x.remaining)); }
  }

  lemma FilterAlike(db: Database, nulls: bool, q: Plan, e: Expr)
    ensures Alike(db, nulls, q, Filter(q, e))
  {
  }

  lemma SplitRouted(schema: Schema, s: Shape, e: Expr)
    ensures var x := Route(schema, s, SplitAnd(e)); forall r :: Passes(e, r) <==> RowOk(x.pushable, r) && AllPass(x.remaining, r)
  {
    forall r
      ensures Passes(e, r) <==> RowOk(Route(schema, s, SplitAnd(e)).pushable, r) && AllPass(Route(schema, s, SplitAnd(e)).remaining, r)
    {
      SplitPasses(e, r);
      RoutePasses(schema, s, SplitAnd(e), r);
    }
  }

  lemma RestrictAll(m: PerTable, ts: set<string>)
    requires m.Keys <= ts
    ensures Restrict(m, ts) == m
  {
  }

  /** The routed conjuncts below, the others above: together they are the filter. */
  lemma PushedRows(db: Database, nulls: bool, j: Plan, e: Expr, m: PerTable, rest: seq<Expr>)
    requires forall r :: Passes(e, r) <==> RowOk(m, r) && AllPass(rest, r)
    requires Eval(db, nulls, Insert(j, m)).cols == Eval(db, nulls, j).cols
    requires Eval(db, nulls, Insert(j, m)).rows == Keep(m, Eval(db, nulls, j).rows)
    ensures rest == [] ==> Eval(db, nulls, Insert(j, m)) == Eval(db, nulls, Filter(j, e))
    ensures rest != [] ==> Eval(db, nulls, Filter(Insert(j, m), Conjoin(rest))) == Eval(db, nulls, Filter(j, e))
  {
    SelectRouted(m, rest, Eval(db, nulls, j).rows, e);
    EvalFilter(db, nulls, j, e);
    if rest != [] { EvalFilter(db, nulls, Insert(j, m), Conjoin(rest)); }
  }

  lemma EvalFilter(db: Database, nulls: bool, q: Plan, e: Expr)
    ensures Eval(db, nulls, Filter(q, e)) == RawRel(Eval(db, nulls, q).cols, Select(Eval(db, nulls, q).rows, e))
  {
  }

  lemma RoutedIsRoutable(db: Database, nulls: bool, schema: Schema, j: Plan, m: PerTable)
    requires j.Join? && SchemaOk(db, schema) && RoutedWell(db, nulls, schema, j, m)
    ensures Routable(db, nulls, j, m) && m.Keys <= SubtreeTables(j)
  {
    forall t | t in m
      ensures t in SubtreeTables(j) && t in db && Reachable(db, nulls, j, t)
    {
      ReachableCols(db, nulls, j, t);
    }
  }

  /** Predicate pushdown preserves the result of every plan: the same rows, in the same order, as
      the same multiset, for every database, under three-valued WHERE, whether or not the merge
      lets NULL keys match, and for inner, left, right, full, cross, semi and anti joins. */
  lemma {:induction false} PushdownPreservesResults(db: Database, nulls: bool, schema: Schema, p: Plan)
    requires SchemaOk(db, schema) && PlanOk(db, nulls, schema, p)
    ensures Pushed(db, nulls, p, PushPredicates(schema, p))
    ensures Eval(db, nulls, PushPredicates(schema, p)) == Eval(db, nulls, p)
    decreases p, 0
  {
    if p.Filter? {
      PushdownAtFilter(db, nulls, schema, p.input, p.pred);
    } else if p.Join? || p.SetOp? {
      PushdownPreservesResults(db, nulls, schema, p.left);
      PushdownPreservesResults(db, nulls, schema, p.right);
      var l, r := PushPredicates(schema, p.left), PushPredicates(schema, p.right);
      if p.Join? { JoinPushed(db, nulls, p, l, r); } else { SetOpPushed(db, nulls, p, l, r); }
    } else if Unary(p) {
      PushdownPreservesResults(db, nulls, schema, p.input);
      UnaryPushed(db, nulls, p, PushPredicates(schema, p.input));
      PushOver(schema, p);
    }
  }

  /** What the induction carries: the same result, and the same reach for filters above. */
  ghost predicate Pushed(db: Database, nulls: bool, p: Plan, p': Plan) {
    Eval(db, nulls, p') == Eval(db, nulls, p) && Alike(db, nulls, p, p')
  }

  lemma JoinPushed(db: Database, nulls: bool, p: Plan, l: Plan, r: Plan)
    requires p.Join? && Pushed(db, nulls, p.left, l) && Pushed(db, nulls, p.right, r)
    ensures Pushed(db, nulls, p, Join(l, r, p.onLeft, p.onRight, p.how, p.residual))
  {
    JoinAlike(db, nulls, p, l, r);
  }

  lemma SetOpPushed(db: Database, nulls: bool, p: Plan, l: Plan, r: Plan)
    requires p.SetOp? && Pushed(db, nulls, p.left, l) && Pushed(db, nulls, p.right, r)
    ensures Pushed(db, nulls, p, SetOp(l, r, p.combine))
  {
  }

  lemma UnaryPushed(db: Database, nulls: bool, p: Plan, q: Plan)
    requires Unary(p) && !p.Filter? && Pushed(db, nulls, p.input, q)
    ensures Pushed(db, nulls, p, OverInput(p, q))
  {
    EvalOver(db, nulls, p, q);
    UnaryAlike(db, nulls, p, q);
  }

  /** Only filters and joins let a conjunct through. */
  lemma UnaryAlike(db: Database, nulls: bool, p: Plan, q: Plan)
    requires Unary(p) && !p.Filter? && SubtreeTables(q) == SubtreeTables(p.input)
    ensures Alike(db, nulls, p, OverInput(p, q))
  {
    match p
    case Project(_, _) =>
    case Aggregate(_, _, _) =>
    case Window(_, _, _, _) =>
    case Sort(_, _, _) =>
    case Limit(_, _, _) =>
    case Distinct(_) =>
    case Derived(_, _) =>
  }

  lemma PushOver(schema: Schema, p: Plan)
    requires Unary(p) && (p.Filter? ==> !PushPredicates(schema, p.input).Join?)
    ensures PushPredicates(schema, p) == OverInput(p, PushPredicates(schema, p.input))
  {
  }

  lemma {:induction false} PushdownAtFilter(db: Database, nulls: bool, schema: Schema, q: Plan, e: Expr)
    requires SchemaOk(db, schema) && PlanOk(db, nulls, schema, q) && FilterOk(db, nulls, schema, q, e)
    ensures Pushed(db, nulls, Filter(q, e), PushPredicates(schema, Filter(q, e)))
    decreases q, 1
  {
    PushdownPreservesResults(db, nulls, schema, q);
    var q' := PushPredicates(schema, q);
    FilterAlike(db, nulls, q, e);
    EvalOver(db, nulls, Filter(q, e), q');
    if q'.Join? {
      assert TopJoin(q) == Some(ShapeOf(q'));
      FilterRoutes(db, nulls, schema, q, e);
      RoutedFilter(db, nulls, schema, q', e);
      PushedAlike(db, nulls, q, e, q', PushFilter(schema, q', e));
    } else {
      FilterOfAlike(db, nulls, q, q', e);
    }
  }

  lemma PushedAlike(db: Database, nulls: bool, q: Plan, e: Expr, q': Plan, p': Plan)
    requires Alike(db, nulls, q, q') && Alike(db, nulls, q', p')
    ensures Alike(db, nulls, Filter(q, e), p')
  {
    forall t | Reachable(db, nulls, Filter(q, e), t) ensures Reachable(db, nulls, p', t) {
      assert Reachable(db, nulls, q, t) && Reachable(db, nulls, q', t);
    }
  }

  lemma FilterOfAlike(db: Database, nulls: bool, q: Plan, q': Plan, e: Expr)
    requires Alike(db, nulls, q, q')
    ensures Alike(db, nulls, Filter(q, e), Filter(q', e))
  {
    forall t | Reachable(db, nulls, Filter(q, e), t) ensures Reachable(db, nulls, Filter(q', e), t) {
      assert Reachable(db, nulls, q, t) && Reachable(db, nulls, q', t);
    }
  }
}
