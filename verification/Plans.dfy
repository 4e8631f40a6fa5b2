/**
 Query plans and what they mean: relations of named rows, three-valued predicates, and every join
 kind.  Scalar functions, aggregates, sort orders and set operations enter as functions of the
 evaluated expressions, so results hold for all of them.
 */
module Plans {
  import opened Values

  // ---------------------------------------------------------------- expressions

  datatype Expr =
    | Col(name: string)
    | Lit(value: Value)
    | And(left: Expr, right: Expr)
    | Call(f: seq<Value> -> Value, args: seq<Expr>)

  function Columns(e: Expr): set<string>
    decreases e, 1
  {
    match e
    case Col(c) => {c}
    case Lit(_) => {}
    case And(l, r) => Columns(l) + Columns(r)
    case Call(_, args) => ColumnsAll(args)
  }

  function ColumnsAll(es: seq<Expr>): set<string>
    decreases es, 0
  {
    if es == [] then {} else Columns(es[0]) + ColumnsAll(es[1..])
  }

  /** AND under three-valued logic. */
  function AndValue(a: Value, b: Value): Value {
    if a == Bool(false) || b == Bool(false) then Bool(false)
    else if a == Bool(true) && b == Bool(true) then Bool(true)
    else Null
  }

  function EvalExpr(e: Expr, r: Row): Value
    decreases e, 1
  {
    match e
    case Col(c) => Cell(r, c)
    case Lit(v) => v
    case And(a, b) => AndValue(EvalExpr(a, r), EvalExpr(b, r))
    case Call(f, args) => f(EvalAll(args, r))
  }

  function EvalAll(es: seq<Expr>, r: Row): seq<Value>
    decreases es, 0
  {
    if es == [] then [] else [EvalExpr(es[0], r)] + EvalAll(es[1..], r)
  }

  /** A WHERE keeps a row only when its predicate is true, not when it is NULL. */
  predicate Passes(e: Expr, r: Row) {
    EvalExpr(e, r) == Bool(true)
  }

  /** Two rows give an expression the same value when they agree on its columns. */
  lemma {:induction false} EvalLocal(e: Expr, a: Row, b: Row)
    requires forall c :: c in Columns(e) ==> Cell(a, c) == Cell(b, c)
    ensures EvalExpr(e, a) == EvalExpr(e, b)
    decreases e, 1
  {
    match e
    case Col(_) =>
    case Lit(_) =>
    case And(l, r) => EvalLocal(l, a, b); EvalLocal(r, a, b);
    case Call(_, args) => EvalAllLocal(args, a, b);
  }

  lemma {:induction false} EvalAllLocal(es: seq<Expr>, a: Row, b: Row)
    requires forall c :: c in ColumnsAll(es) ==> Cell(a, c) == Cell(b, c)
    ensures EvalAll(es, a) == EvalAll(es, b)
    decreases es, 0
  {
    if es != [] {
      EvalLocal(es[0], a, b);
      EvalAllLocal(es[1..], a, b);
    }
  }

  // ---------------------------------------------------------------- relations

  datatype RawRel = RawRel(cols: set<string>, rows: seq<Row>)

  predicate AllOver(rows: seq<Row>, cols: set<string>) {
    forall r :: r in rows ==> r.Keys == cols
  }

  /** Every row has exactly the relation's columns. */
  type Rel = r: RawRel | AllOver(r.rows, r.cols) witness RawRel({}, [])

  type Database = map<string, Rel>

  /** Table name to column names. */
  type Schema = map<string, set<string>>

  ghost predicate SchemaOk(db: Database, schema: Schema) {
    forall t :: t in db && t in schema ==> db[t].cols == schema[t]
  }

  function Select(rows: seq<Row>, e: Expr): (out: seq<Row>)
    ensures forall r :: r in out <==> r in rows && Passes(e, r)
  {
    if rows == [] then [] else (if Passes(e, rows[0]) then [rows[0]] else []) + Select(rows[1..], e)
  }

  function Pad(cols: set<string>): (r: Row)
    ensures r.Keys == cols
  {
    map c | c in cols :: Null
  }

  // ---------------------------------------------------------------- joins

  datatype How = Inner | Left | Right | Full | Cross | Semi | Anti

  /** Join keys, residual ON predicate, and whether the merge lets NULL keys match each other. */
  datatype On = On(onLeft: seq<string>, onRight: seq<string>, residual: Option<Expr>, nullsMatch: bool)

  predicate Matches(j: On, l: Row, r: Row) {
    && KeyOf(l, j.onLeft) == KeyOf(r, j.onRight)
    && (j.nullsMatch || Null !in KeyOf(l, j.onLeft))
    && (j.residual.Some? ==> Passes(j.residual.value, l + r))
  }

  /** The joined rows of one left row. */
  function Hits(j: On, l: Row, rs: seq<Row>): (out: seq<Row>)
    ensures forall rc :: AllOver(rs, rc) ==> AllOver(out, l.Keys + rc)
  {
    if rs == [] then [] else (if Matches(j, l, rs[0]) then [l + rs[0]] else []) + Hits(j, l, rs[1..])
  }

  /** The joined rows of one right row. */
  function HitsRight(j: On, ls: seq<Row>, r: Row): (out: seq<Row>)
    ensures forall lc :: AllOver(ls, lc) ==> AllOver(out, lc + r.Keys)
  {
    if ls == [] then [] else (if Matches(j, ls[0], r) then [ls[0] + r] else []) + HitsRight(j, ls[1..], r)
  }

  function InnerRows(j: On, ls: seq<Row>, rs: seq<Row>): (out: seq<Row>)
    ensures forall lc, rc :: AllOver(ls, lc) && AllOver(rs, rc) ==> AllOver(out, lc + rc)
  {
    if ls == [] then [] else Hits(j, ls[0], rs) + InnerRows(j, ls[1..], rs)
  }

  function LeftOf(j: On, l: Row, rs: seq<Row>, rc: set<string>): (out: seq<Row>)
    ensures AllOver(rs, rc) ==> AllOver(out, l.Keys + rc)
  {
    var hits := Hits(j, l, rs);
    if hits == [] then [l + Pad(rc)] else hits
  }

  function LeftRows(j: On, ls: seq<Row>, rs: seq<Row>, rc: set<string>): (out: seq<Row>)
    ensures forall lc :: AllOver(ls, lc) && AllOver(rs, rc) ==> AllOver(out, lc + rc)
  {
    if ls == [] then [] else LeftOf(j, ls[0], rs, rc) + LeftRows(j, ls[1..], rs, rc)
  }

  function RightOf(j: On, ls: seq<Row>, r: Row, lc: set<string>): (out: seq<Row>)
    ensures AllOver(ls, lc) ==> AllOver(out, lc + r.Keys)
  {
    var hits := HitsRight(j, ls, r);
    if hits == [] then [Pad(lc) + r] else hits
  }

  function RightRows(j: On, ls: seq<Row>, rs: seq<Row>, lc: set<string>): (out: seq<Row>)
    ensures forall rc :: AllOver(ls, lc) && AllOver(rs, rc) ==> AllOver(out, lc + rc)
  {
    if rs == [] then [] else RightOf(j, ls, rs[0], lc) + RightRows(j, ls, rs[1..], lc)
  }

  /** Right rows that match nothing, padded. */
  function Unmatched(j: On, ls: seq<Row>, rs: seq<Row>, lc: set<string>): (out: seq<Row>)
    ensures forall rc :: AllOver(rs, rc) ==> AllOver(out, lc + rc)
  {
    if rs == [] then []
    else (if HitsRight(j, ls, rs[0]) == [] then [Pad(lc) + rs[0]] else []) + Unmatched(j, ls, rs[1..], lc)
  }

  /** Left rows that have (or lack) a match. */
  function SemiRows(j: On, ls: seq<Row>, rs: seq<Row>, keep: bool): (out: seq<Row>)
    ensures forall l :: l in out <==> l in ls && (Hits(j, l, rs) != []) == keep
  {
    if ls == [] then []
    else (if (Hits(j, ls[0], rs) != []) == keep then [ls[0]] else []) + SemiRows(j, ls[1..], rs, keep)
  }

  function JoinRel(j: On, how: How, l: Rel, r: Rel): Rel {
    match how
    case Inner => RawRel(l.cols + r.cols, InnerRows(j, l.rows, r.rows))
    case Cross => RawRel(l.cols + r.cols, InnerRows(j, l.rows, r.rows))
    case Left => RawRel(l.cols + r.cols, LeftRows(j, l.rows, r.rows, r.cols))
    case Right => RawRel(l.cols + r.cols, RightRows(j, l.rows, r.rows, l.cols))
    case Full =>
      RawRel(l.cols + r.cols, LeftRows(j, l.rows, r.rows, r.cols) + Unmatched(j, l.rows, r.rows, l.cols))
    case Semi => RawRel(l.cols, SemiRows(j.(nullsMatch := false), l.rows, r.rows, true))
    case Anti => RawRel(l.cols, SemiRows(j.(nullsMatch := false), l.rows, r.rows, false))
  }

  // ---------------------------------------------------------------- plans

  datatype Plan =
    | Scan(table: string, columns: Option<set<string>>)
    | Filter(input: Plan, pred: Expr)
    | Join(left: Plan, right: Plan, onLeft: seq<string>, onRight: seq<string>, how: How, residual: Option<Expr>)
    | Project(input: Plan, items: seq<(Expr, string)>)
    | Aggregate(input: Plan, exprs: seq<Expr>, reduce: seq<seq<Value>> -> Rel)
    | Window(input: Plan, exprs: seq<Expr>, names: seq<string>, compute: (seq<seq<Value>>, nat) -> seq<Value>)
    | Sort(input: Plan, exprs: seq<Expr>, order: seq<seq<Value>> -> seq<nat>)
    | Limit(input: Plan, n: nat, offset: nat)
    | Distinct(input: Plan)
    | SetOp(left: Plan, right: Plan, combine: (Rel, Rel) -> Rel)
    | Derived(input: Plan, alias: string)

  /** An empty column set reads every column, as the storage scan does. */
  function ScanRel(db: Database, t: string, columns: Option<set<string>>): Rel {
    if t !in db then RawRel({}, [])
    else if columns.None? || columns.value == {} then db[t]
    else RawRel(db[t].cols * columns.value, NarrowAll(db[t].rows, columns.value))
  }

  /** A row with the named values; a repeated name keeps the last. */
  function Named(names: seq<string>, vals: seq<Value>): (r: Row)
    ensures r.Keys == ColumnSet(names)
  {
    if names == [] then map[]
    else
      var n := |names| - 1;
      var rest := Named(names[..n], vals);
      assert names == names[..n] + [names[n]];
      rest[names[n] := if n < |vals| then vals[n] else Null]
  }

  function ItemExprs(items: seq<(Expr, string)>): (es: seq<Expr>)
    ensures |es| == |items|
    ensures forall i :: 0 <= i < |items| ==> es[i] == items[i].0
  {
    seq(|items|, i requires 0 <= i < |items| => items[i].0)
  }

  function ItemNames(items: seq<(Expr, string)>): (ns: seq<string>)
    ensures |ns| == |items|
    ensures forall i :: 0 <= i < |items| ==> ns[i] == items[i].1
  {
    seq(|items|, i requires 0 <= i < |items| => items[i].1)
  }

  /** One tuple of evaluated expressions per row. */
  function Tuples(rows: seq<Row>, es: seq<Expr>): (out: seq<seq<Value>>)
    ensures |out| == |rows|
    ensures forall i :: 0 <= i < |rows| ==> out[i] == EvalAll(es, rows[i])
  {
    seq(|rows|, i requires 0 <= i < |rows| => EvalAll(es, rows[i]))
  }

  function ProjectRows(rows: seq<Row>, es: seq<Expr>, names: seq<string>): (out: seq<Row>)
    ensures |out| == |rows| && AllOver(out, ColumnSet(names))
    ensures forall i :: 0 <= i < |rows| ==> out[i] == Named(names, EvalAll(es, rows[i]))
  {
    seq(|rows|, i requires 0 <= i < |rows| => Named(names, EvalAll(es, rows[i])))
  }

  function WindowRows(rows: seq<Row>, names: seq<string>, compute: nat -> seq<Value>): (out: seq<Row>)
    ensures |out| == |rows|
    ensures forall i :: 0 <= i < |rows| ==> out[i] == rows[i] + Named(names, compute(i))
  {
    seq(|rows|, i requires 0 <= i < |rows| => rows[i] + Named(names, compute(i)))
  }

  /** Reorder by a list of positions; positions out of range pick nothing. */
  function Pick(rows: seq<Row>, order: seq<nat>): (out: seq<Row>)
    ensures forall r :: r in out ==> r in rows
  {
    if order == [] then []
    else (if order[0] < |rows| then [rows[order[0]]] else []) + Pick(rows, order[1..])
  }

  function Clip(rows: seq<Row>, n: nat, offset: nat): (out: seq<Row>)
    ensures forall r :: r in out ==> r in rows
  {
    var rest := if offset <= |rows| then rows[offset..] else [];
    if n <= |rest| then rest[..n] else rest
  }

  /** LIMIT n OFFSET offset: the rows from the offset on, n of them or as many as there are. */
  lemma ClipTakes(rows: seq<Row>, n: nat, offset: nat, i: nat)
    ensures i < |Clip(rows, n, offset)| <==> i < n && offset + i < |rows|
    ensures i < |Clip(rows, n, offset)| ==> Clip(rows, n, offset)[i] == rows[offset + i]
  {
  }

  function Dedup(rows: seq<Row>): (out: seq<Row>)
    ensures forall r :: r in out <==> r in rows
  {
    if rows == [] then []
    else
      var n := |rows| - 1;
      var rest := Dedup(rows[..n]);
      if rows[n] in rows[..n] then rest else rest + [rows[n]]
  }

  function Eval(db: Database, nulls: bool, p: Plan): Rel {
    match p
    case Scan(t, columns) => ScanRel(db, t, columns)
    case Filter(q, e) => var i := Eval(db, nulls, q); RawRel(i.cols, Select(i.rows, e))
    case Join(l, r, onLeft, onRight, how, residual) =>
      JoinRel(On(onLeft, onRight, residual, nulls), how, Eval(db, nulls, l), Eval(db, nulls, r))
    case Project(q, items) =>
      RawRel(ColumnSet(ItemNames(items)), ProjectRows(Eval(db, nulls, q).rows, ItemExprs(items), ItemNames(items)))
    case Aggregate(q, es, reduce) => reduce(Tuples(Eval(db, nulls, q).rows, es))
    case Window(q, es, names, compute) =>
      var i := Eval(db, nulls, q);
      RawRel(i.cols + ColumnSet(names), WindowRows(i.rows, names, (k: nat) => compute(Tuples(i.rows, es), k)))
    case Sort(q, es, order) =>
      var i := Eval(db, nulls, q); RawRel(i.cols, Pick(i.rows, order(Tuples(i.rows, es))))
    case Limit(q, n, offset) => var i := Eval(db, nulls, q); RawRel(i.cols, Clip(i.rows, n, offset))
    case Distinct(q) => var i := Eval(db, nulls, q); RawRel(i.cols, Dedup(i.rows))
    case SetOp(l, r, combine) => combine(Eval(db, nulls, l), Eval(db, nulls, r))
    case Derived(q, _) => Eval(db, nulls, q)
  }

  // ---------------------------------------------------------------- what the operators promise

  /** WHERE keeps the rows its predicate is TRUE of, in order: FALSE and NULL both drop a row. */
  lemma {:induction false} WhereKeepsTrue(rows: seq<Row>, e: Expr)
    ensures (forall r :: r in rows ==> EvalExpr(e, r) == Bool(true)) ==> Select(rows, e) == rows
    ensures (forall r :: r in rows ==> EvalExpr(e, r) == Bool(false) || EvalExpr(e, r) == Null) ==> Select(rows, e) == []
  {
    if rows != [] {
      WhereKeepsTrue(rows[1..], e);
      assert rows[0] in rows && forall r :: r in rows[1..] ==> r in rows;
    }
  }

  /** Each selected expression stands under its own name. */
  lemma {:induction false} NamedCell(names: seq<string>, vals: seq<Value>, i: nat)
    requires i < |names| == |vals| && forall j, k :: 0 <= j < k < |names| ==> names[j] != names[k]
    ensures Cell(Named(names, vals), names[i]) == vals[i]
  {
    var n := |names| - 1;
    if i < n {
      NamedFront(names[..n], vals, vals[..n]);
      NamedCell(names[..n], vals[..n], i);
      assert names[..n][i] == names[i] && vals[..n][i] == vals[i];
    }
  }

  lemma {:induction false} NamedFront(names: seq<string>, vals: seq<Value>, front: seq<Value>)
    requires |names| == |front| <= |vals| && front == vals[..|front|]
    ensures Named(names, vals) == Named(names, front)
  {
    if names != [] {
      var n := |names| - 1;
      NamedFront(names[..n], vals, front[..n]);
      NamedFront(names[..n], front, front[..n]);
      assert front[n] == vals[n];
    }
  }

  lemma {:induction false} HitsAll(j: On, l: Row, rs: seq<Row>)
    requires j.onLeft == [] && j.onRight == [] && j.residual.None?
    ensures |Hits(j, l, rs)| == |rs|
  {
    if rs != [] { HitsAll(j, l, rs[1..]); }
  }

  lemma OneMore(a: nat, b: nat)
    ensures (a + 1) * b == a * b + b
  {
  }

  /** A cross join has every pair. */
  lemma {:induction false} CrossSize(j: On, ls: seq<Row>, rs: seq<Row>)
    requires j.onLeft == [] && j.onRight == [] && j.residual.None?
    ensures |InnerRows(j, ls, rs)| == |ls| * |rs|
  {
    if ls != [] {
      HitsAll(j, ls[0], rs);
      CrossSize(j, ls[1..], rs);
      OneMore(|ls[1..]|, |rs|);
    }
  }

  lemma CrossJoinSize(j: On, l: Rel, r: Rel)
    requires j.onLeft == [] && j.onRight == [] && j.residual.None?
    ensures |JoinRel(j, Cross, l, r).rows| == |l.rows| * |r.rows|
  {
    CrossSize(j, l.rows, r.rows);
  }

  // ---------------------------------------------------------------- putting another input under a node

  predicate Unary(p: Plan) {
    !p.Scan? && !p.Join? && !p.SetOp?
  }

  function OverInput(p: Plan, q: Plan): Plan
    requires Unary(p)
  {
    match p
    case Filter(_, e) => Filter(q, e)
    case Project(_, items) => Project(q, items)
    case Aggregate(_, es, f) => Aggregate(q, es, f)
    case Window(_, es, names, f) => Window(q, es, names, f)
    case Sort(_, es, f) => Sort(q, es, f)
    case Limit(_, n, o) => Limit(q, n, o)
    case Distinct(_) => Distinct(q)
    case Derived(_, alias) => Derived(q, alias)
  }

  /** A node evaluates its input and nothing else. */
  lemma EvalOver(db: Database, nulls: bool, p: Plan, q: Plan)
    requires Unary(p) && Eval(db, nulls, q) == Eval(db, nulls, p.input)
    ensures Eval(db, nulls, OverInput(p, q)) == Eval(db, nulls, p)
  {
    match p
    case Filter(_, _) =>
    case Project(_, _) =>
    case Aggregate(_, _, _) =>
    case Window(_, es, names, compute) =>
    case Sort(_, _, _) =>
    case Limit(_, _, _) =>
    case Distinct(_) =>
    case Derived(_, _) =>
  }

  lemma EvalJoin(db: Database, nulls: bool, l: Plan, r: Plan, onLeft: seq<string>, onRight: seq<string>, how: How, residual: Option<Expr>)
    ensures Eval(db, nulls, Join(l, r, onLeft, onRight, how, residual)) ==
            JoinRel(On(onLeft, onRight, residual, nulls), how, Eval(db, nulls, l), Eval(db, nulls, r))
  {
  }
}
