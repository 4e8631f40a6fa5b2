/**
 Projection pruning: each scan reads only the columns some node of the plan references.  Results
 are unchanged as long as a projection or aggregate stands between every scan and any operator
 that looks at whole rows.
 */
module Pruning {
  import opened Values
  import opened Plans

  function ResidualColumns(e: Option<Expr>): set<string> {
    if e.Some? then Columns(e.value) else {}
  }

  /** Every column any node of the plan mentions. */
  function Referenced(p: Plan): set<string> {
    match p
    case Scan(_, _) => {}
    case Filter(q, e) => Columns(e) + Referenced(q)
    case Project(q, items) => ColumnsAll(ItemExprs(items)) + Referenced(q)
    case Aggregate(q, es, _) => ColumnsAll(es) + Referenced(q)
    case Window(q, es, _, _) => ColumnsAll(es) + Referenced(q)
    case Sort(q, es, _) => ColumnsAll(es) + Referenced(q)
    case Join(l, r, onLeft, onRight, _, residual) =>
      ColumnSet(onLeft) + ColumnSet(onRight) + ResidualColumns(residual) + Referenced(l) + Referenced(r)
    case Limit(q, _, _) => Referenced(q)
    case Distinct(q) => Referenced(q)
    case SetOp(l, r, _) => Referenced(l) + Referenced(r)
    case Derived(q, _) => Referenced(q)
  }

  predicate Projects(p: Plan) {
    match p
    case Scan(_, _) => false
    case Project(_, _) => true
    case Aggregate(_, _, _) => true
    case Join(l, r, _, _, _, _) => Projects(l) || Projects(r)
    case SetOp(l, r, _) => Projects(l) || Projects(r)
    case _ => Projects(p.input)
  }

  function Rewrite(p: Plan, refs: set<string>, schema: Schema): Plan {
    match p
    case Scan(t, _) => Scan(t, if t in schema && schema[t] != {} then Some(refs * schema[t]) else None)
    case Join(l, r, onLeft, onRight, how, residual) =>
      Join(Rewrite(l, refs, schema), Rewrite(r, refs, schema), onLeft, onRight, how, residual)
    case SetOp(l, r, f) => SetOp(Rewrite(l, refs, schema), Rewrite(r, refs, schema), f)
    case Filter(q, e) => Filter(Rewrite(q, refs, schema), e)
    case Project(q, items) => Project(Rewrite(q, refs, schema), items)
    case Aggregate(q, es, f) => Aggregate(Rewrite(q, refs, schema), es, f)
    case Window(q, es, names, f) => Window(Rewrite(q, refs, schema), es, names, f)
    case Sort(q, es, f) => Sort(Rewrite(q, refs, schema), es, f)
    case Limit(q, n, o) => Limit(Rewrite(q, refs, schema), n, o)
    case Distinct(q) => Distinct(Rewrite(q, refs, schema))
    case Derived(q, alias) => Derived(Rewrite(q, refs, schema), alias)
  }

  /** `SELECT *` plans, plans with no schema and plans that reference nothing are left alone. */
  function Prune(p: Plan, schema: Schema): Plan {
    if !Projects(p) || schema == map[] || Referenced(p) == {} then p else Rewrite(p, Referenced(p), schema)
  }

  // ---------------------------------------------------------------- agreeing on the referenced columns

  predicate RowAgree(refs: set<string>, a: Row, b: Row) {
    Narrow(a, refs) == Narrow(b, refs)
  }

  predicate Agree(refs: set<string>, a: seq<Row>, b: seq<Row>) {
    |a| == |b| && forall i :: 0 <= i < |a| ==> RowAgree(refs, a[i], b[i])
  }

  predicate RelAgree(refs: set<string>, a: Rel, b: Rel) {
    a.cols * refs == b.cols * refs && Agree(refs, a.rows, b.rows)
  }

  lemma CellAgree(refs: set<string>, a: Row, b: Row, c: string)
    requires RowAgree(refs, a, b) && c in refs
    ensures Cell(a, c) == Cell(b, c)
  {
    assert Cell(a, c) == Cell(Narrow(a, refs), c);
    assert Cell(b, c) == Cell(Narrow(b, refs), c);
  }

  lemma EvalAgree(refs: set<string>, e: Expr, a: Row, b: Row)
    requires RowAgree(refs, a, b) && Columns(e) <= refs
    ensures EvalExpr(e, a) == EvalExpr(e, b)
  {
    forall c | c in Columns(e)
      ensures Cell(a, c) == Cell(b, c)
    {
      CellAgree(refs, a, b, c);
    }
    EvalLocal(e, a, b);
  }

  lemma EvalAllAgree(refs: set<string>, es: seq<Expr>, a: Row, b: Row)
    requires RowAgree(refs, a, b) && ColumnsAll(es) <= refs
    ensures EvalAll(es, a) == EvalAll(es, b)
  {
    forall c | c in ColumnsAll(es)
      ensures Cell(a, c) == Cell(b, c)
    {
      CellAgree(refs, a, b, c);
    }
    EvalAllLocal(es, a, b);
  }

  lemma KeyAgree(refs: set<string>, cols: seq<string>, a: Row, b: Row)
    requires RowAgree(refs, a, b) && ColumnSet(cols) <= refs
    ensures KeyOf(a, cols) == KeyOf(b, cols)
  {
    forall i | 0 <= i < |cols|
      ensures Cell(a, cols[i]) == Cell(b, cols[i])
    {
      assert cols[i] in ColumnSet(cols);
      CellAgree(refs, a, b, cols[i]);
    }
  }

  lemma MergeAgree(refs: set<string>, l: Row, l': Row, r: Row, r': Row)
    requires RowAgree(refs, l, l') && RowAgree(refs, r, r')
    ensures RowAgree(refs, l + r, l' + r')
  {
    assert Narrow(l + r, refs) == Narrow(l, refs) + Narrow(r, refs);
    assert Narrow(l' + r', refs) == Narrow(l', refs) + Narrow(r', refs);
  }

  lemma ConcatAgree(refs: set<string>, a: seq<Row>, a': seq<Row>, b: seq<Row>, b': seq<Row>)
    requires Agree(refs, a, a') && Agree(refs, b, b')
    ensures Agree(refs, a + b, a' + b')
  {
  }

  lemma TailAgree(refs: set<string>, a: seq<Row>, a': seq<Row>)
    requires Agree(refs, a, a') && a != []
    ensures a' != [] && RowAgree(refs, a[0], a'[0]) && Agree(refs, a[1..], a'[1..])
  {
  }

  // ---------------------------------------------------------------- operators respect agreement

  lemma {:induction false} SelectAgree(refs: set<string>, a: seq<Row>, a': seq<Row>, e: Expr)
    requires Agree(refs, a, a') && Columns(e) <= refs
    ensures Agree(refs, Select(a, e), Select(a', e))
  {
    if a != [] {
      TailAgree(refs, a, a');
      EvalAgree(refs, e, a[0], a'[0]);
      SelectAgree(refs, a[1..], a'[1..], e);
      ConcatAgree(refs, if Passes(e, a[0]) then [a[0]] else [], if Passes(e, a'[0]) then [a'[0]] else [],
                  Select(a[1..], e), Select(a'[1..], e));
    }
  }

  predicate OnWithin(j: On, refs: set<string>) {
    ColumnSet(j.onLeft) <= refs && ColumnSet(j.onRight) <= refs && (j.residual.Some? ==> Columns(j.residual.value) <= refs)
  }

  lemma MatchAgree(refs: set<string>, j: On, l: Row, l': Row, r: Row, r': Row)
    requires OnWithin(j, refs) && RowAgree(refs, l, l') && RowAgree(refs, r, r')
    ensures Matches(j, l, r) <==> Matches(j, l', r')
  {
    KeyAgree(refs, j.onLeft, l, l');
    KeyAgree(refs, j.onRight, r, r');
    MergeAgree(refs, l, l', r, r');
    if j.residual.Some? {
      EvalAgree(refs, j.residual.value, l + r, l' + r');
    }
  }

  lemma {:induction false} HitsAgree(refs: set<string>, j: On, l: Row, l': Row, rs: seq<Row>, rs': seq<Row>)
    requires OnWithin(j, refs) && RowAgree(refs, l, l') && Agree(refs, rs, rs')
    ensures Agree(refs, Hits(j, l, rs), Hits(j, l', rs'))
  {
    if rs != [] {
      TailAgree(refs, rs, rs');
      MatchAgree(refs, j, l, l', rs[0], rs'[0]);
      MergeAgree(refs, l, l', rs[0], rs'[0]);
      HitsAgree(refs, j, l, l', rs[1..], rs'[1..]);
      ConcatAgree(refs, if Matches(j, l, rs[0]) then [l + rs[0]] else [], if Matches(j, l', rs'[0]) then [l' + rs'[0]] else [],
                  Hits(j, l, rs[1..]), Hits(j, l', rs'[1..]));
    }
  }

  lemma {:induction false} HitsRightAgree(refs: set<string>, j: On, ls: seq<Row>, ls': seq<Row>, r: Row, r': Row)
    requires OnWithin(j, refs) && RowAgree(refs, r, r') && Agree(refs, ls, ls')
    ensures Agree(refs, HitsRight(j, ls, r), HitsRight(j, ls', r'))
  {
    if ls != [] {
      TailAgree(refs, ls, ls');
      MatchAgree(refs, j, ls[0], ls'[0], r, r');
      MergeAgree(refs, ls[0], ls'[0], r, r');
      HitsRightAgree(refs, j, ls[1..], ls'[1..], r, r');
      ConcatAgree(refs, if Matches(j, ls[0], r) then [ls[0] + r] else [], if Matches(j, ls'[0], r') then [ls'[0] + r'] else [],
                  HitsRight(j, ls[1..], r), HitsRight(j, ls'[1..], r'));
    }
  }

  lemma PadAgree(refs: set<string>, c: set<string>, c': set<string>)
    requires c * refs == c' * refs
    ensures RowAgree(refs, Pad(c), Pad(c'))
  {
    assert Narrow(Pad(c), refs) == Pad(c * refs);
    assert Narrow(Pad(c'), refs) == Pad(c' * refs);
  }

  lemma {:induction false} InnerAgree(refs: set<string>, j: On, ls: seq<Row>, ls': seq<Row>, rs: seq<Row>, rs': seq<Row>)
    requires OnWithin(j, refs) && Agree(refs, ls, ls') && Agree(refs, rs, rs')
    ensures Agree(refs, InnerRows(j, ls, rs), InnerRows(j, ls', rs'))
  {
    if ls != [] {
      TailAgree(refs, ls, ls');
      HitsAgree(refs, j, ls[0], ls'[0], rs, rs');
      InnerAgree(refs, j, ls[1..], ls'[1..], rs, rs');
      ConcatAgree(refs, Hits(j, ls[0], rs), Hits(j, ls'[0], rs'), InnerRows(j, ls[1..], rs), InnerRows(j, ls'[1..], rs'));
    }
  }

  lemma {:induction false} LeftAgree(refs: set<string>, j: On, ls: seq<Row>, ls': seq<Row>, rs: seq<Row>, rs': seq<Row>,
                                     rc: set<string>, rc': set<string>)
    requires OnWithin(j, refs) && Agree(refs, ls, ls') && Agree(refs, rs, rs') && rc * refs == rc' * refs
    ensures Agree(refs, LeftRows(j, ls, rs, rc), LeftRows(j, ls', rs', rc'))
  {
    if ls != [] {
      TailAgree(refs, ls, ls');
      HitsAgree(refs, j, ls[0], ls'[0], rs, rs');
      PadAgree(refs, rc, rc');
      MergeAgree(refs, ls[0], ls'[0], Pad(rc), Pad(rc'));
      LeftAgree(refs, j, ls[1..], ls'[1..], rs, rs', rc, rc');
      ConcatAgree(refs, LeftOf(j, ls[0], rs, rc), LeftOf(j, ls'[0], rs', rc'),
                  LeftRows(j, ls[1..], rs, rc), LeftRows(j, ls'[1..], rs', rc'));
    }
  }

  lemma {:induction false} RightAgree(refs: set<string>, j: On, ls: seq<Row>, ls': seq<Row>, rs: seq<Row>, rs': seq<Row>,
                                      lc: set<string>, lc': set<string>)
    requires OnWithin(j, refs) && Agree(refs, ls, ls') && Agree(refs, rs, rs') && lc * refs == lc' * refs
    ensures Agree(refs, RightRows(j, ls, rs, lc), RightRows(j, ls', rs', lc'))
    ensures Agree(refs, Unmatched(j, ls, rs, lc), Unmatched(j, ls', rs', lc'))
  {
    if rs != [] {
      TailAgree(refs, rs, rs');
      HitsRightAgree(refs, j, ls, ls', rs[0], rs'[0]);
      PadAgree(refs, lc, lc');
      MergeAgree(refs, Pad(lc), Pad(lc'), rs[0], rs'[0]);
      RightAgree(refs, j, ls, ls', rs[1..], rs'[1..], lc, lc');
      ConcatAgree(refs, RightOf(j, ls, rs[0], lc), RightOf(j, ls', rs'[0], lc'),
                  RightRows(j, ls, rs[1..], lc), RightRows(j, ls', rs'[1..], lc'));
      ConcatAgree(refs, if HitsRight(j, ls, rs[0]) == [] then [Pad(lc) + rs[0]] else [],
                  if HitsRight(j, ls', rs'[0]) == [] then [Pad(lc') + rs'[0]] else [],
                  Unmatched(j, ls, rs[1..], lc), Unmatched(j, ls', rs'[1..], lc'));
    }
  }

  lemma {:induction false} SemiAgree(refs: set<string>, j: On, ls: seq<Row>, ls': seq<Row>, rs: seq<Row>, rs': seq<Row>, keep: bool)
    requires OnWithin(j, refs) && Agree(refs, ls, ls') && Agree(refs, rs, rs')
    ensures Agree(refs, SemiRows(j, ls, rs, keep), SemiRows(j, ls', rs', keep))
  {
    if ls != [] {
      TailAgree(refs, ls, ls');
      HitsAgree(refs, j, ls[0], ls'[0], rs, rs');
      SemiAgree(refs, j, ls[1..], ls'[1..], rs, rs', keep);
      ConcatAgree(refs, if (Hits(j, ls[0], rs) != []) == keep then [ls[0]] else [],
                  if (Hits(j, ls'[0], rs') != []) == keep then [ls'[0]] else [],
                  SemiRows(j, ls[1..], rs, keep), SemiRows(j, ls'[1..], rs', keep));
    }
  }

  lemma JoinAgree(refs: set<string>, j: On, how: How, l: Rel, l': Rel, r: Rel, r': Rel)
    requires OnWithin(j, refs) && RelAgree(refs, l, l') && RelAgree(refs, r, r')
    ensures RelAgree(refs, JoinRel(j, how, l, r), JoinRel(j, how, l', r'))
  {
    assert (l.cols + r.cols) * refs == (l.cols * refs) + (r.cols * refs);
    assert (l'.cols + r'.cols) * refs == (l'.cols * refs) + (r'.cols * refs);
    match how
    case Inner => InnerAgree(refs, j, l.rows, l'.rows, r.rows, r'.rows);
    case Cross => InnerAgree(refs, j, l.rows, l'.rows, r.rows, r'.rows);
    case Left => LeftAgree(refs, j, l.rows, l'.rows, r.rows, r'.rows, r.cols, r'.cols);
    case Right => RightAgree(refs, j, l.rows, l'.rows, r.rows, r'.rows, l.cols, l'.cols);
    case Full =>
      LeftAgree(refs, j, l.rows, l'.rows, r.rows, r'.rows, r.cols, r'.cols);
      RightAgree(refs, j, l.rows, l'.rows, r.rows, r'.rows, l.cols, l'.cols);
      ConcatAgree(refs, LeftRows(j, l.rows, r.rows, r.cols), LeftRows(j, l'.rows, r'.rows, r'.cols),
                  Unmatched(j, l.rows, r.rows, l.cols), Unmatched(j, l'.rows, r'.rows, l'.cols));
    case Semi => SemiAgree(refs, j.(nullsMatch := false), l.rows, l'.rows, r.rows, r'.rows, true);
    case Anti => SemiAgree(refs, j.(nullsMatch := false), l.rows, l'.rows, r.rows, r'.rows, false);
  }

  lemma TuplesAgree(refs: set<string>, a: seq<Row>, a': seq<Row>, es: seq<Expr>)
    requires Agree(refs, a, a') && ColumnsAll(es) <= refs
    ensures Tuples(a, es) == Tuples(a', es)
  {
    forall i | 0 <= i < |a|
      ensures EvalAll(es, a[i]) == EvalAll(es, a'[i])
    {
      EvalAllAgree(refs, es, a[i], a'[i]);
    }
  }

  lemma {:induction false} PickAgree(refs: set<string>, a: seq<Row>, a': seq<Row>, order: seq<nat>)
    requires Agree(refs, a, a')
    ensures Agree(refs, Pick(a, order), Pick(a', order))
  {
    if order != [] {
      PickAgree(refs, a, a', order[1..]);
      ConcatAgree(refs, if order[0] < |a| then [a[order[0]]] else [], if order[0] < |a'| then [a'[order[0]]] else [],
                  Pick(a, order[1..]), Pick(a', order[1..]));
    }
  }

  lemma ClipAgree(refs: set<string>, a: seq<Row>, a': seq<Row>, n: nat, o: nat)
    requires Agree(refs, a, a')
    ensures Agree(refs, Clip(a, n, o), Clip(a', n, o))
  {
  }

  lemma WindowAgree(refs: set<string>, a: seq<Row>, a': seq<Row>, names: seq<string>, f: nat -> seq<Value>, g: nat -> seq<Value>)
    requires Agree(refs, a, a') && forall i: nat :: f(i) == g(i)
    ensures Agree(refs, WindowRows(a, names, f), WindowRows(a', names, g))
  {
    forall i | 0 <= i < |a|
      ensures RowAgree(refs, a[i] + Named(names, f(i)), a'[i] + Named(names, g(i)))
    {
      MergeAgree(refs, a[i], a'[i], Named(names, f(i)), Named(names, g(i)));
    }
  }

  // ---------------------------------------------------------------- the theorem

  /** The output has been cut down to computed columns: pruning below leaves it identical. */
  predicate Closed(p: Plan) {
    match p
    case Scan(_, _) => false
    case Project(_, _) => true
    case Aggregate(_, _, _) => true
    case SetOp(_, _, _) => true
    case Join(l, r, _, _, _, _) => Closed(l) && Closed(r)
    case _ => Closed(p.input)
  }

  /** Between a scan and its nearest projection or aggregate there are only filters, joins, sorts,
      windows and limits; DISTINCT and set operations see projected rows. */
  predicate Fine(p: Plan) {
    match p
    case Scan(_, columns) => columns.None?
    case Distinct(q) => Fine(q) && Closed(q)
    case SetOp(l, r, _) => Fine(l) && Fine(r) && Closed(l) && Closed(r)
    case Join(l, r, _, _, _, _) => Fine(l) && Fine(r)
    case _ => Fine(p.input)
  }

  lemma ScanAgree(db: Database, schema: Schema, t: string, refs: set<string>)
    requires SchemaOk(db, schema)
    ensures RelAgree(refs, ScanRel(db, t, None), ScanRel(db, t, if t in schema && schema[t] != {} then Some(refs * schema[t]) else None))
  {
    if t in db && t in schema && refs * schema[t] != {} {
      var cols := refs * schema[t];
      forall i | 0 <= i < |db[t].rows|
        ensures RowAgree(refs, db[t].rows[i], Narrow(db[t].rows[i], cols))
      {
        assert db[t].rows[i] in db[t].rows;
        assert Narrow(Narrow(db[t].rows[i], cols), refs) == Narrow(db[t].rows[i], refs);
      }
    }
  }

  lemma {:induction false} RewriteAgrees(db: Database, nulls: bool, schema: Schema, p: Plan, refs: set<string>)
    requires SchemaOk(db, schema) && Fine(p) && Referenced(p) <= refs
    ensures RelAgree(refs, Eval(db, nulls, p), Eval(db, nulls, Rewrite(p, refs, schema)))
    ensures Closed(p) ==> Eval(db, nulls, p) == Eval(db, nulls, Rewrite(p, refs, schema))
    decreases p, 1
  {
    match p
    case Scan(t, _) => ScanAgree(db, schema, t, refs);
    case Join(l, r, onLeft, onRight, how, residual) =>
      RewriteAgrees(db, nulls, schema, l, refs);
      RewriteAgrees(db, nulls, schema, r, refs);
      JoinAgree(refs, On(onLeft, onRight, residual, nulls), how, Eval(db, nulls, l), Eval(db, nulls, Rewrite(l, refs, schema)),
                Eval(db, nulls, r), Eval(db, nulls, Rewrite(r, refs, schema)));
    case SetOp(l, r, _) =>
      RewriteAgrees(db, nulls, schema, l, refs);
      RewriteAgrees(db, nulls, schema, r, refs);
    case _ => RewriteAgreesUnary(db, nulls, schema, p, refs);
  }

  lemma RewriteAgreesUnary(db: Database, nulls: bool, schema: Schema, p: Plan, refs: set<string>)
    requires SchemaOk(db, schema) && Fine(p) && Referenced(p) <= refs && Unary(p)
    ensures RelAgree(refs, Eval(db, nulls, p), Eval(db, nulls, Rewrite(p, refs, schema)))
    ensures Closed(p) ==> Eval(db, nulls, p) == Eval(db, nulls, Rewrite(p, refs, schema))
    decreases p, 0
  {
    var q' := Rewrite(p.input, refs, schema);
    RewriteAgrees(db, nulls, schema, p.input, refs);
    assert Rewrite(p, refs, schema) == OverInput(p, q');
    if Eval(db, nulls, q') == Eval(db, nulls, p.input) {
      EvalOver(db, nulls, p, q');
    } else {
      UnaryAgrees(db, nulls, p, q', refs);
    }
  }

  /** Every operator but DISTINCT respects agreement on a set of columns that holds its own. */
  lemma UnaryAgrees(db: Database, nulls: bool, p: Plan, q': Plan, refs: set<string>)
    requires Unary(p) && !p.Distinct? && Referenced(p) <= refs && RelAgree(refs, Eval(db, nulls, p.input), Eval(db, nulls, q'))
    ensures RelAgree(refs, Eval(db, nulls, p), Eval(db, nulls, OverInput(p, q')))
    ensures p.Project? || p.Aggregate? ==> Eval(db, nulls, p) == Eval(db, nulls, OverInput(p, q'))
  {
    var a, a' := Eval(db, nulls, p.input).rows, Eval(db, nulls, q').rows;
    match p
    case Filter(_, e) => SelectAgree(refs, a, a', e);
    case Project(_, items) => ProjectSame(refs, a, a', ItemExprs(items), ItemNames(items));
    case Aggregate(_, es, _) => TuplesAgree(refs, a, a', es);
    case Sort(_, es, order) =>
      TuplesAgree(refs, a, a', es);
      PickAgree(refs, a, a', order(Tuples(a, es)));
    case Window(_, es, names, compute) => WindowCase(db, nulls, p, OverInput(p, q'), refs);
    case Limit(_, n, o) => ClipAgree(refs, a, a', n, o);
    case Derived(_, _) =>
  }

  lemma WindowCase(db: Database, nulls: bool, p: Plan, p': Plan, refs: set<string>)
    requires p.Window? && p'.Window? && p' == Window(p'.input, p.exprs, p.names, p.compute) && ColumnsAll(p.exprs) <= refs
    requires RelAgree(refs, Eval(db, nulls, p.input), Eval(db, nulls, p'.input))
    ensures RelAgree(refs, Eval(db, nulls, p), Eval(db, nulls, p'))
  {
    var a, a' := Eval(db, nulls, p.input).rows, Eval(db, nulls, p'.input).rows;
    var f := (k: nat) => p.compute(Tuples(a, p.exprs), k);
    var g := (k: nat) => p.compute(Tuples(a', p.exprs), k);
    TuplesAgree(refs, a, a', p.exprs);
    WindowAgree(refs, a, a', p.names, f, g);
    assert Eval(db, nulls, p).rows == WindowRows(a, p.names, f);
    assert Eval(db, nulls, p').rows == WindowRows(a', p.names, g);
    var ns := ColumnSet(p.names);
    var c, c' := Eval(db, nulls, p.input).cols, Eval(db, nulls, p'.input).cols;
    assert (c + ns) * refs == (c * refs) + (ns * refs);
    assert (c' + ns) * refs == (c' * refs) + (ns * refs);
  }

  lemma ProjectSame(refs: set<string>, a: seq<Row>, a': seq<Row>, es: seq<Expr>, names: seq<string>)
    requires Agree(refs, a, a') && ColumnsAll(es) <= refs
    ensures ProjectRows(a, es, names) == ProjectRows(a', es, names)
  {
    forall i | 0 <= i < |a|
      ensures EvalAll(es, a[i]) == EvalAll(es, a'[i])
    {
      EvalAllAgree(refs, es, a[i], a'[i]);
    }
  }

  /** Pruning preserves the result, row for row and column for column, of every plan whose output is
      computed, and leaves plans that project nowhere as they are. */
  lemma PruningPreservesResults(db: Database, nulls: bool, schema: Schema, p: Plan)
    requires SchemaOk(db, schema) && Fine(p) && (Projects(p) ==> Closed(p))
    ensures Eval(db, nulls, Prune(p, schema)) == Eval(db, nulls, p)
  {
    if Projects(p) { RewriteAgrees(db, nulls, schema, p, Referenced(p)); }
  }

  // ---------------------------------------------------------------- what a star loses

  /** Does the pass touch the plan at all? */
  predicate Prunes(p: Plan, schema: Schema) {
    Projects(p) && schema != map[] && Referenced(p) != {}
  }

  /** Columns that reach the output straight from a scan and that nothing in the plan mentions. */
  function Lost(schema: Schema, refs: set<string>, p: Plan): set<string> {
    match p
    case Scan(t, _) => if t in schema && refs * schema[t] != {} then schema[t] - refs else {}
    case Join(l, r, _, _, how, _) =>
      if how == Semi || how == Anti then Lost(schema, refs, l) else Lost(schema, refs, l) + Lost(schema, refs, r)
    case Project(_, _) => {}
    case Aggregate(_, _, _) => {}
    case SetOp(_, _, _) => {}
    case _ => Lost(schema, refs, p.input)
  }

  /** Joined inputs share no column name, and a window's names are new. */
  ghost predicate UniqueNames(db: Database, nulls: bool, p: Plan) {
    match p
    case Scan(_, _) => true
    case Join(l, r, _, _, how, _) =>
      && UniqueNames(db, nulls, l) && UniqueNames(db, nulls, r)
      && (how != Semi && how != Anti ==> Eval(db, nulls, l).cols !! Eval(db, nulls, r).cols)
    case SetOp(l, r, _) => UniqueNames(db, nulls, l) && UniqueNames(db, nulls, r)
    case Window(q, _, names, _) => UniqueNames(db, nulls, q) && ColumnSet(names) !! Eval(db, nulls, q).cols
    case _ => UniqueNames(db, nulls, p.input)
  }

  ghost predicate Known(db: Database, schema: Schema) {
    SchemaOk(db, schema) && schema.Keys <= db.Keys
  }

  lemma {:induction false} ClosedLosesNothing(schema: Schema, refs: set<string>, p: Plan)
    requires Closed(p)
    ensures Lost(schema, refs, p) == {}
  {
    match p
    case Scan(_, _) =>
    case Project(_, _) =>
    case Aggregate(_, _, _) =>
    case SetOp(_, _, _) =>
    case Join(l, r, _, _, _, _) => ClosedLosesNothing(schema, refs, l); ClosedLosesNothing(schema, refs, r);
    case _ => ClosedLosesNothing(schema, refs, p.input);
  }

  lemma {:induction false} SemiSame(refs: set<string>, j: On, ls: seq<Row>, rs: seq<Row>, rs': seq<Row>, keep: bool)
    requires OnWithin(j, refs) && Agree(refs, rs, rs')
    ensures SemiRows(j, ls, rs, keep) == SemiRows(j, ls, rs', keep)
  {
    if ls != [] {
      HitsAgree(refs, j, ls[0], ls[0], rs, rs');
      SemiSame(refs, j, ls[1..], rs, rs', keep);
    }
  }

  /** `b` is `a` without the lost columns, row for row. */
  predicate Drops(a: Rel, b: Rel, lost: set<string>) {
    lost <= a.cols && b == RawRel(a.cols - lost, NarrowAll(a.rows, a.cols - lost))
  }

  lemma DropsNothing(a: Rel, b: Rel)
    ensures Drops(a, b, {}) <==> b == a
  {
    forall i | 0 <= i < |a.rows| ensures Narrow(a.rows[i], a.cols) == a.rows[i] {
      assert a.rows[i] in a.rows;
    }
    assert NarrowAll(a.rows, a.cols) == a.rows;
    assert a.cols - {} == a.cols;
  }

  lemma DropAgrees(refs: set<string>, a: Rel, b: Rel, lost: set<string>)
    requires Drops(a, b, lost) && refs !! lost
    ensures RelAgree(refs, a, b)
  {
    assert a.cols * refs == b.cols * refs;
    forall i | 0 <= i < |a.rows| ensures RowAgree(refs, a.rows[i], b.rows[i]) {
      assert a.rows[i] in a.rows;
      assert Narrow(Narrow(a.rows[i], a.cols - lost), refs) == Narrow(a.rows[i], refs);
    }
  }

  lemma AgreeingRow(refs: set<string>, a: Row, b: Row)
    requires RowAgree(refs, a, b) && b.Keys <= refs && a.Keys * refs == b.Keys
    ensures b == Narrow(a, b.Keys)
  {
    assert Narrow(b, refs) == b;
    assert a.Keys - refs == a.Keys - b.Keys;
  }

  lemma AgreeDrops(refs: set<string>, a: Rel, b: Rel, lost: set<string>)
    requires RelAgree(refs, a, b) && lost <= a.cols && b.cols == a.cols - lost <= refs && refs !! lost
    ensures Drops(a, b, lost)
  {
    assert a.cols * refs == b.cols;
    forall i | 0 <= i < |a.rows| ensures b.rows[i] == Narrow(a.rows[i], b.cols) {
      assert a.rows[i] in a.rows && b.rows[i] in b.rows;
      AgreeingRow(refs, a.rows[i], b.rows[i]);
    }
    assert b.rows == NarrowAll(a.rows, b.cols);
  }

  lemma {:induction false} LostUnmentioned(schema: Schema, refs: set<string>, p: Plan)
    ensures Lost(schema, refs, p) !! refs
  {
    match p
    case Scan(_, _) =>
    case Project(_, _) =>
    case Aggregate(_, _, _) =>
    case SetOp(_, _, _) =>
    case Join(l, r, _, _, _, _) => LostUnmentioned(schema, refs, l); LostUnmentioned(schema, refs, r);
    case _ => LostUnmentioned(schema, refs, p.input);
  }

  /** The rewritten plan returns the rows of the plan without the lost columns. */
  ghost predicate Loses(db: Database, nulls: bool, schema: Schema, refs: set<string>, p: Plan) {
    Drops(Eval(db, nulls, p), Eval(db, nulls, Rewrite(p, refs, schema)), Lost(schema, refs, p))
  }

  lemma WideDrops(refs: set<string>, j: On, how: How, l: Rel, l': Rel, r: Rel, r': Rel, a: set<string>, b: set<string>)
    requires how != Semi && how != Anti && OnWithin(j, refs) && a !! refs && b !! refs && l.cols !! r.cols
    requires Drops(l, l', a) && Drops(r, r', b)
    ensures Drops(JoinRel(j, how, l, r), JoinRel(j, how, l', r'), a + b)
  {
    var kept := (l.cols + r.cols) - (a + b);
    assert (l.cols - a) + (r.cols - b) == kept;
    DropAgrees(refs + kept, l, l', a);
    DropAgrees(refs + kept, r, r', b);
    JoinAgree(refs + kept, j, how, l, l', r, r');
    AgreeDrops(refs + kept, JoinRel(j, how, l, r), JoinRel(j, how, l', r'), a + b);
  }

  /** A semi or anti join sees no more of its right side than the columns it mentions. */
  lemma SemiRightSame(refs: set<string>, j: On, how: How, l: Rel, r: Rel, r': Rel)
    requires (how == Semi || how == Anti) && OnWithin(j, refs) && RelAgree(refs, r, r')
    ensures JoinRel(j, how, l, r) == JoinRel(j, how, l, r')
  {
    SemiSame(refs, j.(nullsMatch := false), l.rows, r.rows, r'.rows, how == Semi);
  }

  lemma SemiLeftDrops(all: set<string>, j: On, how: How, l: Rel, l': Rel, r: Rel, a: set<string>)
    requires (how == Semi || how == Anti) && OnWithin(j, all) && a !! all && l.cols - a <= all
    requires Drops(l, l', a)
    ensures Drops(JoinRel(j, how, l, r), JoinRel(j, how, l', r), a)
  {
    DropAgrees(all, l, l', a);
    JoinAgree(all, j, how, l, l', r, r);
    AgreeDrops(all, JoinRel(j, how, l, r), JoinRel(j, how, l', r), a);
  }

  lemma SemiDrops(refs: set<string>, j: On, how: How, l: Rel, l': Rel, r: Rel, r': Rel, a: set<string>)
    requires (how == Semi || how == Anti) && OnWithin(j, refs) && a !! refs
    requires Drops(l, l', a) && RelAgree(refs, r, r')
    ensures Drops(JoinRel(j, how, l, r), JoinRel(j, how, l', r'), a)
  {
    SemiLeftDrops(refs + (l.cols - a), j, how, l, l', r, a);
    SemiRightSame(refs, j, how, l', r, r');
  }

  lemma JoinLoses(db: Database, nulls: bool, schema: Schema, p: Plan, refs: set<string>)
    requires p.Join? && SchemaOk(db, schema) && Fine(p) && UniqueNames(db, nulls, p) && Referenced(p) <= refs
    requires Loses(db, nulls, schema, refs, p.left) && Loses(db, nulls, schema, refs, p.right)
    ensures Loses(db, nulls, schema, refs, p)
  {
    var j, a, b := On(p.onLeft, p.onRight, p.residual, nulls), Lost(schema, refs, p.left), Lost(schema, refs, p.right);
    var l, r := Eval(db, nulls, p.left), Eval(db, nulls, p.right);
    var l', r' := Eval(db, nulls, Rewrite(p.left, refs, schema)), Eval(db, nulls, Rewrite(p.right, refs, schema));
    EvalJoin(db, nulls, p.left, p.right, p.onLeft, p.onRight, p.how, p.residual);
    EvalJoin(db, nulls, Rewrite(p.left, refs, schema), Rewrite(p.right, refs, schema), p.onLeft, p.onRight, p.how, p.residual);
    LostUnmentioned(schema, refs, p.left);
    LostUnmentioned(schema, refs, p.right);
    if p.how == Semi || p.how == Anti {
      RewriteAgrees(db, nulls, schema, p.right, refs);
      SemiDrops(refs, j, p.how, l, l', r, r', a);
    } else {
      WideDrops(refs, j, p.how, l, l', r, r', a, b);
    }
  }

  /** An operator's output columns, given its input's. */
  lemma UnaryColumns(db: Database, nulls: bool, p: Plan, q': Plan, lost: set<string>)
    requires Unary(p) && !p.Project? && !p.Aggregate? && UniqueNames(db, nulls, p)
    requires lost <= Eval(db, nulls, p.input).cols && Eval(db, nulls, q').cols == Eval(db, nulls, p.input).cols - lost
    ensures lost <= Eval(db, nulls, p).cols && Eval(db, nulls, OverInput(p, q')).cols == Eval(db, nulls, p).cols - lost
  {
    if p.Window? {
      var c, ns := Eval(db, nulls, p.input).cols, ColumnSet(p.names);
      assert (c - lost) + ns == (c + ns) - lost;
    }
  }

  lemma UnaryLoses(db: Database, nulls: bool, schema: Schema, p: Plan, refs: set<string>)
    requires Unary(p) && !p.Project? && !p.Aggregate?
    requires SchemaOk(db, schema) && Fine(p) && UniqueNames(db, nulls, p) && Referenced(p) <= refs
    requires Loses(db, nulls, schema, refs, p.input)
    ensures Loses(db, nulls, schema, refs, p)
  {
    var q', lost := Rewrite(p.input, refs, schema), Lost(schema, refs, p.input);
    assert Rewrite(p, refs, schema) == OverInput(p, q') && Lost(schema, refs, p) == lost;
    var a, b := Eval(db, nulls, p.input), Eval(db, nulls, q');
    if p.Distinct? {
      ClosedLosesNothing(schema, refs, p.input);
      DropsNothing(a, b);
      EvalOver(db, nulls, p, q');
      DropsNothing(Eval(db, nulls, p), Eval(db, nulls, OverInput(p, q')));
    } else {
      var all := refs + (Eval(db, nulls, p).cols - lost);
      LostUnmentioned(schema, refs, p.input);
      DropAgrees(all, a, b, lost);
      UnaryAgrees(db, nulls, p, q', all);
      UnaryColumns(db, nulls, p, q', lost);
      AgreeDrops(all, Eval(db, nulls, p), Eval(db, nulls, OverInput(p, q')), lost);
    }
  }

  lemma ComputedLoses(db: Database, nulls: bool, schema: Schema, p: Plan, refs: set<string>)
    requires SchemaOk(db, schema) && Fine(p) && Referenced(p) <= refs && (p.SetOp? || p.Project? || p.Aggregate?)
    ensures Loses(db, nulls, schema, refs, p)
  {
    RewriteAgrees(db, nulls, schema, p, refs);
    DropsNothing(Eval(db, nulls, p), Eval(db, nulls, Rewrite(p, refs, schema)));
  }

  lemma {:induction false} RewriteLoses(db: Database, nulls: bool, schema: Schema, p: Plan, refs: set<string>)
    requires Known(db, schema) && Fine(p) && UniqueNames(db, nulls, p) && Referenced(p) <= refs
    ensures Loses(db, nulls, schema, refs, p)
  {
    match p
    case Scan(t, _) => ScanLoses(db, schema, t, refs);
    case Join(l, r, _, _, _, _) =>
      RewriteLoses(db, nulls, schema, l, refs);
      RewriteLoses(db, nulls, schema, r, refs);
      JoinLoses(db, nulls, schema, p, refs);
    case SetOp(_, _, _) => ComputedLoses(db, nulls, schema, p, refs);
    case Project(_, _) => ComputedLoses(db, nulls, schema, p, refs);
    case Aggregate(_, _, _) => ComputedLoses(db, nulls, schema, p, refs);
    case _ =>
      RewriteLoses(db, nulls, schema, p.input, refs);
      UnaryLoses(db, nulls, schema, p, refs);
  }

  lemma ScanLoses(db: Database, schema: Schema, t: string, refs: set<string>)
    requires Known(db, schema)
    ensures Drops(ScanRel(db, t, None), ScanRel(db, t, if t in schema && schema[t] != {} then Some(refs * schema[t]) else None),
                  Lost(schema, refs, Scan(t, None)))
  {
    if t in schema && refs * schema[t] != {} {
      assert schema[t] - (schema[t] - refs) == refs * schema[t] == db[t].cols * (refs * schema[t]);
    } else {
      DropsNothing(ScanRel(db, t, None), ScanRel(db, t, None));
    }
  }

  /** Pruning leaves the result alone exactly when it does nothing or loses no column: nothing that
      reaches the output straight from a scan goes unmentioned.  Plan and schema decide. */
  lemma PruningPreservesIff(db: Database, nulls: bool, schema: Schema, p: Plan)
    requires Known(db, schema) && Fine(p) && UniqueNames(db, nulls, p)
    ensures Eval(db, nulls, Prune(p, schema)) == Eval(db, nulls, p) <==>
            !Prunes(p, schema) || Lost(schema, Referenced(p), p) == {}
  {
    if Prunes(p, schema) {
      RewriteLoses(db, nulls, schema, p, Referenced(p));
      var lost := Lost(schema, Referenced(p), p);
      if lost != {} {
        var c :| c in lost;
        assert c in Eval(db, nulls, p).cols && c !in Eval(db, nulls, Prune(p, schema)).cols;
      } else {
        DropsNothing(Eval(db, nulls, p), Eval(db, nulls, Prune(p, schema)));
      }
    }
  }

  /** SELECT * FROM t WHERE k IN (SELECT k FROM s) */
  const STAR := Join(Scan("t", None), Project(Scan("s", None), [(Col("k"), "k")]), ["k"], ["k"], Semi, None)

  const STAR_SCHEMA: Schema := map["t" := {"k", "v"}, "s" := {"k"}]

  lemma StarRefers()
    ensures Referenced(STAR) == {"k"}
  {
    var items := [(Col("k"), "k")];
    assert ItemExprs(items) == [Col("k")];
    assert [Col("k")][1..] == [];
    assert ColumnsAll([Col("k")]) == {"k"} + {};
    assert ColumnSet(["k"]) == {"k"} by { assert ["k"][0] == "k"; }
  }

  /** A star over a subquery: the subquery's projection switches pruning on, the star has none of its
      own, and a column of t is gone from the result of every database. */
  lemma StarOverSubqueryCounterexample(db: Database, nulls: bool)
    requires Known(db, STAR_SCHEMA)
    ensures Fine(STAR) && "v" in Eval(db, nulls, STAR).cols && "v" !in Eval(db, nulls, Prune(STAR, STAR_SCHEMA)).cols
  {
    StarRefers();
    assert "t" in STAR_SCHEMA && "k" in STAR_SCHEMA["t"] && "k" in Referenced(STAR);
    assert "k" in Referenced(STAR) * STAR_SCHEMA["t"];
    RewriteLoses(db, nulls, STAR_SCHEMA, STAR, Referenced(STAR));
    assert Lost(STAR_SCHEMA, {"k"}, STAR) == {"k", "v"} - {"k"};
  }

  // ---------------------------------------------------------------- DISTINCT over rows that lose columns

  lemma {:induction false} DedupSize(rows: seq<Row>)
    ensures |Dedup(rows)| == |RowSet(rows)|
  {
    if rows == [] {
      assert RowSet(rows) == {};
    } else {
      var n := |rows| - 1;
      var front, x := rows[..n], rows[n];
      DedupSize(front);
      assert rows == front + [x];
      assert RowSet(rows) == RowSet(front) + {x};
      assert x in front <==> x in RowSet(front);
      if x in front { assert RowSet(rows) == RowSet(front); }
    }
  }

  function Cuts(rows: set<Row>, cols: set<string>): set<Row> {
    set r | r in rows :: Narrow(r, cols)
  }

  predicate TellsApart(rows: set<Row>, cols: set<string>) {
    forall a, b :: a in rows && b in rows && a != b ==> Narrow(a, cols) != Narrow(b, cols)
  }

  /** Narrowing keeps the number of distinct rows exactly when it keeps them apart. */
  lemma {:induction false} CutsSize(rows: set<Row>, cols: set<string>)
    ensures |Cuts(rows, cols)| <= |rows|
    ensures |Cuts(rows, cols)| == |rows| <==> TellsApart(rows, cols)
  {
    if rows == {} {
      assert Cuts(rows, cols) == {};
    } else {
      var x :| x in rows;
      var rest := rows - {x};
      CutsSize(rest, cols);
      assert Cuts(rows, cols) == Cuts(rest, cols) + {Narrow(x, cols)};
      assert TellsApart(rows, cols) <==> TellsApart(rest, cols) && Narrow(x, cols) !in Cuts(rest, cols) by {
        ApartAdd(rows, x, cols);
      }
    }
  }

  lemma ApartAdd(rows: set<Row>, x: Row, cols: set<string>)
    requires x in rows
    ensures TellsApart(rows, cols) <==> TellsApart(rows - {x}, cols) && Narrow(x, cols) !in Cuts(rows - {x}, cols)
  {
    var rest := rows - {x};
    if TellsApart(rest, cols) && Narrow(x, cols) !in Cuts(rest, cols) {
      forall a, b | a in rows && b in rows && a != b ensures Narrow(a, cols) != Narrow(b, cols) {
        if a == x { assert Narrow(b, cols) in Cuts(rest, cols); }
        if b == x { assert Narrow(a, cols) in Cuts(rest, cols); }
      }
    }
  }

  /** DISTINCT over narrowed rows returns as many as over the whole ones exactly when the columns left
      tell the rows apart. */
  lemma DistinctRowsIff(rows: seq<Row>, cols: set<string>)
    ensures |Dedup(NarrowAll(rows, cols))| == |Dedup(rows)| <==> TellsApart(RowSet(rows), cols)
  {
    DedupSize(rows);
    DedupSize(NarrowAll(rows, cols));
    CutsSize(RowSet(rows), cols);
    var cut := NarrowAll(rows, cols);
    forall c ensures c in RowSet(cut) <==> c in Cuts(RowSet(rows), cols) {
      if c in RowSet(cut) {
        var i :| 0 <= i < |cut| && cut[i] == c;
        assert rows[i] in RowSet(rows);
      }
      if c in Cuts(RowSet(rows), cols) {
        var r :| r in RowSet(rows) && Narrow(r, cols) == c;
        var i :| 0 <= i < |rows| && rows[i] == r;
        assert cut[i] == c;
      }
    }
    assert RowSet(cut) == Cuts(RowSet(rows), cols);
  }

  lemma DedupSnoc(rows: seq<Row>, x: Row)
    ensures Dedup(rows + [x]) == if x in rows then Dedup(rows) else Dedup(rows) + [x]
  {
    assert (rows + [x])[..|rows|] == rows;
  }

  /** Where the columns tell rows apart, narrowing commutes with DISTINCT. */
  lemma {:induction false} DedupNarrow(rows: seq<Row>, cols: set<string>)
    requires TellsApart(RowSet(rows), cols)
    ensures Dedup(NarrowAll(rows, cols)) == NarrowAll(Dedup(rows), cols)
  {
    if rows != [] {
      var n := |rows| - 1;
      var front, x := rows[..n], rows[n];
      assert rows == front + [x];
      assert x in RowSet(rows) && forall r :: r in front ==> r in RowSet(rows);
      assert TellsApart(RowSet(front), cols);
      DedupNarrow(front, cols);
      NarrowMember(front, x, cols);
      NarrowAllConcat(front, [x], cols);
      NarrowAllConcat(Dedup(front), [x], cols);
      assert NarrowAll([x], cols) == [Narrow(x, cols)];
      DedupSnoc(front, x);
      DedupSnoc(NarrowAll(front, cols), Narrow(x, cols));
    }
  }

  lemma NarrowMember(front: seq<Row>, x: Row, cols: set<string>)
    requires forall r :: r in front && r != x ==> Narrow(r, cols) != Narrow(x, cols)
    ensures Narrow(x, cols) in NarrowAll(front, cols) <==> x in front
  {
    var cut := NarrowAll(front, cols);
    if Narrow(x, cols) in cut {
      var i :| 0 <= i < |cut| && cut[i] == Narrow(x, cols);
      assert front[i] in front;
    }
    if x in front {
      var i :| 0 <= i < |front| && front[i] == x;
      assert cut[i] == Narrow(x, cols);
    }
  }

  /** The columns that q still has once the whole plan is pruned. */
  ghost function Kept(db: Database, nulls: bool, schema: Schema, refs: set<string>, q: Plan): set<string> {
    Eval(db, nulls, q).cols - Lost(schema, refs, q)
  }

  lemma ProjectEval(db: Database, nulls: bool, q: Plan, items: seq<(Expr, string)>)
    ensures Eval(db, nulls, Project(q, items)) ==
            RawRel(ColumnSet(ItemNames(items)), ProjectRows(Eval(db, nulls, q).rows, ItemExprs(items), ItemNames(items)))
  {
  }

  lemma DistinctEval(db: Database, nulls: bool, q: Plan)
    ensures Eval(db, nulls, Distinct(q)) == RawRel(Eval(db, nulls, q).cols, Dedup(Eval(db, nulls, q).rows))
  {
  }

  lemma PrunedDistinct(schema: Schema, q: Plan, items: seq<(Expr, string)>, refs: set<string>)
    requires refs == Referenced(Project(Distinct(q), items)) && Prunes(Project(Distinct(q), items), schema)
    ensures Prune(Project(Distinct(q), items), schema) == Project(Distinct(Rewrite(q, refs, schema)), items)
    ensures refs == ColumnsAll(ItemExprs(items)) + Referenced(q)
  {
    assert Referenced(Distinct(q)) == Referenced(q);
    assert Rewrite(Distinct(q), refs, schema) == Distinct(Rewrite(q, refs, schema));
  }

  /** SELECT items FROM (SELECT DISTINCT * FROM ...): pruning leaves the result alone exactly when it
      does nothing, or the columns that are left tell the rows under the DISTINCT apart. */
  lemma DistinctIff(db: Database, nulls: bool, schema: Schema, q: Plan, items: seq<(Expr, string)>)
    requires Known(db, schema) && Fine(q) && UniqueNames(db, nulls, q)
    ensures var p := Project(Distinct(q), items);
            Eval(db, nulls, Prune(p, schema)) == Eval(db, nulls, p) <==>
            || !Prunes(p, schema)
            || TellsApart(RowSet(Eval(db, nulls, q).rows), Kept(db, nulls, schema, Referenced(p), q))
  {
    var p := Project(Distinct(q), items);
    if Prunes(p, schema) {
      var refs := Referenced(p);
      var q' := Rewrite(q, refs, schema);
      PrunedDistinct(schema, q, items, refs);
      RewriteLoses(db, nulls, schema, q, refs);
      LostUnmentioned(schema, refs, q);
      DistinctEval(db, nulls, q);
      DistinctEval(db, nulls, q');
      ProjectEval(db, nulls, Distinct(q), items);
      ProjectEval(db, nulls, Distinct(q'), items);
      ProjectedDistinctIff(refs, Eval(db, nulls, q), Eval(db, nulls, q'), Lost(schema, refs, q), ItemExprs(items), ItemNames(items));
    }
  }

  lemma ProjectedDistinctIff(refs: set<string>, a: Rel, b: Rel, lost: set<string>, es: seq<Expr>, names: seq<string>)
    requires Drops(a, b, lost) && lost !! refs && ColumnsAll(es) <= refs
    ensures ProjectRows(Dedup(b.rows), es, names) == ProjectRows(Dedup(a.rows), es, names) <==>
            TellsApart(RowSet(a.rows), a.cols - lost)
  {
    var cols := a.cols - lost;
    DistinctRowsIff(a.rows, cols);
    if TellsApart(RowSet(a.rows), cols) {
      DedupNarrow(a.rows, cols);
      var distinct: Rel := RawRel(a.cols, Dedup(a.rows));
      DropAgrees(refs, distinct, RawRel(cols, NarrowAll(Dedup(a.rows), cols)), lost);
      ProjectSame(refs, Dedup(a.rows), NarrowAll(Dedup(a.rows), cols), es, names);
    }
  }

  /** A DISTINCT on top, with nothing above it, loses what its input loses. */
  lemma TopDistinctIff(db: Database, nulls: bool, schema: Schema, q: Plan)
    requires Known(db, schema) && Fine(q) && UniqueNames(db, nulls, q)
    ensures Eval(db, nulls, Prune(Distinct(q), schema)) == Eval(db, nulls, Distinct(q)) <==>
            !Prunes(Distinct(q), schema) || Lost(schema, Referenced(q), q) == {}
  {
    if Prunes(Distinct(q), schema) {
      var q', lost := Rewrite(q, Referenced(q), schema), Lost(schema, Referenced(q), q);
      assert Prune(Distinct(q), schema) == Distinct(q');
      RewriteLoses(db, nulls, schema, q, Referenced(q));
      DistinctEval(db, nulls, q);
      DistinctEval(db, nulls, q');
      if lost == {} {
        DropsNothing(Eval(db, nulls, q), Eval(db, nulls, q'));
      } else {
        assert Eval(db, nulls, q').cols != Eval(db, nulls, q).cols;
      }
    }
  }

  // ---------------------------------------------------------------- where it fails

  const A: Row := map["k" := Int(1), "v" := Int(1)]
  const B: Row := map["k" := Int(1), "v" := Int(2)]
  const CUT: Row := map["k" := Int(1)]

  const DB: Database := map["t" := RawRel({"k", "v"}, [A, B])]

  /** SELECT k FROM (SELECT DISTINCT * FROM t) */
  const QUERY := Project(Distinct(Scan("t", None)), [(Col("k"), "k")])

  lemma DedupPair(a: Row, b: Row)
    ensures Dedup([a, b]) == if a == b then [a] else [a, b]
  {
    var none: seq<Row> := [];
    assert [a, b][..1] == [a] && [a][..0] == none;
    assert Dedup([a]) == none + [a];
  }

  lemma QueryShape()
    ensures Prune(QUERY, map["t" := {"k", "v"}]) == Project(Distinct(Scan("t", Some({"k"}))), [(Col("k"), "k")])
  {
    var items := [(Col("k"), "k")];
    assert ItemExprs(items) == [Col("k")];
    assert [Col("k")][1..] == [];
    assert ColumnsAll([Col("k")]) == {"k"} + {};
    assert Referenced(QUERY) == {"k"};
    var schema: Schema := map["t" := {"k", "v"}];
    assert "t" in schema && "k" in schema["t"];
    assert {"k"} * schema["t"] == {"k"};
    assert "k" in Referenced(QUERY);
  }

  lemma CutScan()
    ensures ScanRel(DB, "t", Some({"k"})).rows == [CUT, CUT]
  {
    assert Narrow(A, {"k"}) == CUT && Narrow(B, {"k"}) == CUT;
    assert NarrowAll([A, B], {"k"}) == [CUT, CUT];
  }

  /** DISTINCT directly over a scan is where it would fail: two rows that differ only in an
      unreferenced column collapse once that column is gone. */
  lemma DistinctOverScanCounterexample()
    ensures |Eval(DB, false, QUERY).rows| == 2
    ensures |Eval(DB, false, Prune(QUERY, map["t" := {"k", "v"}])).rows| == 1
  {
    QueryShape();
    CutScan();
    assert A["v"] != B["v"];
    DedupPair(A, B);
    DedupPair(CUT, CUT);
    DistinctSize(None, [A, B]);
    DistinctSize(Some({"k"}), [CUT, CUT]);
  }

  lemma DistinctSize(columns: Option<set<string>>, rows: seq<Row>)
    requires ScanRel(DB, "t", columns).rows == rows
    ensures |Eval(DB, false, Project(Distinct(Scan("t", columns)), [(Col("k"), "k")])).rows| == |Dedup(rows)|
  {
    assert Eval(DB, false, Distinct(Scan("t", columns))).rows == Dedup(rows);
  }
}
