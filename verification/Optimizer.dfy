/**
 The optimizer as a whole: pushdown, then pruning, then side selection.  Its conditions are stated
 on the plan it is given and carried from pass to pass.
 */
module Optimizer {
  import opened Values
  import opened Plans
  import opened JoinBags
  import opened Sides
  import Pushdown
  import Pruning

  ghost function Optimize(p: Plan, schema: Schema, stats: Stats): Plan {
    SelectJoinSides(Pruning.Prune(Pushdown.PushPredicates(schema, p), schema), stats)
  }

  // ---------------------------------------------------------------- output columns

  /** The columns of a plan, read off the plan. */
  ghost function Cols(db: Database, p: Plan): set<string> {
    match p
    case Scan(t, columns) => ScanRel(db, t, columns).cols
    case Join(l, r, _, _, how, _) => if how == Semi || how == Anti then Cols(db, l) else Cols(db, l) + Cols(db, r)
    case Project(_, items) => ColumnSet(ItemNames(items))
    case Aggregate(_, _, f) => f([]).cols
    case Window(q, _, names, _) => Cols(db, q) + ColumnSet(names)
    case SetOp(l, _, _) => Cols(db, l)
    case _ => Cols(db, p.input)
  }

  ghost predicate FixedColumns(f: seq<seq<Value>> -> Rel) {
    forall s :: f(s).cols == f([]).cols
  }

  /** A set operation keeps its left input's names. */
  ghost predicate LeftColumns(f: (Rel, Rel) -> Rel) {
    forall a: Rel, b: Rel :: f(a, b).cols == a.cols
  }

  /** Joined inputs share no column name, every operator above a join works on bags, and a LIMIT stands
      over no join (`OptimizePreservesTopRows` is about ORDER BY ... LIMIT at the top). */
  ghost predicate Tame(db: Database, p: Plan) {
    match p
    case Scan(_, _) => true
    case Join(l, r, _, _, how, _) => Tame(db, l) && Tame(db, r) && (how != Semi && how != Anti ==> Cols(db, l) !! Cols(db, r))
    case SetOp(l, r, f) => Tame(db, l) && Tame(db, r) && SetOpIgnoresOrder(f) && LeftColumns(f)
    case Aggregate(q, _, f) => Tame(db, q) && AggregateIgnoresOrder(f) && FixedColumns(f)
    case Window(q, _, _, f) => Tame(db, q) && WindowIgnoresOrder(f)
    case Sort(q, _, f) => Tame(db, q) && SortPermutes(f)
    case Limit(q, _, _) => Tame(db, q) && NoJoin(q)
    case _ => Tame(db, p.input)
  }

  lemma {:induction false} TameMeans(db: Database, nulls: bool, p: Plan)
    requires Tame(db, p)
    ensures OrderFree(db, nulls, p) && Eval(db, nulls, p).cols == Cols(db, p)
  {
    match p
    case Scan(_, _) =>
    case Join(l, r, _, _, _, _) => TameMeans(db, nulls, l); TameMeans(db, nulls, r);
    case SetOp(l, r, _) => TameMeans(db, nulls, l); TameMeans(db, nulls, r);
    case _ => TameMeans(db, nulls, p.input);
  }

  // ---------------------------------------------------------------- what pushdown keeps

  /** Same columns, and no worse placed for side selection. */
  ghost predicate KeepsPlace(db: Database, p: Plan, p': Plan) {
    && Cols(db, p') == Cols(db, p)
    && (Tame(db, p) ==> Tame(db, p'))
    && (NoJoin(p) ==> NoJoin(p'))
  }

  /** No worse placed for pruning. */
  predicate KeepsCover(p: Plan, p': Plan) {
    && (Pruning.Fine(p) ==> Pruning.Fine(p')) && (Pruning.Closed(p) ==> Pruning.Closed(p'))
    && (Pruning.Projects(p') ==> Pruning.Projects(p))
  }

  ghost predicate Keeps(db: Database, p: Plan, p': Plan) {
    KeepsPlace(db, p, p') && KeepsCover(p, p')
  }

  lemma UnaryKeepsPlace(db: Database, p: Plan, q: Plan)
    requires Unary(p) && KeepsPlace(db, p.input, q)
    ensures KeepsPlace(db, p, OverInput(p, q))
  {
    match p
    case Filter(_, _) =>
    case Project(_, _) =>
    case Aggregate(_, _, _) =>
    case Window(_, _, _, _) =>
    case Sort(_, _, _) =>
    case Limit(_, _, _) =>
    case Distinct(_) =>
    case Derived(_, _) =>
  }

  lemma UnaryKeepsCover(p: Plan, q: Plan)
    requires Unary(p) && KeepsCover(p.input, q)
    ensures KeepsCover(p, OverInput(p, q))
  {
    match p
    case Filter(_, _) =>
    case Project(_, _) =>
    case Aggregate(_, _, _) =>
    case Window(_, _, _, _) =>
    case Sort(_, _, _) =>
    case Limit(_, _, _) =>
    case Distinct(_) =>
    case Derived(_, _) =>
  }

  lemma UnaryKeeps(db: Database, p: Plan, q: Plan)
    requires Unary(p) && Keeps(db, p.input, q)
    ensures Keeps(db, p, OverInput(p, q))
  {
    UnaryKeepsPlace(db, p, q);
    UnaryKeepsCover(p, q);
  }

  lemma JoinKeeps(db: Database, p: Plan, l: Plan, r: Plan)
    requires p.Join? && Keeps(db, p.left, l) && Keeps(db, p.right, r)
    ensures Keeps(db, p, Join(l, r, p.onLeft, p.onRight, p.how, p.residual))
  {
  }

  lemma SetOpKeeps(db: Database, p: Plan, l: Plan, r: Plan)
    requires p.SetOp? && Keeps(db, p.left, l) && Keeps(db, p.right, r)
    ensures Keeps(db, p, SetOp(l, r, p.combine))
  {
  }

  lemma InsertOver(p: Plan, m: Pushdown.PerTable)
    requires Unary(p) && !p.Derived?
    ensures Pushdown.Insert(p, m) == OverInput(p, Pushdown.Insert(p.input, m))
  {
  }

  lemma {:induction false} InsertKeeps(db: Database, p: Plan, m: Pushdown.PerTable)
    ensures Keeps(db, p, Pushdown.Insert(p, m))
  {
    if p.Join? || p.SetOp? {
      var ml, mr := Pushdown.Restrict(m, Pushdown.SubtreeTables(p.left)), Pushdown.Restrict(m, Pushdown.SubtreeTables(p.right));
      InsertKeeps(db, p.left, ml);
      InsertKeeps(db, p.right, mr);
      if p.Join? {
        JoinKeeps(db, p, Pushdown.Insert(p.left, ml), Pushdown.Insert(p.right, mr));
      } else {
        SetOpKeeps(db, p, Pushdown.Insert(p.left, ml), Pushdown.Insert(p.right, mr));
      }
    } else if Unary(p) && !p.Derived? {
      InsertKeeps(db, p.input, m);
      UnaryKeeps(db, p, Pushdown.Insert(p.input, m));
      InsertOver(p, m);
    }
  }

  lemma PushFilterKeeps(db: Database, schema: Schema, q: Plan, q': Plan, e: Expr)
    requires Keeps(db, q, q') && q'.Join?
    ensures Keeps(db, Filter(q, e), Pushdown.PushFilter(schema, q', e))
  {
    var r := Pushdown.Route(schema, Pushdown.ShapeOf(q'), Pushdown.SplitAnd(e));
    InsertKeeps(db, q', r.pushable);
  }

  lemma {:induction false} PushKeeps(db: Database, schema: Schema, p: Plan)
    ensures Keeps(db, p, Pushdown.PushPredicates(schema, p))
  {
    if p.Join? || p.SetOp? {
      PushKeeps(db, schema, p.left);
      PushKeeps(db, schema, p.right);
      var l, r := Pushdown.PushPredicates(schema, p.left), Pushdown.PushPredicates(schema, p.right);
      if p.Join? { JoinKeeps(db, p, l, r); } else { SetOpKeeps(db, p, l, r); }
    } else if Unary(p) {
      PushKeeps(db, schema, p.input);
      var q := Pushdown.PushPredicates(schema, p.input);
      if p.Filter? && q.Join? {
        PushFilterKeeps(db, schema, p.input, q, p.pred);
      } else {
        UnaryKeeps(db, p, q);
        Pushdown.PushOver(schema, p);
      }
    }
  }

  // ---------------------------------------------------------------- what pruning keeps

  /** Still tame, with no column or join it did not have. */
  ghost predicate Shrinks(db: Database, p: Plan, p': Plan) {
    Tame(db, p') && Cols(db, p') <= Cols(db, p) && (NoJoin(p) ==> NoJoin(p'))
  }

  lemma UnaryShrinks(db: Database, p: Plan, q: Plan)
    requires Unary(p) && Tame(db, p) && Shrinks(db, p.input, q)
    ensures Shrinks(db, p, OverInput(p, q))
  {
    match p
    case Filter(_, _) =>
    case Project(_, _) =>
    case Aggregate(_, _, _) =>
    case Window(_, _, _, _) =>
    case Sort(_, _, _) =>
    case Limit(_, _, _) =>
    case Distinct(_) =>
    case Derived(_, _) =>
  }

  lemma JoinShrinks(db: Database, p: Plan, l: Plan, r: Plan)
    requires p.Join? && Tame(db, p) && Shrinks(db, p.left, l) && Shrinks(db, p.right, r)
    ensures Shrinks(db, p, Join(l, r, p.onLeft, p.onRight, p.how, p.residual))
  {
  }

  lemma SetOpShrinks(db: Database, p: Plan, l: Plan, r: Plan)
    requires p.SetOp? && Tame(db, p) && Shrinks(db, p.left, l) && Shrinks(db, p.right, r)
    ensures Shrinks(db, p, SetOp(l, r, p.combine))
  {
  }

  lemma RewriteOver(p: Plan, refs: set<string>, schema: Schema)
    requires Unary(p)
    ensures Pruning.Rewrite(p, refs, schema) == OverInput(p, Pruning.Rewrite(p.input, refs, schema))
  {
  }

  lemma {:induction false} RewriteKeeps(db: Database, schema: Schema, p: Plan, refs: set<string>)
    requires Tame(db, p) && Pruning.Fine(p)
    ensures Shrinks(db, p, Pruning.Rewrite(p, refs, schema))
  {
    if p.Join? || p.SetOp? {
      RewriteKeeps(db, schema, p.left, refs);
      RewriteKeeps(db, schema, p.right, refs);
      var l, r := Pruning.Rewrite(p.left, refs, schema), Pruning.Rewrite(p.right, refs, schema);
      if p.Join? { JoinShrinks(db, p, l, r); } else { SetOpShrinks(db, p, l, r); }
    } else if Unary(p) {
      RewriteKeeps(db, schema, p.input, refs);
      UnaryShrinks(db, p, Pruning.Rewrite(p.input, refs, schema));
      RewriteOver(p, refs, schema);
    }
  }

  // ---------------------------------------------------------------- the whole optimizer

  /** Optimizing a query leaves the bag of its named rows alone, for every database and any
      statistics. */
  lemma OptimizePreservesBag(db: Database, nulls: bool, p: Plan, schema: Schema, stats: Stats)
    requires SchemaOk(db, schema) && Pushdown.PlanOk(db, nulls, schema, p)
    requires Pruning.Fine(p) && (Pruning.Projects(p) ==> Pruning.Closed(p)) && Tame(db, p)
    ensures SameBag(Eval(db, nulls, Optimize(p, schema, stats)), Eval(db, nulls, p))
  {
    var pushed := Pushdown.PushPredicates(schema, p);
    Pushdown.PushdownPreservesResults(db, nulls, schema, p);
    PushKeeps(db, schema, p);
    var pruned := Pruning.Prune(pushed, schema);
    Pruning.PruningPreservesResults(db, nulls, schema, pushed);
    RewriteKeeps(db, schema, pushed, Pruning.Referenced(pushed));
    TameMeans(db, nulls, pruned);
    SideSelectionPreservesBag(db, nulls, pruned, stats);
  }

  /** The first passes on a sorted, limited query: its input is rewritten to one that is tame again
      and returns the same relation. */
  lemma TopInput(db: Database, nulls: bool, q: Plan, es: seq<Expr>, order: seq<seq<Value>> -> seq<nat>, n: nat, o: nat, schema: Schema)
    returns (q2: Plan)
    requires SchemaOk(db, schema) && Pushdown.PlanOk(db, nulls, schema, q)
    requires Pruning.Fine(q) && (Pruning.Projects(q) ==> Pruning.Closed(q)) && Tame(db, q)
    ensures Pruning.Prune(Pushdown.PushPredicates(schema, Limit(Sort(q, es, order), n, o)), schema) == Limit(Sort(q2, es, order), n, o)
    ensures Eval(db, nulls, q2) == Eval(db, nulls, q) && Tame(db, q2)
  {
    var p := Limit(Sort(q, es, order), n, o);
    var q1 := Pushdown.PushPredicates(schema, q);
    Pushdown.PushdownPreservesResults(db, nulls, schema, q);
    PushKeeps(db, schema, q);
    Pushdown.PushOver(schema, Sort(q, es, order));
    Pushdown.PushOver(schema, p);
    var p1 := Limit(Sort(q1, es, order), n, o);
    q2 := q1;
    if Pruning.Prunes(p1, schema) {
      var refs := Pruning.Referenced(p1);
      assert Pruning.Projects(Sort(q1, es, order)) && Pruning.Projects(q1);
      assert refs == ColumnsAll(es) + Pruning.Referenced(q1) by { assert refs == Pruning.Referenced(Sort(q1, es, order)); }
      q2 := Pruning.Rewrite(q1, refs, schema);
      Pruning.RewriteAgrees(db, nulls, schema, q1, refs);
      RewriteKeeps(db, schema, q1, refs);
      assert Pruning.Rewrite(Sort(q1, es, order), refs, schema) == Sort(q2, es, order);
    }
  }

  /** SELECT ... ORDER BY ... LIMIT n: with an ORDER BY that decides, the optimized query returns the
      same rows in the same order. */
  lemma OptimizePreservesTopRows(db: Database, nulls: bool, q: Plan, es: seq<Expr>, order: seq<seq<Value>> -> seq<nat>, n: nat, o: nat,
                                 schema: Schema, stats: Stats)
    requires SchemaOk(db, schema) && Pushdown.PlanOk(db, nulls, schema, q)
    requires Pruning.Fine(q) && (Pruning.Projects(q) ==> Pruning.Closed(q)) && Tame(db, q)
    requires SortDecides(Eval(db, nulls, q).rows, es, order)
    ensures var p := Limit(Sort(q, es, order), n, o);
            Eval(db, nulls, Optimize(p, schema, stats)).rows == Eval(db, nulls, p).rows
  {
    var q2 := TopInput(db, nulls, q, es, order, n, o, schema);
    var sorted, est := Sort(q2, es, order), (x: Plan) => EstRows(stats, x);
    SortedSame(db, nulls, q2, es, order, est);
    SortOfSame(db, nulls, q, q2, es, order);
    TopRows(db, nulls, sorted, Go(sorted, est), Sort(q, es, order), n, o);
    GoOfTop(sorted, est, n, o);
  }

  lemma SortedSame(db: Database, nulls: bool, q: Plan, es: seq<Expr>, order: seq<seq<Value>> -> seq<nat>, est: Plan -> int)
    requires Tame(db, q) && SortDecides(Eval(db, nulls, q).rows, es, order)
    ensures Eval(db, nulls, Go(Sort(q, es, order), est)).rows == Eval(db, nulls, Sort(q, es, order)).rows
  {
    TameMeans(db, nulls, q);
    GoSame(db, nulls, q, est);
    SettledSame(db, nulls, Sort(q, es, order), est);
  }

  lemma SortOfSame(db: Database, nulls: bool, q: Plan, q': Plan, es: seq<Expr>, order: seq<seq<Value>> -> seq<nat>)
    requires Eval(db, nulls, q) == Eval(db, nulls, q')
    ensures Eval(db, nulls, Sort(q, es, order)) == Eval(db, nulls, Sort(q', es, order))
  {
  }

  lemma GoOfTop(sorted: Plan, est: Plan -> int, n: nat, o: nat)
    ensures Go(Limit(sorted, n, o), est) == Limit(Go(sorted, est), n, o)
  {
  }

  lemma TopRows(db: Database, nulls: bool, a: Plan, b: Plan, c: Plan, n: nat, o: nat)
    requires Eval(db, nulls, a).rows == Eval(db, nulls, b).rows == Eval(db, nulls, c).rows
    ensures Eval(db, nulls, Limit(a, n, o)).rows == Eval(db, nulls, Limit(b, n, o)).rows == Eval(db, nulls, Limit(c, n, o)).rows
  {
  }
}
