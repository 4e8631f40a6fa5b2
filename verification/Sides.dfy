/**
 Join-side selection: the side estimated smaller becomes the left (build) side.  The choice only
 moves rows around, for any estimate whatsoever, as long as nothing above a join depends on the
 order its rows arrive in.
 */
module Sides {
  import opened Values
  import opened Bags
  import opened Plans
  import opened JoinBags

  type Stats = map<string, nat>

  const UNKNOWN_ROWS := 1_000_000_000
  const MAX_ROWS := 1_000_000_000_000_000

  function Min(a: int, b: int): int {
    if a < b then a else b
  }

  function EstRows(stats: Stats, p: Plan): int {
    match p
    case Scan(t, _) => if t in stats then stats[t] else UNKNOWN_ROWS
    case Join(l, r, _, _, _, _) => Min(EstRows(stats, l) * EstRows(stats, r), MAX_ROWS)
    case SetOp(l, r, _) => Min(EstRows(stats, l) + EstRows(stats, r), MAX_ROWS)
    case _ => EstRows(stats, p.input)
  }

  function Choose(l: Plan, r: Plan, onLeft: seq<string>, onRight: seq<string>, how: How, residual: Option<Expr>,
                  est: Plan -> int): Plan
  {
    if how == Semi || how == Anti || est(l) <= est(r)
    then Join(l, r, onLeft, onRight, how, residual)
    else Join(r, l, onRight, onLeft, FlipHow(how), residual)
  }

  function Go(p: Plan, est: Plan -> int): Plan {
    match p
    case Scan(_, _) => p
    case Join(l, r, onLeft, onRight, how, residual) => Choose(Go(l, est), Go(r, est), onLeft, onRight, how, residual, est)
    case SetOp(l, r, f) => SetOp(Go(l, est), Go(r, est), f)
    case Filter(q, e) => Filter(Go(q, est), e)
    case Project(q, items) => Project(Go(q, est), items)
    case Aggregate(q, es, f) => Aggregate(Go(q, est), es, f)
    case Window(q, es, names, f) => Window(Go(q, est), es, names, f)
    case Sort(q, es, f) => Sort(Go(q, est), es, f)
    case Limit(q, n, o) => Limit(Go(q, est), n, o)
    case Distinct(q) => Distinct(Go(q, est))
    case Derived(q, alias) => Derived(Go(q, est), alias)
  }

  function SelectJoinSides(p: Plan, stats: Stats): Plan {
    if stats == map[] then p else Go(p, (q: Plan) => EstRows(stats, q))
  }

  /** What the pass is for: every join that may be turned round builds on its smaller side. */
  predicate BuildsOnSmaller(p: Plan, est: Plan -> int) {
    match p
    case Scan(_, _) => true
    case Join(l, r, _, _, how, _) =>
      BuildsOnSmaller(l, est) && BuildsOnSmaller(r, est) && (how == Semi || how == Anti || est(l) <= est(r))
    case SetOp(l, r, _) => BuildsOnSmaller(l, est) && BuildsOnSmaller(r, est)
    case _ => BuildsOnSmaller(p.input, est)
  }

  lemma {:induction false} SelectionBuildsOnSmaller(p: Plan, est: Plan -> int)
    ensures BuildsOnSmaller(Go(p, est), est)
  {
    match p
    case Scan(_, _) =>
    case Join(l, r, _, _, _, _) => SelectionBuildsOnSmaller(l, est); SelectionBuildsOnSmaller(r, est);
    case SetOp(l, r, _) => SelectionBuildsOnSmaller(l, est); SelectionBuildsOnSmaller(r, est);
    case _ => SelectionBuildsOnSmaller(p.input, est);
  }

  // ---------------------------------------------------------------- operators that ignore row order

  ghost predicate AggregateIgnoresOrder(reduce: seq<seq<Value>> -> Rel) {
    forall s, t :: multiset(s) == multiset(t) ==> SameBag(reduce(s), reduce(t))
  }

  /** A window value depends on the row and the bag it stands in, not on its position. */
  ghost predicate WindowIgnoresOrder(compute: (seq<seq<Value>>, nat) -> seq<Value>) {
    forall s, t, i: nat, k: nat ::
      multiset(s) == multiset(t) && i < |s| && k < |t| && s[i] == t[k] ==> compute(s, i) == compute(t, k)
  }

  ghost predicate SortPermutes(order: seq<seq<Value>> -> seq<nat>) {
    forall s :: multiset(order(s)) == multiset(Upto(|s|))
  }

  ghost predicate SetOpIgnoresOrder(combine: (Rel, Rel) -> Rel) {
    forall a: Rel, a': Rel, b: Rel, b': Rel :: SameBag(a, a') && SameBag(b, b') ==> SameBag(combine(a, b), combine(a', b'))
  }

  /** Any order these rows arrive in, the sort returns them in one and the same order. */
  ghost predicate SortDecides(rows: seq<Row>, es: seq<Expr>, order: seq<seq<Value>> -> seq<nat>) {
    forall b: seq<Row> :: multiset(b) == multiset(rows) ==> Pick(b, order(Tuples(b, es))) == Pick(rows, order(Tuples(rows, es)))
  }

  predicate NoJoin(p: Plan) {
    match p
    case Scan(_, _) => true
    case Join(_, _, _, _, _, _) => false
    case SetOp(l, r, _) => NoJoin(l) && NoJoin(r)
    case _ => NoJoin(p.input)
  }

  /** The rows come in an order that does not depend on the build sides: there is no join, or an
      ORDER BY that decides. */
  ghost predicate Settled(db: Database, nulls: bool, q: Plan) {
    NoJoin(q) || (q.Sort? && SortDecides(Eval(db, nulls, q.input).rows, q.exprs, q.order))
  }

  /** Joins see disjoint columns, and what stands above them does not look at row order; a LIMIT does,
      so it needs rows in a settled order. */
  ghost predicate OrderFree(db: Database, nulls: bool, p: Plan) {
    match p
    case Scan(_, _) => true
    case Join(l, r, _, _, how, _) =>
      && OrderFree(db, nulls, l) && OrderFree(db, nulls, r)
      && (how != Semi && how != Anti ==> Eval(db, nulls, l).cols !! Eval(db, nulls, r).cols)
    case SetOp(l, r, f) => OrderFree(db, nulls, l) && OrderFree(db, nulls, r) && SetOpIgnoresOrder(f)
    case Aggregate(q, _, f) => OrderFree(db, nulls, q) && AggregateIgnoresOrder(f)
    case Window(q, _, _, f) => OrderFree(db, nulls, q) && WindowIgnoresOrder(f)
    case Sort(q, _, f) => OrderFree(db, nulls, q) && SortPermutes(f)
    case Limit(q, _, _) => OrderFree(db, nulls, q) && Settled(db, nulls, q)
    case _ => OrderFree(db, nulls, p.input)
  }

  // ---------------------------------------------------------------- each operator on bags

  function One(e: Expr, r: Row): seq<Row> {
    if Passes(e, r) then [r] else []
  }

  lemma {:induction false} SelectFlat(rows: seq<Row>, e: Expr)
    ensures Select(rows, e) == Flat(rows, (r: Row) => One(e, r))
  {
    if rows != [] { SelectFlat(rows[1..], e); }
  }

  lemma SelectBag(a: seq<Row>, b: seq<Row>, e: Expr)
    requires multiset(a) == multiset(b)
    ensures multiset(Select(a, e)) == multiset(Select(b, e))
  {
    SelectFlat(a, e);
    SelectFlat(b, e);
    FlatBag(a, b, (r: Row) => One(e, r));
  }

  /** A row-by-row image is a bag of images. */
  lemma {:induction false} ImageFlat<U>(rows: seq<Row>, image: seq<U>, f: Row -> U)
    requires |image| == |rows| && forall i :: 0 <= i < |rows| ==> image[i] == f(rows[i])
    ensures image == Flat(rows, (r: Row) => [f(r)])
  {
    if rows != [] {
      ImageFlat(rows[1..], image[1..], f);
      assert image == [image[0]] + image[1..];
    }
  }

  lemma ImageBag<U>(a: seq<Row>, b: seq<Row>, ia: seq<U>, ib: seq<U>, f: Row -> U)
    requires multiset(a) == multiset(b)
    requires |ia| == |a| && forall i :: 0 <= i < |a| ==> ia[i] == f(a[i])
    requires |ib| == |b| && forall i :: 0 <= i < |b| ==> ib[i] == f(b[i])
    ensures multiset(ia) == multiset(ib)
  {
    ImageFlat(a, ia, f);
    ImageFlat(b, ib, f);
    FlatBag(a, b, (r: Row) => [f(r)]);
  }

  lemma TuplesBag(a: seq<Row>, b: seq<Row>, es: seq<Expr>)
    requires multiset(a) == multiset(b)
    ensures multiset(Tuples(a, es)) == multiset(Tuples(b, es))
  {
    ImageBag(a, b, Tuples(a, es), Tuples(b, es), (r: Row) => EvalAll(es, r));
  }

  lemma ProjectBag(a: seq<Row>, b: seq<Row>, es: seq<Expr>, names: seq<string>)
    requires multiset(a) == multiset(b)
    ensures multiset(ProjectRows(a, es, names)) == multiset(ProjectRows(b, es, names))
  {
    ImageBag(a, b, ProjectRows(a, es, names), ProjectRows(b, es, names), (r: Row) => Named(names, EvalAll(es, r)));
  }

  lemma SameWindowValue(compute: (seq<seq<Value>>, nat) -> seq<Value>, s: seq<seq<Value>>, t: seq<seq<Value>>, i: nat)
    requires WindowIgnoresOrder(compute) && multiset(s) == multiset(t) && i < |t|
    ensures compute(t, i) == compute(s, IndexOf(s, t[i]))
  {
    SameMembers(s, t);
    assert t[i] in t;
  }

  lemma WindowImage(rows: seq<Row>, es: seq<Expr>, names: seq<string>, compute: (seq<seq<Value>>, nat) -> seq<Value>,
                    s: seq<seq<Value>>, at: nat -> seq<Value>, f: Row -> Row)
    requires WindowIgnoresOrder(compute) && multiset(s) == multiset(Tuples(rows, es))
    requires forall k: nat :: at(k) == compute(Tuples(rows, es), k)
    requires forall r :: f(r) == r + Named(names, compute(s, IndexOf(s, EvalAll(es, r))))
    ensures forall i :: 0 <= i < |rows| ==> WindowRows(rows, names, at)[i] == f(rows[i])
  {
    forall i | 0 <= i < |rows| ensures WindowRows(rows, names, at)[i] == f(rows[i]) {
      SameWindowValue(compute, s, Tuples(rows, es), i);
    }
  }

  lemma WindowBag(a: seq<Row>, b: seq<Row>, es: seq<Expr>, names: seq<string>, compute: (seq<seq<Value>>, nat) -> seq<Value>,
                  fa: nat -> seq<Value>, fb: nat -> seq<Value>)
    requires multiset(a) == multiset(b) && WindowIgnoresOrder(compute)
    requires forall k: nat :: fa(k) == compute(Tuples(a, es), k)
    requires forall k: nat :: fb(k) == compute(Tuples(b, es), k)
    ensures multiset(WindowRows(a, names, fa)) == multiset(WindowRows(b, names, fb))
  {
    var s := Tuples(a, es);
    TuplesBag(a, b, es);
    var f := (r: Row) => r + Named(names, compute(s, IndexOf(s, EvalAll(es, r))));
    WindowImage(a, es, names, compute, s, fa, f);
    WindowImage(b, es, names, compute, s, fb, f);
    ImageBag(a, b, WindowRows(a, names, fa), WindowRows(b, names, fb), f);
  }

  function PickOne(rows: seq<Row>): nat -> seq<Row> {
    (i: nat) => if i < |rows| then [rows[i]] else []
  }

  lemma {:induction false} PickFlat(rows: seq<Row>, order: seq<nat>)
    ensures Pick(rows, order) == Flat(order, PickOne(rows))
  {
    if order != [] { PickFlat(rows, order[1..]); }
  }

  lemma {:induction false} PickAll(rows: seq<Row>, n: nat)
    requires n <= |rows|
    ensures Flat(Upto(n), PickOne(rows)) == rows[..n]
  {
    if n > 0 {
      var f := PickOne(rows);
      PickAll(rows, n - 1);
      assert Upto(n) == Upto(n - 1) + [n - 1];
      var last: seq<nat> := [n - 1];
      FlatAppend<nat, Row>(Upto(n - 1), last, f);
      assert last[1..] == [];
      assert Flat(last, f) == f(n - 1) + [];
      assert rows[..n] == rows[..n - 1] + [rows[n - 1]];
    }
  }

  /** Sorting permutes. */
  lemma SortBag(rows: seq<Row>, order: seq<nat>)
    requires multiset(order) == multiset(Upto(|rows|))
    ensures multiset(Pick(rows, order)) == multiset(rows)
  {
    var f := PickOne(rows);
    PickFlat(rows, order);
    FlatBag<nat, Row>(order, Upto(|rows|), f);
    PickAll(rows, |rows|);
    assert rows[..|rows|] == rows;
  }

  lemma {:induction false} DedupCounts(rows: seq<Row>)
    ensures forall r :: multiset(Dedup(rows))[r] == if r in rows then 1 else 0
  {
    if rows != [] {
      var n := |rows| - 1;
      DedupCounts(rows[..n]);
      assert rows == rows[..n] + [rows[n]];
    }
  }

  lemma DedupBag(a: seq<Row>, b: seq<Row>)
    requires multiset(a) == multiset(b)
    ensures multiset(Dedup(a)) == multiset(Dedup(b))
  {
    SameMembers(a, b);
    DedupCounts(a);
    DedupCounts(b);
  }

  // ---------------------------------------------------------------- the theorem

  lemma ChooseSame(db: Database, nulls: bool, l: Plan, r: Plan, onLeft: seq<string>, onRight: seq<string>, how: How,
                   residual: Option<Expr>, est: Plan -> int)
    requires how != Semi && how != Anti ==> Eval(db, nulls, l).cols !! Eval(db, nulls, r).cols
    ensures SameBag(Eval(db, nulls, Choose(l, r, onLeft, onRight, how, residual, est)),
                    JoinRel(On(onLeft, onRight, residual, nulls), how, Eval(db, nulls, l), Eval(db, nulls, r)))
  {
    var j := On(onLeft, onRight, residual, nulls);
    EvalJoin(db, nulls, l, r, onLeft, onRight, how, residual);
    if how != Semi && how != Anti && est(l) > est(r) {
      EvalJoin(db, nulls, r, l, onRight, onLeft, FlipHow(how), residual);
      assert Flip(j) == On(onRight, onLeft, residual, nulls);
      SidesCommute(j, how, Eval(db, nulls, l), Eval(db, nulls, r));
    }
  }

  lemma {:induction false} NoJoinNoChange(p: Plan, est: Plan -> int)
    requires NoJoin(p)
    ensures Go(p, est) == p
  {
    match p
    case Scan(_, _) =>
    case SetOp(l, r, _) => NoJoinNoChange(l, est); NoJoinNoChange(r, est);
    case Join(_, _, _, _, _, _) =>
    case _ => NoJoinNoChange(p.input, est);
  }

  /** Rows in a settled order come out the same, as a list. */
  lemma SettledSame(db: Database, nulls: bool, q: Plan, est: Plan -> int)
    requires Settled(db, nulls, q) && (q.Sort? ==> SameBag(Eval(db, nulls, Go(q.input, est)), Eval(db, nulls, q.input)))
    ensures Eval(db, nulls, Go(q, est)).rows == Eval(db, nulls, q).rows
  {
    if NoJoin(q) {
      NoJoinNoChange(q, est);
    } else {
      var a, b := Eval(db, nulls, Go(q.input, est)).rows, Eval(db, nulls, q.input).rows;
      assert Eval(db, nulls, Go(q, est)).rows == Pick(a, q.order(Tuples(a, q.exprs)));
      assert Eval(db, nulls, q).rows == Pick(b, q.order(Tuples(b, q.exprs)));
    }
  }

  lemma {:induction false} GoSame(db: Database, nulls: bool, p: Plan, est: Plan -> int)
    requires OrderFree(db, nulls, p)
    ensures SameBag(Eval(db, nulls, Go(p, est)), Eval(db, nulls, p))
    decreases p, 1
  {
    match p
    case Scan(_, _) =>
    case Join(l, r, onLeft, onRight, how, residual) =>
      GoSame(db, nulls, l, est);
      GoSame(db, nulls, r, est);
      ChooseSame(db, nulls, Go(l, est), Go(r, est), onLeft, onRight, how, residual, est);
      JoinBag(On(onLeft, onRight, residual, nulls), how, Eval(db, nulls, Go(l, est)), Eval(db, nulls, l),
              Eval(db, nulls, Go(r, est)), Eval(db, nulls, r));
    case SetOp(l, r, _) =>
      GoSame(db, nulls, l, est);
      GoSame(db, nulls, r, est);
    case _ => GoSameUnary(db, nulls, p, est);
  }

  lemma {:induction false} GoSameUnary(db: Database, nulls: bool, p: Plan, est: Plan -> int)
    requires OrderFree(db, nulls, p) && !p.Scan? && !p.Join? && !p.SetOp?
    ensures SameBag(Eval(db, nulls, Go(p, est)), Eval(db, nulls, p))
    decreases p, 0
  {
    GoSame(db, nulls, p.input, est);
    var a, b := Eval(db, nulls, Go(p.input, est)).rows, Eval(db, nulls, p.input).rows;
    SameMembers(a, b);
    match p
    case Filter(_, e) => SelectBag(a, b, e);
    case Project(_, items) => ProjectBag(a, b, ItemExprs(items), ItemNames(items));
    case Aggregate(_, es, _) => TuplesBag(a, b, es);
    case Window(_, es, names, compute) => WindowCase(db, nulls, p, Go(p, est));
    case Sort(_, es, order) =>
      SortBag(a, order(Tuples(a, es)));
      SortBag(b, order(Tuples(b, es)));
    case Distinct(_) => DedupBag(a, b);
    case Limit(q, n, o) =>
      if q.Sort? { GoSame(db, nulls, q.input, est); }
      SettledSame(db, nulls, q, est);
    case Derived(_, _) =>
  }

  lemma WindowCase(db: Database, nulls: bool, p: Plan, p': Plan)
    requires p.Window? && p'.Window? && p' == Window(p'.input, p.exprs, p.names, p.compute)
    requires WindowIgnoresOrder(p.compute) && SameBag(Eval(db, nulls, p'.input), Eval(db, nulls, p.input))
    ensures SameBag(Eval(db, nulls, p'), Eval(db, nulls, p))
  {
    var a, b := Eval(db, nulls, p'.input).rows, Eval(db, nulls, p.input).rows;
    var f := (k: nat) => p.compute(Tuples(a, p.exprs), k);
    var g := (k: nat) => p.compute(Tuples(b, p.exprs), k);
    WindowBag(a, b, p.exprs, p.names, p.compute, f, g);
    assert Eval(db, nulls, p').rows == WindowRows(a, p.names, f);
    assert Eval(db, nulls, p).rows == WindowRows(b, p.names, g);
  }

  /** Whatever the statistics say, the bag of named rows stays the same. */
  lemma SideSelectionPreservesBag(db: Database, nulls: bool, p: Plan, stats: Stats)
    requires OrderFree(db, nulls, p)
    ensures SameBag(Eval(db, nulls, SelectJoinSides(p, stats)), Eval(db, nulls, p))
  {
    GoSame(db, nulls, p, (q: Plan) => EstRows(stats, q));
  }

  // ---------------------------------------------------------------- when ORDER BY decides

  /** The sort permutes, and never puts a tuple behind one that is greater. */
  ghost predicate SortsBy(order: seq<seq<Value>> -> seq<nat>, less: (seq<Value>, seq<Value>) -> bool) {
    forall s :: multiset(order(s)) == multiset(Upto(|s|)) && InOrder(s, order(s), less)
  }

  ghost predicate InOrder(s: seq<seq<Value>>, order: seq<nat>, less: (seq<Value>, seq<Value>) -> bool) {
    forall i, k :: 0 <= i < k < |order| && order[i] < |s| && order[k] < |s| ==> !less(s[order[k]], s[order[i]])
  }

  ghost predicate Total(less: (seq<Value>, seq<Value>) -> bool) {
    forall a, b :: a == b || less(a, b) || less(b, a)
  }

  /** Rows with equal sort keys are equal rows. */
  predicate KeysDecide(rows: seq<Row>, es: seq<Expr>) {
    forall a, b :: a in rows && b in rows && EvalAll(es, a) == EvalAll(es, b) ==> a == b
  }

  ghost predicate RowsInOrder(rows: seq<Row>, es: seq<Expr>, less: (seq<Value>, seq<Value>) -> bool) {
    forall i, k :: 0 <= i < k < |rows| ==> !less(EvalAll(es, rows[k]), EvalAll(es, rows[i]))
  }

  /** Two lists of the same rows, both in order, are the same list. */
  lemma {:induction false} OneOrder(a: seq<Row>, b: seq<Row>, es: seq<Expr>, less: (seq<Value>, seq<Value>) -> bool)
    requires Total(less) && multiset(a) == multiset(b) && KeysDecide(a, es)
    requires RowsInOrder(a, es, less) && RowsInOrder(b, es, less)
    ensures a == b
  {
    SameMembers(a, b);
    if a != [] {
      assert a[0] in a && b[0] in b;
      var k :| 0 <= k < |b| && b[k] == a[0];
      var m :| 0 <= m < |a| && a[m] == b[0];
      assert EvalAll(es, a[0]) == EvalAll(es, b[0]);
      assert b[0] in a && a[0] == b[0];
      SameTails(a, b);
      OneOrder(a[1..], b[1..], es, less);
    }
  }

  lemma SameTails(a: seq<Row>, b: seq<Row>)
    requires a != [] && b != [] && a[0] == b[0] && multiset(a) == multiset(b)
    ensures multiset(a[1..]) == multiset(b[1..])
  {
    assert a == [] + [a[0]] + a[1..] && a[1..] == [] + a[1..];
    assert b == [] + [a[0]] + b[1..] && b[1..] == [] + b[1..];
    TakeOut([], a[0], a[1..]);
    TakeOut([], a[0], b[1..]);
    Cancel(multiset(a[1..]), multiset(b[1..]), a[0]);
  }

  lemma {:induction false} PickAt(rows: seq<Row>, order: seq<nat>)
    requires forall i :: 0 <= i < |order| ==> order[i] < |rows|
    ensures |Pick(rows, order)| == |order| && forall i :: 0 <= i < |order| ==> Pick(rows, order)[i] == rows[order[i]]
  {
    if order != [] { PickAt(rows, order[1..]); }
  }

  lemma PickedInOrder(rows: seq<Row>, es: seq<Expr>, order: seq<seq<Value>> -> seq<nat>, less: (seq<Value>, seq<Value>) -> bool)
    requires SortsBy(order, less)
    ensures RowsInOrder(Pick(rows, order(Tuples(rows, es))), es, less)
    ensures multiset(Pick(rows, order(Tuples(rows, es)))) == multiset(rows)
  {
    var s := Tuples(rows, es);
    var o := order(s);
    assert multiset(o) == multiset(Upto(|s|)) && InOrder(s, o, less);
    SortBag(rows, o);
    PickInOrder(rows, es, o, less);
  }

  lemma PickInOrder(rows: seq<Row>, es: seq<Expr>, o: seq<nat>, less: (seq<Value>, seq<Value>) -> bool)
    requires multiset(o) == multiset(Upto(|rows|)) && InOrder(Tuples(rows, es), o, less)
    ensures RowsInOrder(Pick(rows, o), es, less)
  {
    SameMembers(o, Upto(|rows|));
    forall i | 0 <= i < |o| ensures o[i] < |rows| {
      assert o[i] in o;
    }
    PickAt(rows, o);
  }

  /** ORDER BY decides the order of rows that it does not leave tied, or that are equal when tied. */
  lemma KeysDecideOrder(rows: seq<Row>, es: seq<Expr>, order: seq<seq<Value>> -> seq<nat>, less: (seq<Value>, seq<Value>) -> bool)
    requires SortsBy(order, less) && Total(less) && KeysDecide(rows, es)
    ensures SortDecides(rows, es, order)
  {
    forall b: seq<Row> | multiset(b) == multiset(rows)
      ensures Pick(b, order(Tuples(b, es))) == Pick(rows, order(Tuples(rows, es)))
    {
      PickedInOrder(rows, es, order, less);
      PickedInOrder(b, es, order, less);
      var x, y := Pick(rows, order(Tuples(rows, es))), Pick(b, order(Tuples(b, es)));
      SameMembers(x, rows);
      OneOrder(x, y, es, less);
    }
  }

  // ---------------------------------------------------------------- what the estimate is worth

  /** Scans of tables with known sizes under filters, projections, limits, DISTINCT, and inner, cross
      and semi joins. */
  predicate Estimable(stats: Stats, p: Plan) {
    match p
    case Scan(t, _) => t in stats
    case Join(l, r, _, _, how, _) => Estimable(stats, l) && Estimable(stats, r) && (how == Inner || how == Cross || how == Semi)
    case Filter(q, _) => Estimable(stats, q)
    case Project(q, _) => Estimable(stats, q)
    case Limit(q, _, _) => Estimable(stats, q)
    case Distinct(q) => Estimable(stats, q)
    case Derived(q, _) => Estimable(stats, q)
    case _ => false
  }

  ghost predicate Counted(db: Database, stats: Stats) {
    forall t :: t in stats ==> 0 <= stats[t] && (t in db ==> |db[t].rows| <= stats[t])
  }

  lemma {:induction false} HitsAtMost(j: On, l: Row, rs: seq<Row>)
    ensures |Hits(j, l, rs)| <= |rs|
  {
    if rs != [] { HitsAtMost(j, l, rs[1..]); }
  }

  lemma {:induction false} InnerAtMost(j: On, ls: seq<Row>, rs: seq<Row>)
    ensures |InnerRows(j, ls, rs)| <= |ls| * |rs|
  {
    if ls != [] {
      HitsAtMost(j, ls[0], rs);
      InnerAtMost(j, ls[1..], rs);
      OneMore(|ls[1..]|, |rs|);
    }
  }

  lemma {:induction false} SemiAtMost(j: On, ls: seq<Row>, rs: seq<Row>)
    ensures |SemiRows(j, ls, rs, true)| <= |ls| * |rs|
  {
    if ls != [] {
      HitsAtMost(j, ls[0], rs);
      SemiAtMost(j, ls[1..], rs);
      OneMore(|ls[1..]|, |rs|);
    }
  }

  lemma {:induction false} SelectAtMost(rows: seq<Row>, e: Expr)
    ensures |Select(rows, e)| <= |rows|
  {
    if rows != [] { SelectAtMost(rows[1..], e); }
  }

  lemma {:induction false} DedupAtMost(rows: seq<Row>)
    ensures |Dedup(rows)| <= |rows|
  {
    if rows != [] { DedupAtMost(rows[..|rows| - 1]); }
  }

  /** Rows no more than a product are no more than the capped product of the bounds. */
  lemma ProductBound(rows: nat, a: nat, b: nat, x: nat, y: nat)
    requires rows <= a * b && (a <= x || x >= MAX_ROWS) && (b <= y || y >= MAX_ROWS)
    ensures 0 <= Min(x * y, MAX_ROWS) && (rows <= Min(x * y, MAX_ROWS) || Min(x * y, MAX_ROWS) >= MAX_ROWS)
  {
    if x == 0 || y == 0 {
      assert a == 0 || b == 0;
    } else if x >= MAX_ROWS {
      assert x * y >= x * 1;
    } else if y >= MAX_ROWS {
      assert x * y >= 1 * y;
    } else {
      assert a * b <= x * b <= x * y;
    }
  }

  lemma JoinAtMost(j: On, how: How, l: Rel, r: Rel)
    requires how == Inner || how == Cross || how == Semi
    ensures |JoinRel(j, how, l, r).rows| <= |l.rows| * |r.rows|
  {
    if how == Semi {
      SemiAtMost(j.(nullsMatch := false), l.rows, r.rows);
    } else {
      InnerAtMost(j, l.rows, r.rows);
    }
  }

  /** The estimate is an upper bound, up to its cap, when the statistics are: no fewer rows are
      promised than such a plan can return. */
  lemma {:induction false} EstimateIsUpperBound(db: Database, nulls: bool, stats: Stats, p: Plan)
    requires Counted(db, stats) && Estimable(stats, p)
    ensures EstRows(stats, p) >= 0
    ensures |Eval(db, nulls, p).rows| <= EstRows(stats, p) || EstRows(stats, p) >= MAX_ROWS
  {
    match p
    case Scan(_, _) =>
    case Join(l, r, onLeft, onRight, how, residual) =>
      EstimateIsUpperBound(db, nulls, stats, l);
      EstimateIsUpperBound(db, nulls, stats, r);
      JoinAtMost(On(onLeft, onRight, residual, nulls), how, Eval(db, nulls, l), Eval(db, nulls, r));
      EvalJoin(db, nulls, l, r, onLeft, onRight, how, residual);
      ProductBound(|Eval(db, nulls, p).rows|, |Eval(db, nulls, l).rows|, |Eval(db, nulls, r).rows|, EstRows(stats, l), EstRows(stats, r));
    case Filter(q, e) =>
      EstimateIsUpperBound(db, nulls, stats, q);
      SelectAtMost(Eval(db, nulls, q).rows, e);
    case Project(q, _) => EstimateIsUpperBound(db, nulls, stats, q);
    case Limit(q, _, _) => EstimateIsUpperBound(db, nulls, stats, q);
    case Distinct(q) =>
      EstimateIsUpperBound(db, nulls, stats, q);
      DedupAtMost(Eval(db, nulls, q).rows);
    case Derived(q, _) => EstimateIsUpperBound(db, nulls, stats, q);
  }
}
