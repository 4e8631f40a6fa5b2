/**
 A correlated scalar aggregate becomes a left join onto the aggregate grouped by its correlation
 key.  Every outer row keeps its place and receives the value its own subquery would return.
 */
module ScalarSubquery {
  import opened Values
  import opened Plans
  import opened Decorrelate

  // ---------------------------------------------------------------- aggregates

  /** COUNT(*), COUNT(x), and any aggregate that skips NULLs and is NULL over nothing. */
  datatype Agg = CountStar | Count(arg: QExpr) | Fold(arg: QExpr, f: seq<Value> -> Value)

  function Parts(a: Agg): seq<QExpr> {
    if a.CountStar? then [] else [a.arg]
  }

  function ArgValues(s: Scope, arg: QExpr, o: Row, rows: seq<Row>): (vs: seq<Value>)
    ensures Null !in vs
  {
    if rows == [] then []
    else
      var v := EvalQ(s, arg, o, rows[0]);
      (if v == Null then [] else [v]) + ArgValues(s, arg, o, rows[1..])
  }

  function AggOver(s: Scope, a: Agg, o: Row, rows: seq<Row>): Value {
    match a
    case CountStar => Int(|rows|)
    case Count(arg) => Int(|ArgValues(s, arg, o, rows)|)
    case Fold(arg, f) => var vs := ArgValues(s, arg, o, rows); if vs == [] then Null else f(vs)
  }

  /** The direct reading: run the subquery for one outer row. */
  function DirectValue(s: Scope, where: Option<QExpr>, a: Agg, rows: seq<Row>, o: Row): Value {
    AggOver(s, a, o, DirectRows(s, where, rows, o))
  }

  lemma {:induction false} ArgValuesAlone(s: Scope, arg: QExpr, o: Row, rows: seq<Row>)
    requires !RefersOuter(s, arg)
    ensures ArgValues(s, arg, o, rows) == ArgValues(ALONE, arg, map[], rows)
  {
    if rows != [] {
      ArgValuesAlone(s, arg, o, rows[1..]);
      LocalNeedsNoOuter(s, arg, o, rows[0]);
    }
  }

  lemma AggAlone(s: Scope, a: Agg, o: Row, rows: seq<Row>)
    requires !AnyRefersOuter(s, Parts(a))
    ensures AggOver(s, a, o, rows) == AggOver(ALONE, a, map[], rows)
  {
    if !a.CountStar? { ArgValuesAlone(s, a.arg, o, rows); }
  }

  /** The rows of which the argument is not NULL. */
  function HavingArg(s: Scope, arg: QExpr, o: Row, rows: seq<Row>): (out: seq<Row>)
    ensures forall i :: i in out <==> i in rows && EvalQ(s, arg, o, i) != Null
  {
    if rows == [] then [] else (if EvalQ(s, arg, o, rows[0]) == Null then [] else [rows[0]]) + HavingArg(s, arg, o, rows[1..])
  }

  /** COUNT(x) counts the rows of which x is not NULL; any other aggregate folds the values of x over
      them and is NULL over none. */
  lemma {:induction false} AggregatesSkipNulls(s: Scope, arg: QExpr, f: seq<Value> -> Value, o: Row, rows: seq<Row>)
    ensures AggOver(s, Count(arg), o, rows) == Int(|HavingArg(s, arg, o, rows)|)
    ensures HavingArg(s, arg, o, rows) == [] <==> ArgValues(s, arg, o, rows) == []
    ensures HavingArg(s, arg, o, rows) == [] ==> AggOver(s, Fold(arg, f), o, rows) == Null
  {
    if rows != [] { AggregatesSkipNulls(s, arg, f, o, rows[1..]); }
  }

  // ---------------------------------------------------------------- the grouped side

  /** The names the lowering invents: the value column and its key column. */
  datatype Names = Names(value: string, key: string)

  function Cols(n: Names): set<string> {
    {n.value, n.key}
  }

  function GroupOf(rows: seq<Row>, key: string, k: Value): (g: seq<Row>)
    ensures forall i :: i in g <==> i in rows && Cell(i, key) == k
  {
    if rows == [] then [] else (if Cell(rows[0], key) == k then [rows[0]] else []) + GroupOf(rows[1..], key, k)
  }

  function GroupRow(n: Names, a: Agg, rows: seq<Row>, key: string, k: Value): Row {
    map[n.value := AggOver(ALONE, a, map[], GroupOf(rows, key, k)), n.key := k]
  }

  /** What a group-by may return: one row for every key, in any order; whether rows with a NULL key
      form a group is left open. */
  ghost predicate IsGrouped(n: Names, a: Agg, rows: seq<Row>, key: string, gs: seq<Row>) {
    && (forall g :: g in gs ==> g == GroupRow(n, a, rows, key, Cell(g, n.key)) && GroupOf(rows, key, Cell(g, n.key)) != [])
    && (forall i :: i in rows && Cell(i, key) != Null ==> GroupRow(n, a, rows, key, Cell(i, key)) in gs)
    && DistinctKeys(n, gs)
  }

  predicate DistinctKeys(n: Names, gs: seq<Row>) {
    forall x, y :: 0 <= x < y < |gs| ==> Cell(gs[x], n.key) != Cell(gs[y], n.key)
  }

  const NOT_NULL: seq<Value> -> Value := (vs: seq<Value>) => Bool(|vs| == 1 && vs[0] != Null)

  function KeyNotNull(n: Names): Expr {
    Call(NOT_NULL, [Col(n.key)])
  }

  lemma KeyNotNullMeans(n: Names, r: Row)
    ensures Passes(KeyNotNull(n), r) <==> Cell(r, n.key) != Null
  {
    assert [Col(n.key)][1..] == [];
    assert EvalAll([Col(n.key)], r) == [Cell(r, n.key)] + [];
  }

  lemma {:induction false} SelectKeepsDistinct(n: Names, gs: seq<Row>, e: Expr)
    requires DistinctKeys(n, gs)
    ensures DistinctKeys(n, Select(gs, e))
  {
    if gs != [] {
      SelectKeepsDistinct(n, gs[1..], e);
      var rest := Select(gs[1..], e);
      forall x | 0 <= x < |rest| ensures Cell(gs[0], n.key) != Cell(rest[x], n.key) {
        assert rest[x] in gs[1..];
      }
    }
  }

  function ScalarJoin(n: Names, outerKey: string): On {
    On([outerKey], [n.key], None, true)
  }

  lemma KeyMatch(n: Names, outerKey: string, o: Row, g: Row)
    ensures Matches(ScalarJoin(n, outerKey), o, g) <==> Cell(o, outerKey) == Cell(g, n.key)
  {
    assert KeyOf(o, [outerKey]) == [Cell(o, outerKey)] && KeyOf(g, [n.key]) == [Cell(g, n.key)];
  }

  lemma {:induction false} NoGroupNoHit(n: Names, outerKey: string, o: Row, gs: seq<Row>)
    requires forall g :: g in gs ==> Cell(g, n.key) != Cell(o, outerKey)
    ensures Hits(ScalarJoin(n, outerKey), o, gs) == []
  {
    if gs != [] {
      assert gs[0] in gs;
      KeyMatch(n, outerKey, o, gs[0]);
      NoGroupNoHit(n, outerKey, o, gs[1..]);
    }
  }

  /** Distinct keys: at most one group meets an outer row. */
  lemma {:induction false} OneGroupOneHit(n: Names, outerKey: string, o: Row, gs: seq<Row>, g: Row)
    requires DistinctKeys(n, gs) && g in gs && Cell(g, n.key) == Cell(o, outerKey)
    ensures Hits(ScalarJoin(n, outerKey), o, gs) == [o + g]
  {
    KeyMatch(n, outerKey, o, gs[0]);
    if gs[0] == g {
      forall h | h in gs[1..] ensures Cell(h, n.key) != Cell(o, outerKey) {
        var y :| 0 <= y < |gs[1..]| && gs[1..][y] == h;
        assert gs[y + 1] == h;
      }
      NoGroupNoHit(n, outerKey, o, gs[1..]);
    } else {
      assert g in gs[1..];
      var y :| 0 <= y < |gs[1..]| && gs[1..][y] == g;
      assert gs[y + 1] == g;
      assert DistinctKeys(n, gs[1..]);
      OneGroupOneHit(n, outerKey, o, gs[1..], g);
    }
  }

  // ---------------------------------------------------------------- the lowered join

  /** Grouped aggregate, NULL-key group dropped, joined to the outer rows. */
  function Lowered(n: Names, outerKey: string, outer: seq<Row>, gs: seq<Row>): seq<Row> {
    LeftRows(ScalarJoin(n, outerKey), outer, Select(gs, KeyNotNull(n)), Cols(n))
  }

  /** What one outer row gains. */
  function Gain(n: Names, a: Agg, rows: seq<Row>, pair: KeyPair, k: Value): (r: Row)
    ensures r.Keys == Cols(n)
  {
    if k != Null && GroupOf(rows, pair.innerKey, k) != [] then GroupRow(n, a, rows, pair.innerKey, k) else Pad(Cols(n))
  }

  function Joined(n: Names, a: Agg, rows: seq<Row>, pair: KeyPair, o: Row): Row {
    o + Gain(n, a, rows, pair, Cell(o, pair.outerKey))
  }

  lemma JoinedIsHit(n: Names, a: Agg, rows: seq<Row>, pair: KeyPair, o: Row, gs: seq<Row>)
    requires IsGrouped(n, a, rows, pair.innerKey, gs) && n.value != n.key
    ensures LeftOf(ScalarJoin(n, pair.outerKey), o, Select(gs, KeyNotNull(n)), Cols(n)) == [Joined(n, a, rows, pair, o)]
  {
    var kept, k := Select(gs, KeyNotNull(n)), Cell(o, pair.outerKey);
    forall g ensures Passes(KeyNotNull(n), g) <==> Cell(g, n.key) != Null { KeyNotNullMeans(n, g); }
    SelectKeepsDistinct(n, gs, KeyNotNull(n));
    var group := GroupOf(rows, pair.innerKey, k);
    if k != Null && group != [] {
      assert group[0] in rows;
      var g := GroupRow(n, a, rows, pair.innerKey, k);
      assert g in kept;
      OneGroupOneHit(n, pair.outerKey, o, kept, g);
    } else {
      NoGroupNoHit(n, pair.outerKey, o, kept);
    }
  }

  /** A left join in which every left row yields one row is a row-by-row image. */
  lemma {:induction false} OneForOne(j: On, outer: seq<Row>, kept: seq<Row>, rc: set<string>, f: Row -> Row)
    requires forall o :: LeftOf(j, o, kept, rc) == [f(o)]
    ensures var out := LeftRows(j, outer, kept, rc); |out| == |outer| && forall x :: 0 <= x < |outer| ==> out[x] == f(outer[x])
  {
    if outer != [] { OneForOne(j, outer[1..], kept, rc, f); }
  }

  lemma LoweredRows(n: Names, a: Agg, rows: seq<Row>, pair: KeyPair, outer: seq<Row>, gs: seq<Row>)
    requires IsGrouped(n, a, rows, pair.innerKey, gs) && n.value != n.key
    ensures var out := Lowered(n, pair.outerKey, outer, gs);
            |out| == |outer| && forall x :: 0 <= x < |outer| ==> out[x] == Joined(n, a, rows, pair, outer[x])
  {
    var j, kept := ScalarJoin(n, pair.outerKey), Select(gs, KeyNotNull(n));
    var f := (o: Row) => Joined(n, a, rows, pair, o);
    forall o ensures LeftOf(j, o, kept, Cols(n)) == [f(o)] {
      JoinedIsHit(n, a, rows, pair, o, gs);
    }
    OneForOne(j, outer, kept, Cols(n), f);
  }

  /** What stands where the subquery stood: COUNT is coalesced to 0. */
  function Replacement(n: Names, a: Agg, row: Row): Value {
    var v := Cell(row, n.value);
    if !a.Fold? && v == Null then Int(0) else v
  }

  lemma {:induction false} PartnersAreGroup(pair: KeyPair, o: Row, rows: seq<Row>)
    ensures Partners(KeyJoin([pair]), o, rows) ==
            if Cell(o, pair.outerKey) == Null then [] else GroupOf(rows, pair.innerKey, Cell(o, pair.outerKey))
  {
    if rows != [] {
      PartnersAreGroup(pair, o, rows[1..]);
      PairsAreJoin([pair], o, rows[0]);
      assert pair in [pair];
    }
  }

  lemma JoinedValue(n: Names, a: Agg, rows: seq<Row>, pair: KeyPair, o: Row)
    requires n.value != n.key
    ensures Replacement(n, a, Joined(n, a, rows, pair, o)) == AggOver(ALONE, a, map[], Partners(KeyJoin([pair]), o, rows))
  {
    PartnersAreGroup(pair, o, rows);
  }

  lemma DirectIsPartners(s: Scope, where: Option<QExpr>, a: Agg, rows: seq<Row>, o: Row)
    requires Classify(s, where, Parts(a)).Correlated?
    ensures var c := Classify(s, where, Parts(a));
            DirectValue(s, where, a, rows, o) == AggOver(ALONE, a, map[], Partners(KeyJoin(c.pairs), o, LocalRows(rows, c.locals)))
  {
    LiftedRows(s, where, Parts(a), rows, o);
    AggAlone(s, a, o, DirectRows(s, where, rows, o));
  }

  /** Every outer row comes out once, in place, unchanged on its own columns, and the replacement
      expression has the value of the subquery run for that row: NULL keys, missing groups, COUNT
      over nothing and NULL arguments included. */
  lemma ScalarSubqueryIsLeftJoin(s: Scope, where: Option<QExpr>, a: Agg, rows: seq<Row>, outer: Rel, n: Names, gs: seq<Row>)
    requires Classify(s, where, Parts(a)).Correlated? && |Classify(s, where, Parts(a)).pairs| == 1
    requires n.value != n.key && Cols(n) !! outer.cols
    requires var c := Classify(s, where, Parts(a));
             IsGrouped(n, a, LocalRows(rows, c.locals), c.pairs[0].innerKey, gs)
    ensures var out := Lowered(n, Classify(s, where, Parts(a)).pairs[0].outerKey, outer.rows, gs);
            && |out| == |outer.rows|
            && forall x :: 0 <= x < |out| ==>
                 && Narrow(out[x], outer.cols) == outer.rows[x]
                 && Replacement(n, a, out[x]) == DirectValue(s, where, a, rows, outer.rows[x])
  {
    var c := Classify(s, where, Parts(a));
    var pair, locals := c.pairs[0], LocalRows(rows, c.locals);
    LoweredRows(n, a, locals, pair, outer.rows, gs);
    assert c.pairs == [pair];
    forall x | 0 <= x < |outer.rows|
      ensures Narrow(Joined(n, a, locals, pair, outer.rows[x]), outer.cols) == outer.rows[x]
      ensures Replacement(n, a, Joined(n, a, locals, pair, outer.rows[x])) == DirectValue(s, where, a, rows, outer.rows[x])
    {
      var o := outer.rows[x];
      assert o in outer.rows;
      OwnColumnsStay(n, a, locals, pair, o, outer.cols);
      JoinedValue(n, a, locals, pair, o);
      DirectIsPartners(s, where, a, rows, o);
    }
  }

  lemma OwnColumnsStay(n: Names, a: Agg, rows: seq<Row>, pair: KeyPair, o: Row, cols: set<string>)
    requires o.Keys == cols && Cols(n) !! cols
    ensures Narrow(Joined(n, a, rows, pair, o), cols) == o
  {
    var gain := Gain(n, a, rows, pair, Cell(o, pair.outerKey));
    assert forall c :: c in cols ==> c !in gain;
  }

  // ---------------------------------------------------------------- a LIMIT on the aggregate

  /** A scalar subquery's value: its one cell, or NULL when it returns no row. */
  function ScalarOf(rows: seq<Row>, column: string): Value {
    if rows == [] then Null else Cell(rows[0], column)
  }

  /** The direct reading with LIMIT count OFFSET skip after the aggregate. */
  function LimitedValue(s: Scope, where: Option<QExpr>, a: Agg, rows: seq<Row>, column: string, count: nat, skip: nat, o: Row): Value {
    ScalarOf(Clip([map[column := DirectValue(s, where, a, rows, o)]], count, skip), column)
  }

  lemma LimitedMeans(s: Scope, where: Option<QExpr>, a: Agg, rows: seq<Row>, column: string, count: nat, skip: nat, o: Row)
    ensures LimitedValue(s, where, a, rows, column, count, skip, o) ==
            if count >= 1 && skip == 0 then DirectValue(s, where, a, rows, o) else Null
  {
  }

  /** The lowering peels LIMIT and OFFSET off the aggregate.  Every outer row still gets its subquery's
      value exactly when they would have kept the one row, or it holds NULL for every outer row. */
  lemma PeeledLimitIff(s: Scope, where: Option<QExpr>, a: Agg, rows: seq<Row>, outer: Rel, n: Names, gs: seq<Row>, count: nat, skip: nat)
    requires Classify(s, where, Parts(a)).Correlated? && |Classify(s, where, Parts(a)).pairs| == 1
    requires n.value != n.key && Cols(n) !! outer.cols
    requires var c := Classify(s, where, Parts(a));
             IsGrouped(n, a, LocalRows(rows, c.locals), c.pairs[0].innerKey, gs)
    ensures var out := Lowered(n, Classify(s, where, Parts(a)).pairs[0].outerKey, outer.rows, gs);
            |out| == |outer.rows| &&
            ((forall x :: 0 <= x < |out| ==>
                Replacement(n, a, out[x]) == LimitedValue(s, where, a, rows, n.value, count, skip, outer.rows[x])) <==>
             || (count >= 1 && skip == 0)
             || forall o :: o in outer.rows ==> DirectValue(s, where, a, rows, o) == Null)
  {
    var out := Lowered(n, Classify(s, where, Parts(a)).pairs[0].outerKey, outer.rows, gs);
    ScalarSubqueryIsLeftJoin(s, where, a, rows, outer, n, gs);
    forall x | 0 <= x < |out|
      ensures Replacement(n, a, out[x]) == LimitedValue(s, where, a, rows, n.value, count, skip, outer.rows[x]) <==>
              (count >= 1 && skip == 0) || DirectValue(s, where, a, rows, outer.rows[x]) == Null
    {
      LimitedMeans(s, where, a, rows, n.value, count, skip, outer.rows[x]);
    }
    ValuesAreNull(s, where, a, rows, outer.rows);
  }

  lemma ValuesAreNull(s: Scope, where: Option<QExpr>, a: Agg, rows: seq<Row>, outer: seq<Row>)
    ensures (forall o :: o in outer ==> DirectValue(s, where, a, rows, o) == Null) <==>
            (forall x :: 0 <= x < |outer| ==> DirectValue(s, where, a, rows, outer[x]) == Null)
  {
  }

  /** `(SELECT COUNT(*) FROM b WHERE b.k = a.k LIMIT 0)` has no row, so it is NULL; over an empty b the
      lowered query answers 0. */
  lemma PeeledLimitCounterexample(o: Row, n: Names)
    requires o == map["k" := Int(1)] && n == Names("v", "v_k")
    ensures LimitedValue(A_AND_B, Some(SAME_K), CountStar, [], "v", 0, 0, o) == Null
    ensures var out := Lowered(n, "k", [o], []); |out| == 1 && Replacement(n, CountStar, out[0]) == Int(0)
  {
    LoweredRows(n, CountStar, [], KeyPair("k", "k", "b"), [o], []);
  }
}
