/**
 Two plans that pushdown gets wrong.  In one the rewrite descends through a nested left join without
 asking which side that join preserves; in the other it takes a derived table's column for a column
 of the same name in a table that is not joined.
 */
module PushdownExample {
  import opened Values
  import opened Plans
  import opened Pushdown

  const A: Row := map["x" := Int(1)]
  const B: Row := map["y" := Int(1)]
  const C: Row := map["z" := Int(1)]

  const DB: Database := map["a" := RawRel({"x"}, [A]), "b" := RawRel({"y"}, [B]), "c" := RawRel({"z"}, [C])]

  const SCHEMA: Schema := map["a" := {"x"}, "b" := {"y"}, "c" := {"z"}]

  const IS_NULL: seq<Value> -> Value := (vs: seq<Value>) => Bool(|vs| == 1 && vs[0] == Null)

  const PRED := Call(IS_NULL, [Col("y")])

  const NESTED := Join(Scan("a", None), Scan("b", None), ["x"], ["y"], Left, None)

  const TOP := Join(NESTED, Scan("c", None), ["x"], ["z"], Inner, None)

  /** SELECT ... FROM a LEFT JOIN b ON x = y JOIN c ON x = z WHERE y IS NULL */
  const QUERY := Filter(TOP, PRED)

  lemma PredValue(r: Row)
    ensures Passes(PRED, r) <==> Cell(r, "y") == Null
    ensures Columns(PRED) == {"y"}
  {
    assert [Col("y")][1..] == [];
    assert EvalAll([Col("y")], r) == [Cell(r, "y")] + [];
    assert ColumnsAll([Col("y")]) == {"y"} + {};
  }

  lemma Keys(pad: Row)
    requires pad.Keys == {"y"}
    ensures KeyOf(A, ["x"]) == KeyOf(B, ["y"]) == KeyOf(C, ["z"]) == KeyOf(A + pad, ["x"]) == [Int(1)]
  {
  }

  lemma OneHit(j: On, l: Row, r: Row, rc: set<string>)
    requires Matches(j, l, r)
    ensures InnerRows(j, [l], [r]) == [l + r] && LeftRows(j, [l], [r], rc) == [l + r]
  {
    assert Hits(j, l, [r]) == [l + r] + Hits(j, l, []);
    assert [l][1..] == [] && [r][1..] == [];
  }

  lemma NestedRows()
    ensures Eval(DB, false, NESTED) == RawRel({"x", "y"}, [A + B])
  {
    var j := On(["x"], ["y"], None, false);
    Keys(B);
    EvalJoin(DB, false, Scan("a", None), Scan("b", None), ["x"], ["y"], Left, None);
    assert Matches(j, A, B);
    OneHit(j, A, B, {"y"});
    assert {"x"} + {"y"} == {"x", "y"};
  }

  lemma TopRows(l: Plan, pad: Row)
    requires pad.Keys == {"y"} && Eval(DB, false, l) == RawRel({"x", "y"}, [A + pad])
    ensures Eval(DB, false, Join(l, Scan("c", None), ["x"], ["z"], Inner, None)).rows == [A + pad + C]
  {
    var j := On(["x"], ["z"], None, false);
    Keys(pad);
    EvalJoin(DB, false, l, Scan("c", None), ["x"], ["z"], Inner, None);
    assert Matches(j, A + pad, C);
    OneHit(j, A + pad, C, {"z"});
  }

  lemma TopHasOne()
    ensures Eval(DB, false, TOP).rows == [A + B + C]
  {
    NestedRows();
    TopRows(NESTED, B);
  }

  lemma NoneQualifies()
    ensures Select([A + B + C], PRED) == []
  {
    PredValue(A + B + C);
    assert Cell(A + B + C, "y") == Int(1);
    assert [A + B + C][1..] == [];
  }

  lemma OriginalIsEmpty()
    ensures Eval(DB, false, QUERY).rows == []
  {
    TopHasOne();
    NoneQualifies();
    EvalFilter(DB, false, TOP, PRED);
  }

  lemma EmptyB()
    ensures Eval(DB, false, Filter(Scan("b", None), PRED)) == RawRel({"y"}, [])
  {
    PredValue(B);
    EvalFilter(DB, false, Scan("b", None), PRED);
    assert Select([B], PRED) == [] + Select([], PRED);
  }

  lemma NoHit(j: On, l: Row, rc: set<string>)
    ensures LeftRows(j, [l], [], rc) == [l + Pad(rc)]
  {
    assert Hits(j, l, []) == [] && [l][1..] == [];
    assert LeftRows(j, [l], [], rc) == [l + Pad(rc)] + [];
  }

  lemma PushedNestedRows()
    ensures var pushed := Join(Scan("a", None), Filter(Scan("b", None), PRED), ["x"], ["y"], Left, None);
            Eval(DB, false, pushed) == RawRel({"x", "y"}, [A + Pad({"y"})])
  {
    var j := On(["x"], ["y"], None, false);
    EmptyB();
    EvalJoin(DB, false, Scan("a", None), Filter(Scan("b", None), PRED), ["x"], ["y"], Left, None);
    NoHit(j, A, {"y"});
    assert {"x"} + {"y"} == {"x", "y"};
  }

  lemma PushedShape()
    ensures Insert(TOP, map["b" := [PRED]]) ==
            Join(Join(Scan("a", None), Filter(Scan("b", None), PRED), ["x"], ["y"], Left, None), Scan("c", None), ["x"], ["z"], Inner, None)
  {
    var m: PerTable := map["b" := [PRED]];
    assert SubtreeTables(NESTED) == {"a", "b"};
    assert Restrict(m, {"a", "b"}) == m && Restrict(m, {"a"}) == map[] && Restrict(m, {"b"}) == m && Restrict(m, {"c"}) == map[];
    assert Insert(Scan("a", None), map[]) == Scan("a", None);
    assert Insert(Scan("c", None), map[]) == Scan("c", None);
    assert Conjoin([PRED]) == PRED;
    assert Insert(Scan("b", None), m) == Filter(Scan("b", None), PRED);
    assert Insert(NESTED, m) == Join(Scan("a", None), Filter(Scan("b", None), PRED), ["x"], ["y"], Left, None);
  }

  lemma PushedIsNot()
    ensures Eval(DB, false, Insert(TOP, map["b" := [PRED]])).rows == [A + Pad({"y"}) + C]
  {
    PushedShape();
    PushedNestedRows();
    TopRows(Join(Scan("a", None), Filter(Scan("b", None), PRED), ["x"], ["y"], Left, None), Pad({"y"}));
  }

  lemma GoesToB(s: Shape)
    requires s == Shape(Inner, {"a", "b"}, {"c"})
    ensures Dest(SCHEMA, s, PRED) == Some("b")
  {
    PredValue(map[]);
    assert "b" in SCHEMA && "y" in SCHEMA["b"];
    assert TablesOf(SCHEMA, PRED) == {"b"};
    assert AllKnown(SCHEMA, PRED);
    var ts := TablesOf(SCHEMA, PRED) * (s.left + s.right);
    assert ts == {"b"};
    assert s.left * s.right == {};
    assert ts * (s.left * s.right) == {};
  }

  lemma RoutesToB()
    ensures PushPredicates(SCHEMA, QUERY) == Insert(TOP, map["b" := [PRED]])
  {
    var s := Shape(Inner, {"a", "b"}, {"c"});
    assert SubtreeTables(NESTED) == {"a", "b"};
    assert PushPredicates(SCHEMA, NESTED) == NESTED;
    assert PushPredicates(SCHEMA, TOP) == TOP;
    assert ShapeOf(TOP) == s;
    GoesToB(s);
    RouteOne(s);
    FilterPushed(TOP, PRED, map["b" := [PRED]]);
  }

  lemma RouteOne(s: Shape)
    requires Dest(SCHEMA, s, PRED) == Some("b")
    ensures Route(SCHEMA, s, SplitAnd(PRED)) == Routed(map["b" := [PRED]], [])
  {
    assert SplitAnd(PRED) == [PRED];
    assert [PRED][..0] == [];
    var none: seq<Expr> := [];
    assert none + [PRED] == [PRED];
    assert Push(map[], "b", PRED) == map["b" := none + [PRED]];
    assert Route(SCHEMA, s, []) == Routed(map[], []);
    assert Route(SCHEMA, s, [PRED]) == Routed(Push(map[], "b", PRED), []);
  }

  /** Before the rewrite no row qualifies, because `a` has a partner in `b`; after it, `a` comes
      back as if it had none. */
  lemma NestedOuterJoinCounterexample()
    ensures Eval(DB, false, QUERY).rows == []
    ensures Eval(DB, false, PushPredicates(SCHEMA, QUERY)).rows == [A + Pad({"y"}) + C]
  {
    OriginalIsEmpty();
    RoutesToB();
    PushedIsNot();
  }

  // ---------------------------------------------------------------- a derived column's name

  const SAME: seq<Value> -> Value := (vs: seq<Value>) => Bool(|vs| == 2 && vs[0] != Null && vs[0] == vs[1])

  const X_IS_Y := Call(SAME, [Col("x"), Col("y")])

  const RENAMED := Derived(Project(Scan("c", None), [(Col("z"), "y")]), "d")

  const OVER_DERIVED := Join(Scan("a", None), RENAMED, ["x"], ["y"], Inner, None)

  /** SELECT ... FROM a JOIN (SELECT z AS y FROM c) d ON a.x = d.y WHERE a.x = d.y; the table b, which
      the query does not mention, has a column y too. */
  const DERIVED_QUERY := Filter(OVER_DERIVED, X_IS_Y)

  lemma SameValue(r: Row)
    ensures Passes(X_IS_Y, r) <==> Cell(r, "x") == Cell(r, "y") != Null
    ensures Columns(X_IS_Y) == {"x", "y"}
  {
    assert [Col("x"), Col("y")][1..] == [Col("y")] && [Col("y")][1..] == [];
    assert EvalAll([Col("y")], r) == [Cell(r, "y")] + [];
    assert EvalAll([Col("x"), Col("y")], r) == [Cell(r, "x")] + [Cell(r, "y")];
    assert ColumnsAll([Col("y")]) == {"y"} + {};
    assert ColumnsAll([Col("x"), Col("y")]) == {"x"} + {"y"};
  }

  lemma RenamedRows()
    ensures Eval(DB, false, RENAMED) == RawRel({"y"}, [B])
  {
    var items := [(Col("z"), "y")];
    var es, names := ItemExprs(items), ItemNames(items);
    assert es == [Col("z")] && names == ["y"] && ColumnSet(names) == {"y"};
    assert es[1..] == [] && names[..0] == [];
    assert EvalAll(es, C) == [Int(1)] + [];
    assert Named(names, [Int(1)]) == Named([], [Int(1)])["y" := Int(1)] == B;
    assert ProjectRows([C], es, names) == [B];
    assert Eval(DB, false, Scan("c", None)).rows == [C];
  }

  lemma JoinedWith(d: Plan)
    requires Eval(DB, false, d) == RawRel({"y"}, [B])
    ensures Eval(DB, false, Join(Scan("a", None), d, ["x"], ["y"], Inner, None)).rows == [A + B]
  {
    var j := On(["x"], ["y"], None, false);
    Keys(B);
    EvalJoin(DB, false, Scan("a", None), d, ["x"], ["y"], Inner, None);
    assert Matches(j, A, B);
    OneHit(j, A, B, {"y"});
  }

  lemma BothPass()
    ensures Select([A + B], X_IS_Y) == [A + B]
  {
    SameValue(A + B);
    assert [A + B][1..] == [];
  }

  lemma DerivedHasOne()
    ensures Eval(DB, false, DERIVED_QUERY).rows == [A + B]
  {
    RenamedRows();
    JoinedWith(RENAMED);
    BothPass();
    EvalFilter(DB, false, OVER_DERIVED, X_IS_Y);
  }

  lemma GoesToA(s: Shape)
    requires s == Shape(Inner, {"a"}, {})
    ensures Dest(SCHEMA, s, X_IS_Y) == Some("a")
  {
    SameValue(map[]);
    assert "a" in SCHEMA && "x" in SCHEMA["a"] && "b" in SCHEMA && "y" in SCHEMA["b"];
    assert AllKnown(SCHEMA, X_IS_Y);
    assert TablesOf(SCHEMA, X_IS_Y) * (s.left + s.right) == {"a"};
    assert s.left * s.right == {};
  }

  lemma RouteToA(s: Shape)
    requires Dest(SCHEMA, s, X_IS_Y) == Some("a")
    ensures Route(SCHEMA, s, SplitAnd(X_IS_Y)) == Routed(map["a" := [X_IS_Y]], [])
  {
    assert SplitAnd(X_IS_Y) == [X_IS_Y];
    assert [X_IS_Y][..0] == [];
    var none: seq<Expr> := [];
    assert none + [X_IS_Y] == [X_IS_Y];
    assert Push(map[], "a", X_IS_Y) == map["a" := none + [X_IS_Y]];
    assert Route(SCHEMA, s, []) == Routed(map[], []);
    assert Route(SCHEMA, s, [X_IS_Y]) == Routed(Push(map[], "a", X_IS_Y), []);
  }

  lemma DerivedInserted(d: Plan, m: PerTable)
    requires d.Derived? && m == map["a" := [X_IS_Y]]
    ensures Insert(Join(Scan("a", None), d, ["x"], ["y"], Inner, None), m) ==
            Join(Filter(Scan("a", None), X_IS_Y), d, ["x"], ["y"], Inner, None)
  {
    assert Restrict(m, {"a"}) == m;
    assert Conjoin([X_IS_Y]) == X_IS_Y;
    assert Insert(Scan("a", None), m) == Filter(Scan("a", None), X_IS_Y);
  }

  lemma FilterPushed(j: Plan, e: Expr, m: PerTable)
    requires j.Join? && PushPredicates(SCHEMA, j) == j && m != map[]
    requires Route(SCHEMA, ShapeOf(j), SplitAnd(e)) == Routed(m, [])
    ensures PushPredicates(SCHEMA, Filter(j, e)) == Insert(j, m)
  {
  }

  lemma DerivedPushed(d: Plan, j: Plan)
    requires d.Derived? && PushPredicates(SCHEMA, d) == d && j == Join(Scan("a", None), d, ["x"], ["y"], Inner, None)
    ensures PushPredicates(SCHEMA, Filter(j, X_IS_Y)) == Join(Filter(Scan("a", None), X_IS_Y), d, ["x"], ["y"], Inner, None)
  {
    assert ShapeOf(j) == Shape(Inner, {"a"}, {});
    GoesToA(ShapeOf(j));
    RouteToA(ShapeOf(j));
    FilterPushed(j, X_IS_Y, map["a" := [X_IS_Y]]);
    DerivedInserted(d, map["a" := [X_IS_Y]]);
  }

  lemma EmptyA()
    ensures Eval(DB, false, Filter(Scan("a", None), X_IS_Y)) == RawRel({"x"}, [])
  {
    SameValue(A);
    EvalFilter(DB, false, Scan("a", None), X_IS_Y);
    assert Select([A], X_IS_Y) == [] + Select([], X_IS_Y);
  }

  lemma NothingToJoin(d: Plan, l: Plan)
    requires Eval(DB, false, l) == RawRel({"x"}, [])
    ensures Eval(DB, false, Join(l, d, ["x"], ["y"], Inner, None)).rows == []
  {
    EvalJoin(DB, false, l, d, ["x"], ["y"], Inner, None);
  }

  lemma PushedLosesIt()
    ensures Eval(DB, false, PushPredicates(SCHEMA, DERIVED_QUERY)).rows == []
  {
    assert PushPredicates(SCHEMA, RENAMED) == RENAMED;
    DerivedPushed(RENAMED, OVER_DERIVED);
    EmptyA();
    NothingToJoin(RENAMED, Filter(Scan("a", None), X_IS_Y));
  }

  /** The conjunct is sent to the scan of a, which has no column y: no row is left. */
  lemma DerivedColumnCounterexample()
    ensures Eval(DB, false, DERIVED_QUERY).rows == [A + B]
    ensures Eval(DB, false, PushPredicates(SCHEMA, DERIVED_QUERY)).rows == []
  {
    DerivedHasOne();
    PushedLosesIt();
  }
}
