/**
 What the descent into nested outer joins would have to check: exactly when a conjunct of the side
 that gets padded may be pushed below the join.
 */
module NullSide {
  import opened Values
  import opened Plans
  import opened Pushdown

  /** Filtering above can only lose rows against filtering below; they agree when as many are left. */
  predicate AtMost(above: seq<Row>, below: seq<Row>) {
    |above| <= |below| && (|above| == |below| ==> above == below)
  }

  lemma AtMostConcat(a: seq<Row>, a': seq<Row>, b: seq<Row>, b': seq<Row>)
    requires AtMost(a, a') && AtMost(b, b')
    ensures AtMost(a + b, a' + b') && (a + b == a' + b' <==> a == a' && b == b')
  {
    if a + b == a' + b' { assert |a + b| == |a' + b'|; }
  }

  // ---------------------------------------------------------------- left rows and a conjunct of the right

  /** A left row that a conjunct of the right side may be pushed under: some partner survives it,
      or there is no partner at all and the padding passes it. */
  predicate Unharmed(j: On, l: Row, rs: seq<Row>, rc: set<string>, mr: PerTable) {
    Hits(j, l, Keep(mr, rs)) != [] || (Hits(j, l, rs) == [] && RowOk(mr, Pad(rc)))
  }

  lemma OneLeftRow(j: On, l: Row, rs: seq<Row>, m: PerTable, mr: PerTable, lc: set<string>, rc: set<string>)
    requires Splits(m, map[], mr, lc, rc) && l.Keys == lc && AllOver(rs, rc)
    ensures var above, below := Keep(m, LeftOf(j, l, rs, rc)), LeftOf(j, l, Keep(mr, rs), rc);
            AtMost(above, below) && (above == below <==> Unharmed(j, l, rs, rc, mr))
  {
    HitsKeep(j, l, rs, m, map[], mr, lc, rc);
    assert RowOk(map[], l);
    KeepOne(m, l + Pad(rc));
    if Hits(j, l, rs) == [] { assert Keep(m, []) == []; }
  }

  lemma {:induction false} LeftRowsIff(j: On, ls: seq<Row>, rs: seq<Row>, m: PerTable, mr: PerTable, lc: set<string>, rc: set<string>)
    requires Splits(m, map[], mr, lc, rc) && AllOver(ls, lc) && AllOver(rs, rc)
    ensures var above, below := Keep(m, LeftRows(j, ls, rs, rc)), LeftRows(j, ls, Keep(mr, rs), rc);
            AtMost(above, below) && (above == below <==> forall l :: l in ls ==> Unharmed(j, l, rs, rc, mr))
  {
    if ls != [] {
      var l, rest := ls[0], ls[1..];
      assert l in ls && AllOver(rest, lc);
      assert forall x :: x in ls <==> x == l || x in rest;
      OneLeftRow(j, l, rs, m, mr, lc, rc);
      LeftRowsIff(j, rest, rs, m, mr, lc, rc);
      KeepConcat(m, LeftOf(j, l, rs, rc), LeftRows(j, rest, rs, rc));
      AtMostConcat(Keep(m, LeftOf(j, l, rs, rc)), LeftOf(j, l, Keep(mr, rs), rc),
                   Keep(m, LeftRows(j, rest, rs, rc)), LeftRows(j, rest, Keep(mr, rs), rc));
    }
  }

  // ---------------------------------------------------------------- right rows and a conjunct of the left

  predicate UnharmedRight(j: On, ls: seq<Row>, r: Row, lc: set<string>, ml: PerTable) {
    HitsRight(j, Keep(ml, ls), r) != [] || (HitsRight(j, ls, r) == [] && RowOk(ml, Pad(lc)))
  }

  function PadIfAlone(j: On, ls: seq<Row>, r: Row, lc: set<string>): seq<Row> {
    if HitsRight(j, ls, r) == [] then [Pad(lc) + r] else []
  }

  lemma OneRightRow(j: On, ls: seq<Row>, r: Row, m: PerTable, ml: PerTable, lc: set<string>, rc: set<string>)
    requires Splits(m, ml, map[], lc, rc) && r.Keys == rc && AllOver(ls, lc)
    ensures var above, below := Keep(m, RightOf(j, ls, r, lc)), RightOf(j, Keep(ml, ls), r, lc);
            AtMost(above, below) && (above == below <==> UnharmedRight(j, ls, r, lc, ml))
    ensures var above, below := Keep(m, PadIfAlone(j, ls, r, lc)), PadIfAlone(j, Keep(ml, ls), r, lc);
            AtMost(above, below) && (above == below <==> UnharmedRight(j, ls, r, lc, ml))
  {
    HitsRightKeep(j, ls, r, m, ml, map[], lc, rc);
    assert RowOk(map[], r);
    KeepOne(m, Pad(lc) + r);
    assert Keep(m, []) == [];
    if HitsRight(j, ls, r) == [] { assert HitsRight(j, Keep(ml, ls), r) == []; }
  }

  lemma {:induction false} RightRowsIff(j: On, ls: seq<Row>, rs: seq<Row>, m: PerTable, ml: PerTable, lc: set<string>, rc: set<string>)
    requires Splits(m, ml, map[], lc, rc) && AllOver(ls, lc) && AllOver(rs, rc)
    ensures var above, below := Keep(m, RightRows(j, ls, rs, lc)), RightRows(j, Keep(ml, ls), rs, lc);
            AtMost(above, below) && (above == below <==> forall r :: r in rs ==> UnharmedRight(j, ls, r, lc, ml))
  {
    if rs != [] {
      var r, rest := rs[0], rs[1..];
      assert r in rs && AllOver(rest, rc);
      assert forall x :: x in rs <==> x == r || x in rest;
      OneRightRow(j, ls, r, m, ml, lc, rc);
      RightRowsIff(j, ls, rest, m, ml, lc, rc);
      KeepConcat(m, RightOf(j, ls, r, lc), RightRows(j, ls, rest, lc));
      AtMostConcat(Keep(m, RightOf(j, ls, r, lc)), RightOf(j, Keep(ml, ls), r, lc),
                   Keep(m, RightRows(j, ls, rest, lc)), RightRows(j, Keep(ml, ls), rest, lc));
    }
  }

  lemma {:induction false} UnmatchedIff(j: On, ls: seq<Row>, rs: seq<Row>, m: PerTable, ml: PerTable, lc: set<string>, rc: set<string>)
    requires Splits(m, ml, map[], lc, rc) && AllOver(ls, lc) && AllOver(rs, rc)
    ensures var above, below := Keep(m, Unmatched(j, ls, rs, lc)), Unmatched(j, Keep(ml, ls), rs, lc);
            AtMost(above, below) && (above == below <==> forall r :: r in rs ==> UnharmedRight(j, ls, r, lc, ml))
  {
    if rs != [] {
      var r, rest := rs[0], rs[1..];
      assert r in rs && AllOver(rest, rc);
      assert forall x :: x in rs <==> x == r || x in rest;
      OneRightRow(j, ls, r, m, ml, lc, rc);
      UnmatchedIff(j, ls, rest, m, ml, lc, rc);
      KeepConcat(m, PadIfAlone(j, ls, r, lc), Unmatched(j, ls, rest, lc));
      AtMostConcat(Keep(m, PadIfAlone(j, ls, r, lc)), PadIfAlone(j, Keep(ml, ls), r, lc),
                   Keep(m, Unmatched(j, ls, rest, lc)), Unmatched(j, Keep(ml, ls), rest, lc));
    }
  }

  /** A conjunct of the right side does no harm to the right rows of a full join. */
  lemma {:induction false} UnmatchedKeep(j: On, ls: seq<Row>, rs: seq<Row>, m: PerTable, mr: PerTable, lc: set<string>, rc: set<string>)
    requires Splits(m, map[], mr, lc, rc) && AllOver(ls, lc) && AllOver(rs, rc)
    ensures Keep(m, Unmatched(j, ls, rs, lc)) == Unmatched(j, ls, Keep(mr, rs), lc)
  {
    if rs != [] {
      var r, rest := rs[0], rs[1..];
      assert r in rs && AllOver(rest, rc);
      UnmatchedKeep(j, ls, rest, m, mr, lc, rc);
      KeepConcat(m, PadIfAlone(j, ls, r, lc), Unmatched(j, ls, rest, lc));
      KeepOne(m, Pad(lc) + r);
      assert RowOk(map[], Pad(lc));
      assert RowOk(m, Pad(lc) + r) <==> RowOk(mr, r);
      var kept := Keep(mr, rest);
      assert ([r] + kept)[1..] == kept && [] + kept == kept;
    }
  }

  // ---------------------------------------------------------------- plans

  lemma ConjunctsOfRight(db: Database, nulls: bool, q: Plan, m: PerTable, lc: set<string>)
    requires Routable(db, nulls, q, m) && m.Keys <= SubtreeTables(q) && lc !! Eval(db, nulls, q).cols
    ensures Splits(m, map[], m, lc, Eval(db, nulls, q).cols)
  {
    var rc := Eval(db, nulls, q).cols;
    forall l: Row, r: Row | l.Keys == lc && r.Keys == rc
      ensures RowOk(m, l + r) <==> RowOk(map[], l) && RowOk(m, r)
    {
      forall t | t in m ensures AllPass(m[t], l + r) <==> AllPass(m[t], r) {
        ReachableCols(db, nulls, q, t);
        PassLocal(m[t], l + r, r, db[t].cols);
      }
      assert RowOk(map[], l);
    }
  }

  lemma ConjunctsOfLeft(db: Database, nulls: bool, q: Plan, m: PerTable, rc: set<string>)
    requires Routable(db, nulls, q, m) && m.Keys <= SubtreeTables(q) && Eval(db, nulls, q).cols !! rc
    ensures Splits(m, m, map[], Eval(db, nulls, q).cols, rc)
  {
    var lc := Eval(db, nulls, q).cols;
    forall l: Row, r: Row | l.Keys == lc && r.Keys == rc
      ensures RowOk(m, l + r) <==> RowOk(m, l) && RowOk(map[], r)
    {
      forall t | t in m ensures AllPass(m[t], l + r) <==> AllPass(m[t], l) {
        ReachableCols(db, nulls, q, t);
        PassLocal(m[t], l + r, l, db[t].cols);
      }
      assert RowOk(map[], r);
    }
  }

  function FilteredRel(m: PerTable, r: Rel): RawRel {
    RawRel(r.cols, Keep(m, r.rows))
  }

  function OnOf(p: Plan, nulls: bool): On
    requires p.Join?
  {
    On(p.onLeft, p.onRight, p.residual, nulls)
  }

  /** What pushing one side's conjuncts does to that side. */
  lemma FilteredSide(db: Database, nulls: bool, q: Plan, m: PerTable)
    requires m.Keys <= SubtreeTables(q) && Routable(db, nulls, q, m)
    ensures AllOver(Keep(m, Eval(db, nulls, q).rows), Eval(db, nulls, q).cols)
    ensures Eval(db, nulls, Insert(q, m)) == FilteredRel(m, Eval(db, nulls, q))
  {
    RestrictAll(m, SubtreeTables(q));
    InsertMeans(db, nulls, q, m);
    var below := Eval(db, nulls, Insert(q, m));
    assert AllOver(below.rows, below.cols);
  }

  lemma OtherSide(db: Database, nulls: bool, q: Plan, m: PerTable)
    requires m.Keys !! SubtreeTables(q)
    ensures Insert(q, Restrict(m, SubtreeTables(q))) == q
  {
    assert Restrict(m, SubtreeTables(q)) == map[];
    InsertSame(db, nulls, q, map[]);
  }

  lemma InsertRight(db: Database, nulls: bool, p: Plan, m: PerTable)
    requires p.Join? && m.Keys <= SubtreeTables(p.right) && m.Keys !! SubtreeTables(p.left) && Routable(db, nulls, p.right, m)
    ensures AllOver(Keep(m, Eval(db, nulls, p.right).rows), Eval(db, nulls, p.right).cols)
    ensures Eval(db, nulls, Insert(p, m)) ==
            JoinRel(OnOf(p, nulls), p.how, Eval(db, nulls, p.left), FilteredRel(m, Eval(db, nulls, p.right)))
  {
    RestrictAll(m, SubtreeTables(p.right));
    OtherSide(db, nulls, p.left, m);
    FilteredSide(db, nulls, p.right, m);
    assert Insert(p, m) == Join(p.left, Insert(p.right, m), p.onLeft, p.onRight, p.how, p.residual);
    EvalJoin(db, nulls, p.left, Insert(p.right, m), p.onLeft, p.onRight, p.how, p.residual);
  }

  lemma InsertLeft(db: Database, nulls: bool, p: Plan, m: PerTable)
    requires p.Join? && m.Keys <= SubtreeTables(p.left) && m.Keys !! SubtreeTables(p.right) && Routable(db, nulls, p.left, m)
    ensures AllOver(Keep(m, Eval(db, nulls, p.left).rows), Eval(db, nulls, p.left).cols)
    ensures Eval(db, nulls, Insert(p, m)) ==
            JoinRel(OnOf(p, nulls), p.how, FilteredRel(m, Eval(db, nulls, p.left)), Eval(db, nulls, p.right))
  {
    RestrictAll(m, SubtreeTables(p.left));
    OtherSide(db, nulls, p.right, m);
    FilteredSide(db, nulls, p.left, m);
    assert Insert(p, m) == Join(Insert(p.left, m), p.right, p.onLeft, p.onRight, p.how, p.residual);
    EvalJoin(db, nulls, Insert(p.left, m), p.right, p.onLeft, p.onRight, p.how, p.residual);
  }

  lemma FullRightIff(j: On, l: Rel, r: Rel, m: PerTable)
    requires Splits(m, map[], m, l.cols, r.cols)
    ensures var above, below := Keep(m, LeftRows(j, l.rows, r.rows, r.cols)), LeftRows(j, l.rows, Keep(m, r.rows), r.cols);
            above == below <==> Keep(m, LeftRows(j, l.rows, r.rows, r.cols) + Unmatched(j, l.rows, r.rows, l.cols)) ==
                                below + Unmatched(j, l.rows, Keep(m, r.rows), l.cols)
  {
    LeftRowsIff(j, l.rows, r.rows, m, m, l.cols, r.cols);
    UnmatchedKeep(j, l.rows, r.rows, m, m, l.cols, r.cols);
    KeepConcat(m, LeftRows(j, l.rows, r.rows, r.cols), Unmatched(j, l.rows, r.rows, l.cols));
    AtMostConcat(Keep(m, LeftRows(j, l.rows, r.rows, r.cols)), LeftRows(j, l.rows, Keep(m, r.rows), r.cols),
                 Keep(m, Unmatched(j, l.rows, r.rows, l.cols)), Unmatched(j, l.rows, Keep(m, r.rows), l.cols));
  }

  lemma FullLeftIff(j: On, l: Rel, r: Rel, m: PerTable)
    requires Splits(m, m, map[], l.cols, r.cols)
    ensures var above, below := Keep(m, Unmatched(j, l.rows, r.rows, l.cols)), Unmatched(j, Keep(m, l.rows), r.rows, l.cols);
            above == below <==> Keep(m, LeftRows(j, l.rows, r.rows, r.cols) + Unmatched(j, l.rows, r.rows, l.cols)) ==
                                LeftRows(j, Keep(m, l.rows), r.rows, r.cols) + below
  {
    LeftKeep(j, l.rows, r.rows, m, m, l.cols, r.cols);
    UnmatchedIff(j, l.rows, r.rows, m, m, l.cols, r.cols);
    KeepConcat(m, LeftRows(j, l.rows, r.rows, r.cols), Unmatched(j, l.rows, r.rows, l.cols));
    AtMostConcat(Keep(m, LeftRows(j, l.rows, r.rows, r.cols)), LeftRows(j, Keep(m, l.rows), r.rows, r.cols),
                 Keep(m, Unmatched(j, l.rows, r.rows, l.cols)), Unmatched(j, Keep(m, l.rows), r.rows, l.cols));
  }

  /** The same for relations: the right input filtered, or the join filtered. */
  lemma RightSideIff(j: On, how: How, l: Rel, r: Rel, m: PerTable)
    requires how in {Left, Full} && Splits(m, map[], m, l.cols, r.cols) && AllOver(Keep(m, r.rows), r.cols)
    ensures JoinRel(j, how, l, FilteredRel(m, r)).rows == Keep(m, JoinRel(j, how, l, r).rows) <==>
            forall x :: x in l.rows ==> Unharmed(j, x, r.rows, r.cols, m)
  {
    LeftRowsIff(j, l.rows, r.rows, m, m, l.cols, r.cols);
    if how == Full { FullRightIff(j, l, r, m); }
  }

  lemma LeftSideIff(j: On, how: How, l: Rel, r: Rel, m: PerTable)
    requires how in {Right, Full} && Splits(m, m, map[], l.cols, r.cols) && AllOver(Keep(m, l.rows), l.cols)
    ensures JoinRel(j, how, FilteredRel(m, l), r).rows == Keep(m, JoinRel(j, how, l, r).rows) <==>
            forall x :: x in r.rows ==> UnharmedRight(j, l.rows, x, l.cols, m)
  {
    if how == Right {
      RightRowsIff(j, l.rows, r.rows, m, m, l.cols, r.cols);
    } else {
      UnmatchedIff(j, l.rows, r.rows, m, m, l.cols, r.cols);
      FullLeftIff(j, l, r, m);
    }
  }

  /** Left or full join: a conjunct of the right side pushed below the join gives the filtered join
      exactly when no left row is harmed. */
  lemma RightConjunctIff(db: Database, nulls: bool, p: Plan, m: PerTable)
    requires p.Join? && p.how in {Left, Full} && Eval(db, nulls, p.left).cols !! Eval(db, nulls, p.right).cols
    requires m.Keys <= SubtreeTables(p.right) && m.Keys !! SubtreeTables(p.left) && Routable(db, nulls, p.right, m)
    ensures Eval(db, nulls, Insert(p, m)) == FilteredRel(m, Eval(db, nulls, p)) <==>
            forall l :: l in Eval(db, nulls, p.left).rows ==>
              Unharmed(OnOf(p, nulls), l, Eval(db, nulls, p.right).rows, Eval(db, nulls, p.right).cols, m)
  {
    var l, r, j := Eval(db, nulls, p.left), Eval(db, nulls, p.right), OnOf(p, nulls);
    ConjunctsOfRight(db, nulls, p.right, m, l.cols);
    InsertRight(db, nulls, p, m);
    EvalJoin(db, nulls, p.left, p.right, p.onLeft, p.onRight, p.how, p.residual);
    RightSideIff(j, p.how, l, r, m);
    SameColumns(j, p.how, l, r, l, FilteredRel(m, r));
  }

  lemma SameColumns(j: On, how: How, l: Rel, r: Rel, l': Rel, r': Rel)
    requires l'.cols == l.cols && r'.cols == r.cols
    ensures JoinRel(j, how, l', r').cols == JoinRel(j, how, l, r).cols
  {
  }

  /** Right or full join: a conjunct of the left side, likewise, exactly when no right row is harmed. */
  lemma LeftConjunctIff(db: Database, nulls: bool, p: Plan, m: PerTable)
    requires p.Join? && p.how in {Right, Full} && Eval(db, nulls, p.left).cols !! Eval(db, nulls, p.right).cols
    requires m.Keys <= SubtreeTables(p.left) && m.Keys !! SubtreeTables(p.right) && Routable(db, nulls, p.left, m)
    ensures Eval(db, nulls, Insert(p, m)) == FilteredRel(m, Eval(db, nulls, p)) <==>
            forall r :: r in Eval(db, nulls, p.right).rows ==>
              UnharmedRight(OnOf(p, nulls), Eval(db, nulls, p.left).rows, r, Eval(db, nulls, p.left).cols, m)
  {
    var l, r, j := Eval(db, nulls, p.left), Eval(db, nulls, p.right), OnOf(p, nulls);
    ConjunctsOfLeft(db, nulls, p.left, m, r.cols);
    InsertLeft(db, nulls, p, m);
    EvalJoin(db, nulls, p.left, p.right, p.onLeft, p.onRight, p.how, p.residual);
    LeftSideIff(j, p.how, l, r, m);
    SameColumns(j, p.how, l, r, FilteredRel(m, l), r);
  }
}
