/**
 Outer joins whose merge lets NULL keys meet, against SQL, where they do not: when the two return
 the same rows.
 */
module NullKeys {
  import opened Values
  import opened Bags
  import opened Plans
  import opened JoinBags
  import opened JoinAlgorithms

  // ---------------------------------------------------------------- weighing rows

  predicate AllNull(row: Row, cols: set<string>) {
    forall c :: c in cols ==> Cell(row, c) == Null
  }

  /** A row counts twice when one of the columns holds a value. */
  function Marks(cols: set<string>): Row -> seq<Row> {
    (row: Row) => if AllNull(row, cols) then [row] else [row, row]
  }

  function Weight(rows: seq<Row>, cols: set<string>): nat {
    |Flat(rows, Marks(cols))|
  }

  lemma WeightBag(a: seq<Row>, b: seq<Row>, cols: set<string>)
    requires multiset(a) == multiset(b)
    ensures Weight(a, cols) == Weight(b, cols)
  {
    FlatBag(a, b, Marks(cols));
    SameMembers(Flat(a, Marks(cols)), Flat(b, Marks(cols)));
  }

  lemma {:induction false} WeightAtLeast(rows: seq<Row>, cols: set<string>)
    ensures Weight(rows, cols) >= |rows|
  {
    if rows != [] { WeightAtLeast(rows[1..], cols); }
  }

  /** The least weight a joined row can have: one row, padded. */
  lemma WeightOne(rows: seq<Row>, cols: set<string>)
    requires rows != []
    ensures Weight(rows, cols) >= 1
    ensures Weight(rows, cols) == 1 <==> |rows| == 1 && AllNull(rows[0], cols)
  {
    WeightAtLeast(rows[1..], cols);
    assert Flat(rows, Marks(cols)) == Marks(cols)(rows[0]) + Flat(rows[1..], Marks(cols));
  }

  lemma NullRowIsPad(r: Row, cols: set<string>)
    requires r.Keys == cols && AllNull(r, cols)
    ensures r == Pad(cols)
  {
  }

  lemma PadAllNull(l: Row, rc: set<string>)
    ensures AllNull(l + Pad(rc), rc)
  {
  }

  // ---------------------------------------------------------------- left and right joins

  /** A left row with a NULL in its key meets no right row, or a single one that is all NULL. */
  predicate MeetsAtMostPadding(j: On, l: Row, rs: seq<Row>, rc: set<string>) {
    Null in KeyOf(l, j.onLeft) ==>
      var hits := Hits(j.(nullsMatch := true), l, rs);
      hits == [] || hits == [l + Pad(rc)]
  }

  lemma {:induction false} NullKeyHitsNothing(j: On, l: Row, rs: seq<Row>)
    requires !j.nullsMatch && Null in KeyOf(l, j.onLeft)
    ensures Hits(j, l, rs) == []
  {
    if rs != [] { NullKeyHitsNothing(j, l, rs[1..]); }
  }

  lemma {:induction false} HitsAreMerged(j: On, l: Row, rs: seq<Row>, row: Row)
    requires row in Hits(j, l, rs)
    ensures exists r :: r in rs && row == l + r
  {
    if row in Hits(j, l, rs[1..]) {
      HitsAreMerged(j, l, rs[1..], row);
      var r :| r in rs[1..] && row == l + r;
      assert r in rs;
    } else {
      assert rs[0] in rs;
    }
  }

  lemma NullHitIsPadded(j: On, l: Row, rs: seq<Row>, rc: set<string>, row: Row)
    requires AllOver(rs, rc) && row in Hits(j, l, rs)
    ensures AllNull(row, rc) <==> row == l + Pad(rc)
  {
    HitsAreMerged(j, l, rs, row);
    var r :| r in rs && row == l + r;
    if AllNull(row, rc) {
      forall c | c in rc ensures Cell(r, c) == Null { assert Cell(row, c) == Cell(r, c); }
      NullRowIsPad(r, rc);
    }
    PadAllNull(l, rc);
  }

  lemma LeftOfWeighs(j: On, l: Row, rs: seq<Row>, rc: set<string>)
    requires AllOver(rs, rc)
    ensures var m, s := LeftOf(j.(nullsMatch := true), l, rs, rc), LeftOf(j.(nullsMatch := false), l, rs, rc);
            && Weight(m, rc) >= Weight(s, rc)
            && (Weight(m, rc) == Weight(s, rc) <==> MeetsAtMostPadding(j, l, rs, rc))
            && (MeetsAtMostPadding(j, l, rs, rc) ==> m == s)
  {
    var a, b := j.(nullsMatch := true), j.(nullsMatch := false);
    if Null in KeyOf(l, j.onLeft) {
      NullKeyHitsNothing(b, l, rs);
      PadAllNull(l, rc);
      WeightOne([l + Pad(rc)], rc);
      var m := LeftOf(a, l, rs, rc);
      WeightOne(m, rc);
      if Hits(a, l, rs) != [] { NullHitIsPadded(a, l, rs, rc, m[0]); }
    } else {
      SameHits(a, b, l, rs);
    }
  }

  lemma {:induction false} LeftRowsWeigh(j: On, ls: seq<Row>, rs: seq<Row>, rc: set<string>)
    requires AllOver(rs, rc)
    ensures var m, s := LeftRows(j.(nullsMatch := true), ls, rs, rc), LeftRows(j.(nullsMatch := false), ls, rs, rc);
            && Weight(m, rc) >= Weight(s, rc)
            && (Weight(m, rc) == Weight(s, rc) <==> forall l :: l in ls ==> MeetsAtMostPadding(j, l, rs, rc))
            && ((forall l :: l in ls ==> MeetsAtMostPadding(j, l, rs, rc)) ==> m == s)
  {
    if ls != [] {
      var a, b := j.(nullsMatch := true), j.(nullsMatch := false);
      LeftOfWeighs(j, ls[0], rs, rc);
      LeftRowsWeigh(j, ls[1..], rs, rc);
      FlatAppend(LeftOf(a, ls[0], rs, rc), LeftRows(a, ls[1..], rs, rc), Marks(rc));
      FlatAppend(LeftOf(b, ls[0], rs, rc), LeftRows(b, ls[1..], rs, rc), Marks(rc));
      assert forall l :: l in ls <==> l == ls[0] || l in ls[1..];
    }
  }

  /** The left join by merge is SQL's exactly when every left row with a NULL in its key meets no
      right row or one that is itself all NULL, which looks like padding. */
  lemma LeftMergeIsSqlIff(j: On, l: Rel, r: Rel)
    ensures multiset(JoinRel(j.(nullsMatch := true), Left, l, r).rows) == multiset(JoinRel(j.(nullsMatch := false), Left, l, r).rows) <==>
            forall x :: x in l.rows ==> MeetsAtMostPadding(j, x, r.rows, r.cols)
  {
    var m, s := LeftRows(j.(nullsMatch := true), l.rows, r.rows, r.cols), LeftRows(j.(nullsMatch := false), l.rows, r.rows, r.cols);
    LeftRowsWeigh(j, l.rows, r.rows, r.cols);
    if multiset(m) == multiset(s) { WeightBag(m, s, r.cols); }
  }

  /** The same of the right join, seen from its right rows. */
  lemma RightMergeIsSqlIff(j: On, l: Rel, r: Rel)
    requires l.cols !! r.cols
    ensures multiset(JoinRel(j.(nullsMatch := true), Right, l, r).rows) == multiset(JoinRel(j.(nullsMatch := false), Right, l, r).rows) <==>
            forall x :: x in r.rows ==> MeetsAtMostPadding(Flip(j), x, l.rows, l.cols)
  {
    LeftIsFlippedRight(j.(nullsMatch := true), l.rows, r.rows, l.cols, r.cols);
    LeftIsFlippedRight(j.(nullsMatch := false), l.rows, r.rows, l.cols, r.cols);
    LeftMergeIsSqlIff(Flip(j), r, l);
  }

  // ---------------------------------------------------------------- full joins

  predicate BothFilled(row: Row, lc: set<string>, rc: set<string>) {
    !AllNull(row, lc) && !AllNull(row, rc)
  }

  function KeepFilled(lc: set<string>, rc: set<string>): Row -> seq<Row> {
    (row: Row) => if BothFilled(row, lc, rc) then [row] else []
  }

  predicate NoneAllNull(rows: seq<Row>, cols: set<string>) {
    forall r :: r in rows ==> !AllNull(r, cols)
  }

  lemma {:induction false} KeepsAll(rows: seq<Row>, lc: set<string>, rc: set<string>)
    requires forall r :: r in rows ==> BothFilled(r, lc, rc)
    ensures Flat(rows, KeepFilled(lc, rc)) == rows
  {
    if rows != [] {
      assert rows[0] in rows;
      KeepsAll(rows[1..], lc, rc);
    }
  }

  lemma PairFilled(l: Row, r: Row, lc: set<string>, rc: set<string>)
    requires l.Keys == lc && r.Keys == rc && lc !! rc && !AllNull(l, lc) && !AllNull(r, rc)
    ensures BothFilled(l + r, lc, rc)
  {
    var c :| c in lc && Cell(l, c) != Null;
    assert Cell(l + r, c) == Cell(l, c);
    var d :| d in rc && Cell(r, d) != Null;
    assert Cell(l + r, d) == Cell(r, d);
  }

  lemma InnerFilled(j: On, ls: seq<Row>, rs: seq<Row>, lc: set<string>, rc: set<string>, row: Row)
    requires AllOver(ls, lc) && AllOver(rs, rc) && lc !! rc && NoneAllNull(ls, lc) && NoneAllNull(rs, rc)
    requires row in InnerRows(j, ls, rs)
    ensures BothFilled(row, lc, rc)
  {
    InnerFlat(j, ls, rs);
    var f := (l: Row) => Hits(j, l, rs);
    FlatMember(ls, f, row);
    var l :| l in ls && row in f(l);
    HitsAreMerged(j, l, rs, row);
    var r :| r in rs && row == l + r;
    PairFilled(l, r, lc, rc);
  }

  /** Of a full join without all-NULL inputs, the rows with a value on both sides are the pairs. */
  lemma FilledArePairs(j: On, ls: seq<Row>, rs: seq<Row>, lc: set<string>, rc: set<string>)
    requires AllOver(ls, lc) && AllOver(rs, rc) && lc !! rc && NoneAllNull(ls, lc) && NoneAllNull(rs, rc)
    ensures |Flat(LeftRows(j, ls, rs, rc) + Unmatched(j, ls, rs, lc), KeepFilled(lc, rc))| == |InnerRows(j, ls, rs)|
  {
    var left, right, inner, pads := LeftRows(j, ls, rs, rc), Unmatched(j, ls, rs, lc), InnerRows(j, ls, rs), LeftPads(j, ls, rs, rc);
    var keep := KeepFilled(lc, rc);
    FlatAppend(left, right, keep);
    LeftSplits(j, ls, rs, rc);
    BagOfSum(inner, pads);
    FlatBag(left, inner + pads, keep);
    SameMembers(Flat(left, keep), Flat(inner + pads, keep));
    FlatAppend(inner, pads, keep);
    forall row | row in inner ensures BothFilled(row, lc, rc) { InnerFilled(j, ls, rs, lc, rc, row); }
    KeepsAll(inner, lc, rc);
    PadsUnfilled(j, ls, rs, lc, rc);
  }

  lemma PadsUnfilled(j: On, ls: seq<Row>, rs: seq<Row>, lc: set<string>, rc: set<string>)
    requires AllOver(rs, rc) && lc !! rc
    ensures Flat(LeftPads(j, ls, rs, rc), KeepFilled(lc, rc)) == []
    ensures Flat(Unmatched(j, ls, rs, lc), KeepFilled(lc, rc)) == []
  {
    var pads, right := LeftPads(j, ls, rs, rc), Unmatched(j, ls, rs, lc);
    var f, g := (l: Row) => PadRight(j, l, rs, rc), (r: Row) => PadLeft(j, ls, r, lc);
    forall row | row in pads ensures !BothFilled(row, lc, rc) {
      FlatMember(ls, f, row);
      var l :| l in ls && row in f(l);
      PadAllNull(l, rc);
    }
    UnmatchedFlat(j, ls, rs, lc);
    forall row | row in right ensures !BothFilled(row, lc, rc) {
      FlatMember(rs, g, row);
      var r :| r in rs && row in g(r);
      forall c | c in lc ensures Cell(Pad(lc) + r, c) == Null { assert c !in r; }
    }
    FlatEmpty(pads, KeepFilled(lc, rc));
    FlatEmpty(right, KeepFilled(lc, rc));
  }

  lemma NoNullMatchSameOn(j: On, ls: seq<Row>, rs: seq<Row>)
    requires forall l :: l in ls ==> NoNullMatch(j, l, rs)
    ensures forall l, r :: l in ls && r in rs ==> Matches(j.(nullsMatch := true), l, r) == Matches(j.(nullsMatch := false), l, r)
  {
    forall l, r | l in ls && r in rs
      ensures Matches(j.(nullsMatch := true), l, r) == Matches(j.(nullsMatch := false), l, r)
    {
      assert NoNullMatch(j, l, rs) && !NullMatch(j, l, r);
    }
  }

  function FullRows(j: On, ls: seq<Row>, rs: seq<Row>, lc: set<string>, rc: set<string>): seq<Row> {
    LeftRows(j, ls, rs, rc) + Unmatched(j, ls, rs, lc)
  }

  lemma SamePairCount(a: On, b: On, ls: seq<Row>, rs: seq<Row>, lc: set<string>, rc: set<string>)
    requires AllOver(ls, lc) && AllOver(rs, rc) && lc !! rc && NoneAllNull(ls, lc) && NoneAllNull(rs, rc)
    requires multiset(FullRows(a, ls, rs, lc, rc)) == multiset(FullRows(b, ls, rs, lc, rc))
    ensures |InnerRows(a, ls, rs)| == |InnerRows(b, ls, rs)|
  {
    var m, s, keep := FullRows(a, ls, rs, lc, rc), FullRows(b, ls, rs, lc, rc), KeepFilled(lc, rc);
    FilledArePairs(a, ls, rs, lc, rc);
    FilledArePairs(b, ls, rs, lc, rc);
    FlatBag(m, s, keep);
    SameMembers(Flat(m, keep), Flat(s, keep));
  }

  lemma SameFullRows(j: On, ls: seq<Row>, rs: seq<Row>, lc: set<string>, rc: set<string>)
    requires forall x :: x in ls ==> NoNullMatch(j, x, rs)
    ensures FullRows(j.(nullsMatch := true), ls, rs, lc, rc) == FullRows(j.(nullsMatch := false), ls, rs, lc, rc)
  {
    NoNullMatchSameOn(j, ls, rs);
    SameOn(j.(nullsMatch := true), j.(nullsMatch := false), ls, rs, rc, lc);
  }

  lemma FullRowsIff(j: On, ls: seq<Row>, rs: seq<Row>, lc: set<string>, rc: set<string>)
    requires AllOver(ls, lc) && AllOver(rs, rc) && lc !! rc && NoneAllNull(ls, lc) && NoneAllNull(rs, rc)
    ensures multiset(FullRows(j.(nullsMatch := true), ls, rs, lc, rc)) == multiset(FullRows(j.(nullsMatch := false), ls, rs, lc, rc)) <==>
            forall x :: x in ls ==> NoNullMatch(j, x, rs)
  {
    var a, b := j.(nullsMatch := true), j.(nullsMatch := false);
    InnerGrows(j, ls, rs);
    if multiset(FullRows(a, ls, rs, lc, rc)) == multiset(FullRows(b, ls, rs, lc, rc)) {
      SamePairCount(a, b, ls, rs, lc, rc);
    } else if forall x :: x in ls ==> NoNullMatch(j, x, rs) {
      SameFullRows(j, ls, rs, lc, rc);
    }
  }

  /** The full join by merge, over rows that each hold some value, is SQL's exactly when no two rows
      share a key that holds a NULL and pass the residual. */
  lemma FullMergeIsSqlIff(j: On, l: Rel, r: Rel)
    requires l.cols !! r.cols && NoneAllNull(l.rows, l.cols) && NoneAllNull(r.rows, r.cols)
    ensures multiset(JoinRel(j.(nullsMatch := true), Full, l, r).rows) == multiset(JoinRel(j.(nullsMatch := false), Full, l, r).rows) <==>
            forall x :: x in l.rows ==> NoNullMatch(j, x, r.rows)
  {
    FullRowsIff(j, l.rows, r.rows, l.cols, r.cols);
    JoinRows(j.(nullsMatch := true), Full, l, r);
    JoinRows(j.(nullsMatch := false), Full, l, r);
  }
}
