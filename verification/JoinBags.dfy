/**
 Joins as bags: a join depends only on the bags of its inputs, its two sides may be exchanged, and
 every outer join is its matched pairs plus padded unmatched rows.
 */
module JoinBags {
  import opened Values
  import opened Bags
  import opened Plans

  // ---------------------------------------------------------------- joins as nested loops

  function Pair(j: On, l: Row, r: Row): seq<Row> {
    if Matches(j, l, r) then [l + r] else []
  }

  function PadRight(j: On, l: Row, rs: seq<Row>, rc: set<string>): seq<Row> {
    if Hits(j, l, rs) == [] then [l + Pad(rc)] else []
  }

  function KeepIf(j: On, l: Row, rs: seq<Row>, keep: bool): seq<Row> {
    if (Hits(j, l, rs) != []) == keep then [l] else []
  }

  function PadLeft(j: On, ls: seq<Row>, r: Row, lc: set<string>): seq<Row> {
    if HitsRight(j, ls, r) == [] then [Pad(lc) + r] else []
  }

  lemma {:induction false} HitsFlat(j: On, l: Row, rs: seq<Row>)
    ensures Hits(j, l, rs) == Flat(rs, (r: Row) => Pair(j, l, r))
  {
    if rs != [] { HitsFlat(j, l, rs[1..]); }
  }

  lemma {:induction false} HitsRightFlat(j: On, ls: seq<Row>, r: Row)
    ensures HitsRight(j, ls, r) == Flat(ls, (l: Row) => Pair(j, l, r))
  {
    if ls != [] { HitsRightFlat(j, ls[1..], r); }
  }

  lemma {:induction false} InnerFlat(j: On, ls: seq<Row>, rs: seq<Row>)
    ensures InnerRows(j, ls, rs) == Flat(ls, (l: Row) => Hits(j, l, rs))
  {
    if ls != [] { InnerFlat(j, ls[1..], rs); }
  }

  lemma {:induction false} LeftFlat(j: On, ls: seq<Row>, rs: seq<Row>, rc: set<string>)
    ensures LeftRows(j, ls, rs, rc) == Flat(ls, (l: Row) => LeftOf(j, l, rs, rc))
  {
    if ls != [] { LeftFlat(j, ls[1..], rs, rc); }
  }

  lemma {:induction false} RightFlat(j: On, ls: seq<Row>, rs: seq<Row>, lc: set<string>)
    ensures RightRows(j, ls, rs, lc) == Flat(rs, (r: Row) => RightOf(j, ls, r, lc))
  {
    if rs != [] { RightFlat(j, ls, rs[1..], lc); }
  }

  lemma {:induction false} UnmatchedFlat(j: On, ls: seq<Row>, rs: seq<Row>, lc: set<string>)
    ensures Unmatched(j, ls, rs, lc) == Flat(rs, (r: Row) => PadLeft(j, ls, r, lc))
  {
    if rs != [] { UnmatchedFlat(j, ls, rs[1..], lc); }
  }

  lemma {:induction false} SemiFlat(j: On, ls: seq<Row>, rs: seq<Row>, keep: bool)
    ensures SemiRows(j, ls, rs, keep) == Flat(ls, (l: Row) => KeepIf(j, l, rs, keep))
  {
    if ls != [] { SemiFlat(j, ls[1..], rs, keep); }
  }

  // ---------------------------------------------------------------- only the bags of the inputs matter

  lemma HitsBag(j: On, l: Row, rs: seq<Row>, rs': seq<Row>)
    requires multiset(rs) == multiset(rs')
    ensures multiset(Hits(j, l, rs)) == multiset(Hits(j, l, rs'))
    ensures Hits(j, l, rs) == [] <==> Hits(j, l, rs') == []
  {
    var f := (r: Row) => Pair(j, l, r);
    HitsFlat(j, l, rs);
    HitsFlat(j, l, rs');
    FlatBag(rs, rs', f);
    SameMembers(Hits(j, l, rs), Hits(j, l, rs'));
  }

  lemma HitsRightBag(j: On, ls: seq<Row>, ls': seq<Row>, r: Row)
    requires multiset(ls) == multiset(ls')
    ensures multiset(HitsRight(j, ls, r)) == multiset(HitsRight(j, ls', r))
    ensures HitsRight(j, ls, r) == [] <==> HitsRight(j, ls', r) == []
  {
    var f := (l: Row) => Pair(j, l, r);
    HitsRightFlat(j, ls, r);
    HitsRightFlat(j, ls', r);
    FlatBag(ls, ls', f);
    SameMembers(HitsRight(j, ls, r), HitsRight(j, ls', r));
  }

  lemma InnerBag(j: On, ls: seq<Row>, ls': seq<Row>, rs: seq<Row>, rs': seq<Row>)
    requires multiset(ls) == multiset(ls') && multiset(rs) == multiset(rs')
    ensures multiset(InnerRows(j, ls, rs)) == multiset(InnerRows(j, ls', rs'))
  {
    var f, g := (l: Row) => Hits(j, l, rs), (l: Row) => Hits(j, l, rs');
    InnerFlat(j, ls, rs);
    InnerFlat(j, ls', rs');
    FlatBag(ls, ls', f);
    forall l | l in ls' ensures multiset(f(l)) == multiset(g(l)) { HitsBag(j, l, rs, rs'); }
    FlatCong(ls', f, g);
  }

  lemma LeftBag(j: On, ls: seq<Row>, ls': seq<Row>, rs: seq<Row>, rs': seq<Row>, rc: set<string>)
    requires multiset(ls) == multiset(ls') && multiset(rs) == multiset(rs')
    ensures multiset(LeftRows(j, ls, rs, rc)) == multiset(LeftRows(j, ls', rs', rc))
  {
    var f, g := (l: Row) => LeftOf(j, l, rs, rc), (l: Row) => LeftOf(j, l, rs', rc);
    LeftFlat(j, ls, rs, rc);
    LeftFlat(j, ls', rs', rc);
    FlatBag(ls, ls', f);
    forall l | l in ls' ensures multiset(f(l)) == multiset(g(l)) { HitsBag(j, l, rs, rs'); }
    FlatCong(ls', f, g);
  }

  lemma RightBag(j: On, ls: seq<Row>, ls': seq<Row>, rs: seq<Row>, rs': seq<Row>, lc: set<string>)
    requires multiset(ls) == multiset(ls') && multiset(rs) == multiset(rs')
    ensures multiset(RightRows(j, ls, rs, lc)) == multiset(RightRows(j, ls', rs', lc))
  {
    var f, g := (r: Row) => RightOf(j, ls, r, lc), (r: Row) => RightOf(j, ls', r, lc);
    RightFlat(j, ls, rs, lc);
    RightFlat(j, ls', rs', lc);
    FlatBag(rs, rs', f);
    forall r | r in rs' ensures multiset(f(r)) == multiset(g(r)) { HitsRightBag(j, ls, ls', r); }
    FlatCong(rs', f, g);
  }

  lemma UnmatchedBag(j: On, ls: seq<Row>, ls': seq<Row>, rs: seq<Row>, rs': seq<Row>, lc: set<string>)
    requires multiset(ls) == multiset(ls') && multiset(rs) == multiset(rs')
    ensures multiset(Unmatched(j, ls, rs, lc)) == multiset(Unmatched(j, ls', rs', lc))
  {
    var f, g := (r: Row) => PadLeft(j, ls, r, lc), (r: Row) => PadLeft(j, ls', r, lc);
    UnmatchedFlat(j, ls, rs, lc);
    UnmatchedFlat(j, ls', rs', lc);
    FlatBag(rs, rs', f);
    forall r | r in rs' ensures f(r) == g(r) { HitsRightBag(j, ls, ls', r); }
    FlatCong(rs', f, g);
  }

  lemma SemiBag(j: On, ls: seq<Row>, ls': seq<Row>, rs: seq<Row>, rs': seq<Row>, keep: bool)
    requires multiset(ls) == multiset(ls') && multiset(rs) == multiset(rs')
    ensures multiset(SemiRows(j, ls, rs, keep)) == multiset(SemiRows(j, ls', rs', keep))
  {
    var f, g := (l: Row) => KeepIf(j, l, rs, keep), (l: Row) => KeepIf(j, l, rs', keep);
    SemiFlat(j, ls, rs, keep);
    SemiFlat(j, ls', rs', keep);
    FlatBag(ls, ls', f);
    forall l | l in ls' ensures f(l) == g(l) { HitsBag(j, l, rs, rs'); }
    FlatCong(ls', f, g);
  }

  /** Same columns, same rows, each as often: what a query promises without ORDER BY. */
  predicate SameBag(a: Rel, b: Rel) {
    a.cols == b.cols && multiset(a.rows) == multiset(b.rows)
  }

  lemma JoinBag(j: On, how: How, l: Rel, l': Rel, r: Rel, r': Rel)
    requires SameBag(l, l') && SameBag(r, r')
    ensures SameBag(JoinRel(j, how, l, r), JoinRel(j, how, l', r'))
  {
    match how
    case Inner => InnerBag(j, l.rows, l'.rows, r.rows, r'.rows);
    case Cross => InnerBag(j, l.rows, l'.rows, r.rows, r'.rows);
    case Left => LeftBag(j, l.rows, l'.rows, r.rows, r'.rows, r.cols);
    case Right => RightBag(j, l.rows, l'.rows, r.rows, r'.rows, l.cols);
    case Full =>
      LeftBag(j, l.rows, l'.rows, r.rows, r'.rows, r.cols);
      UnmatchedBag(j, l.rows, l'.rows, r.rows, r'.rows, l.cols);
    case Semi => SemiBag(j.(nullsMatch := false), l.rows, l'.rows, r.rows, r'.rows, true);
    case Anti => SemiBag(j.(nullsMatch := false), l.rows, l'.rows, r.rows, r'.rows, false);
  }

  // ---------------------------------------------------------------- exchanging the sides

  function Flip(j: On): On {
    On(j.onRight, j.onLeft, j.residual, j.nullsMatch)
  }

  function FlipHow(how: How): How {
    match how
    case Left => Right
    case Right => Left
    case h => h
  }

  lemma MergeCommutes(l: Row, r: Row)
    requires l.Keys !! r.Keys
    ensures l + r == r + l
  {
  }

  lemma MatchFlips(j: On, l: Row, r: Row)
    requires l.Keys !! r.Keys
    ensures Matches(Flip(j), r, l) == Matches(j, l, r)
    ensures Pair(Flip(j), r, l) == Pair(j, l, r)
  {
    MergeCommutes(l, r);
  }

  lemma {:induction false} HitsFlip(j: On, ls: seq<Row>, r: Row, lc: set<string>)
    requires AllOver(ls, lc) && lc !! r.Keys
    ensures Hits(Flip(j), r, ls) == HitsRight(j, ls, r)
  {
    if ls != [] {
      HitsFlip(j, ls[1..], r, lc);
      assert ls[0] in ls;
      MatchFlips(j, ls[0], r);
      MergeCommutes(ls[0], r);
    }
  }

  /** A left join with its sides exchanged is the right join, row for row. */
  lemma {:induction false} LeftIsFlippedRight(j: On, ls: seq<Row>, rs: seq<Row>, lc: set<string>, rc: set<string>)
    requires AllOver(ls, lc) && AllOver(rs, rc) && lc !! rc
    ensures LeftRows(Flip(j), rs, ls, lc) == RightRows(j, ls, rs, lc)
  {
    if rs != [] {
      LeftIsFlippedRight(j, ls, rs[1..], lc, rc);
      assert rs[0] in rs;
      HitsFlip(j, ls, rs[0], lc);
      MergeCommutes(Pad(lc), rs[0]);
    }
  }

  /** Looping over the right rows outside gives the same pairs. */
  lemma {:induction false} LoopsExchange(j: On, ls: seq<Row>, rs: seq<Row>)
    ensures multiset(InnerRows(j, ls, rs)) == multiset(Flat(rs, (r: Row) => HitsRight(j, ls, r)))
  {
    var f := (r: Row) => HitsRight(j, ls, r);
    if ls == [] {
      FlatEmpty(rs, f);
    } else {
      LoopsExchange(j, ls[1..], rs);
      HitsFlat(j, ls[0], rs);
      FlatPlus(rs, (r: Row) => Pair(j, ls[0], r), (r: Row) => HitsRight(j, ls[1..], r), f);
    }
  }

  lemma InnerFlip(j: On, ls: seq<Row>, rs: seq<Row>, lc: set<string>, rc: set<string>)
    requires AllOver(ls, lc) && AllOver(rs, rc) && lc !! rc
    ensures multiset(InnerRows(Flip(j), rs, ls)) == multiset(InnerRows(j, ls, rs))
  {
    var f, g := (r: Row) => Hits(Flip(j), r, ls), (r: Row) => HitsRight(j, ls, r);
    InnerFlat(Flip(j), rs, ls);
    forall r | r in rs ensures f(r) == g(r) { HitsFlip(j, ls, r, lc); }
    FlatSame(rs, f, g);
    LoopsExchange(j, ls, rs);
  }

  // ---------------------------------------------------------------- pairs plus padding

  /** The unmatched left rows, padded. */
  function LeftPads(j: On, ls: seq<Row>, rs: seq<Row>, rc: set<string>): seq<Row> {
    Flat(ls, (l: Row) => PadRight(j, l, rs, rc))
  }

  /** A left join is its matched pairs plus the unmatched left rows, padded. */
  lemma LeftSplits(j: On, ls: seq<Row>, rs: seq<Row>, rc: set<string>)
    ensures multiset(LeftRows(j, ls, rs, rc)) ==
            multiset(InnerRows(j, ls, rs)) + multiset(LeftPads(j, ls, rs, rc))
  {
    InnerFlat(j, ls, rs);
    LeftFlat(j, ls, rs, rc);
    FlatPlus(ls, (l: Row) => Hits(j, l, rs), (l: Row) => PadRight(j, l, rs, rc), (l: Row) => LeftOf(j, l, rs, rc));
  }

  lemma PadsFlip(j: On, ls: seq<Row>, rs: seq<Row>, lc: set<string>, rc: set<string>)
    requires AllOver(ls, lc) && AllOver(rs, rc) && lc !! rc
    ensures LeftPads(Flip(j), rs, ls, lc) == Unmatched(j, ls, rs, lc)
  {
    var f, g := (r: Row) => PadRight(Flip(j), r, ls, lc), (r: Row) => PadLeft(j, ls, r, lc);
    forall r | r in rs ensures f(r) == g(r) { HitsFlip(j, ls, r, lc); MergeCommutes(Pad(lc), r); }
    FlatSame(rs, f, g);
    UnmatchedFlat(j, ls, rs, lc);
  }

  /** A full join is the pairs, the padded left rows and the padded right rows. */
  lemma FullSplits(j: On, ls: seq<Row>, rs: seq<Row>, lc: set<string>, rc: set<string>)
    requires AllOver(ls, lc) && AllOver(rs, rc) && lc !! rc
    ensures multiset(LeftRows(j, ls, rs, rc)) + multiset(Unmatched(j, ls, rs, lc)) ==
            multiset(InnerRows(j, ls, rs)) + multiset(Unmatched(Flip(j), rs, ls, rc)) + multiset(Unmatched(j, ls, rs, lc))
  {
    LeftSplits(j, ls, rs, rc);
    PadsFlip(Flip(j), rs, ls, rc, lc);
    assert Flip(Flip(j)) == j;
  }

  lemma BagOfSum(a: seq<Row>, b: seq<Row>)
    ensures multiset(a + b) == multiset(a) + multiset(b)
  {
  }

  /** Exchanging the sides of any join that keeps both sides' columns leaves the bag alone, with
      left and right changing places. */
  lemma SidesCommute(j: On, how: How, l: Rel, r: Rel)
    requires how != Semi && how != Anti && l.cols !! r.cols
    ensures SameBag(JoinRel(Flip(j), FlipHow(how), r, l), JoinRel(j, how, l, r))
  {
    assert r.cols + l.cols == l.cols + r.cols;
    assert Flip(Flip(j)) == j;
    match how
    case Inner => InnerFlip(j, l.rows, r.rows, l.cols, r.cols);
    case Cross => InnerFlip(j, l.rows, r.rows, l.cols, r.cols);
    case Left => LeftIsFlippedRight(Flip(j), r.rows, l.rows, r.cols, l.cols);
    case Right => LeftIsFlippedRight(j, l.rows, r.rows, l.cols, r.cols);
    case Full =>
      InnerFlip(j, l.rows, r.rows, l.cols, r.cols);
      FullSplits(j, l.rows, r.rows, l.cols, r.cols);
      FullSplits(Flip(j), r.rows, l.rows, r.cols, l.cols);
      BagOfSum(LeftRows(j, l.rows, r.rows, r.cols), Unmatched(j, l.rows, r.rows, l.cols));
      BagOfSum(LeftRows(Flip(j), r.rows, l.rows, l.cols), Unmatched(Flip(j), r.rows, l.rows, r.cols));
  }
}
