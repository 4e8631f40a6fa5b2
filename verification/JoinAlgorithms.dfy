/**
 How the executor runs joins that the frame library cannot: outer joins with an ON residual by row
 ids, and semi/anti joins by key membership or by row ids.  The library's inner merge may return
 its pairs in any order.
 */
module JoinAlgorithms {
  import opened Values
  import opened Bags
  import opened Plans
  import opened JoinBags

  /** A merged pair with the positions it came from (`__lrid`, `__rrid`). */
  datatype Tagged = Tagged(lid: nat, rid: nat, row: Row)

  predicate KeysMeet(j: On, l: Row, r: Row) {
    KeyOf(l, j.onLeft) == KeyOf(r, j.onRight) && (j.nullsMatch || Null !in KeyOf(l, j.onLeft))
  }

  predicate ResidualHolds(j: On, row: Row) {
    j.residual.Some? ==> Passes(j.residual.value, row)
  }

  function TagPair(j: On, ls: seq<Row>, rs: seq<Row>, i: nat): nat -> seq<Tagged> {
    (k: nat) => if i < |ls| && k < |rs| && KeysMeet(j, ls[i], rs[k]) then [Tagged(i, k, ls[i] + rs[k])] else []
  }

  function TagRow(j: On, ls: seq<Row>, rs: seq<Row>): nat -> seq<Tagged> {
    (i: nat) => Flat(Upto(|rs|), TagPair(j, ls, rs, i))
  }

  /** Every pair whose keys meet, residual not yet looked at. */
  function KeyPairs(j: On, ls: seq<Row>, rs: seq<Row>): seq<Tagged> {
    Flat(Upto(|ls|), TagRow(j, ls, rs))
  }

  /** What the frame library's inner merge may return. */
  ghost predicate IsMerge(j: On, ls: seq<Row>, rs: seq<Row>, m: seq<Tagged>) {
    multiset(m) == multiset(KeyPairs(j, ls, rs))
  }

  function KeepSat(j: On): Tagged -> seq<Tagged> {
    (x: Tagged) => if ResidualHolds(j, x.row) then [x] else []
  }

  function Satisfied(j: On, m: seq<Tagged>): seq<Tagged> {
    Flat(m, KeepSat(j))
  }

  function RowOnly(): Tagged -> seq<Row> {
    (x: Tagged) => [x.row]
  }

  function RowsOf(m: seq<Tagged>): seq<Row> {
    Flat(m, RowOnly())
  }

  function Lids(m: seq<Tagged>): set<nat> {
    set x | x in m :: x.lid
  }

  function Rids(m: seq<Tagged>): set<nat> {
    set x | x in m :: x.rid
  }

  function PadUnlessL(ls: seq<Row>, rc: set<string>, ids: set<nat>): nat -> seq<Row> {
    (i: nat) => if i < |ls| && i !in ids then [ls[i] + Pad(rc)] else []
  }

  function PadUnlessR(rs: seq<Row>, lc: set<string>, ids: set<nat>): nat -> seq<Row> {
    (k: nat) => if k < |rs| && k !in ids then [Pad(lc) + rs[k]] else []
  }

  /** Satisfied pairs, then one padded row per preserved row whose id is not among them. */
  function OuterJoin(j: On, how: How, l: Rel, r: Rel, m: seq<Tagged>): seq<Row> {
    var sat := Satisfied(j, m);
    RowsOf(sat)
    + (if how == Left || how == Full then Flat(Upto(|l.rows|), PadUnlessL(l.rows, r.cols, Lids(sat))) else [])
    + (if how == Right || how == Full then Flat(Upto(|r.rows|), PadUnlessR(r.rows, l.cols, Rids(sat))) else [])
  }

  // ---------------------------------------------------------------- the satisfied pairs

  function OutRow(j: On): Tagged -> seq<Row> {
    (x: Tagged) => if ResidualHolds(j, x.row) then [x.row] else []
  }

  lemma SatisfiedRows(j: On, m: seq<Tagged>)
    ensures RowsOf(Satisfied(j, m)) == Flat(m, OutRow(j))
  {
    forall x | x in m ensures OutRow(j)(x) == Flat(KeepSat(j)(x), RowOnly()) {
      assert [x][1..] == [];
      assert Flat([x], RowOnly()) == [x.row] + Flat([], RowOnly());
    }
    FlatFlat(m, KeepSat(j), RowOnly(), OutRow(j));
  }

  function PairAt(j: On, l: Row, rs: seq<Row>): nat -> seq<Row> {
    (k: nat) => if k < |rs| then Pair(j, l, rs[k]) else []
  }

  lemma PairRow(j: On, ls: seq<Row>, rs: seq<Row>, i: nat, k: nat)
    requires i < |ls| && k < |rs|
    ensures Flat(TagPair(j, ls, rs, i)(k), OutRow(j)) == Pair(j, ls[i], rs[k])
  {
    var x := Tagged(i, k, ls[i] + rs[k]);
    assert [x][1..] == [];
    assert Flat([x], OutRow(j)) == OutRow(j)(x) + Flat([], OutRow(j));
  }

  lemma RowHits(j: On, ls: seq<Row>, rs: seq<Row>, i: nat)
    requires i < |ls|
    ensures Flat(TagRow(j, ls, rs)(i), OutRow(j)) == Hits(j, ls[i], rs)
  {
    var g := PairAt(j, ls[i], rs);
    forall k: nat | k in Upto(|rs|) ensures g(k) == Flat(TagPair(j, ls, rs, i)(k), OutRow(j)) { PairRow(j, ls, rs, i, k); }
    FlatFlat<nat, Tagged, Row>(Upto(|rs|), TagPair(j, ls, rs, i), OutRow(j), g);
    HitsFlat(j, ls[i], rs);
    FlatIndex(rs, (r: Row) => Pair(j, ls[i], r), g, |rs|);
    assert rs[..|rs|] == rs;
  }

  function HitsAt(j: On, ls: seq<Row>, rs: seq<Row>): nat -> seq<Row> {
    (i: nat) => if i < |ls| then Hits(j, ls[i], rs) else []
  }

  lemma KeyPairRows(j: On, ls: seq<Row>, rs: seq<Row>)
    ensures Flat(KeyPairs(j, ls, rs), OutRow(j)) == InnerRows(j, ls, rs)
  {
    var g := HitsAt(j, ls, rs);
    forall i: nat | i in Upto(|ls|) ensures g(i) == Flat(TagRow(j, ls, rs)(i), OutRow(j)) { RowHits(j, ls, rs, i); }
    FlatFlat<nat, Tagged, Row>(Upto(|ls|), TagRow(j, ls, rs), OutRow(j), g);
    InnerFlat(j, ls, rs);
    FlatIndex(ls, (l: Row) => Hits(j, l, rs), g, |ls|);
    assert ls[..|ls|] == ls;
  }

  /** The satisfied rows are the inner join, whatever order the merge chose. */
  lemma SatisfiedIsInner(j: On, ls: seq<Row>, rs: seq<Row>, m: seq<Tagged>)
    requires IsMerge(j, ls, rs, m)
    ensures multiset(RowsOf(Satisfied(j, m))) == multiset(InnerRows(j, ls, rs))
  {
    SatisfiedRows(j, m);
    FlatBag(m, KeyPairs(j, ls, rs), OutRow(j));
    KeyPairRows(j, ls, rs);
  }

  // ---------------------------------------------------------------- the ids among them

  predicate IsPair(j: On, ls: seq<Row>, rs: seq<Row>, x: Tagged) {
    x.lid < |ls| && x.rid < |rs| && KeysMeet(j, ls[x.lid], rs[x.rid]) && x.row == ls[x.lid] + rs[x.rid]
  }

  lemma KeyPairMembers(j: On, ls: seq<Row>, rs: seq<Row>, x: Tagged)
    ensures x in KeyPairs(j, ls, rs) <==> IsPair(j, ls, rs, x)
  {
    FlatMember<nat, Tagged>(Upto(|ls|), TagRow(j, ls, rs), x);
    forall i: nat
      ensures x in TagRow(j, ls, rs)(i) <==> exists k: nat :: k in Upto(|rs|) && x in TagPair(j, ls, rs, i)(k)
    {
      FlatMember<nat, Tagged>(Upto(|rs|), TagPair(j, ls, rs, i), x);
    }
    if IsPair(j, ls, rs, x) {
      assert Upto(|rs|)[x.rid] == x.rid && Upto(|ls|)[x.lid] == x.lid;
      assert x in TagPair(j, ls, rs, x.lid)(x.rid);
      assert x in TagRow(j, ls, rs)(x.lid);
    }
  }

  lemma SatisfiedMembers(j: On, ls: seq<Row>, rs: seq<Row>, m: seq<Tagged>, x: Tagged)
    requires IsMerge(j, ls, rs, m)
    ensures x in Satisfied(j, m) <==> IsPair(j, ls, rs, x) && ResidualHolds(j, x.row)
  {
    FlatMember(m, KeepSat(j), x);
    SameMembers(m, KeyPairs(j, ls, rs));
    KeyPairMembers(j, ls, rs, x);
  }

  lemma HitsWitness(j: On, l: Row, rs: seq<Row>)
    ensures Hits(j, l, rs) != [] <==> exists k: nat :: k < |rs| && Matches(j, l, rs[k])
  {
    if k: nat :| k < |rs| && Matches(j, l, rs[k]) {
      HitsFlat(j, l, rs);
      FlatMember(rs, (r: Row) => Pair(j, l, r), l + rs[k]);
      assert rs[k] in rs;
    }
    if Hits(j, l, rs) != [] {
      HitsFlat(j, l, rs);
      var f := (r: Row) => Pair(j, l, r);
      FlatMember(rs, f, Hits(j, l, rs)[0]);
      var r :| r in rs && Hits(j, l, rs)[0] in f(r);
      var k :| 0 <= k < |rs| && rs[k] == r;
      assert Matches(j, l, rs[k]);
    }
  }

  lemma HitsRightWitness(j: On, ls: seq<Row>, r: Row)
    ensures HitsRight(j, ls, r) != [] <==> exists i: nat :: i < |ls| && Matches(j, ls[i], r)
  {
    if i: nat :| i < |ls| && Matches(j, ls[i], r) {
      HitsRightFlat(j, ls, r);
      FlatMember(ls, (l: Row) => Pair(j, l, r), ls[i] + r);
      assert ls[i] in ls;
    }
    if HitsRight(j, ls, r) != [] {
      HitsRightFlat(j, ls, r);
      var f := (l: Row) => Pair(j, l, r);
      FlatMember(ls, f, HitsRight(j, ls, r)[0]);
      var l :| l in ls && HitsRight(j, ls, r)[0] in f(l);
      var i :| 0 <= i < |ls| && ls[i] == l;
      assert Matches(j, ls[i], r);
    }
  }

  lemma LeftIdMeansHit(j: On, ls: seq<Row>, rs: seq<Row>, m: seq<Tagged>, i: nat)
    requires IsMerge(j, ls, rs, m) && i < |ls|
    ensures i in Lids(Satisfied(j, m)) <==> Hits(j, ls[i], rs) != []
  {
    HitsWitness(j, ls[i], rs);
    if i in Lids(Satisfied(j, m)) {
      var x :| x in Satisfied(j, m) && x.lid == i;
      SatisfiedMembers(j, ls, rs, m, x);
      assert Matches(j, ls[i], rs[x.rid]);
    }
    if k: nat :| k < |rs| && Matches(j, ls[i], rs[k]) {
      var x := Tagged(i, k, ls[i] + rs[k]);
      SatisfiedMembers(j, ls, rs, m, x);
      assert x in Satisfied(j, m);
    }
  }

  lemma RightIdMeansHit(j: On, ls: seq<Row>, rs: seq<Row>, m: seq<Tagged>, k: nat)
    requires IsMerge(j, ls, rs, m) && k < |rs|
    ensures k in Rids(Satisfied(j, m)) <==> HitsRight(j, ls, rs[k]) != []
  {
    HitsRightWitness(j, ls, rs[k]);
    if k in Rids(Satisfied(j, m)) {
      var x :| x in Satisfied(j, m) && x.rid == k;
      SatisfiedMembers(j, ls, rs, m, x);
      assert Matches(j, ls[x.lid], rs[k]);
    }
    if i: nat :| i < |ls| && Matches(j, ls[i], rs[k]) {
      var x := Tagged(i, k, ls[i] + rs[k]);
      SatisfiedMembers(j, ls, rs, m, x);
      assert x in Satisfied(j, m);
    }
  }

  // ---------------------------------------------------------------- the outer join

  lemma LeftPadsById(j: On, ls: seq<Row>, rs: seq<Row>, rc: set<string>, m: seq<Tagged>)
    requires IsMerge(j, ls, rs, m)
    ensures Flat(Upto(|ls|), PadUnlessL(ls, rc, Lids(Satisfied(j, m)))) == LeftPads(j, ls, rs, rc)
  {
    var g := PadUnlessL(ls, rc, Lids(Satisfied(j, m)));
    var f := (l: Row) => PadRight(j, l, rs, rc);
    forall i: nat | i < |ls| ensures g(i) == f(ls[i]) { LeftIdMeansHit(j, ls, rs, m, i); }
    FlatIndex(ls, f, g, |ls|);
    assert ls[..|ls|] == ls;
  }

  lemma RightPadsById(j: On, ls: seq<Row>, rs: seq<Row>, lc: set<string>, m: seq<Tagged>)
    requires IsMerge(j, ls, rs, m)
    ensures Flat(Upto(|rs|), PadUnlessR(rs, lc, Rids(Satisfied(j, m)))) == Unmatched(j, ls, rs, lc)
  {
    var g := PadUnlessR(rs, lc, Rids(Satisfied(j, m)));
    var f := (r: Row) => PadLeft(j, ls, r, lc);
    forall k: nat | k < |rs| ensures g(k) == f(rs[k]) { RightIdMeansHit(j, ls, rs, m, k); }
    FlatIndex(rs, f, g, |rs|);
    UnmatchedFlat(j, ls, rs, lc);
    assert rs[..|rs|] == rs;
  }

  lemma RightSplits(j: On, ls: seq<Row>, rs: seq<Row>, lc: set<string>)
    ensures multiset(RightRows(j, ls, rs, lc)) == multiset(InnerRows(j, ls, rs)) + multiset(Unmatched(j, ls, rs, lc))
  {
    var hits, pads := (r: Row) => HitsRight(j, ls, r), (r: Row) => PadLeft(j, ls, r, lc);
    RightFlat(j, ls, rs, lc);
    UnmatchedFlat(j, ls, rs, lc);
    LoopsExchange(j, ls, rs);
    FlatPlus(rs, hits, pads, (r: Row) => RightOf(j, ls, r, lc));
  }

  /** The three pieces the algorithm concatenates. */
  lemma OuterPieces(j: On, how: How, l: Rel, r: Rel, m: seq<Tagged>)
    requires IsMerge(j, l.rows, r.rows, m)
    ensures multiset(OuterJoin(j, how, l, r, m)) ==
            multiset(InnerRows(j, l.rows, r.rows))
            + (if how == Left || how == Full then multiset(LeftPads(j, l.rows, r.rows, r.cols)) else multiset{})
            + (if how == Right || how == Full then multiset(Unmatched(j, l.rows, r.rows, l.cols)) else multiset{})
  {
    SatisfiedIsInner(j, l.rows, r.rows, m);
    LeftPadsById(j, l.rows, r.rows, r.cols, m);
    RightPadsById(j, l.rows, r.rows, l.cols, m);
  }

  /** A full join, in bags. */
  lemma FullBag(j: On, ls: seq<Row>, rs: seq<Row>, lc: set<string>, rc: set<string>)
    ensures multiset(LeftRows(j, ls, rs, rc) + Unmatched(j, ls, rs, lc)) ==
            multiset(InnerRows(j, ls, rs)) + multiset(LeftPads(j, ls, rs, rc)) + multiset(Unmatched(j, ls, rs, lc))
  {
    LeftSplits(j, ls, rs, rc);
    BagOfSum(LeftRows(j, ls, rs, rc), Unmatched(j, ls, rs, lc));
  }

  /** The row-id algorithm computes the outer join: one row per satisfied pair and one padded row
      per preserved row without any, duplicates and all. */
  lemma OuterJoinIsExact(j: On, how: How, l: Rel, r: Rel, m: seq<Tagged>)
    requires how == Left || how == Right || how == Full
    requires IsMerge(j, l.rows, r.rows, m)
    ensures multiset(OuterJoin(j, how, l, r, m)) == multiset(JoinRel(j, how, l, r).rows)
  {
    OuterPieces(j, how, l, r, m);
    LeftSplits(j, l.rows, r.rows, r.cols);
    RightSplits(j, l.rows, r.rows, l.cols);
    FullBag(j, l.rows, r.rows, l.cols, r.cols);
    JoinRows(j, how, l, r);
  }

  lemma JoinRows(j: On, how: How, l: Rel, r: Rel)
    requires how == Left || how == Right || how == Full
    ensures JoinRel(j, how, l, r).rows ==
            if how == Left then LeftRows(j, l.rows, r.rows, r.cols)
            else if how == Right then RightRows(j, l.rows, r.rows, l.cols)
            else LeftRows(j, l.rows, r.rows, r.cols) + Unmatched(j, l.rows, r.rows, l.cols)
  {
  }

  /** The merge lets NULL keys meet, SQL does not; with no NULL among one side's keys the two
      readings of ON agree. */
  lemma NoNullKeysSameJoin(j: On, how: How, l: Rel, r: Rel)
    requires how == Left || how == Right || how == Full
    requires forall x :: x in l.rows ==> Null !in KeyOf(x, j.onLeft)
    ensures JoinRel(j.(nullsMatch := true), how, l, r) == JoinRel(j.(nullsMatch := false), how, l, r)
  {
    var a, b := j.(nullsMatch := true), j.(nullsMatch := false);
    SameOn(a, b, l.rows, r.rows, r.cols, l.cols);
  }

  lemma {:induction false} SameHits(a: On, b: On, l: Row, rs: seq<Row>)
    requires forall r :: r in rs ==> Matches(a, l, r) == Matches(b, l, r)
    ensures Hits(a, l, rs) == Hits(b, l, rs)
  {
    if rs != [] {
      assert rs[0] in rs;
      SameHits(a, b, l, rs[1..]);
    }
  }

  lemma {:induction false} SameHitsRight(a: On, b: On, ls: seq<Row>, r: Row)
    requires forall l :: l in ls ==> Matches(a, l, r) == Matches(b, l, r)
    ensures HitsRight(a, ls, r) == HitsRight(b, ls, r)
  {
    if ls != [] {
      assert ls[0] in ls;
      SameHitsRight(a, b, ls[1..], r);
    }
  }

  lemma SameOn(a: On, b: On, ls: seq<Row>, rs: seq<Row>, rc: set<string>, lc: set<string>)
    requires forall l, r :: l in ls && r in rs ==> Matches(a, l, r) == Matches(b, l, r)
    ensures LeftRows(a, ls, rs, rc) == LeftRows(b, ls, rs, rc)
    ensures RightRows(a, ls, rs, lc) == RightRows(b, ls, rs, lc)
    ensures Unmatched(a, ls, rs, lc) == Unmatched(b, ls, rs, lc)
  {
    forall l | l in ls ensures Hits(a, l, rs) == Hits(b, l, rs) { SameHits(a, b, l, rs); }
    forall r | r in rs ensures HitsRight(a, ls, r) == HitsRight(b, ls, r) { SameHitsRight(a, b, ls, r); }
    LeftFlat(a, ls, rs, rc);
    LeftFlat(b, ls, rs, rc);
    FlatSame(ls, (l: Row) => LeftOf(a, l, rs, rc), (l: Row) => LeftOf(b, l, rs, rc));
    RightFlat(a, ls, rs, lc);
    RightFlat(b, ls, rs, lc);
    FlatSame(rs, (r: Row) => RightOf(a, ls, r, lc), (r: Row) => RightOf(b, ls, r, lc));
    UnmatchedFlat(a, ls, rs, lc);
    UnmatchedFlat(b, ls, rs, lc);
    FlatSame(rs, (r: Row) => PadLeft(a, ls, r, lc), (r: Row) => PadLeft(b, ls, r, lc));
  }

  predicate NullMatch(j: On, l: Row, r: Row) {
    Matches(j.(nullsMatch := true), l, r) && Null in KeyOf(l, j.onLeft)
  }

  predicate NoNullMatch(j: On, l: Row, rs: seq<Row>) {
    forall r :: r in rs ==> !NullMatch(j, l, r)
  }

  lemma {:induction false} HitsGrow(j: On, l: Row, rs: seq<Row>)
    ensures |Hits(j.(nullsMatch := false), l, rs)| <= |Hits(j.(nullsMatch := true), l, rs)|
    ensures |Hits(j.(nullsMatch := false), l, rs)| == |Hits(j.(nullsMatch := true), l, rs)| <==> NoNullMatch(j, l, rs)
  {
    if rs != [] {
      HitsGrow(j, l, rs[1..]);
      assert forall r :: r in rs <==> r == rs[0] || r in rs[1..];
      assert NoNullMatch(j, l, rs) <==> !NullMatch(j, l, rs[0]) && NoNullMatch(j, l, rs[1..]);
    }
  }

  lemma {:induction false} InnerGrows(j: On, ls: seq<Row>, rs: seq<Row>)
    ensures |InnerRows(j.(nullsMatch := false), ls, rs)| <= |InnerRows(j.(nullsMatch := true), ls, rs)|
    ensures |InnerRows(j.(nullsMatch := false), ls, rs)| == |InnerRows(j.(nullsMatch := true), ls, rs)| <==>
            forall l :: l in ls ==> NoNullMatch(j, l, rs)
  {
    if ls != [] {
      assert forall l :: l in ls <==> l == ls[0] || l in ls[1..];
      HitsGrow(j, ls[0], rs);
      InnerGrows(j, ls[1..], rs);
    }
  }

  lemma NoNullMatchSameInner(j: On, ls: seq<Row>, rs: seq<Row>)
    requires forall l :: l in ls ==> NoNullMatch(j, l, rs)
    ensures InnerRows(j.(nullsMatch := true), ls, rs) == InnerRows(j.(nullsMatch := false), ls, rs)
  {
    var a, b := j.(nullsMatch := true), j.(nullsMatch := false);
    InnerFlat(a, ls, rs);
    InnerFlat(b, ls, rs);
    var f, g := (l: Row) => Hits(a, l, rs), (l: Row) => Hits(b, l, rs);
    forall l | l in ls ensures f(l) == g(l) { SameHits(a, b, l, rs); }
    FlatSame(ls, f, g);
  }

  /** The merged pairs are the SQL inner join exactly when no two rows share a key that holds a
      NULL and pass the residual. */
  lemma MergeIsSqlJoinIff(j: On, ls: seq<Row>, rs: seq<Row>)
    ensures multiset(InnerRows(j.(nullsMatch := true), ls, rs)) == multiset(InnerRows(j.(nullsMatch := false), ls, rs)) <==>
            forall l :: l in ls ==> NoNullMatch(j, l, rs)
  {
    var m, s := InnerRows(j.(nullsMatch := true), ls, rs), InnerRows(j.(nullsMatch := false), ls, rs);
    InnerGrows(j, ls, rs);
    if multiset(m) == multiset(s) {
      SameMembers(m, s);
    } else if |m| == |s| {
      NoNullMatchSameInner(j, ls, rs);
    }
  }

  /** A row with a NULL key on either side: the merge pairs them, SQL does not. */
  lemma NullKeysMeetCounterexample()
    ensures var l: Row, r: Row := map["a" := Null], map["b" := Null];
            var j := On(["a"], ["b"], None, false);
            InnerRows(j.(nullsMatch := true), [l], [r]) == [l + r] && InnerRows(j, [l], [r]) == []
  {
    var l: Row, r: Row := map["a" := Null], map["b" := Null];
    var j := On(["a"], ["b"], None, false);
    assert KeyOf(l, ["a"]) == [Null] == KeyOf(r, ["b"]);
    assert [r][1..] == [] && [l][1..] == [];
    assert Hits(j.(nullsMatch := true), l, [r]) == [l + r];
    assert Hits(j, l, [r]) == [];
    assert InnerRows(j, [], [r]) == [] == InnerRows(j.(nullsMatch := true), [], [r]);
  }

  // ---------------------------------------------------------------- semi and anti joins

  /** The non-NULL values of the key column. */
  function KeyValues(rs: seq<Row>, c: string): set<Value> {
    set r | r in rs && Cell(r, c) != Null :: Cell(r, c)
  }

  /** One key, no residual: `left[key].isin(right[key].dropna())`. */
  function SemiByMembership(ls: seq<Row>, c: string, keys: set<Value>, keep: bool): seq<Row> {
    if ls == [] then []
    else (if (Cell(ls[0], c) in keys) == keep then [ls[0]] else []) + SemiByMembership(ls[1..], c, keys, keep)
  }

  lemma {:induction false} SemiByMembershipIsExact(ls: seq<Row>, rs: seq<Row>, c: string, d: string, keep: bool)
    ensures SemiByMembership(ls, c, KeyValues(rs, d), keep) == SemiRows(On([c], [d], None, false), ls, rs, keep)
  {
    if ls != [] {
      SemiByMembershipIsExact(ls[1..], rs, c, d, keep);
      MembershipIsHit(ls[0], rs, c, d);
    }
  }

  lemma MembershipIsHit(l: Row, rs: seq<Row>, c: string, d: string)
    ensures Cell(l, c) in KeyValues(rs, d) <==> Hits(On([c], [d], None, false), l, rs) != []
  {
    var j := On([c], [d], None, false);
    HitsWitness(j, l, rs);
    if Cell(l, c) in KeyValues(rs, d) {
      var r :| r in rs && Cell(r, d) != Null && Cell(r, d) == Cell(l, c);
      var k :| 0 <= k < |rs| && rs[k] == r;
      SingleKeyMatch(j, l, rs[k], c, d);
    }
    if k: nat :| k < |rs| && Matches(j, l, rs[k]) {
      SingleKeyMatch(j, l, rs[k], c, d);
      assert rs[k] in rs;
    }
  }

  lemma SingleKeyMatch(j: On, l: Row, r: Row, c: string, d: string)
    requires j == On([c], [d], None, false)
    ensures Matches(j, l, r) <==> Cell(l, c) == Cell(r, d) && Cell(l, c) != Null
  {
    assert KeyOf(l, [c]) == [Cell(l, c)] && KeyOf(r, [d]) == [Cell(r, d)];
  }

  function DropNullKeys(rs: seq<Row>, on: seq<string>): (out: seq<Row>)
    ensures forall r :: r in out <==> r in rs && Null !in KeyOf(r, on)
  {
    if rs == [] then [] else (if Null !in KeyOf(rs[0], on) then [rs[0]] else []) + DropNullKeys(rs[1..], on)
  }

  function KeepById(ls: seq<Row>, ids: set<nat>, keep: bool): nat -> seq<Row> {
    (i: nat) => if i < |ls| && (i in ids) == keep then [ls[i]] else []
  }

  /** Composite keys or a residual: the left rows whose id is (or is not) among the merged pairs. */
  function SemiByIds(j: On, ls: seq<Row>, m: seq<Tagged>, keep: bool): seq<Row> {
    Flat(Upto(|ls|), KeepById(ls, Lids(Satisfied(j, m)), keep))
  }

  /** Dropping right rows with a NULL key is what stops the merge from matching NULL with NULL. */
  lemma NullSafeHit(j: On, l: Row, rs: seq<Row>)
    ensures Hits(j.(nullsMatch := true), l, DropNullKeys(rs, j.onRight)) != [] <==> Hits(j.(nullsMatch := false), l, rs) != []
  {
    var a, b, kept := j.(nullsMatch := true), j.(nullsMatch := false), DropNullKeys(rs, j.onRight);
    HitsWitness(a, l, kept);
    HitsWitness(b, l, rs);
    if k: nat :| k < |kept| && Matches(a, l, kept[k]) {
      assert kept[k] in rs;
      var i :| 0 <= i < |rs| && rs[i] == kept[k];
      assert Matches(b, l, rs[i]);
    }
    if k: nat :| k < |rs| && Matches(b, l, rs[k]) {
      assert rs[k] in kept;
      var i :| 0 <= i < |kept| && kept[i] == rs[k];
      assert Matches(a, l, kept[i]);
    }
  }

  lemma SemiByIdsIsExact(j: On, ls: seq<Row>, rs: seq<Row>, m: seq<Tagged>, keep: bool)
    requires IsMerge(j.(nullsMatch := true), ls, DropNullKeys(rs, j.onRight), m)
    ensures SemiByIds(j, ls, m, keep) == SemiRows(j.(nullsMatch := false), ls, rs, keep)
  {
    var a, b, kept := j.(nullsMatch := true), j.(nullsMatch := false), DropNullKeys(rs, j.onRight);
    assert Satisfied(j, m) == Satisfied(a, m) by {
      FlatSame(m, KeepSat(j), KeepSat(a));
    }
    var g := KeepById(ls, Lids(Satisfied(j, m)), keep);
    var f := (l: Row) => KeepIf(b, l, rs, keep);
    forall i: nat | i < |ls| ensures g(i) == f(ls[i]) {
      LeftIdMeansHit(a, ls, kept, m, i);
      NullSafeHit(j, ls[i], rs);
    }
    FlatIndex(ls, f, g, |ls|);
    SemiFlat(b, ls, rs, keep);
    assert ls[..|ls|] == ls;
  }
}
