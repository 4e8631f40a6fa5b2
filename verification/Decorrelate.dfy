/**
 Decorrelation: a subquery whose WHERE compares its own columns with the outer row's becomes a join.
 The reference is the direct reading, evaluating the subquery afresh for every outer row.
 */
module Decorrelate {
  import opened Values
  import opened Bags
  import opened Plans
  import opened JoinAlgorithms

  // ---------------------------------------------------------------- predicates over two rows

  /** Expressions with table qualifiers; "" is an unqualified column. */
  datatype QExpr =
    | QCol(table: string, name: string)
    | QLit(value: Value)
    | QEq(left: QExpr, right: QExpr)
    | QAnd(left: QExpr, right: QExpr)
    | QCall(f: seq<Value> -> Value, args: seq<QExpr>)

  datatype Scope = Scope(outer: set<string>, local: set<string>)

  predicate IsOuter(s: Scope, table: string) {
    table != "" && table !in s.local && table in s.outer
  }

  function EqValue(a: Value, b: Value): Value {
    if a == Null || b == Null then Null else Bool(a == b)
  }

  /** Value for outer row `o` and subquery row `i`. */
  function EvalQ(s: Scope, e: QExpr, o: Row, i: Row): Value
    decreases e, 1
  {
    match e
    case QCol(t, c) => if IsOuter(s, t) then Cell(o, c) else Cell(i, c)
    case QLit(v) => v
    case QEq(a, b) => EqValue(EvalQ(s, a, o, i), EvalQ(s, b, o, i))
    case QAnd(a, b) => AndValue(EvalQ(s, a, o, i), EvalQ(s, b, o, i))
    case QCall(f, args) => f(EvalQAll(s, args, o, i))
  }

  function EvalQAll(s: Scope, es: seq<QExpr>, o: Row, i: Row): seq<Value>
    decreases es, 0
  {
    if es == [] then [] else [EvalQ(s, es[0], o, i)] + EvalQAll(s, es[1..], o, i)
  }

  predicate RefersOuter(s: Scope, e: QExpr)
    decreases e, 1
  {
    match e
    case QCol(t, _) => IsOuter(s, t)
    case QLit(_) => false
    case QEq(a, b) => RefersOuter(s, a) || RefersOuter(s, b)
    case QAnd(a, b) => RefersOuter(s, a) || RefersOuter(s, b)
    case QCall(_, args) => AnyRefersOuter(s, args)
  }

  predicate AnyRefersOuter(s: Scope, es: seq<QExpr>)
    decreases es, 0
  {
    es != [] && (RefersOuter(s, es[0]) || AnyRefersOuter(s, es[1..]))
  }

  /** Once lifted out, the subquery is built with no outer row in sight. */
  const ALONE := Scope({}, {})

  function EvalAlone(e: QExpr, i: Row): Value {
    EvalQ(ALONE, e, map[], i)
  }

  lemma {:induction false} LocalNeedsNoOuter(s: Scope, e: QExpr, o: Row, i: Row)
    requires !RefersOuter(s, e)
    ensures EvalQ(s, e, o, i) == EvalAlone(e, i)
    decreases e, 1
  {
    match e
    case QCol(_, _) =>
    case QLit(_) =>
    case QEq(a, b) => LocalNeedsNoOuter(s, a, o, i); LocalNeedsNoOuter(s, b, o, i);
    case QAnd(a, b) => LocalNeedsNoOuter(s, a, o, i); LocalNeedsNoOuter(s, b, o, i);
    case QCall(_, args) => LocalsNeedNoOuter(s, args, o, i);
  }

  lemma {:induction false} LocalsNeedNoOuter(s: Scope, es: seq<QExpr>, o: Row, i: Row)
    requires !AnyRefersOuter(s, es)
    ensures EvalQAll(s, es, o, i) == EvalQAll(ALONE, es, map[], i)
    decreases es, 0
  {
    if es != [] {
      LocalNeedsNoOuter(s, es[0], o, i);
      LocalsNeedNoOuter(s, es[1..], o, i);
    }
  }

  // ---------------------------------------------------------------- classification

  function SplitQ(e: QExpr): (parts: seq<QExpr>)
    ensures parts != []
  {
    if e.QAnd? then SplitQ(e.left) + SplitQ(e.right) else [e]
  }

  /** Outer column, inner column, and the inner column's qualifier. */
  datatype KeyPair = KeyPair(outerKey: string, innerKey: string, innerTable: string)

  function EquiPair(s: Scope, e: QExpr): Option<KeyPair> {
    if !e.QEq? || !e.left.QCol? || !e.right.QCol? then None
    else if IsOuter(s, e.left.table) && !IsOuter(s, e.right.table) then
      Some(KeyPair(e.left.name, e.right.name, e.right.table))
    else if IsOuter(s, e.right.table) && !IsOuter(s, e.left.table) then
      Some(KeyPair(e.right.name, e.left.name, e.left.table))
    else None
  }

  datatype Correlation = Refused | Uncorrelated | Correlated(pairs: seq<KeyPair>, locals: seq<QExpr>)

  function Add(s: Scope, soFar: Option<(seq<KeyPair>, seq<QExpr>)>, e: QExpr): Option<(seq<KeyPair>, seq<QExpr>)> {
    if soFar.None? then None
    else if !RefersOuter(s, e) then Some((soFar.value.0, soFar.value.1 + [e]))
    else
      var p := EquiPair(s, e);
      if p.None? then None else Some((soFar.value.0 + [p.value], soFar.value.1))
  }

  function Sorted(s: Scope, conjuncts: seq<QExpr>): Option<(seq<KeyPair>, seq<QExpr>)> {
    if conjuncts == [] then Some(([], []))
    else Add(s, Sorted(s, conjuncts[..|conjuncts| - 1]), conjuncts[|conjuncts| - 1])
  }

  function WhereParts(where: Option<QExpr>): seq<QExpr> {
    if where.Some? then SplitQ(where.value) else []
  }

  /** `others` are the parts outside WHERE, where an outer reference is refused. */
  function Classify(s: Scope, where: Option<QExpr>, others: seq<QExpr>): Correlation {
    var split := Sorted(s, WhereParts(where));
    if split.None? || AnyRefersOuter(s, others) then Refused
    else if split.value.0 == [] then Uncorrelated
    else Correlated(split.value.0, split.value.1)
  }

  /** The loops of the classifier, raising as soon as a conjunct cannot become a key. */
  method ClassifyLoop(s: Scope, where: Option<QExpr>, others: seq<QExpr>) returns (r: Correlation)
    ensures r == Classify(s, where, others)
  {
    var pairs: seq<KeyPair>, locals: seq<QExpr> := [], [];
    var conjuncts := WhereParts(where);
    var k := 0;
    while k < |conjuncts|
      invariant 0 <= k <= |conjuncts|
      invariant Sorted(s, conjuncts[..k]) == Some((pairs, locals))
    {
      var e := conjuncts[k];
      assert conjuncts[..k + 1][..k] == conjuncts[..k];
      if RefersOuter(s, e) {
        var p := EquiPair(s, e);
        if p.None? {
          SortedStaysNone(s, conjuncts, k + 1);
          return Refused;
        }
        pairs := pairs + [p.value];
      } else {
        locals := locals + [e];
      }
      k := k + 1;
    }
    assert conjuncts[..k] == conjuncts;
    if AnyRefersOuter(s, others) { return Refused; }
    return if pairs == [] then Uncorrelated else Correlated(pairs, locals);
  }

  lemma {:induction false} SortedStaysNone(s: Scope, conjuncts: seq<QExpr>, k: nat)
    requires k <= |conjuncts| && Sorted(s, conjuncts[..k]).None?
    ensures Sorted(s, conjuncts).None?
    decreases |conjuncts| - k
  {
    if k < |conjuncts| {
      assert conjuncts[..k + 1][..k] == conjuncts[..k];
      SortedStaysNone(s, conjuncts, k + 1);
    } else {
      assert conjuncts[..k] == conjuncts;
    }
  }

  // ---------------------------------------------------------------- what a WHERE means after the split

  predicate True(v: Value) {
    v == Bool(true)
  }

  /** All conjuncts true. */
  predicate AllTrue(s: Scope, es: seq<QExpr>, o: Row, i: Row) {
    forall k :: 0 <= k < |es| ==> True(EvalQ(s, es[k], o, i))
  }

  lemma AllTrueAppend(s: Scope, a: seq<QExpr>, b: seq<QExpr>, o: Row, i: Row)
    ensures AllTrue(s, a + b, o, i) <==> AllTrue(s, a, o, i) && AllTrue(s, b, o, i)
  {
    if AllTrue(s, a + b, o, i) {
      forall k | 0 <= k < |a| ensures True(EvalQ(s, a[k], o, i)) { assert (a + b)[k] == a[k]; }
      forall k | 0 <= k < |b| ensures True(EvalQ(s, b[k], o, i)) { assert (a + b)[|a| + k] == b[k]; }
    }
  }

  lemma {:induction false} SplitMeans(s: Scope, e: QExpr, o: Row, i: Row)
    ensures True(EvalQ(s, e, o, i)) <==> AllTrue(s, SplitQ(e), o, i)
  {
    if e.QAnd? {
      SplitMeans(s, e.left, o, i);
      SplitMeans(s, e.right, o, i);
      AllTrueAppend(s, SplitQ(e.left), SplitQ(e.right), o, i);
    } else {
      assert SplitQ(e)[0] == e;
    }
  }

  predicate PassesLocals(locals: seq<QExpr>, i: Row) {
    forall k :: 0 <= k < |locals| ==> True(EvalAlone(locals[k], i))
  }

  predicate PairHolds(p: KeyPair, o: Row, i: Row) {
    Cell(o, p.outerKey) == Cell(i, p.innerKey) != Null
  }

  lemma EquiPairMeans(s: Scope, e: QExpr, o: Row, i: Row)
    requires EquiPair(s, e).Some?
    ensures True(EvalQ(s, e, o, i)) <==> PairHolds(EquiPair(s, e).value, o, i)
  {
  }

  lemma LocalsAppend(locals: seq<QExpr>, e: QExpr, i: Row)
    ensures PassesLocals(locals + [e], i) <==> PassesLocals(locals, i) && True(EvalAlone(e, i))
  {
    var all := locals + [e];
    assert all[|locals|] == e;
    assert forall k :: 0 <= k < |locals| ==> all[k] == locals[k];
  }

  lemma {:induction false} SortedMeans(s: Scope, es: seq<QExpr>, o: Row, i: Row)
    requires Sorted(s, es).Some?
    ensures AllTrue(s, es, o, i) <==>
            && (forall p :: p in Sorted(s, es).value.0 ==> PairHolds(p, o, i))
            && PassesLocals(Sorted(s, es).value.1, i)
  {
    if es != [] {
      var n := |es| - 1;
      assert es == es[..n] + [es[n]];
      SortedMeans(s, es[..n], o, i);
      AllTrueAppend(s, es[..n], [es[n]], o, i);
      assert AllTrue(s, [es[n]], o, i) <==> True(EvalQ(s, [es[n]][0], o, i));
      if RefersOuter(s, es[n]) {
        EquiPairMeans(s, es[n], o, i);
      } else {
        LocalNeedsNoOuter(s, es[n], o, i);
        LocalsAppend(Sorted(s, es[..n]).value.1, es[n], i);
      }
    }
  }

  // ---------------------------------------------------------------- the lifted join

  function OuterKeys(pairs: seq<KeyPair>): (ks: seq<string>)
    ensures |ks| == |pairs| && forall n :: 0 <= n < |pairs| ==> ks[n] == pairs[n].outerKey
  {
    seq(|pairs|, n requires 0 <= n < |pairs| => pairs[n].outerKey)
  }

  function InnerKeys(pairs: seq<KeyPair>): (ks: seq<string>)
    ensures |ks| == |pairs| && forall n :: 0 <= n < |pairs| ==> ks[n] == pairs[n].innerKey
  {
    seq(|pairs|, n requires 0 <= n < |pairs| => pairs[n].innerKey)
  }

  function KeyJoin(pairs: seq<KeyPair>): On {
    On(OuterKeys(pairs), InnerKeys(pairs), None, false)
  }

  lemma PairsAreJoin(pairs: seq<KeyPair>, o: Row, i: Row)
    ensures Matches(KeyJoin(pairs), o, i) <==> forall p :: p in pairs ==> PairHolds(p, o, i)
  {
    var j := KeyJoin(pairs);
    var a, b := KeyOf(o, j.onLeft), KeyOf(i, j.onRight);
    if Matches(j, o, i) {
      forall p | p in pairs ensures PairHolds(p, o, i) {
        var n :| 0 <= n < |pairs| && pairs[n] == p;
        assert a[n] == b[n] && a[n] in a;
      }
    }
    if forall p :: p in pairs ==> PairHolds(p, o, i) {
      forall n | 0 <= n < |pairs| ensures a[n] == b[n] && a[n] != Null {
        assert pairs[n] in pairs;
      }
      assert a == b;
    }
  }

  /** The reduced WHERE is the conjunction of the local conjuncts, or absent. */
  function ConjoinQ(es: seq<QExpr>): QExpr
    requires es != []
  {
    if |es| == 1 then es[0] else QAnd(ConjoinQ(es[..|es| - 1]), es[|es| - 1])
  }

  predicate PassesReduced(locals: seq<QExpr>, i: Row) {
    locals == [] || True(EvalAlone(ConjoinQ(locals), i))
  }

  lemma {:induction false} ReducedMeans(locals: seq<QExpr>, i: Row)
    ensures PassesReduced(locals, i) <==> PassesLocals(locals, i)
  {
    if |locals| > 1 {
      var n := |locals| - 1;
      assert locals == locals[..n] + [locals[n]];
      ReducedMeans(locals[..n], i);
      LocalsAppend(locals[..n], locals[n], i);
    }
  }

  function LocalRows(rows: seq<Row>, locals: seq<QExpr>): (out: seq<Row>)
    ensures forall i :: i in out <==> i in rows && PassesReduced(locals, i)
  {
    if rows == [] then [] else (if PassesReduced(locals, rows[0]) then [rows[0]] else []) + LocalRows(rows[1..], locals)
  }

  predicate PassesWhere(s: Scope, where: Option<QExpr>, o: Row, i: Row) {
    where.None? || True(EvalQ(s, where.value, o, i))
  }

  /** The direct reading: the subquery's rows for one outer row. */
  function DirectRows(s: Scope, where: Option<QExpr>, rows: seq<Row>, o: Row): (out: seq<Row>)
    ensures forall i :: i in out <==> i in rows && PassesWhere(s, where, o, i)
  {
    if rows == [] then []
    else (if PassesWhere(s, where, o, rows[0]) then [rows[0]] else []) + DirectRows(s, where, rows[1..], o)
  }

  function Partners(j: On, o: Row, rows: seq<Row>): (out: seq<Row>)
    ensures forall i :: i in out <==> i in rows && Matches(j, o, i)
  {
    if rows == [] then [] else (if Matches(j, o, rows[0]) then [rows[0]] else []) + Partners(j, o, rows[1..])
  }

  /** One row passes the whole WHERE exactly when it passes the local part and its keys match. */
  lemma LiftedRow(s: Scope, where: Option<QExpr>, others: seq<QExpr>, o: Row, i: Row)
    requires Classify(s, where, others).Correlated?
    ensures var c := Classify(s, where, others);
            PassesWhere(s, where, o, i) <==> PassesReduced(c.locals, i) && Matches(KeyJoin(c.pairs), o, i)
  {
    if where.Some? { SplitMeans(s, where.value, o, i); }
    SortedMeans(s, WhereParts(where), o, i);
    PairsAreJoin(Classify(s, where, others).pairs, o, i);
    ReducedMeans(Classify(s, where, others).locals, i);
  }

  /** Filtering once by the local conjuncts and then matching keys leaves each outer row exactly the
      rows its own evaluation of the subquery would see, in the same order. */
  lemma LiftedRows(s: Scope, where: Option<QExpr>, others: seq<QExpr>, rows: seq<Row>, o: Row)
    requires Classify(s, where, others).Correlated?
    ensures var c := Classify(s, where, others);
            DirectRows(s, where, rows, o) == Partners(KeyJoin(c.pairs), o, LocalRows(rows, c.locals))
  {
    var c := Classify(s, where, others);
    forall i ensures PassesWhere(s, where, o, i) <==> PassesReduced(c.locals, i) && Matches(KeyJoin(c.pairs), o, i) {
      LiftedRow(s, where, others, o, i);
    }
    FilterTwice(s, where, rows, o, KeyJoin(c.pairs), c.locals);
  }

  lemma {:induction false} FilterTwice(s: Scope, where: Option<QExpr>, rows: seq<Row>, o: Row, j: On, locals: seq<QExpr>)
    requires forall i :: PassesWhere(s, where, o, i) <==> PassesReduced(locals, i) && Matches(j, o, i)
    ensures DirectRows(s, where, rows, o) == Partners(j, o, LocalRows(rows, locals))
  {
    if rows != [] {
      FilterTwice(s, where, rows[1..], o, j, locals);
      var rest := LocalRows(rows[1..], locals);
      assert ([rows[0]] + rest)[1..] == rest;
      assert [] + rest == rest;
    }
  }

  // ---------------------------------------------------------------- EXISTS and NOT EXISTS

  function ExistsRows(s: Scope, where: Option<QExpr>, rows: seq<Row>, outer: seq<Row>, keep: bool): seq<Row> {
    if outer == [] then []
    else (if (DirectRows(s, where, rows, outer[0]) != []) == keep then [outer[0]] else []) +
         ExistsRows(s, where, rows, outer[1..], keep)
  }

  /** The subquery's SELECT list is replaced by its keys. */
  function KeyRel(rows: seq<Row>, keys: seq<string>): seq<Row> {
    NarrowAll(rows, ColumnSet(keys))
  }

  lemma KeyRelHits(pairs: seq<KeyPair>, o: Row, rows: seq<Row>)
    ensures Hits(KeyJoin(pairs), o, KeyRel(rows, InnerKeys(pairs))) != [] <==> Partners(KeyJoin(pairs), o, rows) != []
  {
    var j, keys := KeyJoin(pairs), InnerKeys(pairs);
    var cut := KeyRel(rows, keys);
    HitsWitness(j, o, cut);
    forall n: nat | n < |rows| ensures Matches(j, o, cut[n]) <==> Matches(j, o, rows[n]) {
      NarrowKeepsKey(rows[n], ColumnSet(keys), keys);
    }
    if n: nat :| n < |cut| && Matches(j, o, cut[n]) {
      assert rows[n] in rows;
      assert rows[n] in Partners(j, o, rows);
    }
    if Partners(j, o, rows) != [] {
      var i := Partners(j, o, rows)[0];
      assert i in rows;
      var n :| 0 <= n < |rows| && rows[n] == i;
      assert Matches(j, o, cut[n]);
    }
  }

  /** Correlated EXISTS is the semi join and NOT EXISTS the anti join on the lifted keys, NULL keys
      and composite keys included. */
  lemma {:induction false} ExistsIsSemiJoin(s: Scope, where: Option<QExpr>, others: seq<QExpr>, rows: seq<Row>, outer: seq<Row>, keep: bool)
    requires Classify(s, where, others).Correlated?
    ensures var c := Classify(s, where, others);
            ExistsRows(s, where, rows, outer, keep) ==
            SemiRows(KeyJoin(c.pairs), outer, KeyRel(LocalRows(rows, c.locals), InnerKeys(c.pairs)), keep)
  {
    var c := Classify(s, where, others);
    if outer != [] {
      ExistsIsSemiJoin(s, where, others, rows, outer[1..], keep);
      LiftedRows(s, where, others, rows, outer[0]);
      KeyRelHits(c.pairs, outer[0], LocalRows(rows, c.locals));
    }
  }

  /** WHERE b.k = a.k */
  const SAME_K := QEq(QCol("b", "k"), QCol("a", "k"))
  const A_AND_B := Scope({"a"}, {"b"})

  lemma SameKClassified()
    ensures Classify(A_AND_B, Some(SAME_K), []) == Correlated([KeyPair("k", "k", "b")], [])
  {
    assert SplitQ(SAME_K) == [SAME_K] && [SAME_K][..0] == [];
    assert EquiPair(A_AND_B, SAME_K) == Some(KeyPair("k", "k", "b"));
  }

  // ---------------------------------------------------------------- an aggregate inside EXISTS

  /** The direct reading when the subquery selects an aggregate without GROUP BY: it has one row,
      whatever it aggregates. */
  function AggregateExistsRows(outer: seq<Row>, keep: bool): seq<Row> {
    if keep then outer else []
  }

  lemma {:induction false} ExistsSplits(s: Scope, where: Option<QExpr>, rows: seq<Row>, outer: seq<Row>)
    ensures var yes, no := ExistsRows(s, where, rows, outer, true), ExistsRows(s, where, rows, outer, false);
            |yes| + |no| == |outer| && (no == [] ==> yes == outer)
    ensures ExistsRows(s, where, rows, outer, false) == [] <==> forall o :: o in outer ==> DirectRows(s, where, rows, o) != []
  {
    if outer != [] {
      ExistsSplits(s, where, rows, outer[1..]);
      assert outer[0] in outer;
      assert forall o :: o in outer ==> o == outer[0] || o in outer[1..];
    }
  }

  /** The rewrite puts the keys in the place of the aggregate, so the semi or anti join is right exactly
      when no outer row is without a row of its own. */
  lemma AggregateExistsIff(s: Scope, where: Option<QExpr>, others: seq<QExpr>, rows: seq<Row>, outer: seq<Row>, keep: bool)
    requires Classify(s, where, others).Correlated?
    ensures var c := Classify(s, where, others);
            multiset(SemiRows(KeyJoin(c.pairs), outer, KeyRel(LocalRows(rows, c.locals), InnerKeys(c.pairs)), keep)) ==
            multiset(AggregateExistsRows(outer, keep)) <==>
            forall o :: o in outer ==> DirectRows(s, where, rows, o) != []
  {
    var got, want := ExistsRows(s, where, rows, outer, keep), AggregateExistsRows(outer, keep);
    ExistsIsSemiJoin(s, where, others, rows, outer, keep);
    ExistsSplits(s, where, rows, outer);
    if multiset(got) == multiset(want) { SameMembers(got, want); }
  }

  /** `EXISTS (SELECT COUNT(*) FROM b WHERE b.k = a.k)` over an empty b: true in SQL, lost by the join. */
  lemma AggregateExistsCounterexample(o: Row)
    ensures var c := Classify(A_AND_B, Some(SAME_K), []);
            && c.Correlated?
            && AggregateExistsRows([o], true) == [o]
            && SemiRows(KeyJoin(c.pairs), [o], KeyRel(LocalRows([], c.locals), InnerKeys(c.pairs)), true) == []
  {
    SameKClassified();
    ExistsIsSemiJoin(A_AND_B, Some(SAME_K), [], [], [o], true);
    assert [o][1..] == [];
  }

  // ---------------------------------------------------------------- a LIMIT inside EXISTS

  function FirstN<T>(rows: seq<T>, n: nat): seq<T> {
    if n <= |rows| then rows[..n] else rows
  }

  /** Keys some outer row could match. */
  function LiveKeys(rows: seq<Row>, keys: seq<string>): set<Key> {
    set r | r in rows && Null !in KeyOf(r, keys) :: KeyOf(r, keys)
  }

  /** The direct reading with LIMIT n inside the subquery. */
  predicate LimitedExists(s: Scope, where: Option<QExpr>, rows: seq<Row>, n: nat, o: Row) {
    FirstN(DirectRows(s, where, rows, o), n) != []
  }

  /** The lowered plan keeps the LIMIT, now over the rows of all keys together. */
  predicate LimitedHit(c: Correlation, rows: seq<Row>, n: nat, o: Row)
    requires c.Correlated?
  {
    Hits(KeyJoin(c.pairs), o, KeyRel(FirstN(LocalRows(rows, c.locals), n), InnerKeys(c.pairs))) != []
  }

  lemma PartnersAreKey(j: On, o: Row, rows: seq<Row>)
    requires j.residual.None? && !j.nullsMatch
    ensures Partners(j, o, rows) != [] <==> KeyOf(o, j.onLeft) in LiveKeys(rows, j.onRight)
  {
    if Partners(j, o, rows) != [] {
      assert Partners(j, o, rows)[0] in rows;
    }
    if KeyOf(o, j.onLeft) in LiveKeys(rows, j.onRight) {
      var r :| r in rows && Null !in KeyOf(r, j.onRight) && KeyOf(r, j.onRight) == KeyOf(o, j.onLeft);
      assert r in Partners(j, o, rows);
    }
  }

  /** `EXISTS (... LIMIT n)` is lowered correctly for one outer row exactly when its key is not one
      that the cut lost. */
  lemma LimitedExistsIff(s: Scope, where: Option<QExpr>, others: seq<QExpr>, rows: seq<Row>, n: nat, o: Row)
    requires Classify(s, where, others).Correlated?
    ensures var c := Classify(s, where, others);
            var all, cut := LocalRows(rows, c.locals), FirstN(LocalRows(rows, c.locals), n);
            LimitedHit(c, rows, n, o) == LimitedExists(s, where, rows, n, o) <==>
            n == 0 || KeyOf(o, OuterKeys(c.pairs)) !in LiveKeys(all, InnerKeys(c.pairs)) - LiveKeys(cut, InnerKeys(c.pairs))
  {
    var c := Classify(s, where, others);
    var j := KeyJoin(c.pairs);
    var all := LocalRows(rows, c.locals);
    var cut := FirstN(all, n);
    LiftedRows(s, where, others, rows, o);
    KeyRelHits(c.pairs, o, cut);
    PartnersAreKey(j, o, all);
    PartnersAreKey(j, o, cut);
    assert forall r :: r in cut ==> r in all;
    assert LiveKeys(cut, j.onRight) <= LiveKeys(all, j.onRight);
  }

  /** Two subquery rows with keys 1 and 2 under LIMIT 1: the outer row with key 2 is lost. */
  lemma LimitedExistsCounterexample(o: Row, i1: Row, i2: Row)
    requires o == map["k" := Int(2)] && i1 == map["k" := Int(1)] && i2 == map["k" := Int(2)]
    ensures var c := Classify(A_AND_B, Some(SAME_K), []);
            && c.Correlated?
            && LimitedExists(A_AND_B, Some(SAME_K), [i1, i2], 1, o)
            && !LimitedHit(c, [i1, i2], 1, o)
  {
    var pair := KeyPair("k", "k", "b");
    SameKClassified();
    assert i2 in DirectRows(A_AND_B, Some(SAME_K), [i1, i2], o);
    LocalPair(i1, i2);
    assert FirstN([i1, i2], 1) == [i1];
    KeyRelHits([pair], o, [i1]);
    PairsAreJoin([pair], o, i1);
    assert pair in [pair] && !PairHolds(pair, o, i1);
    assert [i1][1..] == [];
  }

  lemma LocalPair(a: Row, b: Row)
    ensures LocalRows([a, b], []) == [a, b]
  {
    assert [a, b][1..] == [b] && [b][1..] == [];
    assert LocalRows([b], []) == [b] + [];
  }

  // ---------------------------------------------------------------- IN and NOT IN

  /** `x IN (values)` under three-valued logic. */
  function InValue(x: Value, vals: seq<Value>): Value {
    if vals == [] then Bool(false)
    else if x != Null && x in vals then Bool(true)
    else if x == Null || Null in vals then Null
    else Bool(false)
  }

  function ColumnValues(rows: seq<Row>, c: string): (vs: seq<Value>)
    ensures |vs| == |rows| && forall k :: 0 <= k < |rows| ==> vs[k] == Cell(rows[k], c)
  {
    seq(|rows|, k requires 0 <= k < |rows| => Cell(rows[k], c))
  }

  /** The rows for which `c IN (values)` is true, or is false. */
  function WhereIn(ls: seq<Row>, c: string, vals: seq<Value>, want: bool): seq<Row> {
    if ls == [] then []
    else (if InValue(Cell(ls[0], c), vals) == Bool(want) then [ls[0]] else []) + WhereIn(ls[1..], c, vals, want)
  }

  lemma InMeansMember(x: Value, rows: seq<Row>, d: string)
    ensures InValue(x, ColumnValues(rows, d)) == Bool(true) <==> x in KeyValues(rows, d)
  {
  }

  /** IN is the semi join, NULLs included. */
  lemma {:induction false} InIsSemiJoin(ls: seq<Row>, rows: seq<Row>, c: string, d: string)
    ensures WhereIn(ls, c, ColumnValues(rows, d), true) == SemiByMembership(ls, c, KeyValues(rows, d), true)
  {
    if ls != [] {
      InMeansMember(Cell(ls[0], c), rows, d);
      InIsSemiJoin(ls[1..], rows, c, d);
    }
  }

  /** The list is empty, or holds the value, or no NULL is involved. */
  predicate NotInSafe(x: Value, rows: seq<Row>, d: string) {
    || rows == []
    || x in KeyValues(rows, d)
    || (x != Null && forall r :: r in rows ==> Cell(r, d) != Null)
  }

  lemma NotInAtRow(x: Value, rows: seq<Row>, d: string)
    ensures InValue(x, ColumnValues(rows, d)) == Bool(false) ==> x !in KeyValues(rows, d)
    ensures (InValue(x, ColumnValues(rows, d)) == Bool(false) <==> x !in KeyValues(rows, d)) <==> NotInSafe(x, rows, d)
  {
  }

  lemma {:induction false} NotInGrows(ls: seq<Row>, rows: seq<Row>, c: string, d: string)
    ensures var sql, anti := WhereIn(ls, c, ColumnValues(rows, d), false), SemiByMembership(ls, c, KeyValues(rows, d), false);
            && |sql| <= |anti|
            && (|sql| == |anti| <==> forall l :: l in ls ==> NotInSafe(Cell(l, c), rows, d))
            && (|sql| == |anti| ==> sql == anti)
  {
    if ls != [] {
      NotInAtRow(Cell(ls[0], c), rows, d);
      NotInGrows(ls[1..], rows, c, d);
      assert forall l :: l in ls <==> l == ls[0] || l in ls[1..];
    }
  }

  /** NOT IN keeps a row when IN is false; the anti join keeps it when there is no match.  They
      differ exactly when some row is unmatched in a non-empty list and a NULL is involved. */
  lemma NotInIsAntiIff(ls: seq<Row>, rows: seq<Row>, c: string, d: string)
    ensures multiset(WhereIn(ls, c, ColumnValues(rows, d), false)) == multiset(SemiByMembership(ls, c, KeyValues(rows, d), false)) <==>
            forall l :: l in ls ==> NotInSafe(Cell(l, c), rows, d)
  {
    var sql, anti := WhereIn(ls, c, ColumnValues(rows, d), false), SemiByMembership(ls, c, KeyValues(rows, d), false);
    NotInGrows(ls, rows, c, d);
    if multiset(sql) == multiset(anti) { SameMembers(sql, anti); }
  }

  /** 1 NOT IN (NULL) is NULL, so SQL drops the row; the anti join keeps it. */
  lemma NotInCounterexample()
    ensures var l: Row, r: Row := map["x" := Int(1)], map["y" := Null];
            && WhereIn([l], "x", ColumnValues([r], "y"), false) == []
            && SemiByMembership([l], "x", KeyValues([r], "y"), false) == [l]
  {
    var l: Row, r: Row := map["x" := Int(1)], map["y" := Null];
    assert ColumnValues([r], "y")[0] == Null;
    assert [l][1..] == [];
  }
}
