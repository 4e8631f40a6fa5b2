/**
 Autocommit INSERT, DELETE and UPDATE over the store, and the plain keyed table they refine: a
 set of rows edited directly.
 */
module Statements {
  import opened Values
  import opened Mvcc
  import opened WalFormat
  import opened Wal
  import opened Deltas
  import opened Store

  // ---------------------------------------------------------------- uniqueness

  /** No two rows share a key; a key with a NULL in it equals nothing. */
  predicate KeysDistinct(rows: seq<Row>, cols: seq<string>) {
    forall i, j :: 0 <= i < j < |rows| ==> KeyOf(rows[i], cols) != KeyOf(rows[j], cols) || Null in KeyOf(rows[i], cols)
  }

  predicate NoCollision(existing: seq<Row>, added: seq<Row>, cols: seq<string>) {
    forall i, j :: 0 <= i < |existing| && 0 <= j < |added| ==>
      KeyOf(existing[i], cols) != KeyOf(added[j], cols) || Null in KeyOf(existing[i], cols)
  }

  predicate NotNullOk(rows: seq<Row>, notNull: set<string>) {
    forall i, c :: 0 <= i < |rows| && c in notNull ==> Cell(rows[i], c) != Null
  }

  /** A key the table declares: its primary key or one of its UNIQUE keys. */
  predicate Declared(info: TableInfo, cols: seq<string>) {
    info.pk == Some(cols) || cols in info.unique
  }

  /** No duplicate inside the batch, none with a visible row. */
  predicate KeyFree(existing: seq<Row>, added: seq<Row>, cols: seq<string>) {
    KeysDistinct(added, cols) && NoCollision(existing, added, cols)
  }

  /** The check made before any write. */
  predicate UniqueOk(existing: seq<Row>, added: seq<Row>, info: TableInfo) {
    && (info.pk.Some? ==> KeyFree(existing, added, info.pk.value))
    && forall u :: u in info.unique ==> KeyFree(existing, added, u)
  }

  /** A table that satisfies its declared constraints. */
  predicate TableOk(rows: seq<Row>, info: TableInfo) {
    && NotNullOk(rows, info.notNull)
    && (info.pk.Some? ==> KeysDistinct(rows, info.pk.value))
    && forall u :: u in info.unique ==> KeysDistinct(rows, u)
  }

  /** The list of keys the engine goes through. */
  function Constraints(info: TableInfo): (keys: seq<seq<string>>)
    ensures forall cols :: cols in keys <==> Declared(info, cols)
  {
    (if info.pk.Some? then [info.pk.value] else []) + info.unique
  }

  /** The first n keys of a list are free. */
  predicate FreeSoFar(existing: seq<Row>, added: seq<Row>, keys: seq<seq<string>>, n: nat)
    requires n <= |keys|
  {
    forall i :: 0 <= i < n ==> KeyFree(existing, added, keys[i])
  }

  lemma FreeOneMore(existing: seq<Row>, added: seq<Row>, keys: seq<seq<string>>, n: nat)
    requires n < |keys|
    ensures FreeSoFar(existing, added, keys, n + 1) <==> FreeSoFar(existing, added, keys, n) && KeyFree(existing, added, keys[n])
  {
  }

  /** Going through the list, as far as a key that is not free, decides the check. */
  lemma UniqueByList(existing: seq<Row>, added: seq<Row>, info: TableInfo, n: nat)
    requires n <= |Constraints(info)| && (n == |Constraints(info)| || !FreeSoFar(existing, added, Constraints(info), n))
    ensures UniqueOk(existing, added, info) <==> FreeSoFar(existing, added, Constraints(info), n)
  {
    var keys := Constraints(info);
    if UniqueOk(existing, added, info) {
      forall i | 0 <= i < n ensures KeyFree(existing, added, keys[i]) { assert keys[i] in keys; }
    }
    if n == |keys| && FreeSoFar(existing, added, keys, n) {
      forall u | Declared(info, u) ensures KeyFree(existing, added, u) {
        var i :| 0 <= i < |keys| && keys[i] == u;
      }
    }
  }

  /** Every table has a primary key and its columns are NOT NULL. */
  predicate Keyed(cat: Catalog) {
    forall t :: t in cat ==> cat[t].pk.Some? && ColumnSet(cat[t].pk.value) <= cat[t].notNull
  }

  // ---------------------------------------------------------------- statements over the store

  datatype Stmt =
    | InsertRows(table: string, rows: seq<Row>)
    | DeleteWhere(table: string, pred: Row -> bool)
    | UpdateWhere(table: string, pred: Row -> bool, assign: Row -> Row)

  datatype Outcome = Done(count: nat) | Rejected | IoError

  function Matching(rows: seq<Row>, pred: Row -> bool): seq<Row> {
    if rows == [] then [] else (if pred(rows[0]) then [rows[0]] else []) + Matching(rows[1..], pred)
  }

  function MapRows(rows: seq<Row>, f: Row -> Row): (out: seq<Row>)
    ensures |out| == |rows|
    ensures forall i :: 0 <= i < |rows| ==> out[i] == f(rows[i])
  {
    seq(|rows|, i requires 0 <= i < |rows| => f(rows[i]))
  }

  function Tombstones(targets: seq<Row>, pk: seq<string>): seq<Row> {
    NarrowAll(targets, ColumnSet(pk))
  }

  /** What the uniqueness check of an UPDATE reads: its implicit transaction already carries the
      tombstone of the rows being replaced. */
  function UpdateReads(cat: Catalog, db: Db, t: string, tomb: seq<Row>): seq<Row> {
    Visible(BaseOf(db, t), UpTo(BatchesOf(db.delta, t), BatchTs, db.commitTs),
            UpTo(TombsOf(db.delta, t), TombTs, db.commitTs) + [Tomb(INS_INF, tomb, true)], PkOf(cat, t))
  }

  /** The batches a statement commits, or why it commits nothing. */
  datatype Effect = Nothing | Refuse | Write(batches: seq<LogBatch>, count: nat)

  function InsertEffect(info: TableInfo, visible: seq<Row>, t: string, rows: seq<Row>): Effect {
    if rows == [] then Nothing
    else if !NotNullOk(rows, info.notNull) || !UniqueOk(visible, rows, info) then Refuse
    else Write([LogBatch(t, Insert, rows)], |rows|)
  }

  function DeleteEffect(info: TableInfo, visible: seq<Row>, t: string, pred: Row -> bool): Effect {
    var targets := Matching(visible, pred);
    if info.pk.None? then Refuse
    else if targets == [] then Nothing
    else Write([LogBatch(t, Tombstone, Tombstones(targets, info.pk.value))], |targets|)
  }

  function UpdateEffect(info: TableInfo, visible: seq<Row>, seen: seq<Row> -> seq<Row>, t: string, pred: Row -> bool,
                        assign: Row -> Row): Effect
  {
    var targets := Matching(visible, pred);
    if info.pk.None? then Refuse
    else if targets == [] then Nothing
    else
      var added, tomb := MapRows(targets, assign), Tombstones(targets, info.pk.value);
      if !NotNullOk(added, info.notNull) || !UniqueOk(seen(tomb), added, info) then Refuse
      else Write([LogBatch(t, Insert, added), LogBatch(t, TombstoneUpdate, tomb)], |targets|)
  }

  function EffectOf(cat: Catalog, db: Db, s: Stmt): Effect {
    if s.table !in cat then Refuse
    else
      var info, visible := cat[s.table], View(cat, db, s.table);
      match s
      case InsertRows(t, rows) => InsertEffect(info, visible, t, rows)
      case DeleteWhere(t, pred) => DeleteEffect(info, visible, t, pred)
      case UpdateWhere(t, pred, assign) =>
        UpdateEffect(info, visible, tomb => UpdateReads(cat, db, t, tomb), t, pred, assign)
  }

  function Exec(k: Coding, cat: Catalog, db: Db, s: Stmt, fault: Fault): (Db, Outcome) {
    match EffectOf(cat, db, s)
    case Nothing => (db, Done(0))
    case Refuse => (db, Rejected)
    case Write(bs, n) =>
      (AfterCommit(k, db, bs, fault), if Written(k, NextRecordOf(db, bs), fault) then Done(n) else IoError)
  }

  // ---------------------------------------------------------------- the plain keyed table

  predicate PlainDistinct(rows: set<Row>, f: Row -> Row, cols: seq<string>) {
    forall a, b :: a in rows && b in rows && a != b ==> KeyOf(f(a), cols) != KeyOf(f(b), cols) || Null in KeyOf(f(a), cols)
  }

  predicate PlainNoCollision(existing: set<Row>, added: set<Row>, cols: seq<string>) {
    forall a, b :: a in existing && b in added ==> KeyOf(a, cols) != KeyOf(b, cols) || Null in KeyOf(a, cols)
  }

  predicate PlainKeyFree(rows: set<Row>, added: seq<Row>, cols: seq<string>) {
    KeysDistinct(added, cols) && PlainNoCollision(rows, RowSet(added), cols)
  }

  predicate PlainInsertOk(info: TableInfo, rows: set<Row>, added: seq<Row>) {
    && NotNullOk(added, info.notNull)
    && (info.pk.Some? ==> PlainKeyFree(rows, added, info.pk.value))
    && forall u :: u in info.unique ==> PlainKeyFree(rows, added, u)
  }

  predicate PlainMovedFree(gone: set<Row>, f: Row -> Row, rest: set<Row>, added: set<Row>, cols: seq<string>) {
    PlainDistinct(gone, f, cols) && PlainNoCollision(rest, added, cols)
  }

  predicate PlainUpdateOk(info: TableInfo, rows: set<Row>, gone: set<Row>, f: Row -> Row) {
    var added := set r | r in gone :: f(r);
    && (forall r, c :: r in added && c in info.notNull ==> Cell(r, c) != Null)
    && (info.pk.Some? ==> PlainMovedFree(gone, f, rows - gone, added, info.pk.value))
    && forall u :: u in info.unique ==> PlainMovedFree(gone, f, rows - gone, added, u)
  }

  function PlainInsert(info: TableInfo, rows: set<Row>, added: seq<Row>): (set<Row>, Outcome) {
    if added == [] then (rows, Done(0))
    else if !PlainInsertOk(info, rows, added) then (rows, Rejected)
    else (rows + RowSet(added), Done(|added|))
  }

  function PlainDelete(info: TableInfo, rows: set<Row>, pred: Row -> bool): (set<Row>, Outcome) {
    var gone := set r | r in rows && pred(r);
    if info.pk.None? then (rows, Rejected) else (rows - gone, Done(|gone|))
  }

  function PlainUpdate(info: TableInfo, rows: set<Row>, pred: Row -> bool, f: Row -> Row): (set<Row>, Outcome) {
    var gone := set r | r in rows && pred(r);
    if info.pk.None? || !PlainUpdateOk(info, rows, gone, f) then (rows, Rejected)
    else (rows - gone + (set r | r in gone :: f(r)), Done(|gone|))
  }

  function PlainExec(cat: Catalog, tables: map<string, set<Row>>, s: Stmt): (map<string, set<Row>>, Outcome)
    requires tables.Keys == cat.Keys
  {
    if s.table !in cat then (tables, Rejected)
    else
      var info, rows := cat[s.table], tables[s.table];
      var (rows', out) :=
        match s
        case InsertRows(t, added) => PlainInsert(info, rows, added)
        case DeleteWhere(t, pred) => PlainDelete(info, rows, pred)
        case UpdateWhere(t, pred, f) => PlainUpdate(info, rows, pred, f);
      (tables[s.table := rows'], out)
  }

  // ---------------------------------------------------------------- lists of rows as sets

  lemma {:induction false} DropKeysSubset(rows: seq<Row>, ks: set<Key>, pk: seq<string>)
    ensures forall r :: r in DropKeys(rows, ks, pk) <==> r in rows && KeyOf(r, pk) !in ks
    ensures RowSet(DropKeys(rows, ks, pk)) == set r | r in rows && KeyOf(r, pk) !in ks
  {
    if rows != [] {
      DropKeysSubset(rows[1..], ks, pk);
      assert rows == [rows[0]] + rows[1..];
    }
  }

  lemma {:induction false} MatchingSubset(rows: seq<Row>, pred: Row -> bool)
    ensures forall r :: r in Matching(rows, pred) <==> r in rows && pred(r)
    ensures RowSet(Matching(rows, pred)) == set r | r in rows && pred(r)
  {
    if rows != [] {
      MatchingSubset(rows[1..], pred);
      assert rows == [rows[0]] + rows[1..];
    }
  }

  lemma DistinctCons(r: Row, rest: seq<Row>, cols: seq<string>)
    ensures KeysDistinct([r] + rest, cols) <==>
            KeysDistinct(rest, cols) && forall j :: 0 <= j < |rest| ==> KeyOf(r, cols) != KeyOf(rest[j], cols) || Null in KeyOf(r, cols)
  {
    var all := [r] + rest;
    assert forall j :: 0 <= j < |rest| ==> all[j + 1] == rest[j];
    if KeysDistinct(all, cols) {
      forall i, j | 0 <= i < j < |rest|
        ensures KeyOf(rest[i], cols) != KeyOf(rest[j], cols) || Null in KeyOf(rest[i], cols)
      {
        assert all[i + 1] == rest[i] && all[j + 1] == rest[j];
      }
      forall j | 0 <= j < |rest|
        ensures KeyOf(r, cols) != KeyOf(rest[j], cols) || Null in KeyOf(r, cols)
      {
        assert all[0] == r && all[j + 1] == rest[j];
      }
    }
  }

  lemma {:induction false} DropKeepsDistinct(rows: seq<Row>, ks: set<Key>, pk: seq<string>, cols: seq<string>)
    requires KeysDistinct(rows, cols)
    ensures KeysDistinct(DropKeys(rows, ks, pk), cols)
  {
    if rows != [] {
      assert rows == [rows[0]] + rows[1..];
      DistinctCons(rows[0], rows[1..], cols);
      DropKeepsDistinct(rows[1..], ks, pk, cols);
      DropKeysSubset(rows[1..], ks, pk);
      DistinctCons(rows[0], DropKeys(rows[1..], ks, pk), cols);
      var rest := DropKeys(rows[1..], ks, pk);
      forall j | 0 <= j < |rest|
        ensures KeyOf(rows[0], cols) != KeyOf(rest[j], cols) || Null in KeyOf(rows[0], cols)
      {
        assert rest[j] in rest;
        var i :| 0 <= i < |rows[1..]| && rows[1..][i] == rest[j];
      }
    }
  }

  lemma {:induction false} MatchingKeepsDistinct(rows: seq<Row>, pred: Row -> bool, cols: seq<string>)
    requires KeysDistinct(rows, cols)
    ensures KeysDistinct(Matching(rows, pred), cols)
  {
    if rows != [] {
      assert rows == [rows[0]] + rows[1..];
      DistinctCons(rows[0], rows[1..], cols);
      MatchingKeepsDistinct(rows[1..], pred, cols);
      MatchingSubset(rows[1..], pred);
      var rest := Matching(rows[1..], pred);
      DistinctCons(rows[0], rest, cols);
      forall j | 0 <= j < |rest|
        ensures KeyOf(rows[0], cols) != KeyOf(rest[j], cols) || Null in KeyOf(rows[0], cols)
      {
        assert rest[j] in rest;
        var i :| 0 <= i < |rows[1..]| && rows[1..][i] == rest[j];
      }
    }
  }

  lemma ConcatDistinct(a: seq<Row>, b: seq<Row>, cols: seq<string>)
    requires KeysDistinct(a, cols) && KeysDistinct(b, cols) && NoCollision(a, b, cols)
    ensures KeysDistinct(a + b, cols)
  {
  }

  lemma PkNotNull(rows: seq<Row>, info: TableInfo, r: Row)
    requires info.pk.Some? && ColumnSet(info.pk.value) <= info.notNull && NotNullOk(rows, info.notNull) && r in rows
    ensures Null !in KeyOf(r, info.pk.value)
  {
    var i :| 0 <= i < |rows| && rows[i] == r;
    forall j | 0 <= j < |info.pk.value|
      ensures KeyOf(r, info.pk.value)[j] != Null
    {
      assert info.pk.value[j] in ColumnSet(info.pk.value);
    }
  }

  /** In a keyed table a row is its key. */
  lemma SameKeySameRow(rows: seq<Row>, info: TableInfo, a: Row, b: Row)
    requires info.pk.Some? && ColumnSet(info.pk.value) <= info.notNull && TableOk(rows, info)
    requires a in rows && b in rows && KeyOf(a, info.pk.value) == KeyOf(b, info.pk.value)
    ensures a == b
  {
    var i :| 0 <= i < |rows| && rows[i] == a;
    var j :| 0 <= j < |rows| && rows[j] == b;
    PkNotNull(rows, info, a);
    assert KeysDistinct(rows, info.pk.value);
  }

  /** The keys of the matched rows are on the matched rows only. */
  lemma MatchedKeys(rows: seq<Row>, info: TableInfo, pred: Row -> bool)
    requires info.pk.Some? && ColumnSet(info.pk.value) <= info.notNull && TableOk(rows, info)
    ensures var pk := info.pk.value;
            forall r :: r in rows ==> (KeyOf(r, pk) in KeySet(Tombstones(Matching(rows, pred), pk), pk) <==> pred(r))
  {
    var pk := info.pk.value;
    var targets := Matching(rows, pred);
    MatchingSubset(rows, pred);
    NarrowAllKeepsKeys(targets, ColumnSet(pk), pk);
    var ks := KeySet(targets, pk);
    forall r | r in rows
      ensures KeyOf(r, pk) in ks <==> pred(r)
    {
      if pred(r) {
        assert r in targets;
      }
      if KeyOf(r, pk) in ks {
        var x :| x in targets && KeyOf(x, pk) == KeyOf(r, pk);
        SameKeySameRow(rows, info, r, x);
      }
    }
  }

  /** Deleting by the matched rows' keys deletes exactly the matched rows. */
  lemma DropMatched(rows: seq<Row>, info: TableInfo, pred: Row -> bool)
    requires info.pk.Some? && ColumnSet(info.pk.value) <= info.notNull && TableOk(rows, info)
    ensures var pk := info.pk.value;
            var kept := DropKeys(rows, KeySet(Tombstones(Matching(rows, pred), pk), pk), pk);
            RowSet(kept) == set r | r in rows && !pred(r)
  {
    var pk := info.pk.value;
    MatchedKeys(rows, info, pred);
    DropKeysSubset(rows, KeySet(Tombstones(Matching(rows, pred), pk), pk), pk);
  }

  lemma {:induction false} DistinctRowsCount(rows: seq<Row>)
    requires forall i, j :: 0 <= i < j < |rows| ==> rows[i] != rows[j]
    ensures |RowSet(rows)| == |rows|
  {
    if rows != [] {
      var rest := rows[1..];
      DistinctRowsCount(rest);
      assert rows[0] !in rest;
      assert RowSet(rows) == {rows[0]} + RowSet(rest);
    }
  }

  lemma TargetsAreDistinct(rows: seq<Row>, info: TableInfo, pred: Row -> bool)
    requires info.pk.Some? && ColumnSet(info.pk.value) <= info.notNull && TableOk(rows, info)
    ensures var targets := Matching(rows, pred);
            (forall i, j :: 0 <= i < j < |targets| ==> targets[i] != targets[j]) && |RowSet(targets)| == |targets|
  {
    var targets := Matching(rows, pred);
    MatchingKeepsDistinct(rows, pred, info.pk.value);
    MatchingSubset(rows, pred);
    forall i, j | 0 <= i < j < |targets|
      ensures targets[i] != targets[j]
    {
      assert targets[i] in targets;
      PkNotNull(rows, info, targets[i]);
    }
    DistinctRowsCount(targets);
  }

  // ---------------------------------------------------------------- one commit on one table

  lemma {:induction false} DropNoKeys(rows: seq<Row>, pk: seq<string>)
    ensures DropKeys(rows, {}, pk) == rows
  {
    if rows != [] {
      DropNoKeys(rows[1..], pk);
    }
  }

  function Touches(bs: seq<LogBatch>, t: string): bool {
    forall i :: 0 <= i < |bs| ==> bs[i].table == t
  }

  lemma {:induction false} OthersGetNothing(bs: seq<LogBatch>, t: string, other: string)
    requires Touches(bs, t) && other != t
    ensures InsertsFor(bs, other) == [] && TombsFor(bs, other) == []
  {
    if bs != [] {
      OthersGetNothing(bs[..|bs| - 1], t, other);
    }
  }

  lemma OtherTablesUnchanged(cat: Catalog, db: Db, bs: seq<LogBatch>, t: string, other: string)
    requires Touches(bs, t) && other != t && other in cat
    ensures PlainTables(cat, Views(cat, db), bs)[other] == View(cat, db, other)
  {
    OthersGetNothing(bs, t, other);
    if PkOf(cat, other).Some? {
      DropNoKeys(View(cat, db, other), PkOf(cat, other).value);
    }
  }

  lemma InsertBatchRows(t: string, rows: seq<Row>)
    ensures FrameRows(StampInserts(InsertsFor([LogBatch(t, Insert, rows)], t), 0)) == rows
    ensures TombsFor([LogBatch(t, Insert, rows)], t) == []
  {
    var bs := [LogBatch(t, Insert, rows)];
    assert bs[..0] == [];
    assert InsertsFor(bs, t) == [] + [rows];
    assert StampInserts([rows], 0)[..0] == [];
    assert FrameRows(StampInserts([rows], 0)) == [] + rows;
  }

  lemma DeleteBatchRows(t: string, tomb: seq<Row>, pk: seq<string>)
    ensures var bs := [LogBatch(t, Tombstone, tomb)];
            InsertsFor(bs, t) == [] && TombKeys(StampTombs(TombsFor(bs, t), 0), pk, false) == KeySet(tomb, pk)
  {
    var bs := [LogBatch(t, Tombstone, tomb)];
    assert bs[..0] == [];
    assert TombsFor(bs, t) == [] + [(tomb, false)];
    var xs := StampTombs([(tomb, false)], 0);
    assert xs[..0] == [];
  }

  lemma UpdateBatchRows(t: string, added: seq<Row>, tomb: seq<Row>, pk: seq<string>)
    ensures var bs := [LogBatch(t, Insert, added), LogBatch(t, TombstoneUpdate, tomb)];
            FrameRows(StampInserts(InsertsFor(bs, t), 0)) == added &&
            TombKeys(StampTombs(TombsFor(bs, t), 0), pk, false) == KeySet(tomb, pk) &&
            TombKeys(StampTombs(TombsFor(bs, t), 0), pk, true) == {}
  {
    var bs := [LogBatch(t, Insert, added), LogBatch(t, TombstoneUpdate, tomb)];
    assert bs[..1] == [LogBatch(t, Insert, added)];
    InsertBatchRows(t, added);
    assert InsertsFor(bs, t) == InsertsFor(bs[..1], t) + [];
    assert TombsFor(bs, t) == [] + [(tomb, true)];
    var xs := StampTombs([(tomb, true)], 0);
    assert xs[..0] == [];
  }

  /** What an accepted statement leaves in its own table. */
  function EditedRows(visible: seq<Row>, s: Stmt, pk: seq<string>): seq<Row> {
    match s
    case InsertRows(_, rows) => visible + rows
    case DeleteWhere(_, pred) => DropKeys(visible, KeySet(Tombstones(Matching(visible, pred), pk), pk), pk)
    case UpdateWhere(_, pred, assign) =>
      var targets := Matching(visible, pred);
      DropKeys(visible, KeySet(Tombstones(targets, pk), pk), pk) + MapRows(targets, assign)
  }

  /** One commit's batches, as an edit of one table. */
  function CommitEdit(visible: seq<Row>, bs: seq<LogBatch>, t: string, pk: Option<seq<string>>): seq<Row> {
    PlainCommit(visible, FrameRows(StampInserts(InsertsFor(bs, t), 0)), StampTombs(TombsFor(bs, t), 0), pk)
  }

  lemma InsertEdits(visible: seq<Row>, bs: seq<LogBatch>, t: string, rows: seq<Row>, pk: seq<string>)
    requires bs == [LogBatch(t, Insert, rows)]
    ensures CommitEdit(visible, bs, t, Some(pk)) == visible + rows
  {
    InsertBatchRows(t, rows);
    DropNoKeys(visible, pk);
    DropNoKeys(rows, pk);
  }

  lemma DeleteEdits(visible: seq<Row>, bs: seq<LogBatch>, t: string, tomb: seq<Row>, pk: seq<string>)
    requires bs == [LogBatch(t, Tombstone, tomb)]
    ensures CommitEdit(visible, bs, t, Some(pk)) == DropKeys(visible, KeySet(tomb, pk), pk)
  {
    DeleteBatchRows(t, tomb, pk);
    assert DropKeys([], TombKeys(StampTombs(TombsFor(bs, t), 0), pk, true), pk) == [];
  }

  lemma UpdateEdits(visible: seq<Row>, bs: seq<LogBatch>, t: string, added: seq<Row>, tomb: seq<Row>, pk: seq<string>)
    requires bs == [LogBatch(t, Insert, added), LogBatch(t, TombstoneUpdate, tomb)]
    ensures CommitEdit(visible, bs, t, Some(pk)) == DropKeys(visible, KeySet(tomb, pk), pk) + added
  {
    UpdateBatchRows(t, added, tomb, pk);
    DropNoKeys(added, pk);
  }

  lemma WrittenTable(cat: Catalog, db: Db, bs: seq<LogBatch>, t: string)
    requires t in cat
    ensures PlainTables(cat, Views(cat, db), bs)[t] == CommitEdit(View(cat, db, t), bs, t, PkOf(cat, t))
  {
    assert Views(cat, db)[t] == View(cat, db, t);
  }

  /** The batches of an accepted statement. */
  function BatchesOfStmt(visible: seq<Row>, s: Stmt, pk: seq<string>): seq<LogBatch> {
    match s
    case InsertRows(t, rows) => [LogBatch(t, Insert, rows)]
    case DeleteWhere(t, pred) => [LogBatch(t, Tombstone, Tombstones(Matching(visible, pred), pk))]
    case UpdateWhere(t, pred, assign) =>
      [LogBatch(t, Insert, MapRows(Matching(visible, pred), assign)),
       LogBatch(t, TombstoneUpdate, Tombstones(Matching(visible, pred), pk))]
  }

  lemma WriteBatches(cat: Catalog, db: Db, s: Stmt)
    requires Keyed(cat) && s.table in cat && EffectOf(cat, db, s).Write?
    ensures EffectOf(cat, db, s).batches == BatchesOfStmt(View(cat, db, s.table), s, cat[s.table].pk.value)
  {
  }

  /** An accepted statement's batches edit its table as the statement says. */
  lemma BatchesEdit(visible: seq<Row>, bs: seq<LogBatch>, s: Stmt, pk: seq<string>)
    requires bs == BatchesOfStmt(visible, s, pk)
    ensures bs != [] && Touches(bs, s.table) && CommitEdit(visible, bs, s.table, Some(pk)) == EditedRows(visible, s, pk)
  {
    match s
    case InsertRows(t, rows) => InsertEdits(visible, bs, t, rows, pk);
    case DeleteWhere(t, pred) => DeleteEdits(visible, bs, t, Tombstones(Matching(visible, pred), pk), pk);
    case UpdateWhere(t, pred, assign) =>
      UpdateEdits(visible, bs, t, MapRows(Matching(visible, pred), assign), Tombstones(Matching(visible, pred), pk), pk);
  }

  lemma WriteEdits(cat: Catalog, db: Db, s: Stmt)
    requires Keyed(cat) && s.table in cat && EffectOf(cat, db, s).Write?
    ensures var bs := EffectOf(cat, db, s).batches;
            bs != [] && Touches(bs, s.table) &&
            PlainTables(cat, Views(cat, db), bs)[s.table] == EditedRows(View(cat, db, s.table), s, cat[s.table].pk.value)
  {
    WriteBatches(cat, db, s);
    BatchesEdit(View(cat, db, s.table), EffectOf(cat, db, s).batches, s, cat[s.table].pk.value);
    WrittenTable(cat, db, EffectOf(cat, db, s).batches, s.table);
  }

  /** The uniqueness check of an UPDATE sees exactly the rows that will stay. */
  lemma UpdateReadsSurvivors(k: Coding, cat: Catalog, db: Db, log: seq<Record>, t: string, tomb: seq<Row>)
    requires Logged(k, cat, db, log) && db.commitTs < INS_INF && PkOf(cat, t).Some?
    ensures UpdateReads(cat, db, t, tomb) == DropKeys(View(cat, db, t), KeySet(tomb, PkOf(cat, t).value), PkOf(cat, t).value)
  {
    var pk := PkOf(cat, t).value;
    var bs, xs := BatchesOf(db.delta, t), TombsOf(db.delta, t);
    LogWithin(log, db.commitTs, t);
    UpToKeepsAll(bs, BatchTs, db.commitTs);
    UpToKeepsAll(xs, TombTs, db.commitTs);
    SourcesWithin(BaseOf(db, t), bs, db.commitTs);
    NewTombDropsKeys(Sources(BaseOf(db, t), bs), xs, Tomb(INS_INF, tomb, true), pk);
    UntagDrop(Survivors(Sources(BaseOf(db, t), bs), xs, Some(pk)), KeySet(tomb, pk), pk);
  }

  // ---------------------------------------------------------------- refinement

  predicate Refines(cat: Catalog, db: Db, tables: map<string, set<Row>>) {
    tables.Keys == cat.Keys &&
    forall t :: t in cat ==> RowSet(View(cat, db, t)) == tables[t] && TableOk(View(cat, db, t), cat[t])
  }

  lemma DropKeepsTableOk(rows: seq<Row>, ks: set<Key>, pk: seq<string>, info: TableInfo)
    requires TableOk(rows, info)
    ensures TableOk(DropKeys(rows, ks, pk), info)
  {
    var kept := DropKeys(rows, ks, pk);
    DropKeysSubset(rows, ks, pk);
    forall i, c | 0 <= i < |kept| && c in info.notNull
      ensures Cell(kept[i], c) != Null
    {
      assert kept[i] in kept;
      var j :| 0 <= j < |rows| && rows[j] == kept[i];
    }
    forall u | Declared(info, u)
      ensures KeysDistinct(kept, u)
    {
      DropKeepsDistinct(rows, ks, pk, u);
    }
  }

  lemma AppendKeepsTableOk(existing: seq<Row>, added: seq<Row>, info: TableInfo)
    requires TableOk(existing, info) && NotNullOk(added, info.notNull) && UniqueOk(existing, added, info)
    ensures TableOk(existing + added, info)
  {
    forall u | Declared(info, u)
      ensures KeysDistinct(existing + added, u)
    {
      ConcatDistinct(existing, added, u);
    }
  }

  lemma CollisionAsSets(existing: seq<Row>, added: seq<Row>, cols: seq<string>)
    ensures NoCollision(existing, added, cols) <==> PlainNoCollision(RowSet(existing), RowSet(added), cols)
  {
    if PlainNoCollision(RowSet(existing), RowSet(added), cols) {
      forall i, j | 0 <= i < |existing| && 0 <= j < |added|
        ensures KeyOf(existing[i], cols) != KeyOf(added[j], cols) || Null in KeyOf(existing[i], cols)
      {
        assert existing[i] in RowSet(existing) && added[j] in RowSet(added);
      }
    }
    if NoCollision(existing, added, cols) {
      forall a, b | a in RowSet(existing) && b in RowSet(added)
        ensures KeyOf(a, cols) != KeyOf(b, cols) || Null in KeyOf(a, cols)
      {
        var i :| 0 <= i < |existing| && existing[i] == a;
        var j :| 0 <= j < |added| && added[j] == b;
      }
    }
  }

  lemma MappedDistinct(targets: seq<Row>, f: Row -> Row, cols: seq<string>)
    requires forall i, j :: 0 <= i < j < |targets| ==> targets[i] != targets[j]
    ensures KeysDistinct(MapRows(targets, f), cols) <==> PlainDistinct(RowSet(targets), f, cols)
  {
    var added := MapRows(targets, f);
    if KeysDistinct(added, cols) {
      forall a, b | a in RowSet(targets) && b in RowSet(targets) && a != b
        ensures KeyOf(f(a), cols) != KeyOf(f(b), cols) || Null in KeyOf(f(a), cols)
      {
        var i :| 0 <= i < |targets| && targets[i] == a;
        var j :| 0 <= j < |targets| && targets[j] == b;
        assert added[i] == f(a) && added[j] == f(b);
      }
    }
    if PlainDistinct(RowSet(targets), f, cols) {
      forall i, j | 0 <= i < j < |added|
        ensures KeyOf(added[i], cols) != KeyOf(added[j], cols) || Null in KeyOf(added[i], cols)
      {
        assert targets[i] in RowSet(targets) && targets[j] in RowSet(targets);
      }
    }
  }

  lemma MappedSet(targets: seq<Row>, f: Row -> Row)
    ensures RowSet(MapRows(targets, f)) == set r | r in RowSet(targets) :: f(r)
  {
    var added := MapRows(targets, f);
    forall i | 0 <= i < |targets|
      ensures added[i] in (set r | r in RowSet(targets) :: f(r))
    {
      assert targets[i] in RowSet(targets);
    }
    forall r | r in RowSet(targets)
      ensures f(r) in added
    {
      var i :| 0 <= i < |targets| && targets[i] == r;
      assert added[i] == f(r);
    }
  }

  lemma InsertChecksAgree(visible: seq<Row>, added: seq<Row>, info: TableInfo)
    ensures NotNullOk(added, info.notNull) && UniqueOk(visible, added, info) <==> PlainInsertOk(info, RowSet(visible), added)
  {
    forall u | Declared(info, u)
      ensures KeyFree(visible, added, u) <==> PlainKeyFree(RowSet(visible), added, u)
    {
      CollisionAsSets(visible, added, u);
    }
  }

  /** An UPDATE is accepted by the engine exactly when the plain table can take it. */
  lemma UpdateChecksAgree(visible: seq<Row>, info: TableInfo, pred: Row -> bool, f: Row -> Row)
    requires info.pk.Some? && ColumnSet(info.pk.value) <= info.notNull && TableOk(visible, info)
    ensures var pk := info.pk.value;
            var targets := Matching(visible, pred);
            var kept, added := DropKeys(visible, KeySet(Tombstones(targets, pk), pk), pk), MapRows(targets, f);
            NotNullOk(added, info.notNull) && UniqueOk(kept, added, info) <==>
            PlainUpdateOk(info, RowSet(visible), (set r | r in RowSet(visible) && pred(r)), f)
  {
    var pk := info.pk.value;
    var targets := Matching(visible, pred);
    var kept, added := DropKeys(visible, KeySet(Tombstones(targets, pk), pk), pk), MapRows(targets, f);
    var gone := set r | r in RowSet(visible) && pred(r);
    MatchingSubset(visible, pred);
    assert gone == RowSet(targets);
    DropMatched(visible, info, pred);
    assert RowSet(kept) == RowSet(visible) - gone;
    TargetsAreDistinct(visible, info, pred);
    MappedSet(targets, f);
    NotNullAsSet(added, info.notNull);
    MovedChecks(kept, targets, f, info, gone, RowSet(kept), RowSet(added));
  }

  lemma MovedChecks(kept: seq<Row>, targets: seq<Row>, f: Row -> Row, info: TableInfo, gone: set<Row>, rest: set<Row>, added: set<Row>)
    requires forall i, j :: 0 <= i < j < |targets| ==> targets[i] != targets[j]
    requires gone == RowSet(targets) && rest == RowSet(kept) && added == RowSet(MapRows(targets, f))
    ensures UniqueOk(kept, MapRows(targets, f), info) <==>
            && (info.pk.Some? ==> PlainMovedFree(gone, f, rest, added, info.pk.value))
            && forall u :: u in info.unique ==> PlainMovedFree(gone, f, rest, added, u)
  {
    forall u | Declared(info, u)
      ensures KeyFree(kept, MapRows(targets, f), u) <==> PlainMovedFree(gone, f, rest, added, u)
    {
      MappedDistinct(targets, f, u);
      CollisionAsSets(kept, MapRows(targets, f), u);
    }
  }

  lemma NotNullAsSet(rows: seq<Row>, notNull: set<string>)
    ensures NotNullOk(rows, notNull) <==> forall r, c :: r in RowSet(rows) && c in notNull ==> Cell(r, c) != Null
  {
    if forall r, c :: r in RowSet(rows) && c in notNull ==> Cell(r, c) != Null {
      forall i, c | 0 <= i < |rows| && c in notNull
        ensures Cell(rows[i], c) != Null
      {
        assert rows[i] in RowSet(rows);
      }
    }
  }

  /** What the engine decides against what the plain table does, for one table. */
  predicate Agree(e: Effect, info: TableInfo, rows: set<Row>, edited: seq<Row>, plain: (set<Row>, Outcome)) {
    && (e.Refuse? ==> plain == (rows, Rejected))
    && (e.Nothing? ==> plain == (rows, Done(0)))
    && (e.Write? ==> plain == (RowSet(edited), Done(e.count)) && TableOk(edited, info))
  }

  lemma InsertAgrees(info: TableInfo, visible: seq<Row>, t: string, rows: seq<Row>)
    requires TableOk(visible, info)
    ensures Agree(InsertEffect(info, visible, t, rows), info, RowSet(visible), visible + rows,
                  PlainInsert(info, RowSet(visible), rows))
  {
    InsertChecksAgree(visible, rows, info);
    if NotNullOk(rows, info.notNull) && UniqueOk(visible, rows, info) {
      AppendKeepsTableOk(visible, rows, info);
    }
    assert RowSet(visible + rows) == RowSet(visible) + RowSet(rows);
  }

  lemma DeleteOnTable(visible: seq<Row>, info: TableInfo, pred: Row -> bool)
    requires info.pk.Some? && ColumnSet(info.pk.value) <= info.notNull && TableOk(visible, info)
    ensures var gone, targets := (set r | r in RowSet(visible) && pred(r)), Matching(visible, pred);
            var kept := DropKeys(visible, KeySet(Tombstones(targets, info.pk.value), info.pk.value), info.pk.value);
            RowSet(kept) == RowSet(visible) - gone && |gone| == |targets| && TableOk(kept, info) && gone == RowSet(targets)
  {
    var gone, targets := (set r | r in RowSet(visible) && pred(r)), Matching(visible, pred);
    MatchingSubset(visible, pred);
    assert gone == RowSet(targets);
    TargetsAreDistinct(visible, info, pred);
    DropMatched(visible, info, pred);
    DropKeepsTableOk(visible, KeySet(Tombstones(targets, info.pk.value), info.pk.value), info.pk.value, info);
  }

  lemma DeleteAgrees(info: TableInfo, visible: seq<Row>, t: string, pred: Row -> bool)
    requires info.pk.Some? && ColumnSet(info.pk.value) <= info.notNull && TableOk(visible, info)
    ensures Agree(DeleteEffect(info, visible, t, pred), info, RowSet(visible),
                  EditedRows(visible, DeleteWhere(t, pred), info.pk.value), PlainDelete(info, RowSet(visible), pred))
  {
    DeleteOnTable(visible, info, pred);
    if Matching(visible, pred) == [] {
      NothingMatches(visible, pred);
    }
  }

  lemma NothingMatches(visible: seq<Row>, pred: Row -> bool)
    requires Matching(visible, pred) == []
    ensures (set r | r in RowSet(visible) && pred(r)) == {}
    ensures RowSet(visible) - (set r | r in RowSet(visible) && pred(r)) == RowSet(visible)
  {
    MatchingSubset(visible, pred);
  }

  lemma UpdateOnTable(visible: seq<Row>, info: TableInfo, pred: Row -> bool, f: Row -> Row)
    requires info.pk.Some? && ColumnSet(info.pk.value) <= info.notNull && TableOk(visible, info)
    ensures var pk, targets := info.pk.value, Matching(visible, pred);
            var gone := set r | r in RowSet(visible) && pred(r);
            var kept, added := DropKeys(visible, KeySet(Tombstones(targets, pk), pk), pk), MapRows(targets, f);
            (NotNullOk(added, info.notNull) && UniqueOk(kept, added, info) <==> PlainUpdateOk(info, RowSet(visible), gone, f)) &&
            |gone| == |targets| && gone == RowSet(targets) &&
            RowSet(kept + added) == RowSet(visible) - gone + (set r | r in gone :: f(r)) &&
            (PlainUpdateOk(info, RowSet(visible), gone, f) ==> TableOk(kept + added, info))
  {
    var pk, targets := info.pk.value, Matching(visible, pred);
    var kept, added := DropKeys(visible, KeySet(Tombstones(targets, pk), pk), pk), MapRows(targets, f);
    DeleteOnTable(visible, info, pred);
    MappedSet(targets, f);
    UpdateChecksAgree(visible, info, pred, f);
    assert RowSet(kept + added) == RowSet(kept) + RowSet(added);
    if NotNullOk(added, info.notNull) && UniqueOk(kept, added, info) {
      AppendKeepsTableOk(kept, added, info);
    }
  }

  lemma UpdateAgrees(info: TableInfo, visible: seq<Row>, seen: seq<Row> -> seq<Row>, t: string, pred: Row -> bool, f: Row -> Row)
    requires info.pk.Some? && ColumnSet(info.pk.value) <= info.notNull && TableOk(visible, info)
    requires var tomb := Tombstones(Matching(visible, pred), info.pk.value);
             seen(tomb) == DropKeys(visible, KeySet(tomb, info.pk.value), info.pk.value)
    ensures Agree(UpdateEffect(info, visible, seen, t, pred, f), info, RowSet(visible),
                  EditedRows(visible, UpdateWhere(t, pred, f), info.pk.value), PlainUpdate(info, RowSet(visible), pred, f))
  {
    if Matching(visible, pred) == [] {
      NothingMatches(visible, pred);
      PlainUpdateOfNothing(info, RowSet(visible), pred, f);
    } else {
      UpdateOnTable(visible, info, pred, f);
    }
  }

  lemma PlainUpdateOfNothing(info: TableInfo, rows: set<Row>, pred: Row -> bool, f: Row -> Row)
    requires info.pk.Some? && (set r | r in rows && pred(r)) == {}
    ensures PlainUpdate(info, rows, pred, f) == (rows, Done(0))
  {
    var gone := set r | r in rows && pred(r);
    assert (set r | r in gone :: f(r)) == {};
    assert PlainUpdateOk(info, rows, gone, f);
  }

  lemma StatementAgrees(k: Coding, cat: Catalog, db: Db, log: seq<Record>, tables: map<string, set<Row>>, s: Stmt)
    requires Logged(k, cat, db, log) && Keyed(cat) && db.commitTs < INS_INF && Refines(cat, db, tables) && s.table in cat
    ensures var edited := EditedRows(View(cat, db, s.table), s, cat[s.table].pk.value);
            var (tables', out) := PlainExec(cat, tables, s);
            tables' == tables[s.table := tables'[s.table]] &&
            Agree(EffectOf(cat, db, s), cat[s.table], tables[s.table], edited, (tables'[s.table], out))
  {
    var info, visible := cat[s.table], View(cat, db, s.table);
    match s
    case InsertRows(_, rows) => InsertAgrees(info, visible, s.table, rows);
    case DeleteWhere(_, pred) => DeleteAgrees(info, visible, s.table, pred);
    case UpdateWhere(_, pred, f) =>
      UpdateReadsSurvivors(k, cat, db, log, s.table, Tombstones(Matching(visible, pred), info.pk.value));
      UpdateAgrees(info, visible, tomb => UpdateReads(cat, db, s.table, tomb), s.table, pred, f);
  }

  lemma RefinesAfterEdit(cat: Catalog, db: Db, db': Db, tables: map<string, set<Row>>, t: string, edited: seq<Row>)
    requires Refines(cat, db, tables) && t in cat && TableOk(edited, cat[t])
    requires forall u :: u in cat ==> View(cat, db', u) == if u == t then edited else View(cat, db, u)
    ensures Refines(cat, db', tables[t := RowSet(edited)])
  {
  }

  lemma WriteShows(k: Coding, cat: Catalog, db: Db, log: seq<Record>, s: Stmt, u: string)
    requires Logged(k, cat, db, log) && Keyed(cat) && s.table in cat && EffectOf(cat, db, s).Write? && u in cat
    requires k.fits(NextRecordOf(db, EffectOf(cat, db, s).batches))
    ensures var bs := EffectOf(cat, db, s).batches;
            bs != [] && Logged(k, cat, AfterCommit(k, db, bs, NoFault), log + [NextRecordOf(db, bs)]) &&
            View(cat, AfterCommit(k, db, bs, NoFault), u) ==
              if u == s.table then EditedRows(View(cat, db, u), s, cat[u].pk.value) else View(cat, db, u)
  {
    var bs := EffectOf(cat, db, s).batches;
    WriteEdits(cat, db, s);
    CommitShows(k, cat, db, log, bs);
    assert Views(cat, AfterCommit(k, db, bs, NoFault))[u] == View(cat, AfterCommit(k, db, bs, NoFault), u);
    if u != s.table {
      OtherTablesUnchanged(cat, db, bs, s.table, u);
    }
  }

  lemma WriteRefines(k: Coding, cat: Catalog, db: Db, log: seq<Record>, tables: map<string, set<Row>>, s: Stmt, fault: Fault)
    returns (log': seq<Record>)
    requires Logged(k, cat, db, log) && Keyed(cat) && Refines(cat, db, tables)
    requires s.table in cat && EffectOf(cat, db, s).Write?
    requires TableOk(EditedRows(View(cat, db, s.table), s, cat[s.table].pk.value), cat[s.table])
    ensures var bs := EffectOf(cat, db, s).batches;
            var edited := EditedRows(View(cat, db, s.table), s, cat[s.table].pk.value);
            Logged(k, cat, AfterCommit(k, db, bs, fault), log') &&
            Refines(cat, AfterCommit(k, db, bs, fault),
                    if Written(k, NextRecordOf(db, bs), fault) then tables[s.table := RowSet(edited)] else tables)
  {
    var bs := EffectOf(cat, db, s).batches;
    log' := log;
    WriteEdits(cat, db, s);
    if Written(k, NextRecordOf(db, bs), fault) {
      log' := log + [NextRecordOf(db, bs)];
      WriteRefinesOk(k, cat, db, log, tables, s);
      assert AfterCommit(k, db, bs, fault) == AfterCommit(k, db, bs, NoFault);
    } else {
      FailedWrite(k, cat, db, log, tables, bs, fault);
    }
  }

  /** A failed log write burns a timestamp and nothing else. */
  lemma FailedWrite(k: Coding, cat: Catalog, db: Db, log: seq<Record>, tables: map<string, set<Row>>, bs: seq<LogBatch>, fault: Fault)
    requires Logged(k, cat, db, log) && Refines(cat, db, tables) && !Written(k, NextRecordOf(db, bs), fault)
    ensures Logged(k, cat, AfterCommit(k, db, bs, fault), log) && Refines(cat, AfterCommit(k, db, bs, fault), tables)
  {
    SameViewsRefine(cat, db, AfterCommit(k, db, bs, fault), tables);
  }

  lemma SameViewsRefine(cat: Catalog, db: Db, db': Db, tables: map<string, set<Row>>)
    requires Refines(cat, db, tables) && db'.base == db.base && db'.delta == db.delta
    ensures Refines(cat, db', tables)
  {
    assert forall u :: View(cat, db', u) == View(cat, db, u);
  }

  lemma WriteRefinesOk(k: Coding, cat: Catalog, db: Db, log: seq<Record>, tables: map<string, set<Row>>, s: Stmt)
    requires Logged(k, cat, db, log) && Keyed(cat) && Refines(cat, db, tables)
    requires s.table in cat && EffectOf(cat, db, s).Write? && k.fits(NextRecordOf(db, EffectOf(cat, db, s).batches))
    requires TableOk(EditedRows(View(cat, db, s.table), s, cat[s.table].pk.value), cat[s.table])
    ensures var bs := EffectOf(cat, db, s).batches;
            var edited := EditedRows(View(cat, db, s.table), s, cat[s.table].pk.value);
            Logged(k, cat, AfterCommit(k, db, bs, NoFault), log + [NextRecordOf(db, bs)]) &&
            Refines(cat, AfterCommit(k, db, bs, NoFault), tables[s.table := RowSet(edited)])
  {
    var bs := EffectOf(cat, db, s).batches;
    var db' := AfterCommit(k, db, bs, NoFault);
    var edited := EditedRows(View(cat, db, s.table), s, cat[s.table].pk.value);
    WriteShows(k, cat, db, log, s, s.table);
    forall u | u in cat
      ensures View(cat, db', u) == if u == s.table then edited else View(cat, db, u)
    {
      WriteShows(k, cat, db, log, s, u);
    }
    RefinesAfterEdit(cat, db, db', tables, s.table, edited);
  }

  /** One statement: unless the disk fails, the engine and the plain table agree on accepting it,
      on its row count and on every row afterwards; a refused or failed statement changes no
      row of any table; declared constraints hold throughout. */
  lemma StatementRefines(k: Coding, cat: Catalog, db: Db, log: seq<Record>, tables: map<string, set<Row>>, s: Stmt, fault: Fault)
    returns (log': seq<Record>)
    requires Logged(k, cat, db, log) && Keyed(cat) && db.commitTs < INS_INF && Refines(cat, db, tables)
    ensures var (db', out) := Exec(k, cat, db, s, fault);
            Logged(k, cat, db', log') && db'.commitTs <= db.commitTs + 1 &&
            (out == Rejected ==> db' == db) &&
            (if out == IoError then Refines(cat, db', tables)
             else PlainExec(cat, tables, s).1 == out && Refines(cat, db', PlainExec(cat, tables, s).0))
  {
    log' := log;
    if s.table in cat {
      StatementAgrees(k, cat, db, log, tables, s);
      if EffectOf(cat, db, s).Write? {
        log' := WriteRefines(k, cat, db, log, tables, s, fault);
      } else {
        assert tables[s.table := tables[s.table]] == tables;
      }
    }
  }

  // ---------------------------------------------------------------- runs of statements

  function ExecAll(k: Coding, cat: Catalog, db: Db, run: seq<(Stmt, Fault)>): (Db, seq<Outcome>)
    decreases |run|
  {
    if run == [] then (db, [])
    else
      var (db1, out) := Exec(k, cat, db, run[0].0, run[0].1);
      var (db2, outs) := ExecAll(k, cat, db1, run[1..]);
      (db2, [out] + outs)
  }

  /** The plain tables after a run in which the statements with an I/O error did nothing. */
  predicate PlainFollows(cat: Catalog, tables: map<string, set<Row>>, run: seq<(Stmt, Fault)>, outs: seq<Outcome>,
                         end: map<string, set<Row>>)
    requires tables.Keys == cat.Keys
    decreases |run|
  {
    if run == [] then outs == [] && end == tables
    else
      outs != [] &&
      if outs[0] == IoError then PlainFollows(cat, tables, run[1..], outs[1..], end)
      else
        PlainExec(cat, tables, run[0].0).1 == outs[0] &&
        PlainFollows(cat, PlainExec(cat, tables, run[0].0).0, run[1..], outs[1..], end)
  }

  /** Every run of autocommit statements: each outcome is the plain table's outcome, and at the
      end every table shows exactly the plain table's rows, each once, with its keys distinct. */
  lemma {:induction false} RunOfStatementsRefines(k: Coding, cat: Catalog, db: Db, log: seq<Record>,
                                                  tables: map<string, set<Row>>, run: seq<(Stmt, Fault)>)
    returns (end: map<string, set<Row>>)
    requires Logged(k, cat, db, log) && Keyed(cat) && db.commitTs + |run| <= INS_INF && Refines(cat, db, tables)
    ensures var (db', outs) := ExecAll(k, cat, db, run);
            PlainFollows(cat, tables, run, outs, end) && Refines(cat, db', end)
    decreases |run|
  {
    end := tables;
    if run != [] {
      var (db1, out) := Exec(k, cat, db, run[0].0, run[0].1);
      var outs := ExecAll(k, cat, db1, run[1..]).1;
      var log1 := StatementRefines(k, cat, db, log, tables, run[0].0, run[0].1);
      var tables1 := if out == IoError then tables else PlainExec(cat, tables, run[0].0).0;
      end := RunOfStatementsRefines(k, cat, db1, log1, tables1, run[1..]);
      assert ([out] + outs)[1..] == outs;
    }
  }

  /** As bags: a refined view shows each plain row exactly once. */
  lemma RefinedViewIsBag(cat: Catalog, db: Db, tables: map<string, set<Row>>, t: string)
    requires Keyed(cat) && Refines(cat, db, tables) && t in cat
    ensures multiset(View(cat, db, t)) == multiset(tables[t])
  {
    var rows, pk := View(cat, db, t), cat[t].pk.value;
    assert KeysDistinct(rows, pk);
    forall i, j | 0 <= i < j < |rows|
      ensures rows[i] != rows[j]
    {
      PkNotNull(rows, cat[t], rows[i]);
    }
    DistinctRowsBag(rows);
  }

  lemma {:induction false} DistinctRowsBag(rows: seq<Row>)
    requires forall i, j :: 0 <= i < j < |rows| ==> rows[i] != rows[j]
    ensures multiset(rows) == multiset(RowSet(rows))
  {
    if rows != [] {
      var rest := rows[1..];
      DistinctRowsBag(rest);
      assert rows == [rows[0]] + rest && rows[0] !in rest;
      assert RowSet(rows) == {rows[0]} + RowSet(rest);
    }
  }

  // ---------------------------------------------------------------- what the constraints promise

  /** Two rows hold the same key; NULL equals nothing. */
  predicate Clash(a: Row, b: Row, cols: seq<string>) {
    KeyOf(a, cols) == KeyOf(b, cols) && Null !in KeyOf(a, cols)
  }

  /** Some key among the new rows repeats, or meets a row of the table. */
  predicate Repeats(existing: seq<Row>, added: seq<Row>, cols: seq<string>) {
    || (exists i, j :: 0 <= i < j < |added| && Clash(added[i], added[j], cols))
    || (exists r, j :: r in existing && 0 <= j < |added| && Clash(r, added[j], cols))
  }

  lemma FreeUnlessRepeats(existing: seq<Row>, added: seq<Row>, cols: seq<string>)
    ensures KeyFree(existing, added, cols) <==> !Repeats(existing, added, cols)
  {
    if !Repeats(existing, added, cols) {
      forall i, j | 0 <= i < j < |added|
        ensures KeyOf(added[i], cols) != KeyOf(added[j], cols) || Null in KeyOf(added[i], cols)
      {
        assert !Clash(added[i], added[j], cols);
      }
      forall i, j | 0 <= i < |existing| && 0 <= j < |added|
        ensures KeyOf(existing[i], cols) != KeyOf(added[j], cols) || Null in KeyOf(existing[i], cols)
      {
        assert existing[i] in existing && !Clash(existing[i], added[j], cols);
      }
    }
    if r, j :| r in existing && 0 <= j < |added| && Clash(r, added[j], cols) {
      var i :| 0 <= i < |existing| && existing[i] == r;
      assert !NoCollision(existing, added, cols);
    }
  }

  /** An INSERT with its NOT NULL columns filled is rejected exactly when a key of the primary key or of
      a UNIQUE constraint repeats in the batch or meets a visible row. */
  lemma InsertRejectedIff(k: Coding, cat: Catalog, db: Db, t: string, rows: seq<Row>, fault: Fault)
    requires t in cat && forall r, c :: r in rows && c in cat[t].notNull ==> Cell(r, c) != Null
    ensures Exec(k, cat, db, InsertRows(t, rows), fault).1 == Rejected <==>
            || (cat[t].pk.Some? && Repeats(View(cat, db, t), rows, cat[t].pk.value))
            || (exists u :: u in cat[t].unique && Repeats(View(cat, db, t), rows, u))
  {
    var info, visible := cat[t], View(cat, db, t);
    forall u ensures KeyFree(visible, rows, u) <==> !Repeats(visible, rows, u) { FreeUnlessRepeats(visible, rows, u); }
    forall i, c | 0 <= i < |rows| && c in info.notNull ensures Cell(rows[i], c) != Null { assert rows[i] in rows; }
  }

  /** An INSERT that leaves a NOT NULL column empty is rejected. */
  lemma InsertNeedsValues(k: Coding, cat: Catalog, db: Db, t: string, rows: seq<Row>, fault: Fault, r: Row, c: string)
    requires t in cat && r in rows && c in cat[t].notNull && Cell(r, c) == Null
    ensures Exec(k, cat, db, InsertRows(t, rows), fault) == (db, Rejected)
  {
    var i :| 0 <= i < |rows| && rows[i] == r;
    assert !NotNullOk(rows, cat[t].notNull);
  }

  /** After any run of statements every table holds its primary key, each of its UNIQUE keys and its
      NOT NULL columns. */
  lemma ConstraintsAlwaysHold(k: Coding, cat: Catalog, db: Db, log: seq<Record>, tables: map<string, set<Row>>,
                              run: seq<(Stmt, Fault)>, t: string)
    requires Logged(k, cat, db, log) && Keyed(cat) && db.commitTs + |run| <= INS_INF && Refines(cat, db, tables) && t in cat
    ensures var rows := View(cat, ExecAll(k, cat, db, run).0, t);
            && KeysDistinct(rows, cat[t].pk.value)
            && (forall u :: u in cat[t].unique ==> KeysDistinct(rows, u))
            && (forall r, c :: r in rows && c in cat[t].notNull ==> Cell(r, c) != Null)
  {
    var end := RunOfStatementsRefines(k, cat, db, log, tables, run);
    var rows := View(cat, ExecAll(k, cat, db, run).0, t);
    assert TableOk(rows, cat[t]);
    forall r, c | r in rows && c in cat[t].notNull ensures Cell(r, c) != Null {
      var i :| 0 <= i < |rows| && rows[i] == r;
    }
  }
}
