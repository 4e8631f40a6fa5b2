/**
 INSERT, DELETE and UPDATE told by rows: which rows are in view afterwards, in order, and what the
 statement reports, inside a transaction and outside one.
 */
module StatementRows {
  import opened Values
  import opened Mvcc
  import opened WalFormat
  import opened Wal
  import opened Deltas
  import opened Store
  import opened Statements
  import opened Transactions

  /** The rows a predicate does not hold of, in order. */
  function Rest(rows: Frame, pred: Row -> bool): Frame {
    if rows == [] then [] else (if pred(rows[0]) then [] else [rows[0]]) + Rest(rows[1..], pred)
  }

  lemma {:induction false} DropIsRest(rows: Frame, ks: set<Key>, pk: seq<string>, pred: Row -> bool)
    requires forall r :: r in rows ==> (KeyOf(r, pk) in ks <==> pred(r))
    ensures DropKeys(rows, ks, pk) == Rest(rows, pred)
  {
    if rows != [] {
      assert rows[0] in rows;
      DropIsRest(rows[1..], ks, pk, pred);
    }
  }

  lemma {:induction false} RestOfNone(rows: Frame, pred: Row -> bool)
    requires Matching(rows, pred) == []
    ensures Rest(rows, pred) == rows
  {
    if rows != [] {
      RestOfNone(rows[1..], pred);
    }
  }

  /** A statement inside a transaction leaves every other table as the transaction saw it. */
  lemma OtherTablesStay(cat: Catalog, db: Db, txn: Txn, s: Stmt, u: string)
    requires u != s.table
    ensures TxnView(cat, db, TxnDml(cat, db, txn, s), u) == TxnView(cat, db, txn, u)
  {
  }

  /** DELETE leaves exactly the rows its condition does not hold of, in order, in the view of the
      transaction, and reports how many went. */
  lemma DeleteInTxn(k: Coding, cat: Catalog, db: Db, log: seq<Record>, txn: Txn, t: string, pred: Row -> bool)
    requires Logged(k, cat, db, log) && Keyed(cat) && db.commitTs < INS_INF && txn.snapshot <= db.commitTs
    requires t in cat && TableOk(TxnView(cat, db, txn, t), cat[t])
    ensures var visible, s := TxnView(cat, db, txn, t), DeleteWhere(t, pred);
            var after := TxnView(cat, db, TxnDml(cat, db, txn, s), t);
            && after == Rest(visible, pred)
            && TxnOutcome(cat, db, txn, s) == Done(|Matching(visible, pred)|)
            && |Matching(visible, pred)| + |after| == |visible|
  {
    var info, visible := cat[t], TxnView(cat, db, txn, t);
    var pk, targets := info.pk.value, Matching(visible, pred);
    SplitSizes(visible, pred);
    if targets == [] {
      RestOfNone(visible, pred);
    } else {
      var tomb := Tombstones(targets, pk);
      LogWithin(log, db.commitTs, t);
      UpToBatchesWithin(BatchesOf(db.delta, t), db.commitTs, txn.snapshot);
      TxnDelete(cat, db, txn, t, tomb);
      MatchedKeys(visible, info, pred);
      DropIsRest(visible, KeySet(tomb, pk), pk, pred);
    }
  }

  lemma {:induction false} SplitSizes(rows: Frame, pred: Row -> bool)
    ensures |Matching(rows, pred)| + |Rest(rows, pred)| == |rows|
  {
    if rows != [] { SplitSizes(rows[1..], pred); }
  }

  /** Why an INSERT is turned away: a NOT NULL column is empty, or a key of the primary key or of a
      UNIQUE constraint repeats in the batch or meets a row in view. */
  predicate TurnedAway(info: TableInfo, visible: Frame, rows: Frame) {
    || (exists r, c :: r in rows && c in info.notNull && Cell(r, c) == Null)
    || (info.pk.Some? && Repeats(visible, rows, info.pk.value))
    || (exists u :: u in info.unique && Repeats(visible, rows, u))
  }

  lemma ChecksTurnAway(info: TableInfo, visible: Frame, rows: Frame)
    ensures TurnedAway(info, visible, rows) <==> !NotNullOk(rows, info.notNull) || !UniqueOk(visible, rows, info)
  {
    forall u ensures KeyFree(visible, rows, u) <==> !Repeats(visible, rows, u) { FreeUnlessRepeats(visible, rows, u); }
    if !NotNullOk(rows, info.notNull) {
      var i, c :| 0 <= i < |rows| && c in info.notNull && Cell(rows[i], c) == Null;
      assert rows[i] in rows;
    }
    if r, c :| r in rows && c in info.notNull && Cell(r, c) == Null {
      var i :| 0 <= i < |rows| && rows[i] == r;
      assert !NotNullOk(rows, info.notNull);
    }
  }

  /** INSERT adds its rows after those in view, except the ones whose key the transaction has deleted,
      and reports them all; one that is turned away adds none. */
  lemma InsertInTxn(k: Coding, cat: Catalog, db: Db, log: seq<Record>, txn: Txn, t: string, rows: Frame)
    requires Logged(k, cat, db, log) && Keyed(cat) && db.commitTs < INS_INF && txn.snapshot <= db.commitTs && t in cat
    ensures var visible, s, pk := TxnView(cat, db, txn, t), InsertRows(t, rows), cat[t].pk.value;
            var after := TxnView(cat, db, TxnDml(cat, db, txn, s), t);
            if TurnedAway(cat[t], visible, rows) then after == visible && TxnOutcome(cat, db, txn, s) == Rejected
            else after == visible + DropKeys(rows, DeletedKeys(txn, t, pk), pk) && TxnOutcome(cat, db, txn, s) == Done(|rows|)
  {
    InsertBuffers(cat, db, txn, t, rows);
    if rows != [] { TxnInsert(k, cat, db, log, txn, t, rows); }
  }

  lemma InsertBuffers(cat: Catalog, db: Db, txn: Txn, t: string, rows: Frame)
    requires t in cat
    ensures var s, away := InsertRows(t, rows), TurnedAway(cat[t], TxnView(cat, db, txn, t), rows);
            && TxnDml(cat, db, txn, s) == (if rows == [] || away then txn else BufferInsert(txn, t, rows))
            && TxnOutcome(cat, db, txn, s) == (if away then Rejected else Done(|rows|))
  {
    ChecksTurnAway(cat[t], TxnView(cat, db, txn, t), rows);
    if rows == [] { NothingTurnedAway(cat[t], TxnView(cat, db, txn, t)); }
  }

  lemma NothingTurnedAway(info: TableInfo, visible: Frame)
    ensures !TurnedAway(info, visible, [])
  {
  }

  /** A key counts as deleted by the transaction exactly when one of its DELETEs buffered it. */
  lemma {:induction false} DeletedMeans(marks: seq<(Frame, bool)>, pk: seq<string>, key: Key)
    ensures key in TombKeys(StampTombs(marks, INS_INF), pk, true) <==>
            exists i :: 0 <= i < |marks| && !marks[i].1 && key in KeySet(marks[i].0, pk)
  {
    if marks != [] {
      var n := |marks| - 1;
      DeletedMeans(marks[..n], pk, key);
      assert StampTombs(marks, INS_INF)[..n] == StampTombs(marks[..n], INS_INF);
      assert forall i :: 0 <= i < n ==> marks[..n][i] == marks[i];
    }
  }

  /** UPDATE is refused inside a transaction. */
  lemma UpdateInTxn(cat: Catalog, db: Db, txn: Txn, t: string, pred: Row -> bool, assign: Row -> Row)
    ensures var s := UpdateWhere(t, pred, assign); TxnDml(cat, db, txn, s) == txn && TxnOutcome(cat, db, txn, s) == Rejected
  {
  }

  // ---------------------------------------------------------------- outside a transaction

  /** What a statement should leave in its table. */
  function Edited(visible: Frame, s: Stmt): Frame {
    match s
    case InsertRows(_, rows) => visible + rows
    case DeleteWhere(_, pred) => Rest(visible, pred)
    case UpdateWhere(_, pred, assign) => Rest(visible, pred) + MapRows(Matching(visible, pred), assign)
  }

  lemma EditedInOrder(info: TableInfo, visible: Frame, s: Stmt)
    requires info.pk.Some? && ColumnSet(info.pk.value) <= info.notNull && TableOk(visible, info)
    ensures EditedRows(visible, s, info.pk.value) == Edited(visible, s)
  {
    if !s.InsertRows? {
      MatchedKeys(visible, info, s.pred);
      DropIsRest(visible, KeySet(Tombstones(Matching(visible, s.pred), info.pk.value), info.pk.value), info.pk.value, s.pred);
    }
  }

  lemma NothingEdited(cat: Catalog, db: Db, s: Stmt)
    requires s.table in cat && EffectOf(cat, db, s).Nothing?
    ensures Edited(View(cat, db, s.table), s) == View(cat, db, s.table)
  {
    if !s.InsertRows? { RestOfNone(View(cat, db, s.table), s.pred); }
  }

  /** An accepted statement that reaches the log leaves its own table edited in order and every other
      table as it was. */
  lemma AutocommitRows(k: Coding, cat: Catalog, db: Db, log: seq<Record>, s: Stmt, u: string)
    requires Logged(k, cat, db, log) && Keyed(cat) && s.table in cat && u in cat && TableOk(View(cat, db, s.table), cat[s.table])
    requires var e := EffectOf(cat, db, s); e.Write? ==> k.fits(NextRecordOf(db, e.batches))
    ensures var (db', out) := Exec(k, cat, db, s, NoFault);
            && out != IoError
            && (out != Rejected ==> View(cat, db', u) == if u == s.table then Edited(View(cat, db, u), s) else View(cat, db, u))
  {
    var e := EffectOf(cat, db, s);
    if e.Nothing? { NothingEdited(cat, db, s); }
    if e.Write? {
      WriteShows(k, cat, db, log, s, u);
      EditedInOrder(cat[s.table], View(cat, db, s.table), s);
    }
  }

  /** Without a primary key a table takes no DELETE and no UPDATE, inside a transaction or outside one. */
  lemma KeylessRefuses(k: Coding, cat: Catalog, db: Db, txn: Txn, s: Stmt, fault: Fault)
    requires s.table in cat && cat[s.table].pk.None? && !s.InsertRows?
    ensures Exec(k, cat, db, s, fault) == (db, Rejected)
    ensures TxnDml(cat, db, txn, s) == txn && TxnOutcome(cat, db, txn, s) == Rejected
  {
  }

  /** A statement on a table that does not exist is rejected and changes nothing. */
  lemma UnknownTableRefused(k: Coding, cat: Catalog, db: Db, txn: Txn, s: Stmt, fault: Fault)
    requires s.table !in cat
    ensures Exec(k, cat, db, s, fault) == (db, Rejected)
    ensures TxnDml(cat, db, txn, s) == txn && TxnOutcome(cat, db, txn, s) == Rejected
  {
  }
}
