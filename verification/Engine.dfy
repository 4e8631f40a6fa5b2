/**
 The engine object: fields updated in place by statements, transaction control, snapshots,
 restore and checkpoint, and the scan cache in front of the base tables.  Each method is proved
 to take the store's abstract step.
 */
module Engine {
  import opened Values
  import opened Mvcc
  import opened WalFormat
  import opened Wal
  import opened Deltas
  import opened Store
  import opened Statements
  import opened Transactions

  /** A projection request: a non-empty column set, or every column. */
  type Columns = c: Option<set<string>> | c.Some? ==> c.value != {} witness None

  function Project(rows: Frame, columns: Columns): Frame {
    if columns.None? then rows else NarrowAll(rows, columns.value)
  }

  function KeyColumns(cols: seq<string>): Columns {
    if ColumnSet(cols) == {} then None else Some(ColumnSet(cols))
  }

  function ProjectBatches(bs: seq<Batch>, columns: Columns): (out: seq<Batch>)
    ensures |out| == |bs|
    ensures forall i :: 0 <= i < |bs| ==> out[i] == Batch(bs[i].ts, Project(bs[i].rows, columns))
  {
    seq(|bs|, i requires 0 <= i < |bs| => Batch(bs[i].ts, Project(bs[i].rows, columns)))
  }

  function ProjectFrames(fs: seq<Frame>, columns: Columns): (out: seq<Frame>)
    ensures |out| == |fs|
    ensures forall i :: 0 <= i < |fs| ==> out[i] == Project(fs[i], columns)
  {
    seq(|fs|, i requires 0 <= i < |fs| => Project(fs[i], columns))
  }

  lemma ProjectConcat(a: Frame, b: Frame, columns: Columns)
    ensures Project(a + b, columns) == Project(a, columns) + Project(b, columns)
  {
    if columns.Some? { NarrowAllConcat(a, b, columns.value); }
  }

  lemma UntagConcat(a: seq<Tagged>, rows: Frame, ts: int)
    ensures Untag(a + Tag(rows, ts)) == Untag(a) + rows
  {
  }

  lemma {:induction false} ProjectSources(base: Frame, bs: seq<Batch>, columns: Columns)
    ensures Untag(Sources(Project(base, columns), ProjectBatches(bs, columns))) == Project(Untag(Sources(base, bs)), columns)
  {
    if bs == [] {
      assert Untag(Tag(base, 0)) == base;
      assert Untag(Tag(Project(base, columns), 0)) == Project(base, columns);
    } else {
      var n := |bs| - 1;
      ProjectSources(base, bs[..n], columns);
      assert ProjectBatches(bs, columns)[..n] == ProjectBatches(bs[..n], columns);
      var sources := Sources(base, bs[..n]);
      UntagConcat(sources, bs[n].rows, bs[n].ts);
      UntagConcat(Sources(Project(base, columns), ProjectBatches(bs[..n], columns)), Project(bs[n].rows, columns), bs[n].ts);
      ProjectConcat(Untag(sources), bs[n].rows, columns);
    }
  }

  /** With no tombstones, merging projected parts is projecting the merge. */
  lemma MergeThenProject(base: Frame, bs: seq<Batch>, columns: Columns, pk: Option<seq<string>>)
    requires BatchesWithin(bs, INS_INF)
    ensures Visible(Project(base, columns), ProjectBatches(bs, columns), [], pk) == Project(Visible(base, bs, [], pk), columns)
  {
    SourcesWithin(base, bs, INS_INF);
    SourcesWithin(Project(base, columns), ProjectBatches(bs, columns), INS_INF);
    NoTombsKeepAll(Sources(base, bs), [], pk);
    NoTombsKeepAll(Sources(Project(base, columns), ProjectBatches(bs, columns)), [], pk);
    ProjectSources(base, bs, columns);
  }

  /** The merge over projected parts, transaction buffer included: with live tombstones only full
      rows are merged, without them any projection commutes with the merge. */
  lemma ProjectedMerge(base: Frame, bs: seq<Batch>, buffered: seq<Frame>, tombs: seq<Tomb>, marks: seq<(Frame, bool)>,
                       columns: Columns, pk: Option<seq<string>>)
    requires BatchesWithin(bs, INS_INF)
    requires columns.Some? ==> tombs == [] && marks == []
    ensures Visible(Project(base, columns), ProjectBatches(bs, columns) + StampInserts(ProjectFrames(buffered, columns), INS_INF),
                    tombs + StampTombs(marks, INS_INF), pk) ==
            Project(Visible(base, bs + StampInserts(buffered, INS_INF), tombs + StampTombs(marks, INS_INF), pk), columns)
  {
    var all := bs + StampInserts(buffered, INS_INF);
    assert ProjectBatches(bs, columns) + StampInserts(ProjectFrames(buffered, columns), INS_INF) == ProjectBatches(all, columns);
    if columns.Some? {
      assert tombs + StampTombs(marks, INS_INF) == [];
      MergeThenProject(base, all, columns, pk);
    } else {
      assert ProjectBatches(all, columns) == all;
    }
  }

  /** Checking keys against a scan of just the key columns is checking them against the rows. */
  lemma CollisionOnKeyColumns(existing: Frame, added: Frame, cols: seq<string>)
    ensures NoCollision(Project(existing, KeyColumns(cols)), added, cols) <==> NoCollision(existing, added, cols)
  {
    if KeyColumns(cols).Some? {
      forall i | 0 <= i < |existing|
        ensures KeyOf(NarrowAll(existing, ColumnSet(cols))[i], cols) == KeyOf(existing[i], cols)
      {
        NarrowKeepsKey(existing[i], ColumnSet(cols), cols);
      }
    }
  }

  ghost predicate StampsSane(d: Delta) {
    forall t :: BatchesWithin(BatchesOf(d, t), INS_INF)
  }

  class Transaction {
    const snapshotTs: nat
    var buffer: map<string, seq<Frame>>
    var tombstones: map<string, seq<(Frame, bool)>>

    constructor (snapshotTs: nat)
      ensures Value() == Txn(snapshotTs, map[], map[])
    {
      this.snapshotTs := snapshotTs;
      buffer, tombstones := map[], map[];
    }

    function Value(): Txn
      reads this
    {
      Txn(snapshotTs, buffer, tombstones)
    }

    method BufferAppend(t: string, frame: Frame)
      modifies this`buffer
      ensures Value() == BufferInsert(old(Value()), t, frame)
    {
      if t !in buffer {
        buffer := buffer[t := []];
      }
      buffer := buffer[t := buffer[t] + [frame]];
    }

    method TombstoneAppend(t: string, frame: Frame, excludeSame: bool)
      modifies this`tombstones
      ensures Value() == BufferTomb(old(Value()), t, frame, excludeSame)
    {
      if t !in tombstones {
        tombstones := tombstones[t := []];
      }
      tombstones := tombstones[t := tombstones[t] + [(frame, excludeSame)]];
    }
  }

  class Engine {
    const cat: Catalog
    const k: Coding
    const wal: WriteAheadLog
    const delta: DeltaStore
    var base: map<string, Frame>
    var commitTs: nat
    var snapshots: map<string, nat>
    var txn: Transaction?
    var scanCache: map<(string, Columns), Frame>

    ghost var log: seq<Record>

    /** The abstract store this object stands for. */
    function Value(): Db
      reads this`base, this`commitTs, this`snapshots, wal`file, delta
    {
      Db(base, wal.file, delta.Value(), commitTs, snapshots)
    }

    /** Every cached frame is the current base, projected. */
    ghost predicate CacheCoherent()
      reads this`base, this`scanCache
    {
      forall key :: key in scanCache ==> key.0 in base && scanCache[key] == Project(base[key.0], key.1)
    }

    /** All that reading needs: coherent cache, sensible timestamps. */
    ghost predicate Readable()
      reads this`base, this`scanCache, delta
    {
      base.Keys == cat.Keys && CacheCoherent() && StampsSane(delta.Value())
    }

    ghost predicate Core()
      reads this`base, this`commitTs, this`snapshots, this`txn, this`log, wal`file, delta, txn
    {
      && wal.enabled && wal.k == k && commitTs < INS_INF
      && Logged(k, cat, Value(), log)
      && (txn != null ==> txn.snapshotTs <= commitTs)
    }

    ghost predicate Valid()
      reads this, wal`file, delta, txn
    {
      Core() && CacheCoherent()
    }

    lemma ValidIsReadable()
      requires Valid()
      ensures Readable()
    {
      forall t
        ensures BatchesWithin(BatchesOf(delta.Value(), t), INS_INF)
      {
        LogWithin(log, commitTs, t);
      }
    }

    /** What a read inside the current transaction, or outside any, shows. */
    function Current(t: string): Frame
      reads this`base, this`commitTs, this`snapshots, this`txn, wal`file, delta, txn
    {
      if txn == null then View(cat, Value(), t) else TxnView(cat, Value(), txn.Value(), t)
    }

    /** Start-up over a base and any log file: replay rebuilds the delta from its good prefix, and if
        that prefix is the log of a consistent store, the engine stands in a valid state. */
    constructor (cat: Catalog, k: Coding, base: map<string, Frame>, wal: WriteAheadLog)
      requires Progresses(k) && wal.enabled && wal.k == k
      modifies wal
      ensures txn == null && this.cat == cat && this.k == k && this.wal == wal && fresh(delta)
      ensures log == ReplayBytes(k, old(wal.file)).records
      ensures Value() == AfterRestart(k, Db(base, old(wal.file), EMPTY_DELTA, 0, map[]))
      ensures Logged(k, cat, Value(), log) && commitTs < INS_INF ==> Valid()
    {
      var records := wal.Replay();
      var store, top := ReplayDelta(records);
      this.cat, this.k, this.wal, this.base, this.log := cat, k, wal, base, records;
      delta := store;
      commitTs, snapshots, txn, scanCache := top, map[], null, map[];
    }

    // -------------------------------------------------------------- reading

    method HasTombstones(t: string) returns (has: bool)
      ensures !has ==> TombsOf(delta.Value(), t) == [] && (txn != null ==> ListOf(txn.tombstones, t) == [])
    {
      has := (t in delta.tombstones && delta.tombstones[t] != []) ||
             (txn != null && t in txn.tombstones && txn.tombstones[t] != []);
    }

    method HasPending(t: string) returns (has: bool)
      ensures !has ==> BatchesOf(delta.Value(), t) == [] && TombsOf(delta.Value(), t) == []
      ensures !has && txn != null ==> ListOf(txn.buffer, t) == [] && ListOf(txn.tombstones, t) == []
    {
      var unflushed := delta.HasUnflushed(t);
      has := unflushed ||
             (txn != null && ((t in txn.buffer && txn.buffer[t] != []) || (t in txn.tombstones && txn.tombstones[t] != [])));
    }

    /** Read a base table through the cache; a miss fills it. */
    method ScanBase(t: string, columns: Columns) returns (rows: Frame)
      requires Readable() && t in cat
      modifies this`scanCache
      ensures Readable() && rows == Project(base[t], columns)
    {
      var key := (t, columns);
      if key in scanCache {
        rows := scanCache[key];
      } else {
        rows := Project(base[t], columns);
        scanCache := scanCache[key := rows];
      }
    }

    /** Merge the visible delta onto an already projected base. */
    method Merge(projected: Frame, t: string, columns: Columns) returns (rows: Frame)
      requires Readable() && t in cat && projected == Project(base[t], columns)
      requires columns.Some? ==> TombsOf(delta.Value(), t) == [] && (txn != null ==> ListOf(txn.tombstones, t) == [])
      ensures rows == Project(Current(t), columns)
    {
      var batches, buffered, tombs, marks := ListOf(delta.batches, t), [], ListOf(delta.tombstones, t), [];
      assert BatchesWithin(BatchesOf(delta.Value(), t), INS_INF);
      if txn != null {
        UpToBatchesWithin(batches, INS_INF, txn.snapshotTs);
        batches := UpTo(batches, BatchTs, txn.snapshotTs);
        buffered := ListOf(txn.buffer, t);
        tombs := UpTo(tombs, TombTs, txn.snapshotTs);
        marks := ListOf(txn.tombstones, t);
      } else {
        assert batches + StampInserts([], INS_INF) == batches && tombs + StampTombs([], INS_INF) == tombs;
      }
      ProjectedMerge(base[t], batches, buffered, tombs, marks, columns, PkOf(cat, t));
      rows := MergeDelta(projected, ProjectBatches(batches, columns), ProjectFrames(buffered, columns), tombs, marks, PkOf(cat, t));
    }

    /** `_scan`: whatever the cache holds and whatever the delta holds, the projection of the
        merged table. */
    method Scan(t: string, columns: Columns) returns (rows: Frame)
      requires Readable() && t in cat
      modifies this`scanCache
      ensures Readable() && rows == Project(Current(t), columns)
    {
      var projected := ScanBase(t, columns);
      var pending := HasPending(t);
      if pending {
        var tombs := HasTombstones(t);
        if tombs {
          var merged := Merge(base[t], t, None);
          rows := Project(merged, columns);
        } else {
          rows := Merge(projected, t, columns);
        }
      } else {
        rows := projected;
        NothingToMerge(base[t], PkOf(cat, t));
        if txn != null {
          assert StampInserts([], INS_INF) == [] && StampTombs([], INS_INF) == [];
        }
      }
    }

    // -------------------------------------------------------------- writing

    /** The durable-commit seam: counter, log, then memory. */
    method WriteCommit(bs: seq<LogBatch>, fault: Fault) returns (ok: bool)
      requires Valid() && commitTs + 1 < INS_INF && forall i :: 0 <= i < |bs| ==> bs[i].table in cat
      modifies this`commitTs, this`log, wal, delta
      ensures ok == Written(k, NextRecordOf(old(Value()), bs), fault)
      ensures Value() == AfterCommit(k, old(Value()), bs, fault)
      ensures Valid()
    {
      ghost var before := Value();
      CommitLogged(k, cat, before, log, bs, fault);
      ok := AppendCommit(bs, fault);
      log := LogAfter(k, before, log, bs, fault);
    }

    method AppendCommit(bs: seq<LogBatch>, fault: Fault) returns (ok: bool)
      requires wal.enabled && wal.k == k
      modifies this`commitTs, wal, delta
      ensures ok == Written(k, NextRecordOf(old(Value()), bs), fault)
      ensures Value() == AfterCommit(k, old(Value()), bs, fault)
    {
      AfterCommitParts(k, Value(), bs, fault);
      commitTs := commitTs + 1;
      var r := Record(commitTs, bs);
      ok := wal.WriteCommit(r, fault);
      if ok {
        delta.AppendRecord(bs, r.ts);
      }
    }

    method Begin() returns (ok: bool)
      requires Valid()
      modifies this`txn
      ensures Valid() && ok == (old(txn) == null)
      ensures ok ==> txn != null && fresh(txn) && txn.Value() == Transactions.Begin(Value())
      ensures !ok ==> txn == old(txn)
    {
      if txn != null {
        return false;
      }
      txn := new Transaction(commitTs);
      return true;
    }

    /** COMMIT: one record for the whole buffer.  A failed write leaves the transaction open. */
    method Commit(order: seq<string>, fault: Fault) returns (ok: bool)
      requires Valid() && commitTs + 1 < INS_INF
      requires txn != null ==> Lists(order, txn.Value()) && forall t :: t in order ==> t in cat
      modifies this`commitTs, this`log, this`txn, wal, delta
      ensures Valid()
      ensures old(txn) == null ==> !ok && Value() == old(Value()) && txn == null
      ensures old(txn) != null ==>
                var bs := CommitBatches(old(txn.Value()), order);
                ok == Written(k, NextRecordOf(old(Value()), bs), fault) &&
                Value() == AfterCommit(k, old(Value()), bs, fault) &&
                txn == if ok then null else old(txn)
    {
      if txn == null {
        return false;
      }
      var bs := CommitBatches(txn.Value(), order);
      BatchTables(txn.Value(), order);
      ok := WriteCommit(bs, fault);
      if ok {
        txn := null;
      }
    }

    method Rollback() returns (ok: bool)
      requires Valid()
      modifies this`txn
      ensures Valid() && txn == null && ok == (old(txn) != null)
    {
      ok := txn != null;
      txn := null;
    }

    method Snapshot(name: string)
      requires Valid()
      modifies this`snapshots
      ensures Valid() && Value() == AfterSnapshot(old(Value()), name)
    {
      snapshots := snapshots[name := commitTs];
    }

    /** RESTORE: rewind the delta, move the counter back, cut the log, drop newer names. */
    method Restore(name: string) returns (ok: bool)
      requires Valid() && Sound(k)
      modifies this`commitTs, this`log, this`snapshots, wal, delta
      ensures Valid()
      ensures ok == (old(txn) == null && name in old(snapshots) && old(snapshots)[name] <= old(commitTs))
      ensures Value() == if ok then AfterRestore(k, old(Value()), name) else old(Value())
    {
      if name !in snapshots || txn != null || snapshots[name] > commitTs {
        return false;
      }
      ghost var before := Value();
      RestoreLogged(k, cat, before, log, name);
      var target := snapshots[name];
      log := CutLog(log, target);
      var touched := delta.Rewind(target);
      commitTs := target;
      wal.Truncate(target);
      snapshots := snapshots - LaterThan(snapshots, target);
      assert Value() == AfterRestore(k, before, name);
      return true;
    }

    /** CHECKPOINT: publish the merged tables as the new base, then drop delta and log. */
    method Checkpoint() returns (ok: bool)
      requires Valid() && Sound(k)
      modifies this, wal, delta
      ensures Valid() && txn == old(txn) && ok == (old(txn) == null)
      ensures Value() == if ok then AfterCheckpoint(k, cat, old(Value())) else old(Value())
    {
      ok := txn == null;
      if ok && PendingTables(delta.Value()) != {} {
        FlushPending();
      }
    }

    method FlushPending()
      requires Valid() && Sound(k) && txn == null && PendingTables(delta.Value()) != {}
      modifies this`base, this`scanCache, this`snapshots, this`log, wal, delta
      ensures Valid() && Value() == AfterCheckpoint(k, cat, old(Value()))
    {
      ValidIsReadable();
      CheckpointLogged(k, cat, Value(), log);
      FlushTables();
      log := [];
    }

    method FlushTables()
      requires Readable() && Progresses(k) && wal.enabled && wal.k == k && txn == null
      requires PendingTables(delta.Value()) != {} && PendingTables(delta.Value()) <= cat.Keys
      modifies this`base, this`scanCache, this`snapshots, wal, delta
      ensures CacheCoherent() && Value() == AfterCheckpoint(k, cat, old(Value()))
    {
      ghost var before := Value();
      var targets := PendingTables(delta.Value());
      var flushed := MergedTables(targets, Views(cat, before));
      FlushedBase(k, cat, before, flushed);
      SwitchBase(flushed, targets, before);
    }

    /** Publish the new base, clear the flushed tables, cut the whole log, drop older names. */
    method SwitchBase(flushed: map<string, Frame>, targets: set<string>, ghost db: Db)
      requires Progresses(k) && wal.enabled && wal.k == k && CacheCoherent()
      requires db == Value() && targets == PendingTables(db.delta) && targets != {}
      requires flushed == AfterCheckpoint(k, cat, db).base
      modifies this`base, this`scanCache, this`snapshots, wal, delta
      ensures CacheCoherent() && Value() == AfterCheckpoint(k, cat, db)
    {
      PublishBase(flushed, targets);
      delta.batches, delta.tombstones := delta.batches - targets, delta.tombstones - targets;
      wal.Truncate(0);
      snapshots := snapshots - EarlierThan(snapshots, commitTs);
    }

    /** Replace the listed base tables and drop their cached frames. */
    method PublishBase(flushed: map<string, Frame>, targets: set<string>)
      requires CacheCoherent() && flushed.Keys == base.Keys
      requires forall t :: t in base && t !in targets ==> flushed[t] == base[t]
      modifies this`base, this`scanCache
      ensures CacheCoherent() && base == flushed
    {
      base := flushed;
      scanCache := scanCache - (set key | key in scanCache && key.0 in targets);
    }

    /** A whole table as autocommit reads show it. */
    method FullScan(t: string, ghost db: Db) returns (rows: Frame)
      requires Readable() && txn == null && t in cat && db == Value()
      modifies this`scanCache
      ensures Readable() && Value() == db && rows == View(cat, db, t) == Views(cat, db)[t]
    {
      rows := Scan(t, None);
    }

    /** The base a checkpoint publishes: the listed tables merged, the others as they are. */
    method MergedTables(targets: set<string>, ghost want: map<string, Frame>) returns (flushed: map<string, Frame>)
      requires Readable() && txn == null && targets <= cat.Keys && want == Views(cat, Value())
      modifies this`scanCache
      ensures Readable()
      ensures MergedSoFar(flushed, base, want, targets)
    {
      var todo := targets;
      flushed := base;
      ghost var db := Value();
      while todo != {}
        invariant Readable() && todo <= targets && Value() == db
        invariant MergedSoFar(flushed, base, want, targets - todo)
        decreases todo
      {
        var t :| t in todo;
        var merged := FullScan(t, db);
        MergeOneMore(flushed, base, want, targets, todo, t);
        flushed := flushed[t := merged];
        todo := todo - {t};
      }
      assert targets - todo == targets;
    }

    /** The uniqueness check: one key scan per declared constraint. */
    method EnforceUnique(t: string, added: Frame, ghost current: Frame) returns (ok: bool)
      requires Readable() && t in cat && current == Current(t)
      modifies this`scanCache
      ensures Readable() && ok == UniqueOk(current, added, cat[t])
    {
      var constraints := Constraints(cat[t]);
      ok := true;
      var i := 0;
      while i < |constraints| && ok
        invariant 0 <= i <= |constraints|
        invariant Readable() && Current(t) == current
        invariant ok == FreeSoFar(current, added, constraints, i)
        decreases |constraints| - i
      {
        FreeOneMore(current, added, constraints, i);
        ok := EnforceOne(t, added, constraints[i], current);
        i := i + 1;
      }
      UniqueByList(current, added, cat[t], i);
    }

    method EnforceOne(t: string, added: Frame, cols: seq<string>, ghost current: Frame) returns (ok: bool)
      requires Readable() && t in cat && current == Current(t)
      modifies this`scanCache
      ensures Readable() && ok == KeyFree(current, added, cols)
    {
      if !KeysDistinct(added, cols) {
        return false;
      }
      var existing := Scan(t, KeyColumns(cols));
      CollisionOnKeyColumns(current, added, cols);
      return NoCollision(existing, added, cols);
    }

    /** INSERT: buffered inside a transaction, committed at once outside one. */
    method InsertInto(t: string, rows: Frame, fault: Fault) returns (out: Outcome)
      requires Valid() && commitTs + 1 < INS_INF
      modifies this`scanCache, this`commitTs, this`log, wal, delta, txn
      ensures Valid() && txn == old(txn)
      ensures txn == null ==> (Value(), out) == Exec(k, cat, old(Value()), InsertRows(t, rows), fault)
      ensures txn != null ==> Value() == old(Value()) &&
                              txn.Value() == TxnDml(cat, old(Value()), old(txn.Value()), InsertRows(t, rows)) &&
                              out == TxnOutcome(cat, old(Value()), old(txn.Value()), InsertRows(t, rows))
    {
      if txn == null {
        out := InsertAuto(t, rows, fault);
      } else {
        out := InsertBuffered(t, rows);
      }
    }

    method InsertBuffered(t: string, rows: Frame) returns (out: Outcome)
      requires Valid() && txn != null
      modifies this`scanCache, txn
      ensures Valid() && Value() == old(Value())
      ensures txn.Value() == TxnDml(cat, old(Value()), old(txn.Value()), InsertRows(t, rows))
      ensures out == TxnOutcome(cat, old(Value()), old(txn.Value()), InsertRows(t, rows))
    {
      if t !in cat {
        return Rejected;
      }
      if rows == [] {
        return Done(0);
      }
      if !NotNullOk(rows, cat[t].notNull) {
        return Rejected;
      }
      ValidIsReadable();
      var unique := EnforceUnique(t, rows, Current(t));
      if !unique {
        return Rejected;
      }
      txn.BufferAppend(t, rows);
      return Done(|rows|);
    }

    /** DELETE: buffered inside a transaction, committed at once outside one. */
    method DeleteFrom(t: string, pred: Row -> bool, fault: Fault) returns (out: Outcome)
      requires Valid() && commitTs + 1 < INS_INF
      modifies this`scanCache, this`commitTs, this`log, wal, delta, txn
      ensures Valid() && txn == old(txn)
      ensures txn == null ==> (Value(), out) == Exec(k, cat, old(Value()), DeleteWhere(t, pred), fault)
      ensures txn != null ==> Value() == old(Value()) &&
                              txn.Value() == TxnDml(cat, old(Value()), old(txn.Value()), DeleteWhere(t, pred)) &&
                              out == TxnOutcome(cat, old(Value()), old(txn.Value()), DeleteWhere(t, pred))
    {
      if txn == null {
        out := DeleteAuto(t, pred, fault);
      } else {
        out := DeleteBuffered(t, pred);
      }
    }

    method DeleteBuffered(t: string, pred: Row -> bool) returns (out: Outcome)
      requires Valid() && txn != null
      modifies this`scanCache, txn
      ensures Valid() && Value() == old(Value())
      ensures txn.Value() == TxnDml(cat, old(Value()), old(txn.Value()), DeleteWhere(t, pred))
      ensures out == TxnOutcome(cat, old(Value()), old(txn.Value()), DeleteWhere(t, pred))
    {
      if t !in cat || cat[t].pk.None? {
        return Rejected;
      }
      ValidIsReadable();
      var visible := Scan(t, None);
      var targets := Matching(visible, pred);
      if targets == [] {
        return Done(0);
      }
      txn.TombstoneAppend(t, Tombstones(targets, cat[t].pk.value), false);
      return Done(|targets|);
    }

    /** INSERT outside a transaction. */
    method InsertAuto(t: string, rows: Frame, fault: Fault) returns (out: Outcome)
      requires Valid() && txn == null && commitTs + 1 < INS_INF
      modifies this`scanCache, this`commitTs, this`log, wal, delta
      ensures Valid()
      ensures (Value(), out) == Exec(k, cat, old(Value()), InsertRows(t, rows), fault)
    {
      if t !in cat {
        return Rejected;
      }
      if rows == [] {
        return Done(0);
      }
      if !NotNullOk(rows, cat[t].notNull) {
        return Rejected;
      }
      ValidIsReadable();
      var unique := EnforceUnique(t, rows, Current(t));
      if !unique {
        return Rejected;
      }
      var ok := WriteCommit([LogBatch(t, Insert, rows)], fault);
      return if ok then Done(|rows|) else IoError;
    }

    /** DELETE outside a transaction. */
    method DeleteAuto(t: string, pred: Row -> bool, fault: Fault) returns (out: Outcome)
      requires Valid() && txn == null && commitTs + 1 < INS_INF
      modifies this`scanCache, this`commitTs, this`log, wal, delta
      ensures Valid()
      ensures (Value(), out) == Exec(k, cat, old(Value()), DeleteWhere(t, pred), fault)
    {
      if t !in cat || cat[t].pk.None? {
        return Rejected;
      }
      ValidIsReadable();
      var visible := Scan(t, None);
      var targets := Matching(visible, pred);
      if targets == [] {
        return Done(0);
      }
      var ok := WriteCommit([LogBatch(t, Tombstone, Tombstones(targets, cat[t].pk.value))], fault);
      return if ok then Done(|targets|) else IoError;
    }

    /** UPDATE: an implicit transaction carries the tombstone while uniqueness is checked, then
        tombstone and new rows commit as one record; any failure discards it. */
    method UpdateAuto(t: string, pred: Row -> bool, assign: Row -> Row, fault: Fault) returns (out: Outcome)
      requires Valid() && txn == null && commitTs + 1 < INS_INF
      modifies this, wal, delta
      ensures Valid() && txn == null
      ensures (Value(), out) == Exec(k, cat, old(Value()), UpdateWhere(t, pred, assign), fault)
    {
      if t !in cat || cat[t].pk.None? {
        return Rejected;
      }
      ValidIsReadable();
      var visible := Scan(t, None);
      var targets := Matching(visible, pred);
      if targets == [] {
        return Done(0);
      }
      var added := MapRows(targets, assign);
      if !NotNullOk(added, cat[t].notNull) {
        return Rejected;
      }
      var tomb := Tombstones(targets, cat[t].pk.value);
      out := UpdateInTxn(t, targets, added, fault);
    }

    /** The internal transaction of an autocommit UPDATE: the tombstone goes in first, so that the
        uniqueness check no longer sees the rows being replaced. */
    method OpenUpdate(t: string, tomb: Frame, added: Frame) returns (unique: bool)
      requires Valid() && txn == null && commitTs + 1 < INS_INF && t in cat
      modifies this`txn, this`scanCache
      ensures Valid() && Value() == old(Value())
      ensures txn != null && fresh(txn) && txn.Value() == BufferTomb(Transactions.Begin(Value()), t, tomb, true)
      ensures unique == UniqueOk(UpdateReads(cat, Value(), t, tomb), added, cat[t])
    {
      txn := new Transaction(commitTs);
      txn.TombstoneAppend(t, tomb, true);
      UpdateReadsInTxn(cat, Value(), t, tomb, txn.Value());
      ValidIsReadable();
      unique := EnforceUnique(t, added, Current(t));
    }

    /** Buffer the new rows, commit both halves as one record, and leave no transaction behind. */
    method CloseUpdate(t: string, tomb: Frame, added: Frame, fault: Fault) returns (ok: bool)
      requires Valid() && commitTs + 1 < INS_INF && t in cat
      requires txn != null && txn.Value() == BufferTomb(Transactions.Begin(Value()), t, tomb, true)
      modifies this`commitTs, this`log, this`txn, wal, delta, txn
      ensures Valid() && txn == null
      ensures var bs := [LogBatch(t, Insert, added), LogBatch(t, TombstoneUpdate, tomb)];
              && ok == Written(k, NextRecordOf(old(Value()), bs), fault)
              && Value() == AfterCommit(k, old(Value()), bs, fault)
    {
      txn.BufferAppend(t, added);
      OneTableCommit(Value(), txn.Value(), t, added, tomb);
      ok := Commit([t], fault);
      txn := null;
    }

    method UpdateInTxn(t: string, targets: Frame, added: Frame, fault: Fault) returns (out: Outcome)
      requires Valid() && txn == null && commitTs + 1 < INS_INF && t in cat && cat[t].pk.Some?
      modifies this, wal, delta
      ensures Valid() && txn == null
      ensures var tomb := Tombstones(targets, cat[t].pk.value);
              var bs := [LogBatch(t, Insert, added), LogBatch(t, TombstoneUpdate, tomb)];
              if UniqueOk(UpdateReads(cat, old(Value()), t, tomb), added, cat[t])
              then Value() == AfterCommit(k, old(Value()), bs, fault) &&
                   out == if Written(k, NextRecordOf(old(Value()), bs), fault) then Done(|targets|) else IoError
              else Value() == old(Value()) && out == Rejected
    {
      var tomb := Tombstones(targets, cat[t].pk.value);
      var unique := OpenUpdate(t, tomb, added);
      if !unique {
        txn := null;
        return Rejected;
      }
      var ok := CloseUpdate(t, tomb, added, fault);
      return if ok then Done(|targets|) else IoError;
    }
  }

  lemma UpdateReadsInTxn(cat: Catalog, db: Db, t: string, tomb: Frame, txn: Txn)
    requires txn == BufferTomb(Transactions.Begin(db), t, tomb, true)
    ensures TxnView(cat, db, txn, t) == UpdateReads(cat, db, t, tomb)
  {
    assert StampTombs([(tomb, true)], INS_INF) == [Tomb(INS_INF, tomb, true)];
    assert ListOf(txn.tombs, t) == [(tomb, true)];
    var bs := UpTo(BatchesOf(db.delta, t), BatchTs, db.commitTs);
    assert bs + StampInserts([], INS_INF) == bs;
  }

  lemma FlushedBase(k: Coding, cat: Catalog, db: Db, flushed: map<string, Frame>)
    requires Progresses(k) && db.base.Keys == cat.Keys && flushed.Keys == db.base.Keys && PendingTables(db.delta) != {}
    requires forall t :: t in db.base ==> flushed[t] == if t in PendingTables(db.delta) then Views(cat, db)[t] else db.base[t]
    ensures flushed == AfterCheckpoint(k, cat, db).base
  {
  }

  /** The listed tables have been replaced by what readers see, the others are untouched. */
  ghost predicate MergedSoFar(flushed: map<string, Frame>, base: map<string, Frame>, want: map<string, Frame>, done: set<string>) {
    && flushed.Keys == base.Keys <= want.Keys
    && forall t :: t in base ==> flushed[t] == if t in done then want[t] else base[t]
  }

  lemma MergeOneMore(flushed: map<string, Frame>, base: map<string, Frame>, want: map<string, Frame>, targets: set<string>,
                     todo: set<string>, t: string)
    requires MergedSoFar(flushed, base, want, targets - todo) && t in base && t in todo && todo <= targets
    ensures MergedSoFar(flushed[t := want[t]], base, want, targets - (todo - {t}))
  {
    assert targets - (todo - {t}) == (targets - todo) + {t};
  }

  /** The replay loop of start-up. */
  method ReplayDelta(records: seq<Record>) returns (store: DeltaStore, top: nat)
    ensures fresh(store) && store.Value() == ApplyLog(records) && top == MaxTs(records)
  {
    store := new DeltaStore();
    top := 0;
    for i := 0 to |records|
      invariant fresh(store) && store.Value() == ApplyLog(records[..i]) && top == MaxTs(records[..i])
    {
      store.AppendRecord(records[i].batches, records[i].ts);
      top := Max(top, records[i].ts);
      assert records[..i + 1][..i] == records[..i];
    }
    assert records[..|records|] == records;
  }

  lemma BatchTables(txn: Txn, order: seq<string>)
    ensures forall i :: 0 <= i < |CommitBatches(txn, order)| ==> CommitBatches(txn, order)[i].table in order
  {
    InsertTables(txn, order);
    TombTables(txn, order);
  }

  lemma {:induction false} InsertTables(txn: Txn, order: seq<string>)
    ensures forall i :: 0 <= i < |AllInserts(txn, order)| ==> AllInserts(txn, order)[i].table in order
  {
    if order != [] {
      InsertTables(txn, order[..|order| - 1]);
    }
  }

  lemma {:induction false} TombTables(txn: Txn, order: seq<string>)
    ensures forall i :: 0 <= i < |AllTombs(txn, order)| ==> AllTombs(txn, order)[i].table in order
  {
    if order != [] {
      TombTables(txn, order[..|order| - 1]);
    }
  }

  /** The record of an implicit UPDATE transaction: new rows first, then their tombstone. */
  lemma OneTableCommit(db: Db, txn: Txn, t: string, added: Frame, tomb: Frame)
    requires txn == BufferInsert(BufferTomb(Transactions.Begin(db), t, tomb, true), t, added)
    ensures CommitBatches(txn, [t]) == [LogBatch(t, Insert, added), LogBatch(t, TombstoneUpdate, tomb)]
    ensures Lists([t], txn)
  {
    assert [t][..0] == [];
    assert ListOf(txn.buffer, t) == [added] && ListOf(txn.tombs, t) == [(tomb, true)];
    assert AllInserts(txn, [t]) == [] + InsertBatches(t, [added]);
    assert AllTombs(txn, [t]) == [] + TombBatches(t, [(tomb, true)]);
  }
}
