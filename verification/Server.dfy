/**
 The server: each connection keeps its own transaction between requests, and the operations that
 rewrite history are refused while any transaction is open.  What an open transaction reads is
 changed by its own statements only.
 */
module Server {
  import opened Values
  import opened Mvcc
  import opened WalFormat
  import opened Wal
  import opened Deltas
  import opened Store
  import opened Statements
  import opened Transactions

  datatype Query =
    | Select
    | BeginTxn
    | CommitTxn(order: seq<string>, fault: Fault)
    | RollbackTxn
    | Dml(stmt: Stmt, fault: Fault)

  datatype Request =
    | Sql(conn: int, query: Query)
    | Connect(conn: int)
    | Disconnect(conn: int)
    | AdminSnapshot(name: string)
    | AdminRestore(name: string)
    | AdminCheckpoint

  datatype State = State(db: Db, conns: map<int, Option<Txn>>)

  /** One statement with the connection's transaction loaded; what is left in the slot goes back
      to the connection.  A COMMIT whose log write fails leaves the transaction open. */
  function RunSql(k: Coding, cat: Catalog, db: Db, txn: Option<Txn>, q: Query): (Db, Option<Txn>) {
    match q
    case Select => (db, txn)
    case BeginTxn => (db, if txn.None? then Some(Begin(db)) else txn)
    case CommitTxn(order, fault) =>
      if txn.None? then (db, txn)
      else
        var bs := CommitBatches(txn.value, order);
        (AfterCommit(k, db, bs, fault), if Written(k, NextRecordOf(db, bs), fault) then None else txn)
    case RollbackTxn => (db, None)
    case Dml(s, fault) =>
      if txn.Some? then (db, Some(TxnDml(cat, db, txn.value, s))) else (Exec(k, cat, db, s, fault).0, None)
  }

  predicate HasOpenTxn(st: State) {
    exists c :: c in st.conns && st.conns[c].Some?
  }

  ghost function Handle(k: Coding, cat: Catalog, st: State, r: Request): State
    requires Progresses(k)
  {
    match r
    case Sql(c, q) =>
      if c !in st.conns then st
      else var (db, txn) := RunSql(k, cat, st.db, st.conns[c], q); State(db, st.conns[c := txn])
    case Connect(c) => if c in st.conns then st else st.(conns := st.conns[c := None])
    case Disconnect(c) => st.(conns := st.conns - {c})
    case AdminSnapshot(name) => st.(db := AfterSnapshot(st.db, name))
    case AdminRestore(name) => if HasOpenTxn(st) then st else st.(db := AfterRestore(k, st.db, name))
    case AdminCheckpoint => if HasOpenTxn(st) then st else st.(db := AfterCheckpoint(k, cat, st.db))
  }

  predicate RequestOk(cat: Catalog, st: State, r: Request) {
    r.Sql? && r.query.CommitTxn? && r.conn in st.conns && st.conns[r.conn].Some? ==>
      Lists(r.query.order, st.conns[r.conn].value) && forall t :: t in r.query.order ==> t in cat
  }

  predicate SnapshotsPast(st: State) {
    forall c :: c in st.conns && st.conns[c].Some? ==> st.conns[c].value.snapshot <= st.db.commitTs
  }

  ghost predicate Inv(k: Coding, cat: Catalog, st: State, log: seq<Record>) {
    Logged(k, cat, st.db, log) && SnapshotsPast(st)
  }

  // ---------------------------------------------------------------- what a connection reads

  predicate Open(st: State, c: int) {
    c in st.conns && st.conns[c].Some?
  }

  /** Inside a transaction a connection reads the transaction's view, outside one what is committed. */
  function Reads(cat: Catalog, st: State, c: int, t: string): Frame {
    if Open(st, c) then TxnView(cat, st.db, st.conns[c].value, t) else View(cat, st.db, t)
  }

  /** ROLLBACK closes the transaction, and the connection reads what is committed. */
  lemma RollbackCloses(k: Coding, cat: Catalog, st: State, c: int, t: string)
    requires Progresses(k) && c in st.conns
    ensures var st' := Handle(k, cat, st, Sql(c, RollbackTxn));
            st'.db == st.db && c in st'.conns && !Open(st', c) && Reads(cat, st', c, t) == View(cat, st.db, t)
  {
  }

  /** BEGIN opens a transaction that reads what was committed when it opened; a second BEGIN changes
      nothing. */
  lemma BeginOpens(k: Coding, cat: Catalog, st: State, log: seq<Record>, c: int, t: string)
    requires Progresses(k) && Logged(k, cat, st.db, log) && c in st.conns
    ensures var st' := Handle(k, cat, st, Sql(c, BeginTxn));
            && st'.db == st.db && Open(st', c) && Reads(cat, st', c, t) == Reads(cat, st, c, t)
            && (Open(st, c) ==> st' == st) && (!Open(st, c) ==> st'.conns[c].value.snapshot == st.db.commitTs)
  {
    if Open(st, c) {
      assert st.conns[c := st.conns[c]] == st.conns;
    } else {
      RollbackShowsSnapshot(k, cat, st.db, log, Begin(st.db), t);
    }
  }

  /** COMMIT closes the transaction exactly when its record reaches the log; otherwise the transaction
      stays open and reads what it read. */
  lemma CommitCloses(k: Coding, cat: Catalog, st: State, c: int, order: seq<string>, fault: Fault, t: string)
    requires Progresses(k) && Open(st, c) && st.conns[c].value.snapshot <= st.db.commitTs
    ensures var st' := Handle(k, cat, st, Sql(c, CommitTxn(order, fault)));
            var landed := Written(k, NextRecordOf(st.db, CommitBatches(st.conns[c].value, order)), fault);
            && c in st'.conns && (Open(st', c) <==> !landed)
            && (!landed ==> Reads(cat, st', c, t) == Reads(cat, st, c, t) && View(cat, st'.db, t) == View(cat, st.db, t))
  {
    var txn := st.conns[c].value;
    CommitSameReads(k, cat, st.db, txn, CommitBatches(txn, order), fault, t);
  }

  /** A statement outside a transaction leaves none open. */
  lemma AutocommitStaysClosed(k: Coding, cat: Catalog, st: State, c: int, s: Stmt, fault: Fault)
    requires Progresses(k) && c in st.conns && !Open(st, c)
    ensures var st' := Handle(k, cat, st, Sql(c, Dml(s, fault)));
            c in st'.conns && !Open(st', c) && st'.db == Exec(k, cat, st.db, s, fault).0
  {
  }

  // ---------------------------------------------------------------- every request keeps the invariant

  lemma CommitTables(txn: Txn, order: seq<string>, cat: Catalog)
    requires forall t :: t in order ==> t in cat
    ensures forall i :: 0 <= i < |CommitBatches(txn, order)| ==> CommitBatches(txn, order)[i].table in cat
  {
    CommitTablesFrom(txn, order, cat);
  }

  lemma {:induction false} CommitTablesFrom(txn: Txn, order: seq<string>, cat: Catalog)
    requires forall t :: t in order ==> t in cat
    ensures forall i :: 0 <= i < |AllInserts(txn, order)| ==> AllInserts(txn, order)[i].table in cat
    ensures forall i :: 0 <= i < |AllTombs(txn, order)| ==> AllTombs(txn, order)[i].table in cat
  {
    if order != [] {
      CommitTablesFrom(txn, order[..|order| - 1], cat);
    }
  }

  lemma EffectTables(cat: Catalog, db: Db, s: Stmt)
    requires EffectOf(cat, db, s).Write?
    ensures forall i :: 0 <= i < |EffectOf(cat, db, s).batches| ==> EffectOf(cat, db, s).batches[i].table in cat
  {
  }

  lemma SqlLogged(k: Coding, cat: Catalog, db: Db, log: seq<Record>, txn: Option<Txn>, q: Query) returns (log': seq<Record>)
    requires Logged(k, cat, db, log)
    requires q.CommitTxn? && txn.Some? ==> forall t :: t in q.order ==> t in cat
    ensures Logged(k, cat, RunSql(k, cat, db, txn, q).0, log')
  {
    log' := log;
    match q
    case CommitTxn(order, fault) =>
      if txn.Some? {
        CommitTables(txn.value, order, cat);
        CommitLogged(k, cat, db, log, CommitBatches(txn.value, order), fault);
        log' := LogAfter(k, db, log, CommitBatches(txn.value, order), fault);
      }
    case Dml(s, fault) =>
      if txn.None? && EffectOf(cat, db, s).Write? {
        EffectTables(cat, db, s);
        CommitLogged(k, cat, db, log, EffectOf(cat, db, s).batches, fault);
        log' := LogAfter(k, db, log, EffectOf(cat, db, s).batches, fault);
      }
    case _ =>
  }

  /** A statement never moves the counter back, and a transaction it leaves open is in the past. */
  lemma SqlCounter(k: Coding, cat: Catalog, db: Db, txn: Option<Txn>, q: Query)
    requires txn.Some? ==> txn.value.snapshot <= db.commitTs
    ensures var (db', txn') := RunSql(k, cat, db, txn, q);
            db.commitTs <= db'.commitTs && (txn'.Some? ==> txn'.value.snapshot <= db'.commitTs)
  {
  }

  lemma AdminLogged(k: Coding, cat: Catalog, db: Db, log: seq<Record>, r: Request) returns (log': seq<Record>)
    requires Sound(k) && Logged(k, cat, db, log)
    ensures r.AdminRestore? ==> Logged(k, cat, AfterRestore(k, db, r.name), log')
    ensures r.AdminCheckpoint? ==> Logged(k, cat, AfterCheckpoint(k, cat, db), log')
    ensures !r.AdminRestore? && !r.AdminCheckpoint? ==> log' == log
  {
    log' := log;
    if r.AdminRestore? && r.name in db.snapshots && db.snapshots[r.name] <= db.commitTs {
      RestoreLogged(k, cat, db, log, r.name);
      log' := CutLog(log, db.snapshots[r.name]);
    } else if r.AdminCheckpoint? && PendingTables(db.delta) != {} {
      CheckpointLogged(k, cat, db, log);
      log' := [];
    }
  }

  lemma HandleKeepsInv(k: Coding, cat: Catalog, st: State, log: seq<Record>, r: Request) returns (log': seq<Record>)
    requires Sound(k) && Inv(k, cat, st, log) && RequestOk(cat, st, r)
    ensures Inv(k, cat, Handle(k, cat, st, r), log')
  {
    log' := log;
    if r.Sql? {
      if r.conn in st.conns {
        log' := SqlLogged(k, cat, st.db, log, st.conns[r.conn], r.query);
        SqlCounter(k, cat, st.db, st.conns[r.conn], r.query);
      }
    } else if !HasOpenTxn(st) {
      log' := AdminLogged(k, cat, st.db, log, r);
    }
  }

  // ---------------------------------------------------------------- disconnects and admin requests

  /** Connecting adds a connection without a transaction; one that is there stays as it is. */
  lemma ConnectAdds(k: Coding, cat: Catalog, st: State, c: int, d: int)
    requires Progresses(k)
    ensures var st' := Handle(k, cat, st, Connect(c));
            && st'.db == st.db && c in st'.conns && (c !in st.conns ==> !Open(st', c))
            && (d in st.conns ==> d in st'.conns && st'.conns[d] == st.conns[d])
  {
  }

  /** A disconnect drops the connection and its transaction, and touches nothing else. */
  lemma DisconnectDrops(k: Coding, cat: Catalog, st: State, c: int, d: int)
    requires Progresses(k)
    ensures var st' := Handle(k, cat, st, Disconnect(c));
            && st'.db == st.db && c !in st'.conns
            && (d != c ==> (d in st'.conns <==> d in st.conns) && (d in st.conns ==> st'.conns[d] == st.conns[d]))
  {
  }

  ghost predicate SomeoneOpen(st: State) {
    exists d :: Open(st, d)
  }

  lemma GuardMeans(st: State)
    ensures HasOpenTxn(st) <==> SomeoneOpen(st)
  {
    if HasOpenTxn(st) {
      var d :| d in st.conns && st.conns[d].Some?;
      assert Open(st, d);
    }
    if SomeoneOpen(st) {
      var d :| Open(st, d);
      assert d in st.conns && st.conns[d].Some?;
    }
  }

  /** A restore is refused while anyone has a transaction open; otherwise every connection reads the
      restored tables. */
  lemma RestoreForAll(k: Coding, cat: Catalog, st: State, name: string, c: int, t: string)
    requires Progresses(k)
    ensures var st' := Handle(k, cat, st, AdminRestore(name));
            if SomeoneOpen(st) then st' == st
            else st'.conns == st.conns && Reads(cat, st', c, t) == View(cat, AfterRestore(k, st.db, name), t)
  {
    GuardMeans(st);
  }

  /** And those are the tables as they were when the name was taken. */
  lemma RestoredTable(k: Coding, cat: Catalog, db: Db, log: seq<Record>, p: Plain, name: string, t: string)
    requires Sound(k) && Sim(k, cat, db, log, p) && name in db.snapshots && t in cat
    ensures name in p.saved && t in p.saved[name] && View(cat, AfterRestore(k, db, name), t) == p.saved[name][t]
  {
    RestoreShows(k, cat, db, log, p, name);
    assert Views(cat, AfterRestore(k, db, name))[t] == View(cat, AfterRestore(k, db, name), t);
  }

  /** A checkpoint is refused while anyone has a transaction open; otherwise it is carried out. */
  lemma CheckpointForAll(k: Coding, cat: Catalog, st: State, c: int, t: string)
    requires Progresses(k)
    ensures var st' := Handle(k, cat, st, AdminCheckpoint);
            if SomeoneOpen(st) then st' == st
            else st'.conns == st.conns && Reads(cat, st', c, t) == View(cat, AfterCheckpoint(k, cat, st.db), t)
  {
    GuardMeans(st);
  }

  /** Then every connection reads what it read, and nothing is left in the delta. */
  lemma CheckpointedTable(k: Coding, cat: Catalog, db: Db, log: seq<Record>, p: Plain, t: string)
    requires Sound(k) && Sim(k, cat, db, log, p) && t in cat
    ensures View(cat, AfterCheckpoint(k, cat, db), t) == View(cat, db, t)
    ensures PendingTables(AfterCheckpoint(k, cat, db).delta) == {}
  {
    if PendingTables(db.delta) != {} {
      CheckpointLogged(k, cat, db, log);
      CheckpointView(cat, db, AfterCheckpoint(k, cat, db), t);
    }
  }

  // ---------------------------------------------------------------- isolation

  /** Requests that belong to connection `c`. */
  predicate From(r: Request, c: int) {
    (r.Sql? || r.Connect? || r.Disconnect?) && r.conn == c
  }

  /** The part of the store a transaction at `snapshot` reads. */
  ghost predicate SameSnapshot(db: Db, db': Db, snapshot: int) {
    db'.base == db.base &&
    forall t :: UpTo(BatchesOf(db'.delta, t), BatchTs, snapshot) == UpTo(BatchesOf(db.delta, t), BatchTs, snapshot) &&
                UpTo(TombsOf(db'.delta, t), TombTs, snapshot) == UpTo(TombsOf(db.delta, t), TombTs, snapshot)
  }

  lemma CommitKeepsSnapshot(k: Coding, db: Db, bs: seq<LogBatch>, fault: Fault, snapshot: int)
    requires snapshot <= db.commitTs
    ensures SameSnapshot(db, AfterCommit(k, db, bs, fault), snapshot)
  {
    if Written(k, NextRecordOf(db, bs), fault) {
      forall t
        ensures UpTo(BatchesOf(ApplyAll(db.delta, bs, db.commitTs + 1), t), BatchTs, snapshot) == UpTo(BatchesOf(db.delta, t), BatchTs, snapshot)
        ensures UpTo(TombsOf(ApplyAll(db.delta, bs, db.commitTs + 1), t), TombTs, snapshot) == UpTo(TombsOf(db.delta, t), TombTs, snapshot)
      {
        UpToAfterCommit(db.delta, bs, db.commitTs + 1, t, snapshot);
      }
    }
  }

  lemma SqlKeepsSnapshot(k: Coding, cat: Catalog, db: Db, txn: Option<Txn>, q: Query, snapshot: int)
    requires snapshot <= db.commitTs
    ensures SameSnapshot(db, RunSql(k, cat, db, txn, q).0, snapshot)
  {
    match q
    case CommitTxn(order, fault) =>
      if txn.Some? {
        CommitKeepsSnapshot(k, db, CommitBatches(txn.value, order), fault, snapshot);
      }
    case Dml(s, fault) =>
      if txn.None? && EffectOf(cat, db, s).Write? {
        CommitKeepsSnapshot(k, db, EffectOf(cat, db, s).batches, fault, snapshot);
      }
    case _ =>
  }

  /** A request from anyone else leaves an open transaction in place and its reads unchanged. */
  lemma OthersCannotDisturb(k: Coding, cat: Catalog, st: State, log: seq<Record>, r: Request, c: int)
    requires Sound(k) && Inv(k, cat, st, log) && c in st.conns && st.conns[c].Some? && !From(r, c)
    ensures var st' := Handle(k, cat, st, r);
            c in st'.conns && st'.conns[c] == st.conns[c] &&
            SameSnapshot(st.db, st'.db, st.conns[c].value.snapshot)
  {
    assert HasOpenTxn(st);
    match r
    case Sql(d, q) =>
      if d in st.conns {
        SqlKeepsSnapshot(k, cat, st.db, st.conns[d], q, st.conns[c].value.snapshot);
      }
    case _ =>
  }

  ghost function HandleAll(k: Coding, cat: Catalog, st: State, rs: seq<Request>): State
    requires Progresses(k)
    decreases |rs|
  {
    if rs == [] then st else HandleAll(k, cat, Handle(k, cat, st, rs[0]), rs[1..])
  }

  ghost predicate AllOk(k: Coding, cat: Catalog, st: State, rs: seq<Request>)
    requires Progresses(k)
    decreases |rs|
  {
    rs == [] || (RequestOk(cat, st, rs[0]) && AllOk(k, cat, Handle(k, cat, st, rs[0]), rs[1..]))
  }

  lemma {:induction false} ReachableInv(k: Coding, cat: Catalog, st: State, log: seq<Record>, rs: seq<Request>) returns (log': seq<Record>)
    requires Sound(k) && Inv(k, cat, st, log) && AllOk(k, cat, st, rs)
    ensures Inv(k, cat, HandleAll(k, cat, st, rs), log')
    decreases |rs|
  {
    log' := log;
    if rs != [] {
      log' := HandleKeepsInv(k, cat, st, log, rs[0]);
      log' := ReachableInv(k, cat, Handle(k, cat, st, rs[0]), log', rs[1..]);
    }
  }

  lemma {:induction false} Undisturbed(k: Coding, cat: Catalog, st: State, log: seq<Record>, rs: seq<Request>, c: int)
    requires Sound(k) && Inv(k, cat, st, log) && AllOk(k, cat, st, rs) && c in st.conns && st.conns[c].Some?
    requires forall i :: 0 <= i < |rs| ==> !From(rs[i], c)
    ensures var st' := HandleAll(k, cat, st, rs);
            c in st'.conns && st'.conns[c] == st.conns[c] && SameSnapshot(st.db, st'.db, st.conns[c].value.snapshot)
    decreases |rs|
  {
    if rs != [] {
      var st1 := Handle(k, cat, st, rs[0]);
      OthersCannotDisturb(k, cat, st, log, rs[0], c);
      var log1 := HandleKeepsInv(k, cat, st, log, rs[0]);
      Undisturbed(k, cat, st1, log1, rs[1..], c);
    }
  }

  lemma SameSnapshotSameReads(cat: Catalog, db: Db, db': Db, txn: Txn, t: string)
    requires SameSnapshot(db, db', txn.snapshot)
    ensures TxnView(cat, db', txn, t) == TxnView(cat, db, txn, t)
  {
  }

  /** Snapshot isolation over whole interleavings: from any state reached by any requests, any
      further requests that are not the connection's own -- other sessions' statements, commits,
      rollbacks and disconnects, snapshots, and guarded restores and checkpoints -- leave every
      table the open transaction reads exactly as it was. */
  lemma OpenTransactionIsIsolated(k: Coding, cat: Catalog, base: map<string, Frame>, before: seq<Request>, rs: seq<Request>, c: int, t: string)
    requires Sound(k) && base.Keys == cat.Keys
    requires AllOk(k, cat, State(Fresh(base), map[]), before)
    requires var st := HandleAll(k, cat, State(Fresh(base), map[]), before);
             AllOk(k, cat, st, rs) && c in st.conns && st.conns[c].Some?
    requires forall i :: 0 <= i < |rs| ==> !From(rs[i], c)
    ensures var st := HandleAll(k, cat, State(Fresh(base), map[]), before);
            var st' := HandleAll(k, cat, st, rs);
            c in st'.conns && st'.conns[c] == st.conns[c] &&
            TxnView(cat, st'.db, st.conns[c].value, t) == TxnView(cat, st.db, st.conns[c].value, t)
  {
    FreshSim(k, cat, base);
    var st := HandleAll(k, cat, State(Fresh(base), map[]), before);
    var log := ReachableInv(k, cat, State(Fresh(base), map[]), [], before);
    Undisturbed(k, cat, st, log, rs, c);
    SameSnapshotSameReads(cat, st.db, HandleAll(k, cat, st, rs).db, st.conns[c].value, t);
  }

  // ---------------------------------------------------------------- rolling back

  /** Everyone's requests but one connection's. */
  function Others(rs: seq<Request>, c: int): seq<Request> {
    if rs == [] then [] else (if From(rs[0], c) then [] else [rs[0]]) + Others(rs[1..], c)
  }

  /** The connection is the one reason a restore or checkpoint is refused. */
  ghost predicate OnlyOpen(st: State, c: int) {
    Open(st, c) && forall d :: d != c ==> !Open(st, d)
  }

  /** Along the run the connection comes and goes, opens, reads, writes inside its transaction and
      rolls back; nobody asks for a restore or a checkpoint while its transaction alone is open. */
  ghost predicate NeverCommits(k: Coding, cat: Catalog, st: State, rs: seq<Request>, c: int)
    requires Progresses(k)
    decreases |rs|
  {
    rs == [] ||
    (&& (rs[0].AdminRestore? || rs[0].AdminCheckpoint? ==> !OnlyOpen(st, c))
     && (rs[0].Sql? && rs[0].conn == c && c in st.conns ==>
           && (rs[0].query.CommitTxn? ==> !Open(st, c))
           && (rs[0].query.Dml? ==> Open(st, c)))
     && NeverCommits(k, cat, Handle(k, cat, st, rs[0]), rs[1..], c))
  }

  predicate SameButFor(st: State, st': State, c: int) {
    st'.db == st.db && st'.conns - {c} == st.conns - {c}
  }

  /** Leaving one connection out changes the verdict on restores and checkpoints exactly when its
      transaction alone is open. */
  lemma GuardAgreesIff(st: State, st': State, c: int)
    requires SameButFor(st, st', c) && !Open(st', c)
    ensures HasOpenTxn(st) == HasOpenTxn(st') <==> !OnlyOpen(st, c)
  {
    forall d | d != c ensures Open(st, d) <==> Open(st', d) {
      assert d in st.conns <==> d in st.conns - {c};
      assert d in st'.conns <==> d in st'.conns - {c};
      if d in st.conns { assert st.conns[d] == (st.conns - {c})[d] == (st'.conns - {c})[d]; }
    }
    GuardMeans(st);
    GuardMeans(st');
  }

  lemma OthersSeeNothing(k: Coding, cat: Catalog, st: State, st': State, r: Request, c: int)
    requires Progresses(k) && SameButFor(st, st', c) && !Open(st', c) && !From(r, c)
    requires r.AdminRestore? || r.AdminCheckpoint? ==> !OnlyOpen(st, c)
    ensures SameButFor(Handle(k, cat, st, r), Handle(k, cat, st', r), c) && !Open(Handle(k, cat, st', r), c)
  {
    OthersOpenNothing(k, cat, st', r, c);
    GuardAgreesIff(st, st', c);
    if r.Sql? || r.Connect? || r.Disconnect? { OthersAgree(k, cat, st, st', r, c); }
  }

  lemma OthersAgree(k: Coding, cat: Catalog, st: State, st': State, r: Request, c: int)
    requires Progresses(k) && SameButFor(st, st', c) && !From(r, c) && (r.Sql? || r.Connect? || r.Disconnect?)
    ensures SameButFor(Handle(k, cat, st, r), Handle(k, cat, st', r), c)
  {
    assert r.conn in st.conns <==> r.conn in st.conns - {c};
    assert r.conn in st'.conns <==> r.conn in st'.conns - {c};
    if r.conn in st.conns { assert st.conns[r.conn] == (st.conns - {c})[r.conn] == (st'.conns - {c})[r.conn]; }
    SlotsAgree(st.conns, st'.conns, r.conn, c, None);
    if r.Sql? && r.conn in st.conns {
      SlotsAgree(st.conns, st'.conns, r.conn, c, RunSql(k, cat, st.db, st.conns[r.conn], r.query).1);
    }
  }

  lemma SlotsAgree(a: map<int, Option<Txn>>, b: map<int, Option<Txn>>, d: int, c: int, x: Option<Txn>)
    requires a - {c} == b - {c} && d != c
    ensures a[d := x] - {c} == b[d := x] - {c}
    ensures (a - {d}) - {c} == (b - {d}) - {c}
  {
    assert a[d := x] - {c} == (a - {c})[d := x];
    assert b[d := x] - {c} == (b - {c})[d := x];
    assert (a - {d}) - {c} == (a - {c}) - {d};
    assert (b - {d}) - {c} == (b - {c}) - {d};
  }

  /** BEGIN, any statements, ROLLBACK: until it commits, a transaction is invisible.  In any
      interleaving the store and every other connection end as if its requests had not been made. */
  lemma {:induction false} UncommittedIsInvisible(k: Coding, cat: Catalog, st: State, st': State, rs: seq<Request>, c: int)
    requires Progresses(k) && SameButFor(st, st', c) && !Open(st', c) && NeverCommits(k, cat, st, rs, c)
    ensures SameButFor(HandleAll(k, cat, st, rs), HandleAll(k, cat, st', Others(rs, c)), c)
    decreases |rs|
  {
    if rs != [] {
      var r, rest := rs[0], Others(rs[1..], c);
      var next := Handle(k, cat, st, r);
      if From(r, c) {
        assert next.conns - {c} == st.conns - {c};
        UncommittedIsInvisible(k, cat, next, st', rs[1..], c);
        assert [] + rest == rest;
      } else {
        OthersSeeNothing(k, cat, st, st', r, c);
        UncommittedIsInvisible(k, cat, next, Handle(k, cat, st', r), rs[1..], c);
        HandleCons(k, cat, st', r, rest);
      }
    }
  }

  lemma HandleCons(k: Coding, cat: Catalog, st: State, r: Request, rest: seq<Request>)
    requires Progresses(k)
    ensures HandleAll(k, cat, st, [r] + rest) == HandleAll(k, cat, Handle(k, cat, st, r), rest)
    ensures AllOk(k, cat, st, [r] + rest) <==> RequestOk(cat, st, r) && AllOk(k, cat, Handle(k, cat, st, r), rest)
  {
    assert ([r] + rest)[1..] == rest;
  }

  // ---------------------------------------------------------------- keys inside a transaction

  /** If the connection has a transaction open, its view satisfies the constraint. */
  predicate OwnKeysOk(cat: Catalog, st: State, c: int, t: string, cols: seq<string>)
    requires t in cat && Declared(cat[t], cols)
  {
    c in st.conns && st.conns[c].Some? ==> KeysDistinct(TxnView(cat, st.db, st.conns[c].value, t), cols)
  }

  /** A transaction opens on what is committed. */
  lemma BeginReadsCommitted(k: Coding, cat: Catalog, db: Db, log: seq<Record>, t: string)
    requires Logged(k, cat, db, log)
    ensures TxnView(cat, db, Begin(db), t) == View(cat, db, t)
  {
    RollbackShowsSnapshot(k, cat, db, log, Begin(db), t);
  }

  /** The connection's own statement: whatever transaction it leaves open still has its keys apart. */
  lemma SqlKeepsOwnKeys(k: Coding, cat: Catalog, db: Db, log: seq<Record>, txn: Txn, q: Query, t: string, cols: seq<string>)
    requires Logged(k, cat, db, log) && db.commitTs < INS_INF && txn.snapshot <= db.commitTs
    requires t in cat && cat[t].pk.Some? && Declared(cat[t], cols)
    requires KeysDistinct(TxnView(cat, db, txn, t), cols)
    ensures var (db', txn') := RunSql(k, cat, db, Some(txn), q);
            txn'.Some? ==> KeysDistinct(TxnView(cat, db', txn'.value, t), cols)
  {
    if q.Dml? {
      TxnDmlKeepsKeys(k, cat, db, log, txn, q.stmt, t, cols);
    } else if q.CommitTxn? {
      CommitSameReads(k, cat, db, txn, CommitBatches(txn, q.order), q.fault, t);
    }
  }

  lemma CommitSameReads(k: Coding, cat: Catalog, db: Db, txn: Txn, bs: seq<LogBatch>, fault: Fault, t: string)
    requires txn.snapshot <= db.commitTs
    ensures TxnView(cat, AfterCommit(k, db, bs, fault), txn, t) == TxnView(cat, db, txn, t)
  {
    CommitKeepsSnapshot(k, db, bs, fault, txn.snapshot);
    SameSnapshotSameReads(cat, db, AfterCommit(k, db, bs, fault), txn, t);
  }

  /** What the connection itself asks for. */
  lemma OwnSqlCase(k: Coding, cat: Catalog, st: State, log: seq<Record>, q: Query, c: int, t: string, cols: seq<string>)
    requires Sound(k) && Inv(k, cat, st, log) && st.db.commitTs < INS_INF && c in st.conns
    requires t in cat && cat[t].pk.Some? && Declared(cat[t], cols) && OwnKeysOk(cat, st, c, t, cols)
    requires q.BeginTxn? ==> KeysDistinct(View(cat, st.db, t), cols)
    ensures OwnKeysOk(cat, Handle(k, cat, st, Sql(c, q)), c, t, cols)
  {
    var (db, txn) := RunSql(k, cat, st.db, st.conns[c], q);
    assert Handle(k, cat, st, Sql(c, q)) == State(db, st.conns[c := txn]);
    if st.conns[c].Some? {
      SqlKeepsOwnKeys(k, cat, st.db, log, st.conns[c].value, q, t, cols);
    } else if q.BeginTxn? {
      BeginReadsCommitted(k, cat, st.db, log, t);
    }
  }

  lemma HandleKeepsOwnKeys(k: Coding, cat: Catalog, st: State, log: seq<Record>, r: Request, c: int, t: string, cols: seq<string>)
    requires Sound(k) && Inv(k, cat, st, log) && st.db.commitTs < INS_INF
    requires t in cat && cat[t].pk.Some? && Declared(cat[t], cols)
    requires OwnKeysOk(cat, st, c, t, cols)
    requires r == Sql(c, BeginTxn) ==> KeysDistinct(View(cat, st.db, t), cols)
    ensures OwnKeysOk(cat, Handle(k, cat, st, r), c, t, cols)
  {
    if r.Sql? && r.conn == c {
      if c in st.conns { OwnSqlCase(k, cat, st, log, r.query, c, t, cols); }
    } else if From(r, c) {
      OwnLinkCase(k, cat, st, r, c, t, cols);
    } else if c in st.conns && st.conns[c].Some? {
      OthersKeepOwnView(k, cat, st, log, r, c, t);
    } else {
      OthersOpenNothing(k, cat, st, r, c);
    }
  }

  lemma OwnLinkCase(k: Coding, cat: Catalog, st: State, r: Request, c: int, t: string, cols: seq<string>)
    requires Progresses(k) && t in cat && Declared(cat[t], cols) && OwnKeysOk(cat, st, c, t, cols)
    requires r == Connect(c) || r == Disconnect(c)
    ensures OwnKeysOk(cat, Handle(k, cat, st, r), c, t, cols)
  {
  }

  lemma OthersOpenNothing(k: Coding, cat: Catalog, st: State, r: Request, c: int)
    requires Progresses(k) && !From(r, c) && !Open(st, c)
    ensures !Open(Handle(k, cat, st, r), c)
  {
  }

  lemma OthersKeepOwnView(k: Coding, cat: Catalog, st: State, log: seq<Record>, r: Request, c: int, t: string)
    requires Sound(k) && Inv(k, cat, st, log) && c in st.conns && st.conns[c].Some? && !From(r, c)
    ensures var st' := Handle(k, cat, st, r);
            && c in st'.conns && st'.conns[c] == st.conns[c]
            && TxnView(cat, st'.db, st.conns[c].value, t) == TxnView(cat, st.db, st.conns[c].value, t)
  {
    OthersCannotDisturb(k, cat, st, log, r, c);
    SameSnapshotSameReads(cat, st.db, Handle(k, cat, st, r).db, st.conns[c].value, t);
  }

  /** Timestamps stay below the sentinel, and the table satisfies the constraint whenever the
      connection opens a transaction. */
  ghost predicate OpensInOrder(k: Coding, cat: Catalog, st: State, rs: seq<Request>, c: int, t: string, cols: seq<string>)
    requires Progresses(k) && t in cat && Declared(cat[t], cols)
    decreases |rs|
  {
    rs == [] ||
    (&& st.db.commitTs < INS_INF
     && (rs[0] == Sql(c, BeginTxn) ==> KeysDistinct(View(cat, st.db, t), cols))
     && OpensInOrder(k, cat, Handle(k, cat, st, rs[0]), rs[1..], c, t, cols))
  }

  /** In any interleaving the checks a transaction's own statements pass keep its view within every
      declared constraint, whatever other sessions commit meanwhile. */
  lemma {:induction false} OwnViewKeepsKeys(k: Coding, cat: Catalog, st: State, log: seq<Record>, rs: seq<Request>, c: int, t: string, cols: seq<string>)
    requires Sound(k) && Inv(k, cat, st, log) && AllOk(k, cat, st, rs)
    requires t in cat && cat[t].pk.Some? && Declared(cat[t], cols)
    requires OwnKeysOk(cat, st, c, t, cols) && OpensInOrder(k, cat, st, rs, c, t, cols)
    ensures OwnKeysOk(cat, HandleAll(k, cat, st, rs), c, t, cols)
    decreases |rs|
  {
    if rs != [] {
      HandleKeepsOwnKeys(k, cat, st, log, rs[0], c, t, cols);
      var log' := HandleKeepsInv(k, cat, st, log, rs[0]);
      OwnViewKeepsKeys(k, cat, Handle(k, cat, st, rs[0]), log', rs[1..], c, t, cols);
    }
  }

  // ---------------------------------------------------------------- two sessions, one key

  const INSERT_ONE := Dml(InsertRows("t", [EXAMPLE_ROW]), NoFault)

  const COMMIT_ONE := CommitTxn(["t"], NoFault)

  /** Two connections open a transaction each, insert the same key, and commit. */
  const RACE: seq<Request> :=
    [Connect(1)] + ([Connect(2)] + ([Sql(1, BeginTxn)] + ([Sql(2, BeginTxn)] + ([Sql(1, INSERT_ONE)] + ([Sql(2, INSERT_ONE)] +
    ([Sql(1, COMMIT_ONE)] + ([Sql(2, COMMIT_ONE)] + [])))))))

  const BATCH: seq<LogBatch> := [LogBatch("t", Insert, [EXAMPLE_ROW])]

  const BUFFERED := Txn(0, map["t" := [[EXAMPLE_ROW]]], map[])

  const EMPTY_TABLE: map<string, Frame> := map["t" := []]

  lemma InsertAccepted(k: Coding)
    requires Sound(k)
    ensures TxnDml(EXAMPLE_CAT, Fresh(EMPTY_TABLE), Begin(Fresh(EMPTY_TABLE)), InsertRows("t", [EXAMPLE_ROW])) == BUFFERED
  {
    var db := Fresh(EMPTY_TABLE);
    ExampleRow();
    EmptyLogged(k, db);
    BeginReadsCommitted(k, EXAMPLE_CAT, db, [], "t");
    assert ListOf(Begin(db).buffer, "t") + [[EXAMPLE_ROW]] == [[EXAMPLE_ROW]];
  }

  lemma BufferedBatches()
    ensures CommitBatches(BUFFERED, ["t"]) == BATCH && Lists(["t"], BUFFERED)
  {
    assert ["t"][..0] == [] && ["t"][0] == "t";
    assert ListOf(BUFFERED.buffer, "t") == [[EXAMPLE_ROW]] && ListOf(BUFFERED.tombs, "t") == [];
    assert AllInserts(BUFFERED, ["t"]) == [] + InsertBatches("t", [[EXAMPLE_ROW]]);
    assert AllTombs(BUFFERED, ["t"]) == [] + TombBatches("t", []);
  }

  /** The rows after one of the two commits. */
  lemma CommitAppends(k: Coding, db: Db, log: seq<Record>)
    requires Sound(k) && Logged(k, EXAMPLE_CAT, db, log) && k.fits(NextRecordOf(db, BATCH))
    ensures View(EXAMPLE_CAT, AfterCommit(k, db, BATCH, NoFault), "t") == View(EXAMPLE_CAT, db, "t") + [EXAMPLE_ROW]
    ensures Logged(k, EXAMPLE_CAT, AfterCommit(k, db, BATCH, NoFault), log + [NextRecordOf(db, BATCH)])
  {
    CommitLogged(k, EXAMPLE_CAT, db, log, BATCH, NoFault);
    BatchParts();
    InsertOnly(k, EXAMPLE_CAT, db, log, BATCH, "t", [EXAMPLE_ROW], ["id"]);
  }

  /** A commit of inserts only appends their rows. */
  lemma InsertOnly(k: Coding, cat: Catalog, db: Db, log: seq<Record>, bs: seq<LogBatch>, t: string, rows: Frame, pk: seq<string>)
    requires Logged(k, cat, db, log) && Written(k, NextRecordOf(db, bs), NoFault) && PkOf(cat, t) == Some(pk)
    requires FrameRows(StampInserts(InsertsFor(bs, t), 0)) == rows && StampTombs(TombsFor(bs, t), 0) == []
    ensures View(cat, AfterCommit(k, db, bs, NoFault), t) == View(cat, db, t) + rows
  {
    CommitViews(k, cat, db, log, bs, t);
    LandedView(k, cat, db, bs, NoFault, t);
    DropNoKeys(View(cat, db, t), pk);
    DropNoKeys(rows, pk);
  }

  lemma BatchParts()
    ensures FrameRows(StampInserts(InsertsFor(BATCH, "t"), 0)) == [EXAMPLE_ROW] && StampTombs(TombsFor(BATCH, "t"), 0) == []
  {
    assert BATCH[..0] == [] && BATCH[0].table == "t";
    assert InsertsFor(BATCH, "t") == [] + [[EXAMPLE_ROW]] && TombsFor(BATCH, "t") == [] + [];
    var stamped := StampInserts([[EXAMPLE_ROW]], 0);
    assert stamped == [Batch(0, [EXAMPLE_ROW])] && stamped[..0] == [];
    assert FrameRows(stamped) == [] + [EXAMPLE_ROW];
  }

  lemma RaceOpens(k: Coding, tail: seq<Request>)
    requires Sound(k)
    ensures var start := State(Fresh(EMPTY_TABLE), map[]);
            var open := State(Fresh(EMPTY_TABLE), map[1 := Some(BUFFERED), 2 := Some(BUFFERED)]);
            var rs := [Connect(1)] + ([Connect(2)] + ([Sql(1, BeginTxn)] + ([Sql(2, BeginTxn)] +
                      ([Sql(1, INSERT_ONE)] + ([Sql(2, INSERT_ONE)] + tail)))));
            && HandleAll(k, EXAMPLE_CAT, start, rs) == HandleAll(k, EXAMPLE_CAT, open, tail)
            && (AllOk(k, EXAMPLE_CAT, start, rs) <==> AllOk(k, EXAMPLE_CAT, open, tail))
  {
    var db, cat := Fresh(EMPTY_TABLE), EXAMPLE_CAT;
    var r6 := [Sql(2, INSERT_ONE)] + tail;
    var r5 := [Sql(1, INSERT_ONE)] + r6;
    var r4 := [Sql(2, BeginTxn)] + r5;
    var r3 := [Sql(1, BeginTxn)] + r4;
    var r2 := [Connect(2)] + r3;
    var fresh0, begun := map[1 := None, 2 := None], map[1 := Some(Begin(db)), 2 := Some(Begin(db))];
    InsertAccepted(k);
    HandleCons(k, cat, State(db, map[]), Connect(1), r2);
    HandleCons(k, cat, State(db, map[1 := None]), Connect(2), r3);
    HandleCons(k, cat, State(db, fresh0), Sql(1, BeginTxn), r4);
    HandleCons(k, cat, State(db, map[1 := Some(Begin(db)), 2 := None]), Sql(2, BeginTxn), r5);
    HandleCons(k, cat, State(db, begun), Sql(1, INSERT_ONE), r6);
    HandleCons(k, cat, State(db, map[1 := Some(BUFFERED), 2 := Some(Begin(db))]), Sql(2, INSERT_ONE), tail);
    RaceStates(k, db);
  }

  /** The six states on the way. */
  lemma RaceStates(k: Coding, db: Db)
    requires Sound(k) && db == Fresh(EMPTY_TABLE)
    requires TxnDml(EXAMPLE_CAT, db, Begin(db), InsertRows("t", [EXAMPLE_ROW])) == BUFFERED
    ensures Handle(k, EXAMPLE_CAT, State(db, map[]), Connect(1)) == State(db, map[1 := None])
    ensures Handle(k, EXAMPLE_CAT, State(db, map[1 := None]), Connect(2)) == State(db, map[1 := None, 2 := None])
    ensures Handle(k, EXAMPLE_CAT, State(db, map[1 := None, 2 := None]), Sql(1, BeginTxn)) ==
            State(db, map[1 := Some(Begin(db)), 2 := None])
    ensures Handle(k, EXAMPLE_CAT, State(db, map[1 := Some(Begin(db)), 2 := None]), Sql(2, BeginTxn)) ==
            State(db, map[1 := Some(Begin(db)), 2 := Some(Begin(db))])
    ensures Handle(k, EXAMPLE_CAT, State(db, map[1 := Some(Begin(db)), 2 := Some(Begin(db))]), Sql(1, INSERT_ONE)) ==
            State(db, map[1 := Some(BUFFERED), 2 := Some(Begin(db))])
    ensures Handle(k, EXAMPLE_CAT, State(db, map[1 := Some(BUFFERED), 2 := Some(Begin(db))]), Sql(2, INSERT_ONE)) ==
            State(db, map[1 := Some(BUFFERED), 2 := Some(BUFFERED)])
  {
  }

  /** From an empty table, every request of the race is in order, both inserts are accepted, both
      commits succeed, and the table then holds the key twice. */
  lemma RacingSessionsDuplicate(k: Coding)
    requires Sound(k) && k.fits(Record(1, BATCH)) && k.fits(Record(2, BATCH))
    ensures var start := State(Fresh(EMPTY_TABLE), map[]);
            var end := HandleAll(k, EXAMPLE_CAT, start, RACE);
            && AllOk(k, EXAMPLE_CAT, start, RACE) && end.conns == map[1 := None, 2 := None]
            && View(EXAMPLE_CAT, end.db, "t") == [EXAMPLE_ROW, EXAMPLE_ROW]
            && !KeysDistinct(View(EXAMPLE_CAT, end.db, "t"), ["id"])
  {
    var db := Fresh(EMPTY_TABLE);
    var db1 := AfterCommit(k, db, BATCH, NoFault);
    var db2 := AfterCommit(k, db1, BATCH, NoFault);
    RaceCloses(k, db, db1, db2);
    RowTwice(k, db, db1, db2);
    TwiceIsNotDistinct();
  }

  lemma TwiceIsNotDistinct()
    ensures !KeysDistinct([EXAMPLE_ROW, EXAMPLE_ROW], ["id"])
  {
    ExampleRow();
    var both := [EXAMPLE_ROW, EXAMPLE_ROW];
    assert both[0] == both[1] == EXAMPLE_ROW && Null !in [Int(1)];
  }

  lemma RaceCloses(k: Coding, db: Db, db1: Db, db2: Db)
    requires Sound(k) && db == Fresh(EMPTY_TABLE) && k.fits(Record(1, BATCH)) && k.fits(Record(2, BATCH))
    requires db1 == AfterCommit(k, db, BATCH, NoFault) && db2 == AfterCommit(k, db1, BATCH, NoFault)
    ensures AllOk(k, EXAMPLE_CAT, State(db, map[]), RACE)
    ensures HandleAll(k, EXAMPLE_CAT, State(db, map[]), RACE) == State(db2, map[1 := None, 2 := None])
  {
    var cat := EXAMPLE_CAT;
    var none: seq<Request> := [];
    var last := [Sql(2, COMMIT_ONE)] + none;
    RaceOpens(k, [Sql(1, COMMIT_ONE)] + last);
    BufferedBatches();
    HandleCons(k, cat, State(db, map[1 := Some(BUFFERED), 2 := Some(BUFFERED)]), Sql(1, COMMIT_ONE), last);
    HandleCons(k, cat, State(db1, map[1 := None, 2 := Some(BUFFERED)]), Sql(2, COMMIT_ONE), none);
    RaceCommits(k, db, db1, db2);
  }

  lemma RowTwice(k: Coding, db: Db, db1: Db, db2: Db)
    requires Sound(k) && db == Fresh(EMPTY_TABLE) && k.fits(Record(1, BATCH)) && k.fits(Record(2, BATCH))
    requires db1 == AfterCommit(k, db, BATCH, NoFault) && db2 == AfterCommit(k, db1, BATCH, NoFault)
    ensures View(EXAMPLE_CAT, db2, "t") == [EXAMPLE_ROW, EXAMPLE_ROW]
  {
    BufferedBatches();
    RaceCommits(k, db, db1, db2);
    EmptyLogged(k, db);
    CommitAppends(k, db, []);
    CommitAppends(k, db1, [] + [NextRecordOf(db, BATCH)]);
  }

  lemma EmptyLogged(k: Coding, db: Db)
    requires db == Fresh(EMPTY_TABLE)
    ensures Logged(k, EXAMPLE_CAT, db, []) && View(EXAMPLE_CAT, db, "t") == []
  {
    FreshSim(k, EXAMPLE_CAT, EMPTY_TABLE);
    NothingToMerge([], Some(["id"]));
  }

  lemma RaceCommits(k: Coding, db: Db, db1: Db, db2: Db)
    requires Sound(k) && db == Fresh(EMPTY_TABLE) && k.fits(Record(1, BATCH)) && k.fits(Record(2, BATCH))
    requires db1 == AfterCommit(k, db, BATCH, NoFault) && db2 == AfterCommit(k, db1, BATCH, NoFault)
    requires CommitBatches(BUFFERED, ["t"]) == BATCH
    ensures NextRecordOf(db, BATCH) == Record(1, BATCH) && NextRecordOf(db1, BATCH) == Record(2, BATCH)
    ensures Handle(k, EXAMPLE_CAT, State(db, map[1 := Some(BUFFERED), 2 := Some(BUFFERED)]), Sql(1, COMMIT_ONE)) ==
            State(db1, map[1 := None, 2 := Some(BUFFERED)])
    ensures Handle(k, EXAMPLE_CAT, State(db1, map[1 := None, 2 := Some(BUFFERED)]), Sql(2, COMMIT_ONE)) ==
            State(db2, map[1 := None, 2 := None])
  {
  }
}
