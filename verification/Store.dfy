/**
 The durable store as a state machine: commits, write failures, named snapshots and restores,
 checkpoints, restarts, and crashes that cut the last log write at any byte.  Every run refines
 a plain database that edits its tables directly and remembers named copies of them.
 */
module Store {
  import opened Values
  import opened Mvcc
  import opened WalFormat
  import opened Wal
  import opened Deltas

  datatype TableInfo = TableInfo(pk: Option<seq<string>>, unique: seq<seq<string>>, notNull: set<string>)

  type Catalog = map<string, TableInfo>

  /** Disk (`base`, `file`) and memory (`delta`, `commitTs`, `snapshots`). */
  datatype Db = Db(base: map<string, Frame>, file: Bytes, delta: Delta, commitTs: nat, snapshots: map<string, nat>)

  function PkOf(cat: Catalog, t: string): Option<seq<string>> {
    if t in cat then cat[t].pk else None
  }

  function BaseOf(db: Db, t: string): Frame {
    if t in db.base then db.base[t] else []
  }

  /** What an autocommit read of `t` shows. */
  function View(cat: Catalog, db: Db, t: string): Frame {
    Visible(BaseOf(db, t), BatchesOf(db.delta, t), TombsOf(db.delta, t), PkOf(cat, t))
  }

  /** What a read at snapshot timestamp `ts` shows. */
  function ViewAt(cat: Catalog, db: Db, t: string, ts: int): Frame {
    Visible(BaseOf(db, t), UpTo(BatchesOf(db.delta, t), BatchTs, ts), UpTo(TombsOf(db.delta, t), TombTs, ts), PkOf(cat, t))
  }

  // ---------------------------------------------------------------- steps

  datatype Step =
    | Commit(batches: seq<LogBatch>, fault: Fault)
    | TakeSnapshot(name: string)
    | Restore(name: string)
    | Checkpoint
    | Restart
    | CrashInCommit(batches: seq<LogBatch>, cut: nat)

  function NextRecordOf(db: Db, bs: seq<LogBatch>): Record {
    Record(db.commitTs + 1, bs)
  }

  /** Does the log write of a commit succeed?  An empty commit writes nothing. */
  predicate Written(k: Coding, r: Record, fault: Fault) {
    r.batches == [] || (k.fits(r) && fault == NoFault)
  }

  /** The counter moves before the log write, so a failed write burns a timestamp. */
  function AfterCommit(k: Coding, db: Db, bs: seq<LogBatch>, fault: Fault): Db {
    var r := NextRecordOf(db, bs);
    if Written(k, r, fault) then
      db.(commitTs := r.ts, file := if bs == [] then db.file else db.file + k.enc(r), delta := ApplyAll(db.delta, bs, r.ts))
    else db.(commitTs := r.ts)
  }

  function AfterSnapshot(db: Db, name: string): Db {
    db.(snapshots := db.snapshots[name := db.commitTs])
  }

  /** Named snapshots on either side of a timestamp. */
  function LaterThan(snapshots: map<string, int>, ts: int): set<string> {
    set n | n in snapshots && snapshots[n] > ts
  }

  function EarlierThan(snapshots: map<string, int>, ts: int): set<string> {
    set n | n in snapshots && snapshots[n] < ts
  }

  ghost function AfterRestore(k: Coding, db: Db, name: string): Db
    requires Progresses(k)
  {
    if name !in db.snapshots || db.snapshots[name] > db.commitTs then db
    else
      var target := db.snapshots[name];
      Db(db.base, db.file[..KeepUntil(k, db.file, target)], RewindTo(db.delta, target), target,
         db.snapshots - LaterThan(db.snapshots, target))
  }

  predicate Pending(d: Delta, t: string) {
    BatchesOf(d, t) != [] || TombsOf(d, t) != []
  }

  function PendingTables(d: Delta): set<string> {
    set t | t in d.batches.Keys + d.tombs.Keys && Pending(d, t)
  }

  /** The base a checkpoint publishes: pending tables merged, the others as they are. */
  function Flushed(cat: Catalog, db: Db): map<string, Frame> {
    map t | t in db.base :: FlushedTable(cat, db, t)
  }

  function FlushedTable(cat: Catalog, db: Db, t: string): Frame {
    if t !in db.base then [] else if t in PendingTables(db.delta) then View(cat, db, t) else db.base[t]
  }

  ghost function AfterCheckpoint(k: Coding, cat: Catalog, db: Db): Db
    requires Progresses(k)
  {
    var targets := PendingTables(db.delta);
    if targets == {} then db
    else
      Db(Flushed(cat, db),
         db.file[..KeepUntil(k, db.file, 0)],
         Delta(db.delta.batches - targets, db.delta.tombs - targets),
         db.commitTs,
         db.snapshots - EarlierThan(db.snapshots, db.commitTs))
  }

  function MaxTs(log: seq<Record>): nat {
    if log == [] then 0 else Max(MaxTs(log[..|log| - 1]), log[|log| - 1].ts)
  }

  /** Start-up: replay the log, cut its torn tail, resume the counter at the last record. */
  ghost function AfterRestart(k: Coding, db: Db): Db
    requires Progresses(k)
  {
    var r := ReplayBytes(k, db.file);
    Db(db.base, db.file[..r.good], ApplyLog(r.records), MaxTs(r.records), map[])
  }

  /** The process dies while `cut` bytes of a commit's record have reached the file, then restarts. */
  ghost function AfterCrash(k: Coding, db: Db, bs: seq<LogBatch>, cut: nat): Db
    requires Progresses(k)
  {
    var r := NextRecordOf(db, bs);
    if bs == [] || !k.fits(r) then AfterRestart(k, db)
    else AfterRestart(k, db.(file := db.file + (if cut <= |k.enc(r)| then k.enc(r)[..cut] else k.enc(r))))
  }

  ghost function Next(k: Coding, cat: Catalog, db: Db, s: Step): Db
    requires Progresses(k)
  {
    match s
    case Commit(bs, fault) => AfterCommit(k, db, bs, fault)
    case TakeSnapshot(name) => AfterSnapshot(db, name)
    case Restore(name) => AfterRestore(k, db, name)
    case Checkpoint => AfterCheckpoint(k, cat, db)
    case Restart => AfterRestart(k, db)
    case CrashInCommit(bs, cut) => AfterCrash(k, db, bs, cut)
  }

  // ---------------------------------------------------------------- the plain database

  datatype Plain = Plain(tables: map<string, Frame>, saved: map<string, map<string, Frame>>)

  function PlainTables(cat: Catalog, tables: map<string, Frame>, bs: seq<LogBatch>): map<string, Frame> {
    map t | t in tables :: PlainTable(cat, tables, bs, t)
  }

  function PlainTable(cat: Catalog, tables: map<string, Frame>, bs: seq<LogBatch>, t: string): Frame {
    if t !in tables then []
    else PlainCommit(tables[t], FrameRows(StampInserts(InsertsFor(bs, t), 0)), StampTombs(TombsFor(bs, t), 0), PkOf(cat, t))
  }

  /** Did the step take effect: the write succeeded, the snapshot is still known, the crash came
      after the last byte? */
  predicate Landed(k: Coding, db: Db, s: Step) {
    match s
    case Commit(bs, fault) => Written(k, NextRecordOf(db, bs), fault)
    case Restore(name) => name in db.snapshots
    case CrashInCommit(bs, cut) => bs != [] && k.fits(NextRecordOf(db, bs)) && cut >= |k.enc(NextRecordOf(db, bs))|
    case _ => true
  }

  function PlainNext(cat: Catalog, p: Plain, s: Step, landed: bool): Plain {
    match s
    case Commit(bs, _) => if landed then p.(tables := PlainTables(cat, p.tables, bs)) else p
    case TakeSnapshot(name) => p.(saved := p.saved[name := p.tables])
    case Restore(name) => if landed && name in p.saved then p.(tables := p.saved[name]) else p
    case Checkpoint => p
    case Restart => p.(saved := map[])
    case CrashInCommit(bs, _) => Plain(if landed then PlainTables(cat, p.tables, bs) else p.tables, map[])
  }

  // ---------------------------------------------------------------- the invariant

  /** Whole records with strictly increasing timestamps up to `hi`. */
  predicate GoodLog(k: Coding, log: seq<Record>, hi: int) {
    AllFit(k, log) && Increasing(log) && StampedWithin(log, hi)
  }

  predicate TablesWithin(d: Delta, tables: set<string>) {
    d.batches.Keys <= tables && d.tombs.Keys <= tables
  }

  /** File, delta and counter all tell the same story: an increasing log of whole records. */
  predicate Logged(k: Coding, cat: Catalog, db: Db, log: seq<Record>) {
    && db.base.Keys == cat.Keys
    && db.file == LogBytes(k, log) && db.delta == ApplyLog(log)
    && GoodLog(k, log, db.commitTs) && TablesWithin(db.delta, cat.Keys)
  }

  /** All tables as autocommit reads, or reads at a snapshot, show them. */
  function Views(cat: Catalog, db: Db): map<string, Frame> {
    map t | t in cat :: if t in cat then View(cat, db, t) else []
  }

  function ViewsAt(cat: Catalog, db: Db, ts: int): map<string, Frame> {
    map t | t in cat :: if t in cat then ViewAt(cat, db, t, ts) else []
  }

  predicate Remembers(cat: Catalog, db: Db, saved: map<string, map<string, Frame>>) {
    forall n :: n in db.snapshots ==>
      db.snapshots[n] <= db.commitTs && n in saved && saved[n] == ViewsAt(cat, db, db.snapshots[n])
  }

  predicate Sim(k: Coding, cat: Catalog, db: Db, log: seq<Record>, p: Plain) {
    Logged(k, cat, db, log) && p.tables == Views(cat, db) && Remembers(cat, db, p.saved)
  }

  predicate StepOk(cat: Catalog, s: Step) {
    (s.Commit? || s.CrashInCommit?) ==> forall i :: 0 <= i < |s.batches| ==> s.batches[i].table in cat
  }

  // ---------------------------------------------------------------- commits

  lemma {:induction false} StampIndependent(frames: seq<Frame>, tombs: seq<(Frame, bool)>, a: int, b: int,
                                            pk: seq<string>, deletesOnly: bool)
    ensures FrameRows(StampInserts(frames, a)) == FrameRows(StampInserts(frames, b))
    ensures TombKeys(StampTombs(tombs, a), pk, deletesOnly) == TombKeys(StampTombs(tombs, b), pk, deletesOnly)
    decreases |frames| + |tombs|
  {
    if frames != [] {
      var n := |frames| - 1;
      StampIndependent(frames[..n], [], a, b, pk, deletesOnly);
      assert forall s :: StampInserts(frames, s)[..n] == StampInserts(frames[..n], s);
    }
    if tombs != [] {
      var n := |tombs| - 1;
      StampIndependent([], tombs[..n], a, b, pk, deletesOnly);
      assert forall s :: StampTombs(tombs, s)[..n] == StampTombs(tombs[..n], s);
    }
  }

  /** Reads after a commit are the plain edit of reads before it; reads at older snapshots are
      what they were. */
  lemma CommitViews(k: Coding, cat: Catalog, db: Db, log: seq<Record>, bs: seq<LogBatch>, t: string)
    requires Logged(k, cat, db, log)
    ensures var ts := db.commitTs + 1;
            var db' := db.(delta := ApplyAll(db.delta, bs, ts));
            View(cat, db', t) ==
              PlainCommit(View(cat, db, t), FrameRows(StampInserts(InsertsFor(bs, t), 0)),
                          StampTombs(TombsFor(bs, t), 0), PkOf(cat, t)) &&
            forall s :: s <= db.commitTs ==> ViewAt(cat, db', t, s) == ViewAt(cat, db, t, s)
  {
    var ts := db.commitTs + 1;
    var pk := PkOf(cat, t);
    var newB, newT := StampInserts(InsertsFor(bs, t), ts), StampTombs(TombsFor(bs, t), ts);
    ApplyAllPerTable(db.delta, bs, ts, t);
    LogWithin(log, db.commitTs, t);
    CommitIsPlainEdit(BaseOf(db, t), BatchesOf(db.delta, t), TombsOf(db.delta, t), newB, newT, ts, pk);
    if pk.Some? {
      StampIndependent(InsertsFor(bs, t), TombsFor(bs, t), ts, 0, pk.value, false);
      StampIndependent(InsertsFor(bs, t), TombsFor(bs, t), ts, 0, pk.value, true);
    } else {
      StampIndependent(InsertsFor(bs, t), [], ts, 0, [], true);
    }
    forall s | s <= db.commitTs
      ensures ViewAt(cat, db.(delta := ApplyAll(db.delta, bs, ts)), t, s) == ViewAt(cat, db, t, s)
    {
      UpToAfterCommit(db.delta, bs, ts, t, s);
    }
  }

  lemma CommitAllViews(k: Coding, cat: Catalog, db: Db, log: seq<Record>, bs: seq<LogBatch>, db': Db)
    requires Logged(k, cat, db, log)
    requires db'.base == db.base && db'.delta == ApplyAll(db.delta, bs, db.commitTs + 1)
    ensures Views(cat, db') == PlainTables(cat, Views(cat, db), bs)
    ensures forall s :: s <= db.commitTs ==> ViewsAt(cat, db', s) == ViewsAt(cat, db, s)
  {
    var now := db.(delta := ApplyAll(db.delta, bs, db.commitTs + 1));
    SameDeltaSameViews(cat, now, db');
    forall t | t in cat ensures Views(cat, now)[t] == PlainTable(cat, Views(cat, db), bs, t) {
      CommitViews(k, cat, db, log, bs, t);
    }
    forall s | s <= db.commitTs ensures ViewsAt(cat, now, s) == ViewsAt(cat, db, s) {
      CommitKeepsPast(k, cat, db, log, bs, s);
    }
  }

  lemma CommitKeepsPast(k: Coding, cat: Catalog, db: Db, log: seq<Record>, bs: seq<LogBatch>, s: int)
    requires Logged(k, cat, db, log) && s <= db.commitTs
    ensures ViewsAt(cat, db.(delta := ApplyAll(db.delta, bs, db.commitTs + 1)), s) == ViewsAt(cat, db, s)
  {
    forall t | t in cat
      ensures ViewAt(cat, db.(delta := ApplyAll(db.delta, bs, db.commitTs + 1)), t, s) == ViewAt(cat, db, t, s)
    {
      CommitViews(k, cat, db, log, bs, t);
    }
  }

  lemma SameDeltaSameViews(cat: Catalog, db: Db, db': Db)
    requires db'.base == db.base && db'.delta == db.delta
    ensures Views(cat, db') == Views(cat, db)
    ensures forall s :: ViewsAt(cat, db', s) == ViewsAt(cat, db, s)
  {
    assert forall t :: View(cat, db', t) == View(cat, db, t);
    assert forall t, s :: ViewAt(cat, db', t, s) == ViewAt(cat, db, t, s);
  }

  lemma GoodLogSnoc(k: Coding, log: seq<Record>, r: Record, hi: int)
    requires GoodLog(k, log, hi) && k.fits(r) && r.ts == hi + 1 && 0 <= hi
    ensures GoodLog(k, log + [r], hi + 1) && ApplyLog(log + [r]) == ApplyAll(ApplyLog(log), r.batches, r.ts)
  {
    assert (log + [r])[..|log|] == log;
  }

  lemma LogGrows(k: Coding, cat: Catalog, db: Db, log: seq<Record>, bs: seq<LogBatch>)
    requires Logged(k, cat, db, log) && k.fits(NextRecordOf(db, bs))
    requires forall i :: 0 <= i < |bs| ==> bs[i].table in cat
    ensures var r := NextRecordOf(db, bs);
            Logged(k, cat, db.(commitTs := r.ts, file := db.file + k.enc(r), delta := ApplyAll(db.delta, bs, r.ts)), log + [r])
  {
    var r := NextRecordOf(db, bs);
    LogBytesAppend(k, log, r);
    GoodLogSnoc(k, log, r, db.commitTs);
    ApplyAllTables(db.delta, bs, r.ts, cat.Keys);
  }

  /** The log after a commit attempt. */
  function LogAfter(k: Coding, db: Db, log: seq<Record>, bs: seq<LogBatch>, fault: Fault): seq<Record> {
    if bs != [] && Written(k, NextRecordOf(db, bs), fault) then log + [NextRecordOf(db, bs)] else log
  }

  /** A commit, field by field. */
  lemma AfterCommitParts(k: Coding, db: Db, bs: seq<LogBatch>, fault: Fault)
    ensures var r := NextRecordOf(db, bs);
            var ok := Written(k, r, fault);
            AfterCommit(k, db, bs, fault) ==
            Db(db.base, if ok && bs != [] then db.file + k.enc(r) else db.file,
               if ok then ApplyAll(db.delta, bs, db.commitTs + 1) else db.delta, db.commitTs + 1, db.snapshots)
  {
  }

  lemma CommitLogged(k: Coding, cat: Catalog, db: Db, log: seq<Record>, bs: seq<LogBatch>, fault: Fault)
    requires Logged(k, cat, db, log) && forall i :: 0 <= i < |bs| ==> bs[i].table in cat
    ensures Logged(k, cat, AfterCommit(k, db, bs, fault), LogAfter(k, db, log, bs, fault))
  {
    if bs != [] && Written(k, NextRecordOf(db, bs), fault) {
      LogGrows(k, cat, db, log, bs);
    }
  }

  /** At the newest timestamp a snapshot read is an autocommit read. */
  lemma ViewAtTip(k: Coding, cat: Catalog, db: Db, log: seq<Record>)
    requires Logged(k, cat, db, log)
    ensures ViewsAt(cat, db, db.commitTs) == Views(cat, db)
  {
    forall t
      ensures ViewAt(cat, db, t, db.commitTs) == View(cat, db, t)
    {
      LogWithin(log, db.commitTs, t);
      UpToKeepsAll(BatchesOf(db.delta, t), BatchTs, db.commitTs);
      UpToKeepsAll(TombsOf(db.delta, t), TombTs, db.commitTs);
    }
  }

  lemma CommitStep(k: Coding, cat: Catalog, db: Db, log: seq<Record>, p: Plain, bs: seq<LogBatch>, fault: Fault)
    returns (log': seq<Record>)
    requires Sim(k, cat, db, log, p) && StepOk(cat, Commit(bs, fault))
    ensures Sim(k, cat, AfterCommit(k, db, bs, fault), log',
                PlainNext(cat, p, Commit(bs, fault), Written(k, NextRecordOf(db, bs), fault)))
    ensures log' == if bs != [] && Written(k, NextRecordOf(db, bs), fault) then log + [NextRecordOf(db, bs)] else log
  {
    var r := NextRecordOf(db, bs);
    var db' := AfterCommit(k, db, bs, fault);
    log' := log;
    if Written(k, r, fault) {
      if bs != [] {
        LogGrows(k, cat, db, log, bs);
        log' := log + [r];
      }
      CommitAllViews(k, cat, db, log, bs, db');
    } else {
      SameDeltaSameViews(cat, db, db');
    }
  }

  // ---------------------------------------------------------------- restore

  lemma RestoreViews(cat: Catalog, db: Db, db': Db, target: int)
    requires db'.base == db.base && db'.delta == RewindTo(db.delta, target)
    ensures Views(cat, db') == ViewsAt(cat, db, target)
    ensures forall s :: s <= target ==> ViewsAt(cat, db', s) == ViewsAt(cat, db, s)
  {
    forall t, s | s <= target
      ensures View(cat, db', t) == ViewAt(cat, db, t, target)
      ensures ViewAt(cat, db', t, s) == ViewAt(cat, db, t, s)
    {
      RestoreView(cat, db, db', t, target, s);
    }
    assert forall t :: ViewAt(cat, db', t, target) == ViewAt(cat, db, t, target);
  }

  lemma RestoreView(cat: Catalog, db: Db, db': Db, t: string, target: int, s: int)
    requires db'.base == db.base && db'.delta == RewindTo(db.delta, target) && s <= target
    ensures View(cat, db', t) == ViewAt(cat, db, t, target)
    ensures ViewAt(cat, db', t, s) == ViewAt(cat, db, t, s)
  {
    UpToUpTo(BatchesOf(db.delta, t), BatchTs, target, s);
    UpToUpTo(TombsOf(db.delta, t), TombTs, target, s);
    assert BatchesOf(db'.delta, t) == UpTo(BatchesOf(db.delta, t), BatchTs, target);
    assert TombsOf(db'.delta, t) == UpTo(TombsOf(db.delta, t), TombTs, target);
  }

  lemma GoodLogCut(k: Coding, log: seq<Record>, hi: int, ts: int)
    requires GoodLog(k, log, hi)
    ensures GoodLog(k, CutLog(log, ts), ts)
  {
    CutIsPrefix(log, ts);
  }

  lemma RestoreLogged(k: Coding, cat: Catalog, db: Db, log: seq<Record>, name: string)
    requires Sound(k) && Logged(k, cat, db, log) && name in db.snapshots && db.snapshots[name] <= db.commitTs
    ensures Logged(k, cat, AfterRestore(k, db, name), CutLog(log, db.snapshots[name]))
  {
    var target := db.snapshots[name];
    CutBytes(k, log, target);
    GoodLogCut(k, log, db.commitTs, target);
    CutThenReplay(log, target);
  }

  lemma RestoreStep(k: Coding, cat: Catalog, db: Db, log: seq<Record>, p: Plain, name: string) returns (log': seq<Record>)
    requires Sound(k) && Sim(k, cat, db, log, p)
    ensures Sim(k, cat, AfterRestore(k, db, name), log', PlainNext(cat, p, Restore(name), name in db.snapshots))
  {
    log' := log;
    if name in db.snapshots {
      log' := CutLog(log, db.snapshots[name]);
      RestoreLogged(k, cat, db, log, name);
      RestoreViews(cat, db, AfterRestore(k, db, name), db.snapshots[name]);
    }
  }

  // ---------------------------------------------------------------- checkpoint

  predicate NoEmptyLists(d: Delta) {
    (forall t :: t in d.batches ==> d.batches[t] != []) && (forall t :: t in d.tombs ==> d.tombs[t] != [])
  }

  lemma {:induction false} LogHasNoEmptyLists(log: seq<Record>)
    ensures NoEmptyLists(ApplyLog(log))
  {
    if log != [] {
      var n := |log| - 1;
      LogHasNoEmptyLists(log[..n]);
      ApplyKeepsNoEmptyLists(ApplyLog(log[..n]), log[n].batches, log[n].ts);
    }
  }

  lemma {:induction false} ApplyKeepsNoEmptyLists(d: Delta, bs: seq<LogBatch>, ts: int)
    requires NoEmptyLists(d)
    ensures NoEmptyLists(ApplyAll(d, bs, ts))
  {
    if bs != [] {
      ApplyKeepsNoEmptyLists(d, bs[..|bs| - 1], ts);
    }
  }

  lemma AllTablesFlushed(d: Delta)
    requires NoEmptyLists(d)
    ensures Delta(d.batches - PendingTables(d), d.tombs - PendingTables(d)) == EMPTY_DELTA
  {
    var targets := PendingTables(d);
    assert forall t :: t in d.batches ==> Pending(d, t);
    assert forall t :: t in d.tombs ==> Pending(d, t);
    assert d.batches - targets == map[];
    assert d.tombs - targets == map[];
  }

  lemma CutAtZero(k: Coding, log: seq<Record>, hi: int)
    requires Sound(k) && GoodLog(k, log, hi)
    ensures LogBytes(k, log)[..KeepUntil(k, LogBytes(k, log), 0)] == []
  {
    CutBytes(k, log, 0);
    assert CutLog(log, 0) == [];
  }

  lemma CheckpointLogged(k: Coding, cat: Catalog, db: Db, log: seq<Record>)
    requires Sound(k) && Logged(k, cat, db, log) && PendingTables(db.delta) != {}
    ensures Logged(k, cat, AfterCheckpoint(k, cat, db), []) && AfterCheckpoint(k, cat, db).delta == EMPTY_DELTA
  {
    CutAtZero(k, log, db.commitTs);
    LogHasNoEmptyLists(log);
    AllTablesFlushed(db.delta);
  }

  lemma CheckpointView(cat: Catalog, db: Db, db': Db, t: string)
    requires t in cat && db.base.Keys == cat.Keys && db'.base == Flushed(cat, db) && db'.delta == EMPTY_DELTA
    ensures View(cat, db', t) == View(cat, db, t)
    ensures forall s :: ViewAt(cat, db', t, s) == View(cat, db, t)
  {
    assert BaseOf(db', t) == FlushedTable(cat, db, t);
    if t in PendingTables(db.delta) {
      NothingToMerge(View(cat, db, t), PkOf(cat, t));
    } else {
      assert !Pending(db.delta, t);
      NothingToMerge(BaseOf(db, t), PkOf(cat, t));
    }
  }

  lemma CheckpointViews(cat: Catalog, db: Db, db': Db)
    requires db.base.Keys == cat.Keys && db'.base == Flushed(cat, db) && db'.delta == EMPTY_DELTA
    ensures Views(cat, db') == Views(cat, db)
    ensures forall s :: ViewsAt(cat, db', s) == Views(cat, db)
  {
    forall t | t in cat ensures Views(cat, db')[t] == Views(cat, db)[t] {
      CheckpointView(cat, db, db', t);
    }
    forall s ensures ViewsAt(cat, db', s) == Views(cat, db) {
      CheckpointViewsAt(cat, db, db', s);
    }
  }

  lemma CheckpointViewsAt(cat: Catalog, db: Db, db': Db, s: int)
    requires db.base.Keys == cat.Keys && db'.base == Flushed(cat, db) && db'.delta == EMPTY_DELTA
    ensures ViewsAt(cat, db', s) == Views(cat, db)
  {
    forall t | t in cat ensures ViewsAt(cat, db', s)[t] == Views(cat, db)[t] {
      CheckpointView(cat, db, db', t);
    }
  }

  lemma CheckpointStep(k: Coding, cat: Catalog, db: Db, log: seq<Record>, p: Plain) returns (log': seq<Record>)
    requires Sound(k) && Sim(k, cat, db, log, p)
    ensures Sim(k, cat, AfterCheckpoint(k, cat, db), log', p)
  {
    log' := log;
    if PendingTables(db.delta) != {} {
      CheckpointLogged(k, cat, db, log);
      log' := [];
      ViewAtTip(k, cat, db, log);
      CheckpointRemembers(cat, db, AfterCheckpoint(k, cat, db), p.saved);
    }
  }

  /** Only names captured at the very tip outlive a checkpoint, and they still mean the same. */
  lemma CheckpointRemembers(cat: Catalog, db: Db, db': Db, saved: map<string, map<string, Frame>>)
    requires db.base.Keys == cat.Keys && Remembers(cat, db, saved) && ViewsAt(cat, db, db.commitTs) == Views(cat, db)
    requires db'.base == Flushed(cat, db)
    requires db'.delta == EMPTY_DELTA && db'.commitTs == db.commitTs
    requires db'.snapshots == db.snapshots - EarlierThan(db.snapshots, db.commitTs)
    ensures Views(cat, db') == Views(cat, db) && Remembers(cat, db', saved)
  {
    CheckpointViews(cat, db, db');
    forall n | n in db'.snapshots
      ensures db'.snapshots[n] == db.commitTs && saved[n] == ViewsAt(cat, db', db'.snapshots[n])
    {
      assert n in db.snapshots && db.snapshots[n] == db.commitTs;
    }
  }

  // ---------------------------------------------------------------- restart and crash

  lemma {:induction false} MaxTsBounds(log: seq<Record>, hi: int)
    requires 0 <= hi && StampedWithin(log, hi)
    ensures MaxTs(log) <= hi && StampedWithin(log, MaxTs(log))
  {
    if log != [] {
      var n := |log| - 1;
      assert forall i :: 0 <= i < n ==> log[..n][i] == log[i];
      MaxTsBounds(log[..n], hi);
      assert forall i :: 0 <= i < n ==> log[i] == log[..n][i];
    }
  }

  /** A restart over a whole log rebuilds the same delta and shows the same rows. */
  lemma RestartStep(k: Coding, cat: Catalog, db: Db, log: seq<Record>)
    requires Sound(k) && Logged(k, cat, db, log)
    ensures Sim(k, cat, AfterRestart(k, db), log, Plain(Views(cat, db), map[]))
  {
    ReplayWholeLog(k, log);
    MaxTsBounds(log, db.commitTs);
    SameDeltaSameViews(cat, db, AfterRestart(k, db));
  }

  /** A crash at any byte of a commit's write leaves all of that commit or none of it. */
  lemma CrashIsRestart(k: Coding, cat: Catalog, db: Db, log: seq<Record>, bs: seq<LogBatch>, cut: nat)
    requires Sound(k) && Logged(k, cat, db, log)
    ensures AfterCrash(k, db, bs, cut) ==
            if Landed(k, db, CrashInCommit(bs, cut)) then AfterRestart(k, AfterCommit(k, db, bs, NoFault))
            else AfterRestart(k, db)
  {
    var r := NextRecordOf(db, bs);
    if bs != [] && k.fits(r) {
      if cut >= |k.enc(r)| {
        assert k.enc(r)[..|k.enc(r)|] == k.enc(r);
      } else {
        ReplayAfterCrash(k, log, r, cut);
        ReplayWholeLog(k, log);
      }
    }
  }

  lemma RestartShows(k: Coding, cat: Catalog, db: Db, log: seq<Record>)
    requires Sound(k) && Logged(k, cat, db, log)
    ensures Views(cat, AfterRestart(k, db)) == Views(cat, db)
  {
    RestartStep(k, cat, db, log);
  }

  lemma CommitShows(k: Coding, cat: Catalog, db: Db, log: seq<Record>, bs: seq<LogBatch>)
    requires Logged(k, cat, db, log) && k.fits(NextRecordOf(db, bs)) && bs != []
    requires forall i :: 0 <= i < |bs| ==> bs[i].table in cat
    ensures Logged(k, cat, AfterCommit(k, db, bs, NoFault), log + [NextRecordOf(db, bs)])
    ensures Views(cat, AfterCommit(k, db, bs, NoFault)) == PlainTables(cat, Views(cat, db), bs)
  {
    LogGrows(k, cat, db, log, bs);
    CommitAllViews(k, cat, db, log, bs, AfterCommit(k, db, bs, NoFault));
  }

  lemma CrashShows(k: Coding, cat: Catalog, db: Db, log: seq<Record>, bs: seq<LogBatch>, cut: nat)
    requires Sound(k) && Logged(k, cat, db, log) && StepOk(cat, CrashInCommit(bs, cut))
    ensures Views(cat, AfterCrash(k, db, bs, cut)) ==
            if Landed(k, db, CrashInCommit(bs, cut)) then PlainTables(cat, Views(cat, db), bs) else Views(cat, db)
  {
    CrashIsRestart(k, cat, db, log, bs, cut);
    if Landed(k, db, CrashInCommit(bs, cut)) {
      calc {
        Views(cat, AfterCrash(k, db, bs, cut));
        Views(cat, AfterRestart(k, AfterCommit(k, db, bs, NoFault)));
        { CommitShows(k, cat, db, log, bs);
          RestartShows(k, cat, AfterCommit(k, db, bs, NoFault), log + [NextRecordOf(db, bs)]); }
        Views(cat, AfterCommit(k, db, bs, NoFault));
        { CommitShows(k, cat, db, log, bs); }
        PlainTables(cat, Views(cat, db), bs);
      }
    } else {
      RestartShows(k, cat, db, log);
    }
  }

  lemma CrashStep(k: Coding, cat: Catalog, db: Db, log: seq<Record>, p: Plain, bs: seq<LogBatch>, cut: nat)
    returns (log': seq<Record>)
    requires Sound(k) && Sim(k, cat, db, log, p) && StepOk(cat, CrashInCommit(bs, cut))
    ensures Sim(k, cat, AfterCrash(k, db, bs, cut), log',
                PlainNext(cat, p, CrashInCommit(bs, cut), Landed(k, db, CrashInCommit(bs, cut))))
    ensures log' == if Landed(k, db, CrashInCommit(bs, cut)) then log + [NextRecordOf(db, bs)] else log
  {
    CrashIsRestart(k, cat, db, log, bs, cut);
    if Landed(k, db, CrashInCommit(bs, cut)) {
      log' := CommitStep(k, cat, db, log, p, bs, NoFault);
      RestartStep(k, cat, AfterCommit(k, db, bs, NoFault), log');
    } else {
      log' := log;
      RestartStep(k, cat, db, log);
    }
  }

  // ---------------------------------------------------------------- whole runs

  lemma SnapshotStep(k: Coding, cat: Catalog, db: Db, log: seq<Record>, p: Plain, name: string)
    requires Sim(k, cat, db, log, p)
    ensures Sim(k, cat, AfterSnapshot(db, name), log, p.(saved := p.saved[name := p.tables]))
  {
    ViewAtTip(k, cat, db, log);
    SameDeltaSameViews(cat, db, AfterSnapshot(db, name));
  }

  lemma OneStep(k: Coding, cat: Catalog, db: Db, log: seq<Record>, p: Plain, s: Step) returns (log': seq<Record>)
    requires Sound(k) && Sim(k, cat, db, log, p) && StepOk(cat, s)
    ensures Sim(k, cat, Next(k, cat, db, s), log', PlainNext(cat, p, s, Landed(k, db, s)))
  {
    log' := log;
    match s
    case Commit(bs, fault) => log' := CommitStep(k, cat, db, log, p, bs, fault);
    case TakeSnapshot(name) => SnapshotStep(k, cat, db, log, p, name);
    case Restore(name) => log' := RestoreStep(k, cat, db, log, p, name);
    case Checkpoint => log' := CheckpointStep(k, cat, db, log, p);
    case Restart => RestartStep(k, cat, db, log);
    case CrashInCommit(bs, cut) => log' := CrashStep(k, cat, db, log, p, bs, cut);
  }

  /** No step but taking it creates a name, and no step changes what a known name stands for. */
  lemma NamesKeepMeaning(k: Coding, cat: Catalog, db: Db, p: Plain, s: Step, name: string)
    requires Progresses(k) && name in Next(k, cat, db, s).snapshots && s != TakeSnapshot(name) && name in p.saved
    ensures name in db.snapshots
    ensures var p' := PlainNext(cat, p, s, Landed(k, db, s)); name in p'.saved && p'.saved[name] == p.saved[name]
  {
  }

  ghost function Run(k: Coding, cat: Catalog, db: Db, steps: seq<Step>): Db
    requires Progresses(k)
    decreases |steps|
  {
    if steps == [] then db else Run(k, cat, Next(k, cat, db, steps[0]), steps[1..])
  }

  predicate RunOk(cat: Catalog, steps: seq<Step>) {
    forall i :: 0 <= i < |steps| ==> StepOk(cat, steps[i])
  }

  /** The plain database taking the same steps: what a step does to it depends on the durable store
      only through whether the step landed. */
  ghost function PlainRun(k: Coding, cat: Catalog, db: Db, p: Plain, steps: seq<Step>): Plain
    requires Progresses(k)
    decreases |steps|
  {
    if steps == [] then p
    else PlainRun(k, cat, Next(k, cat, db, steps[0]), PlainNext(cat, p, steps[0], Landed(k, db, steps[0])), steps[1..])
  }

  /** Every run of the durable store is matched, step by step, by the plain database: it ends with
      the plain run's tables in view and the plain run's copies behind every known name.  Names that
      survive without being re-taken stand for what they stood for, at the timestamp they had. */
  lemma {:induction false} RunRefines(k: Coding, cat: Catalog, db: Db, log: seq<Record>, p: Plain, steps: seq<Step>)
    returns (log': seq<Record>)
    requires Sound(k) && Sim(k, cat, db, log, p) && RunOk(cat, steps)
    ensures Sim(k, cat, Run(k, cat, db, steps), log', PlainRun(k, cat, db, p, steps))
    ensures forall n :: n in Run(k, cat, db, steps).snapshots && TakeSnapshot(n) !in steps ==>
                          n in db.snapshots && PlainRun(k, cat, db, p, steps).saved[n] == p.saved[n] &&
                          Run(k, cat, db, steps).snapshots[n] == db.snapshots[n]
    decreases |steps|
  {
    log' := log;
    if steps != [] {
      var db1, p1 := Next(k, cat, db, steps[0]), PlainNext(cat, p, steps[0], Landed(k, db, steps[0]));
      log' := OneStep(k, cat, db, log, p, steps[0]);
      log' := RunRefines(k, cat, db1, log', p1, steps[1..]);
      var end, p' := Run(k, cat, db, steps), PlainRun(k, cat, db, p, steps);
      forall n | n in end.snapshots && TakeSnapshot(n) !in steps
        ensures n in db.snapshots && p'.saved[n] == p.saved[n] && end.snapshots[n] == db.snapshots[n]
      {
        assert TakeSnapshot(n) !in steps[1..] && steps[0] in steps;
        assert n in db1.snapshots;
        SurvivorsWereSaved(k, cat, db, log, p, steps[0], n);
      }
    }
  }

  lemma SurvivorsWereSaved(k: Coding, cat: Catalog, db: Db, log: seq<Record>, p: Plain, s: Step, n: string)
    requires Sound(k) && Sim(k, cat, db, log, p) && n in Next(k, cat, db, s).snapshots && s != TakeSnapshot(n)
    ensures n in db.snapshots && n in p.saved && Next(k, cat, db, s).snapshots[n] == db.snapshots[n]
    ensures PlainNext(cat, p, s, Landed(k, db, s)).saved[n] == p.saved[n]
  {
    assert n in db.snapshots;
    NamesKeepMeaning(k, cat, db, p, s, n);
  }

  function Fresh(base: map<string, Frame>): Db {
    Db(base, [], EMPTY_DELTA, 0, map[])
  }

  lemma FreshSim(k: Coding, cat: Catalog, base: map<string, Frame>)
    requires base.Keys == cat.Keys
    ensures Sim(k, cat, Fresh(base), [], Plain(base, map[]))
  {
    forall t | t in cat
      ensures View(cat, Fresh(base), t) == base[t]
    {
      NothingToMerge(base[t], PkOf(cat, t));
    }
    assert Views(cat, Fresh(base)) == base;
  }

  lemma ReachableSim(k: Coding, cat: Catalog, base: map<string, Frame>, steps: seq<Step>) returns (log: seq<Record>)
    requires Sound(k) && base.Keys == cat.Keys && RunOk(cat, steps)
    ensures Sim(k, cat, Run(k, cat, Fresh(base), steps), log, PlainRun(k, cat, Fresh(base), Plain(base, map[]), steps))
  {
    FreshSim(k, cat, base);
    log := RunRefines(k, cat, Fresh(base), [], Plain(base, map[]), steps);
  }

  /** In every reachable state the file replays to whole records with strictly increasing
      timestamps, none beyond the counter, and to exactly the delta in memory. */
  lemma LogAlwaysConsistent(k: Coding, cat: Catalog, base: map<string, Frame>, steps: seq<Step>)
    requires Sound(k) && base.Keys == cat.Keys && RunOk(cat, steps)
    ensures var db := Run(k, cat, Fresh(base), steps);
            var r := ReplayBytes(k, db.file);
            r.good == |db.file| && Increasing(r.records) && StampedWithin(r.records, db.commitTs) &&
            db.delta == ApplyLog(r.records)
  {
    var log := ReachableSim(k, cat, base, steps);
    ReplayWholeLog(k, log);
  }

  /** Recovery: a restart in any reachable state shows every table unchanged, and a crash at any
      byte of a further commit shows every table with all of that commit, exactly when its last
      byte arrived, or with none of it.  The recovered state is reachable again, so commits made
      after a recovery are covered by the same statement. */
  lemma RecoveryIsExact(k: Coding, cat: Catalog, base: map<string, Frame>, steps: seq<Step>, bs: seq<LogBatch>, cut: nat)
    requires Sound(k) && base.Keys == cat.Keys && RunOk(cat, steps) && StepOk(cat, CrashInCommit(bs, cut))
    ensures var db := Run(k, cat, Fresh(base), steps);
            Views(cat, AfterRestart(k, db)) == Views(cat, db) &&
            Views(cat, AfterCrash(k, db, bs, cut)) ==
              if Landed(k, db, CrashInCommit(bs, cut)) then PlainTables(cat, Views(cat, db), bs) else Views(cat, db)
  {
    var log := ReachableSim(k, cat, base, steps);
    RestartShows(k, cat, Run(k, cat, Fresh(base), steps), log);
    CrashShows(k, cat, Run(k, cat, Fresh(base), steps), log, bs, cut);
  }

  /** Take a snapshot, then run anything at all that does not re-take the name: if the name is
      still known, restoring it shows every table exactly as it was at capture. */
  lemma RestoreGivesBackCapture(k: Coding, cat: Catalog, base: map<string, Frame>, before: seq<Step>, name: string,
                                after: seq<Step>)
    requires Sound(k) && base.Keys == cat.Keys && RunOk(cat, before) && RunOk(cat, after)
    requires TakeSnapshot(name) !in after
    requires name in Run(k, cat, AfterSnapshot(Run(k, cat, Fresh(base), before), name), after).snapshots
    ensures var db := Run(k, cat, Fresh(base), before);
            var late := Run(k, cat, AfterSnapshot(db, name), after);
            Views(cat, AfterRestore(k, late, name)) == Views(cat, db)
  {
    var log := ReachableSim(k, cat, base, before);
    CaptureThenRestore(k, cat, Run(k, cat, Fresh(base), before), log,
                       PlainRun(k, cat, Fresh(base), Plain(base, map[]), before), name, after);
  }

  lemma CaptureThenRestore(k: Coding, cat: Catalog, db: Db, log: seq<Record>, p: Plain, name: string, after: seq<Step>)
    requires Sound(k) && Sim(k, cat, db, log, p) && RunOk(cat, after) && TakeSnapshot(name) !in after
    requires name in Run(k, cat, AfterSnapshot(db, name), after).snapshots
    ensures Views(cat, AfterRestore(k, Run(k, cat, AfterSnapshot(db, name), after), name)) == Views(cat, db)
  {
    var p1 := p.(saved := p.saved[name := p.tables]);
    SnapshotStep(k, cat, db, log, p, name);
    var log2 := RunRefines(k, cat, AfterSnapshot(db, name), log, p1, after);
    RestoreShows(k, cat, Run(k, cat, AfterSnapshot(db, name), after), log2,
                 PlainRun(k, cat, AfterSnapshot(db, name), p1, after), name);
  }

  lemma RestoreShows(k: Coding, cat: Catalog, db: Db, log: seq<Record>, p: Plain, name: string)
    requires Sound(k) && Sim(k, cat, db, log, p) && name in db.snapshots
    ensures Views(cat, AfterRestore(k, db, name)) == p.saved[name]
  {
    var log' := RestoreStep(k, cat, db, log, p, name);
    assert PlainNext(cat, p, Restore(name), true).tables == p.saved[name];
  }

  /** Take `a`, run anything that keeps it, take `b`, then restore `a`: the counter is back where `a`
      was captured, the tables are as they were then, and `b` is still known exactly when no
      timestamp was used between the two captures. */
  lemma RestoreForgetsLaterNames(k: Coding, cat: Catalog, base: map<string, Frame>, before: seq<Step>, a: string,
                                 between: seq<Step>, b: string)
    requires Sound(k) && base.Keys == cat.Keys && RunOk(cat, before) && RunOk(cat, between)
    requires a != b && TakeSnapshot(a) !in between
    requires a in Run(k, cat, AfterSnapshot(Run(k, cat, Fresh(base), before), a), between).snapshots
    ensures var db := Run(k, cat, Fresh(base), before);
            var late := Run(k, cat, AfterSnapshot(db, a), between);
            var back := AfterRestore(k, AfterSnapshot(late, b), a);
            && back.commitTs == db.commitTs && Views(cat, back) == Views(cat, db)
            && (b in back.snapshots <==> late.commitTs == db.commitTs)
  {
    var db, p := Run(k, cat, Fresh(base), before), PlainRun(k, cat, Fresh(base), Plain(base, map[]), before);
    var log := ReachableSim(k, cat, base, before);
    var p1 := p.(saved := p.saved[a := p.tables]);
    SnapshotStep(k, cat, db, log, p, a);
    var log2 := RunRefines(k, cat, AfterSnapshot(db, a), log, p1, between);
    var late, p2 := Run(k, cat, AfterSnapshot(db, a), between), PlainRun(k, cat, AfterSnapshot(db, a), p1, between);
    SnapshotStep(k, cat, late, log2, p2, b);
    RestoreShows(k, cat, AfterSnapshot(late, b), log2, p2.(saved := p2.saved[b := p2.tables]), a);
    assert late.snapshots[a] == db.commitTs;
  }
}
