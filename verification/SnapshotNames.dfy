/**
 Which snapshot names are known after a run, told by the commit counter and the steps alone, and
 what restores, checkpoints and restarts leave behind.
 */
module SnapshotNames {
  import opened Values
  import opened Mvcc
  import opened WalFormat
  import opened Wal
  import opened Deltas
  import opened Store

  predicate NothingPending(d: Delta) {
    d.batches.Values <= {[]} && d.tombs.Values <= {[]}
  }

  /** A capture at `ts` outlives the step: a restore must not go back behind it, a checkpoint that has
      something to publish must find it at the tip, and a restart forgets everything. */
  ghost predicate Outlives(k: Coding, cat: Catalog, db: Db, s: Step, ts: int)
    requires Progresses(k)
  {
    match s
    case Commit(_, _) => true
    case TakeSnapshot(_) => true
    case Restore(_) => ts <= Next(k, cat, db, s).commitTs
    case Checkpoint => ts == db.commitTs || NothingPending(db.delta)
    case Restart => false
    case CrashInCommit(_, _) => false
  }

  ghost predicate OutlivesAll(k: Coding, cat: Catalog, db: Db, steps: seq<Step>, ts: int)
    requires Progresses(k)
    decreases |steps|
  {
    steps == [] || (Outlives(k, cat, db, steps[0], ts) && OutlivesAll(k, cat, Next(k, cat, db, steps[0]), steps[1..], ts))
  }

  lemma ListsAreEmpty(d: Delta)
    requires NothingPending(d)
    ensures forall t :: t in d.batches ==> d.batches[t] == []
    ensures forall t :: t in d.tombs ==> d.tombs[t] == []
  {
    forall t | t in d.batches ensures d.batches[t] == [] { assert d.batches[t] in d.batches.Values; }
    forall t | t in d.tombs ensures d.tombs[t] == [] { assert d.tombs[t] in d.tombs.Values; }
  }

  lemma PendingMeans(d: Delta)
    ensures PendingTables(d) == {} <==> NothingPending(d)
  {
    if PendingTables(d) == {} {
      forall v | v in d.batches.Values ensures v == [] {
        var t :| t in d.batches && d.batches[t] == v;
        assert t !in PendingTables(d);
      }
      forall v | v in d.tombs.Values ensures v == [] {
        var t :| t in d.tombs && d.tombs[t] == v;
        assert t !in PendingTables(d);
      }
    }
    if NothingPending(d) { ListsAreEmpty(d); }
  }

  lemma StepKnownIff(k: Coding, cat: Catalog, db: Db, s: Step, name: string)
    requires Progresses(k) && name in db.snapshots && db.snapshots[name] <= db.commitTs && s != TakeSnapshot(name)
    ensures name in Next(k, cat, db, s).snapshots <==> Outlives(k, cat, db, s, db.snapshots[name])
    ensures name in Next(k, cat, db, s).snapshots ==> Next(k, cat, db, s).snapshots[name] == db.snapshots[name]
  {
    PendingMeans(db.delta);
  }

  lemma {:induction false} RunKnownIff(k: Coding, cat: Catalog, db: Db, log: seq<Record>, p: Plain, steps: seq<Step>, name: string)
    requires Sound(k) && Sim(k, cat, db, log, p) && RunOk(cat, steps) && name in db.snapshots && TakeSnapshot(name) !in steps
    ensures name in Run(k, cat, db, steps).snapshots <==> OutlivesAll(k, cat, db, steps, db.snapshots[name])
    decreases |steps|
  {
    if steps != [] {
      var s, rest := steps[0], steps[1..];
      var db1, p1 := Next(k, cat, db, s), PlainNext(cat, p, s, Landed(k, db, s));
      assert s in steps && TakeSnapshot(name) !in rest;
      var log1 := OneStep(k, cat, db, log, p, s);
      StepKnownIff(k, cat, db, s, name);
      if name in db1.snapshots {
        RunKnownIff(k, cat, db1, log1, p1, rest, name);
      } else {
        var _ := RunRefines(k, cat, db1, log1, p1, rest);
      }
    }
  }

  /** Take a snapshot, then run anything that does not re-take the name: the name is known exactly
      when its capture outlives every step, and it stands for the counter at capture. */
  lemma CaptureKnownIff(k: Coding, cat: Catalog, base: map<string, Frame>, before: seq<Step>, name: string, after: seq<Step>)
    requires Sound(k) && base.Keys == cat.Keys && RunOk(cat, before) && RunOk(cat, after) && TakeSnapshot(name) !in after
    ensures var db := Run(k, cat, Fresh(base), before);
            var late := Run(k, cat, AfterSnapshot(db, name), after);
            && (name in late.snapshots <==> OutlivesAll(k, cat, AfterSnapshot(db, name), after, db.commitTs))
            && (name in late.snapshots ==> late.snapshots[name] == db.commitTs <= late.commitTs)
  {
    var log := ReachableSim(k, cat, base, before);
    var db, p := Run(k, cat, Fresh(base), before), PlainRun(k, cat, Fresh(base), Plain(base, map[]), before);
    var p1 := p.(saved := p.saved[name := p.tables]);
    SnapshotStep(k, cat, db, log, p, name);
    RunKnownIff(k, cat, AfterSnapshot(db, name), log, p1, after, name);
    var _ := RunRefines(k, cat, AfterSnapshot(db, name), log, p1, after);
  }

  // ---------------------------------------------------------------- what a restore keeps

  /** Take x, run, take a with x still known, run anything that keeps a, and restore a: x, if it was
      known before the restore, is known after it at its timestamp, and restoring it shows every table
      as it was when x was taken. */
  lemma RestoreKeepsOlderNames(k: Coding, cat: Catalog, base: map<string, Frame>, before: seq<Step>, x: string,
                               between: seq<Step>, a: string, after: seq<Step>)
    requires Sound(k) && base.Keys == cat.Keys && RunOk(cat, before) && RunOk(cat, between) && RunOk(cat, after) && x != a
    requires TakeSnapshot(x) !in between && TakeSnapshot(x) !in after && TakeSnapshot(a) !in after
    requires var mid := Run(k, cat, AfterSnapshot(Run(k, cat, Fresh(base), before), x), between);
             var late := Run(k, cat, AfterSnapshot(mid, a), after);
             x in mid.snapshots && x in late.snapshots && a in late.snapshots
    ensures var db := Run(k, cat, Fresh(base), before);
            var mid := Run(k, cat, AfterSnapshot(db, x), between);
            var back := AfterRestore(k, Run(k, cat, AfterSnapshot(mid, a), after), a);
            && Views(cat, back) == Views(cat, mid)
            && x in back.snapshots && back.snapshots[x] == db.commitTs
            && Views(cat, AfterRestore(k, back, x)) == Views(cat, db)
  {
    var log := ReachableSim(k, cat, base, before);
    var db, p := Run(k, cat, Fresh(base), before), PlainRun(k, cat, Fresh(base), Plain(base, map[]), before);
    var p1 := p.(saved := p.saved[x := p.tables]);
    SnapshotStep(k, cat, db, log, p, x);
    var log1 := RunRefines(k, cat, AfterSnapshot(db, x), log, p1, between);
    var mid, p2 := Run(k, cat, AfterSnapshot(db, x), between), PlainRun(k, cat, AfterSnapshot(db, x), p1, between);
    SecondCapture(k, cat, mid, log1, p2, x, a, after);
  }

  /** The part from the second capture on. */
  lemma SecondCapture(k: Coding, cat: Catalog, mid: Db, log: seq<Record>, p: Plain, x: string, a: string, after: seq<Step>)
    requires Sound(k) && Sim(k, cat, mid, log, p) && RunOk(cat, after) && x != a && x in mid.snapshots
    requires TakeSnapshot(x) !in after && TakeSnapshot(a) !in after
    requires var late := Run(k, cat, AfterSnapshot(mid, a), after); x in late.snapshots && a in late.snapshots
    ensures var back := AfterRestore(k, Run(k, cat, AfterSnapshot(mid, a), after), a);
            && Views(cat, back) == Views(cat, mid)
            && x in back.snapshots && back.snapshots[x] == mid.snapshots[x]
            && Views(cat, AfterRestore(k, back, x)) == p.saved[x]
  {
    var p1 := p.(saved := p.saved[a := p.tables]);
    SnapshotStep(k, cat, mid, log, p, a);
    var log1 := RunRefines(k, cat, AfterSnapshot(mid, a), log, p1, after);
    var late, p2 := Run(k, cat, AfterSnapshot(mid, a), after), PlainRun(k, cat, AfterSnapshot(mid, a), p1, after);
    RestoreTwice(k, cat, late, log1, p2, x, a);
  }

  lemma RestoreTwice(k: Coding, cat: Catalog, db: Db, log: seq<Record>, p: Plain, x: string, a: string)
    requires Sound(k) && Sim(k, cat, db, log, p) && x in db.snapshots && a in db.snapshots && db.snapshots[x] <= db.snapshots[a]
    ensures var back := AfterRestore(k, db, a);
            && Views(cat, back) == p.saved[a]
            && x in back.snapshots && back.snapshots[x] == db.snapshots[x]
            && Views(cat, AfterRestore(k, back, x)) == p.saved[x]
  {
    var log1 := RestoreStep(k, cat, db, log, p, a);
    StepKnownIff(k, cat, db, Restore(a), x);
    assert AfterRestore(k, db, a).commitTs == db.snapshots[a];
    RestoreShows(k, cat, AfterRestore(k, db, a), log1, PlainNext(cat, p, Restore(a), true), x);
  }

  // ---------------------------------------------------------------- what a checkpoint keeps and publishes

  /** A name taken at the tip outlives a checkpoint, and restoring it shows the tables as captured. */
  lemma TipOutlivesCheckpoint(k: Coding, cat: Catalog, base: map<string, Frame>, before: seq<Step>, name: string)
    requires Sound(k) && base.Keys == cat.Keys && RunOk(cat, before)
    ensures var db := Run(k, cat, Fresh(base), before);
            var flushed := AfterCheckpoint(k, cat, AfterSnapshot(db, name));
            && name in flushed.snapshots && flushed.snapshots[name] == db.commitTs
            && Views(cat, AfterRestore(k, flushed, name)) == Views(cat, db)
  {
    var log := ReachableSim(k, cat, base, before);
    var db, p := Run(k, cat, Fresh(base), before), PlainRun(k, cat, Fresh(base), Plain(base, map[]), before);
    var p1 := p.(saved := p.saved[name := p.tables]);
    SnapshotStep(k, cat, db, log, p, name);
    StepKnownIff(k, cat, AfterSnapshot(db, name), Checkpoint, name);
    var log1 := CheckpointStep(k, cat, AfterSnapshot(db, name), log, p1);
    RestoreShows(k, cat, AfterCheckpoint(k, cat, AfterSnapshot(db, name)), log1, p1, name);
  }

  /** After a checkpoint the base holds every table as it was in view and nothing is left to merge, in
      memory or in the log. */
  lemma CheckpointPublishes(k: Coding, cat: Catalog, base: map<string, Frame>, before: seq<Step>, t: string)
    requires Sound(k) && base.Keys == cat.Keys && RunOk(cat, before) && t in cat
    ensures var db := Run(k, cat, Fresh(base), before);
            var flushed := AfterCheckpoint(k, cat, db);
            && t in flushed.base && flushed.base[t] == View(cat, db, t)
            && flushed.delta == EMPTY_DELTA && ApplyLog(ReplayBytes(k, flushed.file).records) == EMPTY_DELTA
  {
    var db := Run(k, cat, Fresh(base), before);
    var log := ReachableSim(k, cat, base, before);
    PendingMeans(db.delta);
    LogHasNoEmptyLists(log);
    if NothingPending(db.delta) {
      NoListsAtAll(db.delta);
      NothingToMerge(BaseOf(db, t), PkOf(cat, t));
      ReplayWholeLog(k, log);
    } else {
      CheckpointLogged(k, cat, db, log);
      CheckpointView(cat, db, AfterCheckpoint(k, cat, db), t);
      NothingToMerge(BaseOf(AfterCheckpoint(k, cat, db), t), PkOf(cat, t));
      ReplayWholeLog(k, []);
    }
  }

  lemma NoListsAtAll(d: Delta)
    requires NothingPending(d) && NoEmptyLists(d)
    ensures d == EMPTY_DELTA
  {
    ListsAreEmpty(d);
    assert d.batches == map[] && d.tombs == map[];
  }

  // ---------------------------------------------------------------- what a restart resumes

  lemma {:induction false} LastIsMax(log: seq<Record>)
    requires Increasing(log) && forall i :: 0 <= i < |log| ==> log[i].ts >= 0
    ensures MaxTs(log) == if log == [] then 0 else log[|log| - 1].ts
  {
    if log != [] {
      var n := |log| - 1;
      LastIsMax(log[..n]);
    }
  }

  /** A restart resumes the counter at the last record of the log and knows no name. */
  lemma RestartResumes(k: Coding, cat: Catalog, base: map<string, Frame>, before: seq<Step>)
    requires Sound(k) && base.Keys == cat.Keys && RunOk(cat, before)
    ensures var db := Run(k, cat, Fresh(base), before);
            var log := ReplayBytes(k, db.file).records;
            && AfterRestart(k, db).commitTs == (if log == [] then 0 else log[|log| - 1].ts)
            && AfterRestart(k, db).snapshots == map[]
  {
    var log := ReachableSim(k, cat, base, before);
    ReplayWholeLog(k, log);
    LastIsMax(log);
  }
}
