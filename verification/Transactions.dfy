/**
 Explicit transactions: a frozen snapshot plus a private buffer of inserts and tombstones.  What
 a transaction sees, what COMMIT publishes, and exactly where statement-level behaviour inside a
 transaction departs from editing a table directly.
 */
module Transactions {
  import opened Values
  import opened Mvcc
  import opened WalFormat
  import opened Wal
  import opened Deltas
  import opened Store
  import opened Statements

  datatype Txn = Txn(snapshot: nat, buffer: map<string, seq<Frame>>, tombs: map<string, seq<(Frame, bool)>>)

  function Begin(db: Db): Txn {
    Txn(db.commitTs, map[], map[])
  }

  function BufferInsert(txn: Txn, t: string, rows: Frame): Txn {
    txn.(buffer := Push(txn.buffer, t, rows))
  }

  function BufferTomb(txn: Txn, t: string, rows: Frame, excludeSame: bool): Txn {
    txn.(tombs := Push(txn.tombs, t, (rows, excludeSame)))
  }

  /** Read-your-writes on top of the snapshot. */
  function TxnView(cat: Catalog, db: Db, txn: Txn, t: string): Frame {
    Visible(BaseOf(db, t),
            UpTo(BatchesOf(db.delta, t), BatchTs, txn.snapshot) + StampInserts(ListOf(txn.buffer, t), INS_INF),
            UpTo(TombsOf(db.delta, t), TombTs, txn.snapshot) + StampTombs(ListOf(txn.tombs, t), INS_INF),
            PkOf(cat, t))
  }

  // ---------------------------------------------------------------- what COMMIT writes

  function InsertBatches(t: string, frames: seq<Frame>): (bs: seq<LogBatch>)
    ensures |bs| == |frames|
    ensures forall i :: 0 <= i < |frames| ==> bs[i] == LogBatch(t, Insert, frames[i])
  {
    seq(|frames|, i requires 0 <= i < |frames| => LogBatch(t, Insert, frames[i]))
  }

  function TombBatches(t: string, frames: seq<(Frame, bool)>): (bs: seq<LogBatch>)
    ensures |bs| == |frames|
    ensures forall i :: 0 <= i < |frames| ==>
              bs[i] == LogBatch(t, if frames[i].1 then TombstoneUpdate else Tombstone, frames[i].0)
  {
    seq(|frames|, i requires 0 <= i < |frames| => LogBatch(t, if frames[i].1 then TombstoneUpdate else Tombstone, frames[i].0))
  }

  function AllInserts(txn: Txn, order: seq<string>): seq<LogBatch> {
    if order == [] then [] else AllInserts(txn, order[..|order| - 1]) + InsertBatches(order[|order| - 1], ListOf(txn.buffer, order[|order| - 1]))
  }

  function AllTombs(txn: Txn, order: seq<string>): seq<LogBatch> {
    if order == [] then [] else AllTombs(txn, order[..|order| - 1]) + TombBatches(order[|order| - 1], ListOf(txn.tombs, order[|order| - 1]))
  }

  /** One record: every buffered insert, then every buffered tombstone.  The tables come out of a
      set, so their order is arbitrary: `order` is any listing without repetition. */
  function CommitBatches(txn: Txn, order: seq<string>): seq<LogBatch> {
    AllInserts(txn, order) + AllTombs(txn, order)
  }

  predicate Lists(order: seq<string>, txn: Txn) {
    && (forall i, j :: 0 <= i < j < |order| ==> order[i] != order[j])
    && (forall t :: t in txn.buffer.Keys + txn.tombs.Keys ==> t in order)
  }

  lemma {:induction false} ForConcat(a: seq<LogBatch>, b: seq<LogBatch>, t: string)
    ensures InsertsFor(a + b, t) == InsertsFor(a, t) + InsertsFor(b, t)
    ensures TombsFor(a + b, t) == TombsFor(a, t) + TombsFor(b, t)
  {
    if b == [] {
      assert a + b == a;
    } else {
      var n, all := |b| - 1, a + b;
      ForConcat(a, b[..n], t);
      assert all[..|all| - 1] == a + b[..n] && all[|all| - 1] == b[n];
      Assoc(InsertsFor(a, t), InsertsFor(b[..n], t), if b[n].table == t && b[n].kind == Insert then [b[n].frame] else []);
      Assoc(TombsFor(a, t), TombsFor(b[..n], t), if b[n].table == t && b[n].kind != Insert then [(b[n].frame, b[n].kind == TombstoneUpdate)] else []);
    }
  }

  lemma {:induction false} ForInserts(u: string, frames: seq<Frame>, t: string)
    ensures InsertsFor(InsertBatches(u, frames), t) == if u == t then frames else []
    ensures TombsFor(InsertBatches(u, frames), t) == []
  {
    if frames != [] {
      var n := |frames| - 1;
      ForInserts(u, frames[..n], t);
      assert InsertBatches(u, frames)[..n] == InsertBatches(u, frames[..n]);
      assert frames == frames[..n] + [frames[n]];
    }
  }

  lemma {:induction false} ForTombs(u: string, frames: seq<(Frame, bool)>, t: string)
    ensures TombsFor(TombBatches(u, frames), t) == if u == t then frames else []
    ensures InsertsFor(TombBatches(u, frames), t) == []
  {
    if frames != [] {
      var n := |frames| - 1;
      ForTombs(u, frames[..n], t);
      var last := LogBatch(u, if frames[n].1 then TombstoneUpdate else Tombstone, frames[n].0);
      assert TombBatches(u, frames) == TombBatches(u, frames[..n]) + [last];
      assert (TombBatches(u, frames[..n]) + [last])[..n] == TombBatches(u, frames[..n]);
      assert frames == frames[..n] + [frames[n]] && (last.frame, last.kind == TombstoneUpdate) == frames[n];
    }
  }

  lemma Units<T>(xs: seq<T>)
    ensures [] + xs == xs == xs + []
  {
  }

  lemma InLast(order: seq<string>, t: string)
    requires order != [] && forall i, j :: 0 <= i < j < |order| ==> order[i] != order[j]
    ensures var front, u := order[..|order| - 1], order[|order| - 1];
            (t in order <==> t in front || t == u) && (t == u ==> t !in front)
  {
    var front, u := order[..|order| - 1], order[|order| - 1];
    assert order == front + [u];
  }

  lemma {:induction false} ForAllInserts(txn: Txn, order: seq<string>, t: string)
    requires forall i, j :: 0 <= i < j < |order| ==> order[i] != order[j]
    ensures InsertsFor(AllInserts(txn, order), t) == if t in order then ListOf(txn.buffer, t) else []
    ensures TombsFor(AllInserts(txn, order), t) == []
  {
    if order != [] {
      var n := |order| - 1;
      var front, u := order[..n], order[n];
      ForAllInserts(txn, front, t);
      ForConcat(AllInserts(txn, front), InsertBatches(u, ListOf(txn.buffer, u)), t);
      ForInserts(u, ListOf(txn.buffer, u), t);
      InLast(order, t);
      Units(ListOf(txn.buffer, t));
    }
  }

  lemma {:induction false} ForAllTombs(txn: Txn, order: seq<string>, t: string)
    requires forall i, j :: 0 <= i < j < |order| ==> order[i] != order[j]
    ensures TombsFor(AllTombs(txn, order), t) == if t in order then ListOf(txn.tombs, t) else []
    ensures InsertsFor(AllTombs(txn, order), t) == []
  {
    if order != [] {
      var n := |order| - 1;
      var front, u := order[..n], order[n];
      ForAllTombs(txn, front, t);
      ForConcat(AllTombs(txn, front), TombBatches(u, ListOf(txn.tombs, u)), t);
      ForTombs(u, ListOf(txn.tombs, u), t);
      InLast(order, t);
      Units(ListOf(txn.tombs, t));
    }
  }

  /** Whatever order the tables are flushed in, each gets its own frames in buffer order. */
  lemma CommitKeepsBufferOrder(txn: Txn, order: seq<string>, t: string)
    requires Lists(order, txn)
    ensures InsertsFor(CommitBatches(txn, order), t) == ListOf(txn.buffer, t)
    ensures TombsFor(CommitBatches(txn, order), t) == ListOf(txn.tombs, t)
  {
    ForAllInserts(txn, order, t);
    ForAllTombs(txn, order, t);
    ForConcat(AllInserts(txn, order), AllTombs(txn, order), t);
  }

  // ---------------------------------------------------------------- COMMIT publishes the transaction's own view

  /** Every stamp is either at most `hi` or the uncommitted stamp `inf`. */
  predicate Split(t: Tagged, hi: int, inf: int) {
    0 <= t.ts <= hi || t.ts == inf
  }

  function Restamp(ts: int, inf: int, now: int): int {
    if ts == inf then now else ts
  }

  lemma {:induction false} RestampKeep(t: Tagged, was: seq<Tomb>, frames: seq<(Frame, bool)>, hi: int, inf: int, now: int, pk: seq<string>)
    requires TombsWithin(was, hi) && 0 <= hi < now && hi < inf && Split(t, hi, inf)
    ensures Keep(t, was + StampTombs(frames, inf), Some(pk)) <==>
            Keep(Tagged(t.row, Restamp(t.ts, inf, now)), was + StampTombs(frames, now), Some(pk))
  {
    var a, b := was + StampTombs(frames, inf), was + StampTombs(frames, now);
    var t' := Tagged(t.row, Restamp(t.ts, inf, now));
    KeepIffNoneKills(t, a, pk);
    KeepIffNoneKills(t', b, pk);
    assert |a| == |b|;
    forall j | 0 <= j < |a|
      ensures Kills(a[j], t, pk) <==> Kills(b[j], t', pk)
    {
      if j < |was| {
        assert a[j] == was[j] == b[j];
      } else {
        assert a[j].rows == b[j].rows && a[j].excludeSame == b[j].excludeSame;
      }
    }
  }

  function RestampAll(src: seq<Tagged>, inf: int, now: int): (out: seq<Tagged>)
    ensures |out| == |src|
    ensures forall i :: 0 <= i < |src| ==> out[i] == Tagged(src[i].row, Restamp(src[i].ts, inf, now))
  {
    seq(|src|, i requires 0 <= i < |src| => Tagged(src[i].row, Restamp(src[i].ts, inf, now)))
  }

  lemma {:induction false} RestampSurvivors(src: seq<Tagged>, was: seq<Tomb>, frames: seq<(Frame, bool)>, hi: int, inf: int, now: int,
                                            pk: seq<string>)
    requires TombsWithin(was, hi) && 0 <= hi < now && hi < inf
    requires forall i :: 0 <= i < |src| ==> Split(src[i], hi, inf)
    ensures Untag(Survivors(src, was + StampTombs(frames, inf), Some(pk))) ==
            Untag(Survivors(RestampAll(src, inf, now), was + StampTombs(frames, now), Some(pk)))
  {
    if src != [] {
      RestampKeep(src[0], was, frames, hi, inf, now, pk);
      RestampSurvivors(src[1..], was, frames, hi, inf, now, pk);
      assert RestampAll(src, inf, now)[1..] == RestampAll(src[1..], inf, now);
    }
  }

  lemma RestampOld(src: seq<Tagged>, hi: int, inf: int, now: int)
    requires StampsWithin(src, hi) && hi < inf
    ensures RestampAll(src, inf, now) == src
    ensures forall i :: 0 <= i < |src| ==> Split(src[i], hi, inf)
  {
  }

  lemma {:induction false} RestampNew(frames: seq<Frame>, hi: int, inf: int, now: int)
    ensures RestampAll(Sources([], StampInserts(frames, inf)), inf, now) == Sources([], StampInserts(frames, now))
    ensures forall i :: 0 <= i < |Sources([], StampInserts(frames, inf))| ==> Split(Sources([], StampInserts(frames, inf))[i], hi, inf)
  {
    if frames != [] {
      var n := |frames| - 1;
      RestampNew(frames[..n], hi, inf, now);
      assert StampInserts(frames, inf)[..n] == StampInserts(frames[..n], inf);
      assert StampInserts(frames, now)[..n] == StampInserts(frames[..n], now);
    }
  }

  lemma RestampSources(base: Frame, bs: seq<Batch>, frames: seq<Frame>, hi: int, inf: int, now: int)
    requires BatchesWithin(bs, hi) && 0 <= hi < inf
    ensures RestampAll(Sources(base, bs + StampInserts(frames, inf)), inf, now) == Sources(base, bs + StampInserts(frames, now))
    ensures forall i :: 0 <= i < |Sources(base, bs + StampInserts(frames, inf))| ==>
              Split(Sources(base, bs + StampInserts(frames, inf))[i], hi, inf)
  {
    SourcesAppend(base, bs, StampInserts(frames, inf));
    SourcesAppend(base, bs, StampInserts(frames, now));
    SourcesWithin(base, bs, hi);
    RestampOld(Sources(base, bs), hi, inf, now);
    RestampNew(frames, hi, inf, now);
  }

  /** Replacing the uncommitted stamp by any later-than-everything timestamp changes no row. */
  lemma RestampVisible(base: Frame, bs: seq<Batch>, tombs: seq<Tomb>, inserts: seq<Frame>, marks: seq<(Frame, bool)>,
                       hi: int, inf: int, now: int, pk: Option<seq<string>>)
    requires BatchesWithin(bs, hi) && TombsWithin(tombs, hi) && 0 <= hi < now && hi < inf
    ensures Visible(base, bs + StampInserts(inserts, inf), tombs + StampTombs(marks, inf), pk) ==
            Visible(base, bs + StampInserts(inserts, now), tombs + StampTombs(marks, now), pk)
  {
    var src := Sources(base, bs + StampInserts(inserts, inf));
    RestampSources(base, bs, inserts, hi, inf, now);
    if pk.Some? {
      RestampSurvivors(src, tombs, marks, hi, inf, now, pk.value);
    } else {
      KeepNoPk(src, tombs + StampTombs(marks, inf));
      KeepNoPk(RestampAll(src, inf, now), tombs + StampTombs(marks, now));
      assert Untag(src) == Untag(RestampAll(src, inf, now));
    }
  }

  /** A table after COMMIT: the buffered frames stand under the new timestamp. */
  lemma CommittedView(k: Coding, cat: Catalog, db: Db, txn: Txn, order: seq<string>, fault: Fault, t: string)
    requires Lists(order, txn) && Written(k, NextRecordOf(db, CommitBatches(txn, order)), fault)
    ensures View(cat, AfterCommit(k, db, CommitBatches(txn, order), fault), t) ==
            Visible(BaseOf(db, t), BatchesOf(db.delta, t) + StampInserts(ListOf(txn.buffer, t), db.commitTs + 1),
                    TombsOf(db.delta, t) + StampTombs(ListOf(txn.tombs, t), db.commitTs + 1), PkOf(cat, t))
  {
    CommitKeepsBufferOrder(txn, order, t);
    ApplyAllPerTable(db.delta, CommitBatches(txn, order), db.commitTs + 1, t);
  }

  /** With nothing committed since its snapshot, the transaction reads the whole delta and its own buffer. */
  lemma OwnView(cat: Catalog, db: Db, log: seq<Record>, k: Coding, txn: Txn, t: string)
    requires Logged(k, cat, db, log) && StampedWithin(log, txn.snapshot)
    ensures TxnView(cat, db, txn, t) ==
            Visible(BaseOf(db, t), BatchesOf(db.delta, t) + StampInserts(ListOf(txn.buffer, t), INS_INF),
                    TombsOf(db.delta, t) + StampTombs(ListOf(txn.tombs, t), INS_INF), PkOf(cat, t))
  {
    LogWithin(log, txn.snapshot, t);
    UpToKeepsAll(BatchesOf(db.delta, t), BatchTs, txn.snapshot);
    UpToKeepsAll(TombsOf(db.delta, t), TombTs, txn.snapshot);
  }

  /** If no other commit landed since BEGIN -- failed ones may have burned timestamps -- COMMIT makes
      every table show exactly what the transaction last saw, for any buffered mix of inserts and
      both tombstone kinds. */
  lemma CommitPublishesOwnView(k: Coding, cat: Catalog, db: Db, log: seq<Record>, txn: Txn, order: seq<string>, fault: Fault, t: string)
    requires Logged(k, cat, db, log) && db.commitTs < INS_INF && StampedWithin(log, txn.snapshot) && Lists(order, txn)
    requires Written(k, NextRecordOf(db, CommitBatches(txn, order)), fault)
    ensures View(cat, AfterCommit(k, db, CommitBatches(txn, order), fault), t) == TxnView(cat, db, txn, t)
  {
    var now := db.commitTs + 1;
    CommittedView(k, cat, db, txn, order, fault, t);
    OwnView(cat, db, log, k, txn, t);
    LogWithin(log, db.commitTs, t);
    RestampVisible(BaseOf(db, t), BatchesOf(db.delta, t), TombsOf(db.delta, t), ListOf(txn.buffer, t), ListOf(txn.tombs, t),
                   db.commitTs, INS_INF, now, PkOf(cat, t));
  }

  /** A transaction that has buffered nothing sees the snapshot; with no other commit since BEGIN
      that is also what every reader sees after ROLLBACK drops the buffer. */
  lemma RollbackShowsSnapshot(k: Coding, cat: Catalog, db: Db, log: seq<Record>, txn: Txn, t: string)
    requires Logged(k, cat, db, log)
    ensures TxnView(cat, db, Txn(txn.snapshot, map[], map[]), t) == ViewAt(cat, db, t, txn.snapshot)
    ensures txn.snapshot == db.commitTs ==> View(cat, db, t) == TxnView(cat, db, Begin(db), t)
  {
    var none: seq<Batch>, noTombs: seq<Tomb> := [], [];
    assert forall s :: StampInserts([], s) == none && StampTombs([], s) == noTombs;
    assert forall bs: seq<Batch> :: bs + none == bs;
    assert forall xs: seq<Tomb> :: xs + noTombs == xs;
    LogWithin(log, db.commitTs, t);
    UpToKeepsAll(BatchesOf(db.delta, t), BatchTs, db.commitTs);
    UpToKeepsAll(TombsOf(db.delta, t), TombTs, db.commitTs);
  }

  // ---------------------------------------------------------------- statements inside a transaction

  /** INSERT and DELETE buffer on the transaction; UPDATE is refused inside one. */
  function TxnDml(cat: Catalog, db: Db, txn: Txn, s: Stmt): Txn {
    if s.table !in cat then txn
    else
      var info, visible := cat[s.table], TxnView(cat, db, txn, s.table);
      match s
      case InsertRows(t, rows) =>
        if rows == [] || !NotNullOk(rows, info.notNull) || !UniqueOk(visible, rows, info) then txn
        else BufferInsert(txn, t, rows)
      case DeleteWhere(t, pred) =>
        var targets := Matching(visible, pred);
        if info.pk.None? || targets == [] then txn else BufferTomb(txn, t, Tombstones(targets, info.pk.value), false)
      case UpdateWhere(_, _, _) => txn
  }

  /** What such a statement reports. */
  function TxnOutcome(cat: Catalog, db: Db, txn: Txn, s: Stmt): Outcome {
    if s.table !in cat then Rejected
    else
      var info, visible := cat[s.table], TxnView(cat, db, txn, s.table);
      match s
      case InsertRows(t, rows) => Reported(InsertEffect(info, visible, t, rows))
      case DeleteWhere(t, pred) => Reported(DeleteEffect(info, visible, t, pred))
      case UpdateWhere(_, _, _) => Rejected
  }

  function Reported(e: Effect): Outcome {
    match e
    case Nothing => Done(0)
    case Refuse => Rejected
    case Write(_, n) => Done(n)
  }

  function DeletedKeys(txn: Txn, t: string, pk: seq<string>): set<Key> {
    TombKeys(StampTombs(ListOf(txn.tombs, t), INS_INF), pk, true)
  }

  /** DELETE inside a transaction removes exactly the tombstoned keys from its view. */
  lemma TxnDelete(cat: Catalog, db: Db, txn: Txn, t: string, tomb: Frame)
    requires PkOf(cat, t).Some?
    requires BatchesWithin(UpTo(BatchesOf(db.delta, t), BatchTs, txn.snapshot), INS_INF)
    ensures var pk := PkOf(cat, t).value;
            TxnView(cat, db, BufferTomb(txn, t, tomb, false), t) == DropKeys(TxnView(cat, db, txn, t), KeySet(tomb, pk), pk)
  {
    var pk, marks := PkOf(cat, t).value, ListOf(txn.tombs, t);
    var src := Sources(BaseOf(db, t), UpTo(BatchesOf(db.delta, t), BatchTs, txn.snapshot) + StampInserts(ListOf(txn.buffer, t), INS_INF));
    var tombs := UpTo(TombsOf(db.delta, t), TombTs, txn.snapshot) + StampTombs(marks, INS_INF);
    var x := Tomb(INS_INF, tomb, false);
    Assoc(UpTo(TombsOf(db.delta, t), TombTs, txn.snapshot), StampTombs(marks, INS_INF), [x]);
    SourcesWithin(BaseOf(db, t), UpTo(BatchesOf(db.delta, t), BatchTs, txn.snapshot) + StampInserts(ListOf(txn.buffer, t), INS_INF), INS_INF);
    assert StampTombs(marks + [(tomb, false)], INS_INF) == StampTombs(marks, INS_INF) + [x];
    DeleteTombDropsKeys(src, tombs, x, pk);
    UntagDrop(Survivors(src, tombs, Some(pk)), KeySet(tomb, pk), pk);
  }

  lemma {:induction false} DeleteTombDropsKeys(src: seq<Tagged>, tombs: seq<Tomb>, x: Tomb, pk: seq<string>)
    requires !x.excludeSame && StampsWithin(src, x.ts)
    ensures Survivors(src, tombs + [x], Some(pk)) == DropTagged(Survivors(src, tombs, Some(pk)), KeySet(x.rows, pk), pk)
  {
    if src != [] {
      DeleteTombDropsKeys(src[1..], tombs, x, pk);
      assert (tombs + [x])[..|tombs + [x]| - 1] == tombs;
      var rest := Survivors(src[1..], tombs, Some(pk));
      if Keep(src[0], tombs, Some(pk)) {
        assert ([src[0]] + rest)[1..] == rest;
      } else {
        assert [] + rest == rest;
      }
    }
  }

  /** INSERT inside a transaction shows every inserted row except those whose key the same
      transaction has deleted. */
  lemma TxnInsert(k: Coding, cat: Catalog, db: Db, log: seq<Record>, txn: Txn, t: string, rows: Frame)
    requires Logged(k, cat, db, log) && db.commitTs < INS_INF && txn.snapshot <= db.commitTs && PkOf(cat, t).Some?
    ensures var pk := PkOf(cat, t).value;
            TxnView(cat, db, BufferInsert(txn, t, rows), t) ==
            TxnView(cat, db, txn, t) + DropKeys(rows, DeletedKeys(txn, t, pk), pk)
  {
    var pk, frames := PkOf(cat, t).value, ListOf(txn.buffer, t);
    var committedB, committed := UpTo(BatchesOf(db.delta, t), BatchTs, txn.snapshot), UpTo(TombsOf(db.delta, t), TombTs, txn.snapshot);
    LogWithin(log, db.commitTs, t);
    UpToStillWithin(TombsOf(db.delta, t), db.commitTs, txn.snapshot);
    assert StampInserts(frames + [rows], INS_INF) == StampInserts(frames, INS_INF) + [Batch(INS_INF, rows)];
    assert committedB + (StampInserts(frames, INS_INF) + [Batch(INS_INF, rows)]) ==
           (committedB + StampInserts(frames, INS_INF)) + [Batch(INS_INF, rows)];
    VisibleAppend(BaseOf(db, t), committedB + StampInserts(frames, INS_INF), rows, committed, ListOf(txn.tombs, t), pk);
  }

  lemma VisibleAppend(base: Frame, bs: seq<Batch>, rows: Frame, committed: seq<Tomb>, marks: seq<(Frame, bool)>, pk: seq<string>)
    requires TombsWithin(committed, INS_INF - 1)
    ensures var tombs := committed + StampTombs(marks, INS_INF);
            Visible(base, bs + [Batch(INS_INF, rows)], tombs, Some(pk)) ==
            Visible(base, bs, tombs, Some(pk)) + DropKeys(rows, TombKeys(StampTombs(marks, INS_INF), pk, true), pk)
  {
    var tombs, ks := committed + StampTombs(marks, INS_INF), TombKeys(StampTombs(marks, INS_INF), pk, true);
    SourcesSnoc(base, bs, Batch(INS_INF, rows));
    SurvivorsConcat(Sources(base, bs), Tag(rows, INS_INF), tombs, Some(pk));
    SameCommitInserts(Tag(rows, INS_INF), committed, StampTombs(marks, INS_INF), INS_INF, pk);
    UntagDrop(Tag(rows, INS_INF), ks, pk);
    assert Untag(Tag(rows, INS_INF)) == rows;
    var a, b := Survivors(Sources(base, bs), tombs, Some(pk)), DropTagged(Tag(rows, INS_INF), ks, pk);
    assert Untag(a + b) == Untag(a) + Untag(b);
  }

  lemma {:induction false} UpToStillWithin(xs: seq<Tomb>, hi: int, ts: int)
    requires TombsWithin(xs, hi)
    ensures TombsWithin(UpTo(xs, TombTs, ts), hi)
  {
    if xs != [] {
      UpToStillWithin(xs[..|xs| - 1], hi, ts);
    }
  }

  lemma {:induction false} DropShorter(rows: Frame, ks: set<Key>, pk: seq<string>)
    ensures |DropKeys(rows, ks, pk)| <= |rows|
    ensures DropKeys(rows, ks, pk) == rows <==> forall i :: 0 <= i < |rows| ==> KeyOf(rows[i], pk) !in ks
  {
    if rows != [] {
      DropShorter(rows[1..], ks, pk);
      if KeyOf(rows[0], pk) !in ks {
        assert ([rows[0]] + DropKeys(rows[1..], ks, pk))[1..] == DropKeys(rows[1..], ks, pk);
        if forall i :: 0 <= i < |rows[1..]| ==> KeyOf(rows[1..][i], pk) !in ks {
          assert forall i :: 1 <= i < |rows| ==> rows[i] == rows[1..][i - 1];
        } else {
          var i :| 0 <= i < |rows[1..]| && KeyOf(rows[1..][i], pk) in ks;
          assert rows[i + 1] == rows[1..][i];
        }
      }
    }
  }

  /** The departure, exactly: an INSERT inside a transaction behaves like an edit of the table if
      and only if none of its keys was deleted earlier in the same transaction. */
  lemma TxnInsertIsPlainIff(k: Coding, cat: Catalog, db: Db, log: seq<Record>, txn: Txn, t: string, rows: Frame)
    requires Logged(k, cat, db, log) && db.commitTs < INS_INF && txn.snapshot <= db.commitTs && PkOf(cat, t).Some?
    ensures TxnView(cat, db, BufferInsert(txn, t, rows), t) == TxnView(cat, db, txn, t) + rows <==>
            forall i :: 0 <= i < |rows| ==> KeyOf(rows[i], PkOf(cat, t).value) !in DeletedKeys(txn, t, PkOf(cat, t).value)
  {
    var pk := PkOf(cat, t).value;
    var before, shown := TxnView(cat, db, txn, t), DropKeys(rows, DeletedKeys(txn, t, pk), pk);
    TxnInsert(k, cat, db, log, txn, t, rows);
    DropShorter(rows, DeletedKeys(txn, t, pk), pk);
    if before + shown == before + rows {
      assert shown == (before + shown)[|before|..] == (before + rows)[|before|..] == rows;
    }
  }

  lemma DeletedKeysGrow(txn: Txn, t: string, tomb: Frame, pk: seq<string>)
    ensures DeletedKeys(BufferTomb(txn, t, tomb, false), t, pk) == DeletedKeys(txn, t, pk) + KeySet(tomb, pk)
  {
    var marks := ListOf(txn.tombs, t);
    assert StampTombs(marks + [(tomb, false)], INS_INF) == StampTombs(marks, INS_INF) + [Tomb(INS_INF, tomb, false)];
    var all := StampTombs(marks, INS_INF) + [Tomb(INS_INF, tomb, false)];
    assert all[..|all| - 1] == StampTombs(marks, INS_INF);
  }

  /** Delete keys, then insert rows carrying only deleted keys: none of the new rows shows. */
  lemma ReinsertStaysHidden(k: Coding, cat: Catalog, db: Db, log: seq<Record>, txn: Txn, t: string, tomb: Frame, rows: Frame)
    requires Logged(k, cat, db, log) && db.commitTs < INS_INF && txn.snapshot <= db.commitTs && PkOf(cat, t).Some?
    requires forall i :: 0 <= i < |rows| ==> KeyOf(rows[i], PkOf(cat, t).value) in KeySet(tomb, PkOf(cat, t).value)
    ensures TxnView(cat, db, BufferInsert(BufferTomb(txn, t, tomb, false), t, rows), t) ==
            TxnView(cat, db, BufferTomb(txn, t, tomb, false), t)
  {
    var pk, txn1 := PkOf(cat, t).value, BufferTomb(txn, t, tomb, false);
    TxnInsert(k, cat, db, log, txn1, t, rows);
    DeletedKeysGrow(txn, t, tomb, pk);
    AllDropped(rows, DeletedKeys(txn1, t, pk), pk);
  }

  lemma {:induction false} AllDropped(rows: Frame, ks: set<Key>, pk: seq<string>)
    requires forall i :: 0 <= i < |rows| ==> KeyOf(rows[i], pk) in ks
    ensures DropKeys(rows, ks, pk) == []
  {
    if rows != [] {
      AllDropped(rows[1..], ks, pk);
    }
  }

  const EXAMPLE_CAT: Catalog := map["t" := TableInfo(Some(["id"]), [], {"id"})]

  const EXAMPLE_ROW: Row := map["id" := Int(1)]

  lemma ExampleRow()
    ensures KeyOf(EXAMPLE_ROW, ["id"]) == [Int(1)] && Tombstones([EXAMPLE_ROW], ["id"]) == [EXAMPLE_ROW]
    ensures NotNullOk([EXAMPLE_ROW], {"id"}) && UniqueOk([], [EXAMPLE_ROW], EXAMPLE_CAT["t"])
  {
    assert ColumnSet(["id"]) == {"id"} by {
      assert ["id"][0] == "id";
    }
    assert Narrow(EXAMPLE_ROW, {"id"}) == EXAMPLE_ROW;
    assert NarrowAll([EXAMPLE_ROW], {"id"}) == [EXAMPLE_ROW];
  }

  lemma MatchingAll(row: Row, pred: Row -> bool)
    requires pred(row)
    ensures Matching([row], pred) == [row]
  {
    assert [row][1..] == [];
    assert Matching([row], pred) == [row] + [];
  }

  /** Concretely: DELETE the only row, then INSERT it again.  Both statements are accepted -- the
      INSERT finds no such key in view and its row is in the buffer -- and the transaction sees no row. */
  lemma ReinsertExample(k: Coding)
    ensures var db := Fresh(map["t" := [EXAMPLE_ROW]]);
            var deleted := TxnDml(EXAMPLE_CAT, db, Begin(db), DeleteWhere("t", (r: Row) => true));
            var reinserted := TxnDml(EXAMPLE_CAT, db, deleted, InsertRows("t", [EXAMPLE_ROW]));
            && TxnView(EXAMPLE_CAT, db, Begin(db), "t") == [EXAMPLE_ROW]
            && TxnView(EXAMPLE_CAT, db, deleted, "t") == []
            && reinserted == BufferInsert(deleted, "t", [EXAMPLE_ROW])
            && TxnView(EXAMPLE_CAT, db, reinserted, "t") == []
  {
    var row, pk := EXAMPLE_ROW, ["id"];
    var db := Fresh(map["t" := [row]]);
    var all := (r: Row) => true;
    var deleted := BufferTomb(Begin(db), "t", [row], false);
    ExampleRow();
    assert [row][0] in [row];
    FreshSim(k, EXAMPLE_CAT, map["t" := [row]]);
    NothingToMerge([row], Some(pk));
    RollbackShowsSnapshot(k, EXAMPLE_CAT, db, [], Begin(db), "t");
    MatchingAll(row, all);
    TxnDelete(EXAMPLE_CAT, db, Begin(db), "t", [row]);
    AllDropped([row], KeySet([row], pk), pk);
    ReinsertStaysHidden(k, EXAMPLE_CAT, db, [], Begin(db), "t", [row], [row]);
  }

  // ---------------------------------------------------------------- commits that raced

  /** Keys the transaction's tombstones name, of either kind. */
  function WrittenKeys(txn: Txn, t: string, pk: seq<string>): set<Key> {
    TombKeys(StampTombs(ListOf(txn.tombs, t), 0), pk, false)
  }

  /** The buffered rows that show: all but those whose key the transaction itself deletes. */
  function ShownRows(txn: Txn, t: string, pk: seq<string>): Frame {
    DropKeys(FrameRows(StampInserts(ListOf(txn.buffer, t), 0)), TombKeys(StampTombs(ListOf(txn.tombs, t), 0), pk, true), pk)
  }

  /** A transaction reads its snapshot without the keys it has written, then the rows it shows. */
  lemma TxnViewIsEdit(k: Coding, cat: Catalog, db: Db, log: seq<Record>, txn: Txn, t: string)
    requires Logged(k, cat, db, log) && db.commitTs < INS_INF && txn.snapshot <= db.commitTs && PkOf(cat, t).Some?
    ensures var pk := PkOf(cat, t).value;
            TxnView(cat, db, txn, t) == DropKeys(ViewAt(cat, db, t, txn.snapshot), WrittenKeys(txn, t, pk), pk) + ShownRows(txn, t, pk)
  {
    var pk := PkOf(cat, t).value;
    var bs, tombs := UpTo(BatchesOf(db.delta, t), BatchTs, txn.snapshot), UpTo(TombsOf(db.delta, t), TombTs, txn.snapshot);
    LogWithin(log, db.commitTs, t);
    UpToStillWithin(TombsOf(db.delta, t), db.commitTs, txn.snapshot);
    UpToBatchesWithin(BatchesOf(db.delta, t), db.commitTs, txn.snapshot);
    var newB, newT := StampInserts(ListOf(txn.buffer, t), INS_INF), StampTombs(ListOf(txn.tombs, t), INS_INF);
    CommitIsPlainEdit(BaseOf(db, t), bs, tombs, newB, newT, INS_INF, Some(pk));
    StampIndependent(ListOf(txn.buffer, t), ListOf(txn.tombs, t), INS_INF, 0, pk, false);
    StampIndependent(ListOf(txn.buffer, t), ListOf(txn.tombs, t), INS_INF, 0, pk, true);
  }

  lemma {:induction false} UpToBatchesWithin(xs: seq<Batch>, hi: int, ts: int)
    requires BatchesWithin(xs, hi)
    ensures BatchesWithin(UpTo(xs, BatchTs, ts), hi)
  {
    if xs != [] { UpToBatchesWithin(xs[..|xs| - 1], hi, ts); }
  }

  /** COMMIT does the same to what is committed by then. */
  lemma CommitIsEdit(k: Coding, cat: Catalog, db: Db, log: seq<Record>, txn: Txn, order: seq<string>, fault: Fault, t: string)
    requires Logged(k, cat, db, log) && Lists(order, txn) && PkOf(cat, t).Some?
    requires Written(k, NextRecordOf(db, CommitBatches(txn, order)), fault)
    ensures var pk := PkOf(cat, t).value;
            View(cat, AfterCommit(k, db, CommitBatches(txn, order), fault), t) ==
            DropKeys(View(cat, db, t), WrittenKeys(txn, t, pk), pk) + ShownRows(txn, t, pk)
  {
    var bs := CommitBatches(txn, order);
    CommitKeepsBufferOrder(txn, order, t);
    CommitViews(k, cat, db, log, bs, t);
    LandedView(k, cat, db, bs, fault, t);
  }

  lemma LandedView(k: Coding, cat: Catalog, db: Db, bs: seq<LogBatch>, fault: Fault, t: string)
    requires Written(k, NextRecordOf(db, bs), fault)
    ensures View(cat, AfterCommit(k, db, bs, fault), t) == View(cat, db.(delta := ApplyAll(db.delta, bs, db.commitTs + 1)), t)
  {
  }

  /** A row others committed since BEGIN that this transaction neither deletes nor replaces. */
  predicate CommittedSince(cat: Catalog, db: Db, txn: Txn, t: string, pk: seq<string>, r: Row) {
    r in View(cat, db, t) && r !in ViewAt(cat, db, t, txn.snapshot) && KeyOf(r, pk) !in WrittenKeys(txn, t, pk)
  }

  predicate SameKey(a: Row, b: Row, cols: seq<string>) {
    KeyOf(a, cols) == KeyOf(b, cols) && Null !in KeyOf(a, cols)
  }

  /** COMMIT checks nothing against commits that landed since BEGIN.  For a transaction whose own
      view satisfies a uniqueness constraint, over a table that satisfies it, the table satisfies it
      after COMMIT exactly when no row committed since BEGIN, and not written over by the
      transaction, shares its key with a buffered row that shows. */
  lemma CommitKeepsKeysIff(k: Coding, cat: Catalog, db: Db, log: seq<Record>, txn: Txn, order: seq<string>, fault: Fault,
                           t: string, cols: seq<string>)
    requires Logged(k, cat, db, log) && db.commitTs < INS_INF && txn.snapshot <= db.commitTs && Lists(order, txn)
    requires Written(k, NextRecordOf(db, CommitBatches(txn, order)), fault) && PkOf(cat, t).Some?
    requires KeysDistinct(View(cat, db, t), cols) && KeysDistinct(TxnView(cat, db, txn, t), cols)
    ensures var pk := PkOf(cat, t).value;
            KeysDistinct(View(cat, AfterCommit(k, db, CommitBatches(txn, order), fault), t), cols) <==>
            forall r, b :: CommittedSince(cat, db, txn, t, pk, r) && b in ShownRows(txn, t, pk) ==> !SameKey(r, b, cols)
  {
    var pk := PkOf(cat, t).value;
    var now, past, ks, shown := View(cat, db, t), ViewAt(cat, db, t, txn.snapshot), WrittenKeys(txn, t, pk), ShownRows(txn, t, pk);
    TxnViewIsEdit(k, cat, db, log, txn, t);
    CommitIsEdit(k, cat, db, log, txn, order, fault, t);
    DropKeepsDistinct(now, ks, pk, cols);
    SplitDistinct(DropKeys(past, ks, pk), shown, cols);
    SplitDistinct(DropKeys(now, ks, pk), shown, cols);
    DropKeysSubset(now, ks, pk);
    DropKeysSubset(past, ks, pk);
    MeetByRows(DropKeys(now, ks, pk), shown, cols);
    MeetByRows(DropKeys(past, ks, pk), shown, cols);
  }

  /** Distinct keys over two lists together: over each, and none shared. */
  lemma SplitDistinct(a: Frame, b: Frame, cols: seq<string>)
    ensures KeysDistinct(a + b, cols) <==> KeysDistinct(a, cols) && KeysDistinct(b, cols) && NoCollision(a, b, cols)
  {
    var all := a + b;
    if KeysDistinct(all, cols) {
      assert forall i :: 0 <= i < |a| ==> all[i] == a[i];
      assert forall j :: 0 <= j < |b| ==> all[|a| + j] == b[j];
      forall i, j | 0 <= i < |a| && 0 <= j < |b|
        ensures KeyOf(a[i], cols) != KeyOf(b[j], cols) || Null in KeyOf(a[i], cols)
      {
        assert all[i] == a[i] && all[|a| + j] == b[j];
      }
      forall i, j | 0 <= i < j < |b|
        ensures KeyOf(b[i], cols) != KeyOf(b[j], cols) || Null in KeyOf(b[i], cols)
      {
        assert all[|a| + i] == b[i] && all[|a| + j] == b[j];
      }
    } else if KeysDistinct(a, cols) && KeysDistinct(b, cols) && NoCollision(a, b, cols) {
      ConcatDistinct(a, b, cols);
    }
  }

  lemma MeetByRows(a: Frame, b: Frame, cols: seq<string>)
    ensures NoCollision(a, b, cols) <==> forall x, y :: x in a && y in b ==> !SameKey(x, y, cols)
  {
    if NoCollision(a, b, cols) {
      forall x, y | x in a && y in b ensures !SameKey(x, y, cols) {
        var i :| 0 <= i < |a| && a[i] == x;
        var j :| 0 <= j < |b| && b[j] == y;
      }
    }
    if forall x, y :: x in a && y in b ==> !SameKey(x, y, cols) {
      forall i, j | 0 <= i < |a| && 0 <= j < |b|
        ensures KeyOf(a[i], cols) != KeyOf(b[j], cols) || Null in KeyOf(a[i], cols)
      {
        assert !SameKey(a[i], b[j], cols);
      }
    }
  }

  /** The checks made inside a transaction keep its own view within every declared constraint. */
  lemma TxnDmlKeepsKeys(k: Coding, cat: Catalog, db: Db, log: seq<Record>, txn: Txn, s: Stmt, t: string, cols: seq<string>)
    requires Logged(k, cat, db, log) && db.commitTs < INS_INF && txn.snapshot <= db.commitTs
    requires t in cat && cat[t].pk.Some? && Declared(cat[t], cols)
    requires KeysDistinct(TxnView(cat, db, txn, t), cols)
    ensures KeysDistinct(TxnView(cat, db, TxnDml(cat, db, txn, s), t), cols)
  {
    var pk, visible := cat[t].pk.value, TxnView(cat, db, txn, t);
    if s.table == t && TxnDml(cat, db, txn, s) != txn {
      match s
      case InsertRows(_, rows) =>
        TxnInsert(k, cat, db, log, txn, t, rows);
        InsertKeepsKeys(visible, rows, DeletedKeys(txn, t, pk), pk, cols);
      case DeleteWhere(_, pred) =>
        var tomb := Tombstones(Matching(visible, pred), pk);
        LogWithin(log, db.commitTs, t);
        UpToBatchesWithin(BatchesOf(db.delta, t), db.commitTs, txn.snapshot);
        TxnDelete(cat, db, txn, t, tomb);
        DropKeepsDistinct(visible, KeySet(tomb, pk), pk, cols);
      case UpdateWhere(_, _, _) =>
    }
  }

  lemma InsertKeepsKeys(visible: Frame, rows: Frame, ks: set<Key>, pk: seq<string>, cols: seq<string>)
    requires KeysDistinct(visible, cols) && KeysDistinct(rows, cols) && NoCollision(visible, rows, cols)
    ensures KeysDistinct(visible + DropKeys(rows, ks, pk), cols)
  {
    var shown := DropKeys(rows, ks, pk);
    DropKeepsDistinct(rows, ks, pk, cols);
    DropKeysSubset(rows, ks, pk);
    MeetByRows(visible, rows, cols);
    MeetByRows(visible, shown, cols);
    ConcatDistinct(visible, shown, cols);
  }
}
