/**
 The in-memory delta: per table, insert batches and tombstones in commit order.  `Delta` is the
 value of the store, `DeltaStore` the object that updates it in place.
 */
module Deltas {
  import opened Values
  import opened Mvcc
  import opened WalFormat
  import opened Wal

  datatype Delta = Delta(batches: map<string, seq<Batch>>, tombs: map<string, seq<Tomb>>)

  const EMPTY_DELTA := Delta(map[], map[])

  // ---------------------------------------------------------------- one channel: lists of stamped entries per table

  function ListOf<T>(m: map<string, seq<T>>, t: string): seq<T> {
    if t in m then m[t] else []
  }

  function Push<T>(m: map<string, seq<T>>, t: string, x: T): map<string, seq<T>> {
    m[t := ListOf(m, t) + [x]]
  }

  function UpTo<T>(xs: seq<T>, at: T -> int, ts: int): seq<T> {
    if xs == [] then []
    else UpTo(xs[..|xs| - 1], at, ts) + (if at(xs[|xs| - 1]) <= ts then [xs[|xs| - 1]] else [])
  }

  /** Keep entries up to `ts`; tables left with nothing disappear. */
  function Pruned<T>(m: map<string, seq<T>>, at: T -> int, ts: int): map<string, seq<T>> {
    map t | t in m && UpTo(m[t], at, ts) != [] :: UpTo(m[t], at, ts)
  }

  lemma {:induction false} UpToConcat<T>(a: seq<T>, b: seq<T>, at: T -> int, ts: int)
    ensures UpTo(a + b, at, ts) == UpTo(a, at, ts) + UpTo(b, at, ts)
  {
    if b == [] {
      assert a + b == a;
    } else {
      UpToConcat(a, b[..|b| - 1], at, ts);
      assert (a + b)[..|a + b| - 1] == a + b[..|b| - 1];
    }
  }

  lemma {:induction false} UpToKeepsAll<T>(xs: seq<T>, at: T -> int, ts: int)
    requires forall i :: 0 <= i < |xs| ==> at(xs[i]) <= ts
    ensures UpTo(xs, at, ts) == xs
  {
    if xs != [] {
      UpToKeepsAll(xs[..|xs| - 1], at, ts);
    }
  }

  lemma {:induction false} UpToDropsAll<T>(xs: seq<T>, at: T -> int, ts: int)
    requires forall i :: 0 <= i < |xs| ==> at(xs[i]) > ts
    ensures UpTo(xs, at, ts) == []
  {
    if xs != [] {
      UpToDropsAll(xs[..|xs| - 1], at, ts);
    }
  }

  lemma {:induction false} UpToUpTo<T>(xs: seq<T>, at: T -> int, hi: int, ts: int)
    requires ts <= hi
    ensures UpTo(UpTo(xs, at, hi), at, ts) == UpTo(xs, at, ts)
  {
    if xs != [] {
      var n := |xs| - 1;
      UpToUpTo(xs[..n], at, hi, ts);
      UpToConcat(UpTo(xs[..n], at, hi), if at(xs[n]) <= hi then [xs[n]] else [], at, ts);
    }
  }

  /** The length test of the rewind loop detects any loss at all. */
  lemma {:induction false} UpToSameLength<T>(xs: seq<T>, at: T -> int, ts: int)
    ensures |UpTo(xs, at, ts)| <= |xs| && (|UpTo(xs, at, ts)| == |xs| ==> UpTo(xs, at, ts) == xs)
  {
    if xs != [] {
      UpToSameLength(xs[..|xs| - 1], at, ts);
    }
  }

  lemma PrunedPush<T>(m: map<string, seq<T>>, t: string, x: T, at: T -> int, ts: int)
    ensures Pruned(Push(m, t, x), at, ts) == if at(x) <= ts then Push(Pruned(m, at, ts), t, x) else Pruned(m, at, ts)
  {
    var was := ListOf(m, t);
    assert (was + [x])[..|was|] == was;
    assert UpTo(was + [x], at, ts) == UpTo(was, at, ts) + (if at(x) <= ts then [x] else []);
    if at(x) > ts {
      assert UpTo(was, at, ts) + [] == UpTo(was, at, ts);
    }
  }

  // ---------------------------------------------------------------- both channels

  function BatchTs(b: Batch): int {
    b.ts
  }

  function TombTs(x: Tomb): int {
    x.ts
  }

  function BatchesOf(d: Delta, t: string): seq<Batch> {
    ListOf(d.batches, t)
  }

  function TombsOf(d: Delta, t: string): seq<Tomb> {
    ListOf(d.tombs, t)
  }

  function ApplyOne(d: Delta, b: LogBatch, ts: int): Delta {
    match b.kind
    case Insert => d.(batches := Push(d.batches, b.table, Batch(ts, b.frame)))
    case Tombstone => d.(tombs := Push(d.tombs, b.table, Tomb(ts, b.frame, false)))
    case TombstoneUpdate => d.(tombs := Push(d.tombs, b.table, Tomb(ts, b.frame, true)))
  }

  function ApplyAll(d: Delta, bs: seq<LogBatch>, ts: int): Delta {
    if bs == [] then d else ApplyOne(ApplyAll(d, bs[..|bs| - 1], ts), bs[|bs| - 1], ts)
  }

  function ApplyLog(log: seq<Record>): Delta {
    if log == [] then EMPTY_DELTA
    else ApplyAll(ApplyLog(log[..|log| - 1]), log[|log| - 1].batches, log[|log| - 1].ts)
  }

  // ---------------------------------------------------------------- what one commit adds to one table

  function InsertsFor(bs: seq<LogBatch>, t: string): seq<Frame> {
    if bs == [] then []
    else
      var last := bs[|bs| - 1];
      InsertsFor(bs[..|bs| - 1], t) + (if last.table == t && last.kind == Insert then [last.frame] else [])
  }

  function TombsFor(bs: seq<LogBatch>, t: string): seq<(Frame, bool)> {
    if bs == [] then []
    else
      var last := bs[|bs| - 1];
      TombsFor(bs[..|bs| - 1], t) +
      (if last.table == t && last.kind != Insert then [(last.frame, last.kind == TombstoneUpdate)] else [])
  }

  lemma ApplyOnePerTable(d: Delta, b: LogBatch, ts: int, t: string, inserts: seq<Frame>, tombs: seq<(Frame, bool)>)
    ensures BatchesOf(ApplyOne(d, b, ts), t) ==
            BatchesOf(d, t) + (if b.table == t && b.kind == Insert then [Batch(ts, b.frame)] else [])
    ensures TombsOf(ApplyOne(d, b, ts), t) ==
            TombsOf(d, t) +
            (if b.table == t && b.kind != Insert then [Tomb(ts, b.frame, b.kind == TombstoneUpdate)] else [])
    ensures StampInserts(inserts + [b.frame], ts) == StampInserts(inserts, ts) + [Batch(ts, b.frame)]
    ensures StampTombs(tombs + [(b.frame, b.kind == TombstoneUpdate)], ts) ==
            StampTombs(tombs, ts) + [Tomb(ts, b.frame, b.kind == TombstoneUpdate)]
  {
    assert BatchesOf(d, t) + [] == BatchesOf(d, t);
    assert TombsOf(d, t) + [] == TombsOf(d, t);
  }

  /** A commit appends to each table its own frames, in order, all under the commit's timestamp. */
  lemma {:induction false} ApplyAllPerTable(d: Delta, bs: seq<LogBatch>, ts: int, t: string)
    ensures BatchesOf(ApplyAll(d, bs, ts), t) == BatchesOf(d, t) + StampInserts(InsertsFor(bs, t), ts)
    ensures TombsOf(ApplyAll(d, bs, ts), t) == TombsOf(d, t) + StampTombs(TombsFor(bs, t), ts)
  {
    if bs == [] {
      assert BatchesOf(d, t) + [] == BatchesOf(d, t);
      assert TombsOf(d, t) + [] == TombsOf(d, t);
    } else {
      var n := |bs| - 1;
      var last := bs[n];
      var ins, tombs := InsertsFor(bs[..n], t), TombsFor(bs[..n], t);
      ApplyAllPerTable(d, bs[..n], ts, t);
      ApplyOnePerTable(ApplyAll(d, bs[..n], ts), last, ts, t, ins, tombs);
      assert ins + [] == ins && tombs + [] == tombs;
      Assoc(BatchesOf(d, t), StampInserts(ins, ts), [Batch(ts, last.frame)]);
      Assoc(TombsOf(d, t), StampTombs(tombs, ts), [Tomb(ts, last.frame, last.kind == TombstoneUpdate)]);
      Assoc(BatchesOf(d, t), StampInserts(ins, ts), []);
      Assoc(TombsOf(d, t), StampTombs(tombs, ts), []);
    }
  }

  lemma {:induction false} ApplyAllTables(d: Delta, bs: seq<LogBatch>, ts: int, tables: set<string>)
    requires d.batches.Keys <= tables && d.tombs.Keys <= tables
    requires forall i :: 0 <= i < |bs| ==> bs[i].table in tables
    ensures ApplyAll(d, bs, ts).batches.Keys <= tables && ApplyAll(d, bs, ts).tombs.Keys <= tables
  {
    if bs != [] {
      ApplyAllTables(d, bs[..|bs| - 1], ts, tables);
    }
  }

  // ---------------------------------------------------------------- timestamps

  /** Entries up to `s` are untouched by a commit stamped later than `s`. */
  lemma UpToAfterCommit(d: Delta, bs: seq<LogBatch>, ts: int, t: string, s: int)
    requires s < ts
    ensures UpTo(BatchesOf(ApplyAll(d, bs, ts), t), BatchTs, s) == UpTo(BatchesOf(d, t), BatchTs, s)
    ensures UpTo(TombsOf(ApplyAll(d, bs, ts), t), TombTs, s) == UpTo(TombsOf(d, t), TombTs, s)
  {
    var newB, newT := StampInserts(InsertsFor(bs, t), ts), StampTombs(TombsFor(bs, t), ts);
    ApplyAllPerTable(d, bs, ts, t);
    UpToConcat(BatchesOf(d, t), newB, BatchTs, s);
    UpToDropsAll(newB, BatchTs, s);
    UpToConcat(TombsOf(d, t), newT, TombTs, s);
    UpToDropsAll(newT, TombTs, s);
  }

  predicate StampedWithin(log: seq<Record>, hi: int) {
    forall i :: 0 <= i < |log| ==> 1 <= log[i].ts <= hi
  }

  lemma {:induction false} LogWithin(log: seq<Record>, hi: int, t: string)
    requires StampedWithin(log, hi)
    ensures BatchesWithin(BatchesOf(ApplyLog(log), t), hi) && TombsWithin(TombsOf(ApplyLog(log), t), hi)
  {
    if log != [] {
      var n := |log| - 1;
      assert forall i :: 0 <= i < n ==> log[..n][i] == log[i];
      LogWithin(log[..n], hi, t);
      ApplyAllPerTable(ApplyLog(log[..n]), log[n].batches, log[n].ts, t);
    }
  }

  // ---------------------------------------------------------------- rewinding

  /** Drop everything newer than `ts` from both channels. */
  function RewindTo(d: Delta, ts: int): Delta {
    Delta(Pruned(d.batches, BatchTs, ts), Pruned(d.tombs, TombTs, ts))
  }

  lemma RewindApplyOne(d: Delta, b: LogBatch, s: int, ts: int)
    ensures RewindTo(ApplyOne(d, b, s), ts) == if s <= ts then ApplyOne(RewindTo(d, ts), b, s) else RewindTo(d, ts)
  {
    if b.kind == Insert {
      PrunedPush(d.batches, b.table, Batch(s, b.frame), BatchTs, ts);
    } else {
      PrunedPush(d.tombs, b.table, Tomb(s, b.frame, b.kind == TombstoneUpdate), TombTs, ts);
    }
  }

  lemma {:induction false} RewindApplyAll(d: Delta, bs: seq<LogBatch>, s: int, ts: int)
    ensures RewindTo(ApplyAll(d, bs, s), ts) == if s <= ts then ApplyAll(RewindTo(d, ts), bs, s) else RewindTo(d, ts)
  {
    if bs != [] {
      var n := |bs| - 1;
      RewindApplyAll(d, bs[..n], s, ts);
      RewindApplyOne(ApplyAll(d, bs[..n], s), bs[n], s, ts);
    }
  }

  lemma {:induction false} CutSnoc(log: seq<Record>, r: Record, ts: int)
    requires Increasing(log + [r])
    ensures CutLog(log + [r], ts) == if r.ts <= ts then CutLog(log, ts) + [r] else CutLog(log, ts)
  {
    if log == [] {
      assert (log + [r])[1..] == [];
    } else {
      assert (log + [r])[1..] == log[1..] + [r];
      assert (log + [r])[0] == log[0] && (log + [r])[|log|] == r;
      assert log[0].ts < r.ts;
      assert Increasing(log[1..] + [r]) by {
        assert forall i :: 0 <= i < |log| ==> (log[1..] + [r])[i] == (log + [r])[i + 1];
      }
      CutSnoc(log[1..], r, ts);
    }
  }

  /** Cutting the log and replaying it is the same as replaying it and rewinding. */
  lemma {:induction false} CutThenReplay(log: seq<Record>, ts: int)
    requires Increasing(log)
    ensures ApplyLog(CutLog(log, ts)) == RewindTo(ApplyLog(log), ts)
  {
    if log != [] {
      var n := |log| - 1;
      var front, r := log[..n], log[n];
      assert log == front + [r];
      CutThenReplay(front, ts);
      CutSnoc(front, r, ts);
      RewindApplyAll(ApplyLog(front), r.batches, r.ts, ts);
      if r.ts <= ts {
        assert (CutLog(front, ts) + [r])[..|CutLog(front, ts)|] == CutLog(front, ts);
      }
    }
  }

  // ---------------------------------------------------------------- the store object

  class DeltaStore {
    var batches: map<string, seq<Batch>>
    var tombstones: map<string, seq<Tomb>>

    constructor ()
      ensures Value() == EMPTY_DELTA
    {
      batches, tombstones := map[], map[];
    }

    function Value(): Delta
      reads this
    {
      Delta(batches, tombstones)
    }

    /** A table is pending when it holds unflushed inserts or tombstones. */
    method HasUnflushed(t: string) returns (pending: bool)
      ensures pending <==> BatchesOf(Value(), t) != [] || TombsOf(Value(), t) != []
    {
      pending := (t in batches && batches[t] != []) || (t in tombstones && tombstones[t] != []);
    }

    method Append(t: string, frame: Frame, ts: int)
      modifies this`batches
      ensures batches == Push(old(batches), t, Batch(ts, frame))
    {
      if t !in batches {
        batches := batches[t := []];
      }
      batches := batches[t := batches[t] + [Batch(ts, frame)]];
    }

    method AppendTombstone(t: string, frame: Frame, ts: int, excludeSame: bool)
      modifies this`tombstones
      ensures tombstones == Push(old(tombstones), t, Tomb(ts, frame, excludeSame))
    {
      if t !in tombstones {
        tombstones := tombstones[t := []];
      }
      tombstones := tombstones[t := tombstones[t] + [Tomb(ts, frame, excludeSame)]];
    }

    method AppendRecord(bs: seq<LogBatch>, ts: int)
      modifies this
      ensures Value() == ApplyAll(old(Value()), bs, ts)
    {
      for i := 0 to |bs|
        invariant Value() == ApplyAll(old(Value()), bs[..i], ts)
      {
        match bs[i].kind {
          case Insert => Append(bs[i].table, bs[i].frame, ts);
          case Tombstone => AppendTombstone(bs[i].table, bs[i].frame, ts, false);
          case TombstoneUpdate => AppendTombstone(bs[i].table, bs[i].frame, ts, true);
        }
        assert bs[..i + 1][..i] == bs[..i];
      }
      assert bs[..|bs|] == bs;
    }

    /** Snapshot restore: keep only entries up to `ts`, report the tables that lost any. */
    method Rewind(ts: int) returns (touched: set<string>)
      modifies this
      ensures Value() == RewindTo(old(Value()), ts)
      ensures touched == Losers(old(batches), BatchTs, ts) + Losers(old(tombstones), TombTs, ts)
    {
      var lostBatches, lostTombs;
      batches, lostBatches := PruneChannel(batches, BatchTs, ts);
      tombstones, lostTombs := PruneChannel(tombstones, TombTs, ts);
      touched := lostBatches + lostTombs;
    }

    method Clear(t: string)
      modifies this
      ensures Value() == Delta(old(batches) - {t}, old(tombstones) - {t})
    {
      batches, tombstones := batches - {t}, tombstones - {t};
    }
  }

  /** Tables that lose an entry when the channel is cut at `ts`. */
  function Losers<T(==)>(m: map<string, seq<T>>, at: T -> int, ts: int): set<string> {
    set t | t in m && m[t] != UpTo(m[t], at, ts)
  }

  method PruneChannel<T(==)>(m: map<string, seq<T>>, at: T -> int, ts: int)
    returns (kept: map<string, seq<T>>, lost: set<string>)
    ensures kept == Pruned(m, at, ts) && lost == Losers(m, at, ts)
  {
    var todo := m.Keys;
    kept, lost := map[], {};
    while todo != {}
      invariant todo <= m.Keys
      invariant kept == map t | t in m && t !in todo && UpTo(m[t], at, ts) != [] :: UpTo(m[t], at, ts)
      invariant lost == set t | t in m && t !in todo && m[t] != UpTo(m[t], at, ts)
      decreases todo
    {
      var t :| t in todo;
      var keep := UpTo(m[t], at, ts);
      if |keep| != |m[t]| {
        lost := lost + {t};
      }
      UpToSameLength(m[t], at, ts);
      if keep != [] {
        kept := kept[t := keep];
      }
      todo := todo - {t};
    }
  }
}
