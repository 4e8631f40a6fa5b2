/**
 The timestamp-aware merge that every read goes through: base rows and insert batches tagged
 with an insertion timestamp, minus the rows a tombstone kills.  A DELETE tombstone kills rows
 with `ins_ts <= tomb_ts`; an UPDATE tombstone spares rows of its own timestamp.
 */
module Mvcc {
  import opened Values

  /** Timestamp given to a transaction's own uncommitted writes, above every commit timestamp. */
  const INS_INF: int := 0x4000_0000_0000_0000

  datatype Batch = Batch(ts: int, rows: seq<Row>)

  datatype Tomb = Tomb(ts: int, rows: seq<Row>, excludeSame: bool)

  datatype Tagged = Tagged(row: Row, ts: int)

  function Max(a: int, b: int): int {
    if a < b then b else a
  }

  // ---------------------------------------------------------------- tagging

  function Tag(rows: seq<Row>, ts: int): (out: seq<Tagged>)
    ensures |out| == |rows|
    ensures forall i :: 0 <= i < |rows| ==> out[i] == Tagged(rows[i], ts)
  {
    seq(|rows|, i requires 0 <= i < |rows| => Tagged(rows[i], ts))
  }

  function Untag(src: seq<Tagged>): (out: seq<Row>)
    ensures |out| == |src|
    ensures forall i :: 0 <= i < |src| ==> out[i] == src[i].row
  {
    seq(|src|, i requires 0 <= i < |src| => src[i].row)
  }

  function Sources(base: seq<Row>, batches: seq<Batch>): seq<Tagged> {
    if batches == [] then Tag(base, 0)
    else
      var last := batches[|batches| - 1];
      Sources(base, batches[..|batches| - 1]) + Tag(last.rows, last.ts)
  }

  // ---------------------------------------------------------------- the anti-join

  /** Newest tombstone of one kind for a key, -1 when there is none. */
  function NewestTomb(tombs: seq<Tomb>, pk: seq<string>, k: Key, excludeSame: bool): int {
    if tombs == [] then -1
    else
      var last := tombs[|tombs| - 1];
      var rest := NewestTomb(tombs[..|tombs| - 1], pk, k, excludeSame);
      if last.excludeSame == excludeSame && k in KeySet(last.rows, pk) then Max(rest, last.ts) else rest
  }

  predicate Keep(t: Tagged, tombs: seq<Tomb>, pk: Option<seq<string>>) {
    pk.Some? ==>
      var k := KeyOf(t.row, pk.value);
      NewestTomb(tombs, pk.value, k, false) < t.ts && NewestTomb(tombs, pk.value, k, true) <= t.ts
  }

  function Survivors(src: seq<Tagged>, tombs: seq<Tomb>, pk: Option<seq<string>>): seq<Tagged> {
    if src == [] then []
    else (if Keep(src[0], tombs, pk) then [src[0]] else []) + Survivors(src[1..], tombs, pk)
  }

  /** The rows a reader sees. */
  function Visible(base: seq<Row>, batches: seq<Batch>, tombs: seq<Tomb>, pk: Option<seq<string>>): seq<Row> {
    Untag(Survivors(Sources(base, batches), tombs, pk))
  }

  // ---------------------------------------------------------------- the defining rule, row by row

  /** What one tombstone does to one row, as the storage design states it. */
  predicate Kills(tomb: Tomb, t: Tagged, pk: seq<string>) {
    KeyOf(t.row, pk) in KeySet(tomb.rows, pk) && (if tomb.excludeSame then t.ts < tomb.ts else t.ts <= tomb.ts)
  }

  /** Reducing each kind of tombstone to its newest timestamp loses nothing: a row is kept
      exactly when no single tombstone kills it. */
  lemma {:induction false} KeepIffNoneKills(t: Tagged, tombs: seq<Tomb>, pk: seq<string>)
    requires 0 <= t.ts
    ensures Keep(t, tombs, Some(pk)) <==> forall j :: 0 <= j < |tombs| ==> !Kills(tombs[j], t, pk)
  {
    if tombs != [] {
      var n := |tombs| - 1;
      KeepIffNoneKills(t, tombs[..n], pk);
      assert forall j :: 0 <= j < n ==> tombs[..n][j] == tombs[j];
      assert Keep(t, tombs, Some(pk)) <==> Keep(t, tombs[..n], Some(pk)) && !Kills(tombs[n], t, pk);
      if forall j :: 0 <= j < n ==> !Kills(tombs[..n][j], t, pk) {
        assert forall j :: 0 <= j < n ==> !Kills(tombs[j], t, pk);
      } else {
        var j :| 0 <= j < n && Kills(tombs[..n][j], t, pk);
        assert Kills(tombs[j], t, pk);
      }
    }
  }

  // ---------------------------------------------------------------- structure of the merge

  lemma {:induction false} SurvivorsConcat(a: seq<Tagged>, b: seq<Tagged>, tombs: seq<Tomb>, pk: Option<seq<string>>)
    ensures Survivors(a + b, tombs, pk) == Survivors(a, tombs, pk) + Survivors(b, tombs, pk)
  {
    if a == [] {
      assert a + b == b;
    } else {
      assert (a + b)[1..] == a[1..] + b;
      SurvivorsConcat(a[1..], b, tombs, pk);
      Assoc(if Keep(a[0], tombs, pk) then [a[0]] else [], Survivors(a[1..], tombs, pk), Survivors(b, tombs, pk));
    }
  }

  lemma {:induction false} SurvivorsAllKept(a: seq<Tagged>, tombs: seq<Tomb>, pk: Option<seq<string>>)
    requires forall i :: 0 <= i < |a| ==> Keep(a[i], tombs, pk)
    ensures Survivors(a, tombs, pk) == a
  {
    if a != [] {
      SurvivorsAllKept(a[1..], tombs, pk);
    }
  }

  lemma {:induction false} SourcesAppend(base: seq<Row>, batches: seq<Batch>, more: seq<Batch>)
    ensures Sources(base, batches + more) == Sources(base, batches) + Sources([], more)
  {
    if more == [] {
      assert batches + more == batches;
    } else {
      var n := |more| - 1;
      var all, last := batches + more, more[n];
      assert all[..|all| - 1] == batches + more[..n] && all[|all| - 1] == last;
      SourcesAppend(base, batches, more[..n]);
      Assoc(Sources(base, batches), Sources([], more[..n]), Tag(last.rows, last.ts));
    }
  }

  /** Every insertion timestamp is between 0 and `hi`. */
  predicate StampsWithin(src: seq<Tagged>, hi: int) {
    forall i :: 0 <= i < |src| ==> 0 <= src[i].ts <= hi
  }

  predicate BatchesWithin(batches: seq<Batch>, hi: int) {
    forall i :: 0 <= i < |batches| ==> 1 <= batches[i].ts <= hi
  }

  predicate TombsWithin(tombs: seq<Tomb>, hi: int) {
    forall i :: 0 <= i < |tombs| ==> 1 <= tombs[i].ts <= hi
  }

  lemma {:induction false} SourcesWithin(base: seq<Row>, batches: seq<Batch>, hi: int)
    requires 0 <= hi && BatchesWithin(batches, hi)
    ensures StampsWithin(Sources(base, batches), hi)
  {
    if batches != [] {
      var n := |batches| - 1;
      assert forall i :: 0 <= i < n ==> batches[..n][i] == batches[i];
      SourcesWithin(base, batches[..n], hi);
    }
  }

  lemma {:induction false} NewestWithin(tombs: seq<Tomb>, pk: seq<string>, k: Key, excludeSame: bool, hi: int)
    requires -1 <= hi && TombsWithin(tombs, hi)
    ensures -1 <= NewestTomb(tombs, pk, k, excludeSame) <= hi
  {
    if tombs != [] {
      var n := |tombs| - 1;
      assert forall i :: 0 <= i < n ==> tombs[..n][i] == tombs[i];
      NewestWithin(tombs[..n], pk, k, excludeSame, hi);
    }
  }

  /** The tagged rows whose key is not in `ks`. */
  function DropTagged(src: seq<Tagged>, ks: set<Key>, pk: seq<string>): seq<Tagged> {
    if src == [] then []
    else (if KeyOf(src[0].row, pk) in ks then [] else [src[0]]) + DropTagged(src[1..], ks, pk)
  }

  /** Deleting by key on a plain list of rows. */
  function DropKeys(rows: seq<Row>, ks: set<Key>, pk: seq<string>): seq<Row> {
    if rows == [] then []
    else (if KeyOf(rows[0], pk) in ks then [] else [rows[0]]) + DropKeys(rows[1..], ks, pk)
  }

  lemma {:induction false} UntagDrop(src: seq<Tagged>, ks: set<Key>, pk: seq<string>)
    ensures Untag(DropTagged(src, ks, pk)) == DropKeys(Untag(src), ks, pk)
  {
    if src != [] {
      UntagDrop(src[1..], ks, pk);
      assert Untag(src)[1..] == Untag(src[1..]);
    }
  }

  /** One more tombstone, newer than every row, removes exactly the rows carrying its keys. */
  lemma {:induction false} NewTombDropsKeys(src: seq<Tagged>, tombs: seq<Tomb>, x: Tomb, pk: seq<string>)
    requires forall i :: 0 <= i < |src| ==> src[i].ts < x.ts
    ensures Survivors(src, tombs + [x], Some(pk)) ==
            DropTagged(Survivors(src, tombs, Some(pk)), KeySet(x.rows, pk), pk)
  {
    if src != [] {
      NewTombDropsKeys(src[1..], tombs, x, pk);
      assert (tombs + [x])[..|tombs + [x]| - 1] == tombs;
      var rest := Survivors(src[1..], tombs, Some(pk));
      if Keep(src[0], tombs, Some(pk)) {
        assert ([src[0]] + rest)[1..] == rest;
      } else {
        assert [] + rest == rest;
      }
    }
  }

  lemma {:induction false} DropTaggedUnion(src: seq<Tagged>, a: set<Key>, b: set<Key>, pk: seq<string>)
    ensures DropTagged(DropTagged(src, a, pk), b, pk) == DropTagged(src, a + b, pk)
  {
    if src != [] {
      DropTaggedUnion(src[1..], a, b, pk);
      var rest := DropTagged(src[1..], a, pk);
      if KeyOf(src[0].row, pk) in a {
        assert [] + rest == rest;
      } else {
        assert ([src[0]] + rest)[1..] == rest;
      }
    }
  }

  /** Keys named by the tombstones of one commit, both kinds or one kind. */
  function TombKeys(tombs: seq<Tomb>, pk: seq<string>, deletesOnly: bool): set<Key> {
    if tombs == [] then {}
    else
      var last := tombs[|tombs| - 1];
      TombKeys(tombs[..|tombs| - 1], pk, deletesOnly) +
      (if deletesOnly && last.excludeSame then {} else KeySet(last.rows, pk))
  }

  lemma {:induction false} NewTombsDropKeys(src: seq<Tagged>, tombs: seq<Tomb>, more: seq<Tomb>, ts: int, pk: seq<string>)
    requires forall i :: 0 <= i < |src| ==> src[i].ts < ts
    requires forall i :: 0 <= i < |more| ==> more[i].ts == ts
    ensures Survivors(src, tombs + more, Some(pk)) ==
            DropTagged(Survivors(src, tombs, Some(pk)), TombKeys(more, pk, false), pk)
  {
    if more == [] {
      assert tombs + more == tombs;
      DropNothing(Survivors(src, tombs, Some(pk)), pk);
    } else {
      var n := |more| - 1;
      assert tombs + more == (tombs + more[..n]) + [more[n]];
      NewTombsDropKeys(src, tombs, more[..n], ts, pk);
      NewTombDropsKeys(src, tombs + more[..n], more[n], pk);
      DropTaggedUnion(Survivors(src, tombs, Some(pk)), TombKeys(more[..n], pk, false), KeySet(more[n].rows, pk), pk);
    }
  }

  lemma {:induction false} DropNothing(src: seq<Tagged>, pk: seq<string>)
    ensures DropTagged(src, {}, pk) == src
  {
    if src != [] {
      DropNothing(src[1..], pk);
    }
  }

  /** Rows inserted by the same commit lose only the keys of its DELETE tombstones. */
  lemma {:induction false} SameCommitInserts(src: seq<Tagged>, tombs: seq<Tomb>, more: seq<Tomb>, ts: int, pk: seq<string>)
    requires 0 < ts && TombsWithin(tombs, ts - 1)
    requires forall i :: 0 <= i < |src| ==> src[i].ts == ts
    requires forall i :: 0 <= i < |more| ==> more[i].ts == ts
    ensures Survivors(src, tombs + more, Some(pk)) == DropTagged(src, TombKeys(more, pk, true), pk)
  {
    if src != [] {
      SameCommitInserts(src[1..], tombs, more, ts, pk);
      SameCommitRow(src[0], tombs, more, pk);
    }
  }

  lemma {:induction false} SameCommitRow(t: Tagged, tombs: seq<Tomb>, more: seq<Tomb>, pk: seq<string>)
    requires 0 < t.ts && TombsWithin(tombs, t.ts - 1)
    requires forall i :: 0 <= i < |more| ==> more[i].ts == t.ts
    ensures Keep(t, tombs + more, Some(pk)) <==> KeyOf(t.row, pk) !in TombKeys(more, pk, true)
  {
    var k := KeyOf(t.row, pk);
    if more == [] {
      assert tombs + more == tombs;
      NewestWithin(tombs, pk, k, false, t.ts - 1);
      NewestWithin(tombs, pk, k, true, t.ts - 1);
    } else {
      var n := |more| - 1;
      assert (tombs + more)[..|tombs + more| - 1] == tombs + more[..n];
      SameCommitRow(t, tombs, more[..n], pk);
    }
  }

  /** What one commit does to a plain list of rows: the old rows lose every tombstoned key, the
      new rows lose only the keys the commit itself deletes. */
  function PlainCommit(rows: seq<Row>, inserted: seq<Row>, tombs: seq<Tomb>, pk: Option<seq<string>>): seq<Row> {
    if pk.None? then rows + inserted
    else
      DropKeys(rows, TombKeys(tombs, pk.value, false), pk.value) +
      DropKeys(inserted, TombKeys(tombs, pk.value, true), pk.value)
  }

  function FrameRows(batches: seq<Batch>): seq<Row> {
    if batches == [] then []
    else FrameRows(batches[..|batches| - 1]) + batches[|batches| - 1].rows
  }

  lemma {:induction false} UntagSources(batches: seq<Batch>)
    ensures Untag(Sources([], batches)) == FrameRows(batches)
  {
    if batches != [] {
      UntagSources(batches[..|batches| - 1]);
    }
  }

  lemma {:induction false} KeepNoPk(src: seq<Tagged>, tombs: seq<Tomb>)
    ensures Survivors(src, tombs, None) == src
  {
    SurvivorsAllKept(src, tombs, None);
  }

  lemma {:induction false} SourcesStamped(batches: seq<Batch>, ts: int)
    requires forall i :: 0 <= i < |batches| ==> batches[i].ts == ts
    ensures forall i :: 0 <= i < |Sources([], batches)| ==> Sources([], batches)[i].ts == ts
  {
    if batches != [] {
      SourcesStamped(batches[..|batches| - 1], ts);
    }
  }

  /** The merge after a commit is the plain edit of the merge before it, for any mix of
      inserts and both tombstone kinds. */
  lemma {:induction false} CommitIsPlainEdit(base: seq<Row>, batches: seq<Batch>, tombs: seq<Tomb>,
                          newBatches: seq<Batch>, newTombs: seq<Tomb>, ts: int, pk: Option<seq<string>>)
    requires 0 < ts && BatchesWithin(batches, ts - 1) && TombsWithin(tombs, ts - 1)
    requires forall i :: 0 <= i < |newBatches| ==> newBatches[i].ts == ts
    requires forall i :: 0 <= i < |newTombs| ==> newTombs[i].ts == ts
    ensures Visible(base, batches + newBatches, tombs + newTombs, pk) ==
            PlainCommit(Visible(base, batches, tombs, pk), FrameRows(newBatches), newTombs, pk)
  {
    var before, added := Sources(base, batches), Sources([], newBatches);
    var kept, keptNew := Survivors(before, tombs + newTombs, pk), Survivors(added, tombs + newTombs, pk);
    SourcesAppend(base, batches, newBatches);
    SurvivorsConcat(before, added, tombs + newTombs, pk);
    assert Untag(kept + keptNew) == Untag(kept) + Untag(keptNew);
    OldRowsAfterCommit(base, batches, tombs, newTombs, ts, pk);
    NewRowsAfterCommit(newBatches, tombs, newTombs, ts, pk);
  }

  lemma OldRowsAfterCommit(base: seq<Row>, batches: seq<Batch>, tombs: seq<Tomb>, newTombs: seq<Tomb>, ts: int,
                           pk: Option<seq<string>>)
    requires 0 < ts && BatchesWithin(batches, ts - 1)
    requires forall i :: 0 <= i < |newTombs| ==> newTombs[i].ts == ts
    ensures Visible(base, batches, tombs + newTombs, pk) ==
            (if pk.None? then Visible(base, batches, tombs, pk)
             else DropKeys(Visible(base, batches, tombs, pk), TombKeys(newTombs, pk.value, false), pk.value))
  {
    var before := Sources(base, batches);
    if pk.None? {
      KeepNoPk(before, tombs);
      KeepNoPk(before, tombs + newTombs);
    } else {
      SourcesWithin(base, batches, ts - 1);
      NewTombsDropKeys(before, tombs, newTombs, ts, pk.value);
      UntagDrop(Survivors(before, tombs, pk), TombKeys(newTombs, pk.value, false), pk.value);
    }
  }

  lemma NewRowsAfterCommit(newBatches: seq<Batch>, tombs: seq<Tomb>, newTombs: seq<Tomb>, ts: int, pk: Option<seq<string>>)
    requires 0 < ts && TombsWithin(tombs, ts - 1)
    requires forall i :: 0 <= i < |newBatches| ==> newBatches[i].ts == ts
    requires forall i :: 0 <= i < |newTombs| ==> newTombs[i].ts == ts
    ensures Visible([], newBatches, tombs + newTombs, pk) ==
            (if pk.None? then FrameRows(newBatches)
             else DropKeys(FrameRows(newBatches), TombKeys(newTombs, pk.value, true), pk.value))
  {
    var added := Sources([], newBatches);
    UntagSources(newBatches);
    if pk.None? {
      KeepNoPk(added, tombs + newTombs);
    } else {
      SourcesStamped(newBatches, ts);
      SameCommitInserts(added, tombs, newTombs, ts, pk.value);
      UntagDrop(added, TombKeys(newTombs, pk.value, true), pk.value);
    }
  }

  // ---------------------------------------------------------------- the merge as the engine runs it

  function StampInserts(frames: seq<seq<Row>>, ts: int): (out: seq<Batch>)
    ensures |out| == |frames|
    ensures forall i :: 0 <= i < |frames| ==> out[i] == Batch(ts, frames[i])
  {
    seq(|frames|, i requires 0 <= i < |frames| => Batch(ts, frames[i]))
  }

  function StampTombs(frames: seq<(seq<Row>, bool)>, ts: int): (out: seq<Tomb>)
    ensures |out| == |frames|
    ensures forall i :: 0 <= i < |frames| ==> out[i] == Tomb(ts, frames[i].0, frames[i].1)
  {
    seq(|frames|, i requires 0 <= i < |frames| => Tomb(ts, frames[i].0, frames[i].1))
  }

  lemma SourcesSnoc(base: seq<Row>, batches: seq<Batch>, b: Batch)
    ensures Sources(base, batches + [b]) == Sources(base, batches) + Tag(b.rows, b.ts)
  {
    assert (batches + [b])[..|batches + [b]| - 1] == batches;
  }

  /** Tag every part with its insertion timestamp and concatenate. */
  method TagParts(base: seq<Row>, batches: seq<Batch>, buffered: seq<seq<Row>>) returns (merged: seq<Tagged>)
    ensures merged == Sources(base, batches + StampInserts(buffered, INS_INF))
  {
    merged := Tag(base, 0);
    ghost var done: seq<Batch> := [];
    for i := 0 to |batches|
      invariant done == batches[..i] && merged == Sources(base, done)
    {
      SourcesSnoc(base, done, batches[i]);
      merged, done := merged + Tag(batches[i].rows, batches[i].ts), done + [batches[i]];
    }
    ghost var stamped := StampInserts(buffered, INS_INF);
    assert done == batches + stamped[..0];
    for i := 0 to |buffered|
      invariant done == batches + stamped[..i] && merged == Sources(base, done)
    {
      SourcesSnoc(base, done, stamped[i]);
      merged, done := merged + Tag(buffered[i], INS_INF), done + [stamped[i]];
    }
    assert stamped[..|buffered|] == stamped;
  }

  /** The merge as the engine runs it: tag and concatenate, then drop what the tombstones kill. */
  method MergeDelta(base: seq<Row>, batches: seq<Batch>, bufferedInserts: seq<seq<Row>>,
                    tombs: seq<Tomb>, bufferedTombs: seq<(seq<Row>, bool)>, pk: Option<seq<string>>)
    returns (rows: seq<Row>)
    requires BatchesWithin(batches, INS_INF)
    ensures rows == Visible(base, batches + StampInserts(bufferedInserts, INS_INF),
                            tombs + StampTombs(bufferedTombs, INS_INF), pk)
  {
    if batches == [] && bufferedInserts == [] && tombs == [] && bufferedTombs == [] {
      NothingToMerge(base, pk);
      assert batches + StampInserts(bufferedInserts, INS_INF) == [];
      assert tombs + StampTombs(bufferedTombs, INS_INF) == [];
      return base;
    }
    var merged := TagParts(base, batches, bufferedInserts);
    var entries := tombs;
    for i := 0 to |bufferedTombs|
      invariant entries == tombs + StampTombs(bufferedTombs[..i], INS_INF)
    {
      entries := entries + [Tomb(INS_INF, bufferedTombs[i].0, bufferedTombs[i].1)];
    }
    assert bufferedTombs[..|bufferedTombs|] == bufferedTombs;
    if entries != [] && pk.Some? {
      rows := Untag(Survivors(merged, entries, pk));
    } else {
      rows := Untag(merged);
      SourcesWithin(base, batches + StampInserts(bufferedInserts, INS_INF), INS_INF);
      NoTombsKeepAll(merged, entries, pk);
    }
  }

  lemma NothingToMerge(base: seq<Row>, pk: Option<seq<string>>)
    ensures Visible(base, [], [], pk) == base
  {
    NoTombsKeepAll(Tag(base, 0), [], pk);
  }

  lemma NoTombsKeepAll(src: seq<Tagged>, tombs: seq<Tomb>, pk: Option<seq<string>>)
    requires StampsWithin(src, INS_INF)
    requires tombs == [] || pk.None?
    ensures Survivors(src, tombs, pk) == src
  {
    SurvivorsAllKept(src, tombs, pk);
  }
}
