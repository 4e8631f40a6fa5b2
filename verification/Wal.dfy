/**
 The log file: append, replay with a torn tail cut off, and truncation at a timestamp.  The
 record layout enters only through `Sound`, which the on-disk layout satisfies.
 */
module Wal {
  import opened Values
  import opened WalFormat

  datatype Replayed = Replayed(records: seq<Record>, good: nat)

  /** Every record up to the first bad one, and the length of the good prefix. */
  ghost function ReplayBytes(k: Coding, bs: Bytes): (r: Replayed)
    requires Progresses(k)
    ensures r.good <= |bs|
    decreases |bs|
  {
    var head := k.next(bs);
    if head.None? then Replayed([], 0)
    else
      var n := head.value.pos;
      var rest := ReplayBytes(k, bs[n..]);
      Replayed([head.value.item] + rest.records, n + rest.good)
  }

  function LogBytes(k: Coding, log: seq<Record>): Bytes {
    if log == [] then [] else k.enc(log[0]) + LogBytes(k, log[1..])
  }

  predicate AllFit(k: Coding, log: seq<Record>) {
    forall i :: 0 <= i < |log| ==> k.fits(log[i])
  }

  lemma ReplayCons(k: Coding, r: Record, post: Bytes)
    requires Sound(k) && k.fits(r)
    ensures ReplayBytes(k, k.enc(r) + post) == After(|k.enc(r)|, [r], ReplayBytes(k, post))
  {
    assert (k.enc(r) + post)[|k.enc(r)|..] == post;
  }

  function After(n: nat, records: seq<Record>, rest: Replayed): Replayed {
    Replayed(records + rest.records, n + rest.good)
  }

  lemma AfterAfter(n: nat, r: Record, m: nat, log: seq<Record>, rest: Replayed)
    ensures After(n, [r], After(m, log, rest)) == After(n + m, [r] + log, rest)
  {
    assert [r] + (log + rest.records) == ([r] + log) + rest.records;
  }

  lemma {:induction false} ReplayPrefix(k: Coding, log: seq<Record>, post: Bytes)
    requires Sound(k) && AllFit(k, log)
    ensures ReplayBytes(k, LogBytes(k, log) + post) == After(|LogBytes(k, log)|, log, ReplayBytes(k, post))
    decreases |log|
  {
    if log == [] {
      assert LogBytes(k, log) + post == post;
      assert log + ReplayBytes(k, post).records == ReplayBytes(k, post).records;
    } else {
      var first, rest := k.enc(log[0]), LogBytes(k, log[1..]);
      calc {
        ReplayBytes(k, LogBytes(k, log) + post);
        { assert LogBytes(k, log) + post == first + (rest + post); }
        ReplayBytes(k, first + (rest + post));
        { ReplayCons(k, log[0], rest + post); }
        After(|first|, [log[0]], ReplayBytes(k, rest + post));
        { ReplayPrefix(k, log[1..], post); }
        After(|first|, [log[0]], After(|rest|, log[1..], ReplayBytes(k, post)));
        { AfterAfter(|first|, log[0], |rest|, log[1..], ReplayBytes(k, post)); assert [log[0]] + log[1..] == log; }
        After(|first| + |rest|, log, ReplayBytes(k, post));
      }
    }
  }

  lemma {:induction false} LogBytesAppend(k: Coding, log: seq<Record>, r: Record)
    ensures LogBytes(k, log + [r]) == LogBytes(k, log) + k.enc(r)
  {
    if log == [] {
      assert (log + [r])[1..] == [];
      assert LogBytes(k, log + [r]) == k.enc(r) + [];
    } else {
      LogBytesAppend(k, log[1..], r);
      assert (log + [r])[1..] == log[1..] + [r];
    }
  }

  /** Replay of a log followed by a write cut at any byte: the log, plus the cut record exactly
      when every byte of it arrived; what replay keeps is the bytes of those records. */
  lemma ReplayAfterCrash(k: Coding, log: seq<Record>, r: Record, cut: nat)
    requires Sound(k) && AllFit(k, log) && k.fits(r) && cut <= |k.enc(r)|
    ensures var survived := if cut == |k.enc(r)| then log + [r] else log;
            var file := LogBytes(k, log) + k.enc(r)[..cut];
            ReplayBytes(k, file) == Replayed(survived, |LogBytes(k, survived)|) &&
            file[..|LogBytes(k, survived)|] == LogBytes(k, survived)
  {
    var tail := k.enc(r)[..cut];
    ReplayPrefix(k, log, tail);
    if cut == |k.enc(r)| {
      assert tail + [] == tail == k.enc(r);
      assert tail[|tail|..] == [];
      NothingToReplay(k);
      LogBytesAppend(k, log, r);
    } else {
      assert log + [] == log;
    }
  }

  /** What the whole file gives is what has been read plus what the rest gives. */
  ghost predicate Remains(k: Coding, all: Replayed, records: seq<Record>, offset: nat, rest: Bytes)
    requires Progresses(k)
  {
    all == Replayed(records + ReplayBytes(k, rest).records, offset + ReplayBytes(k, rest).good)
  }

  lemma DropDrop(bs: Bytes, a: nat, b: nat)
    requires a + b <= |bs|
    ensures bs[a..][b..] == bs[a + b..]
  {
  }

  /** One turn of the replay loop. */
  lemma ReplayTurn(k: Coding, all: Replayed, records: seq<Record>, offset: nat, rest: Bytes)
    requires Progresses(k) && Remains(k, all, records, offset, rest)
    ensures k.next(rest).None? ==> all == Replayed(records, offset)
    ensures k.next(rest).Some? ==>
              var head := k.next(rest).value;
              head.pos <= |rest| && Remains(k, all, records + [head.item], offset + head.pos, rest[head.pos..])
  {
    var head := k.next(rest);
    if head.None? {
      assert records + [] == records;
    } else {
      Assoc(records, [head.value.item], ReplayBytes(k, rest[head.value.pos..]).records);
    }
  }

  lemma NothingToReplay(k: Coding)
    requires Progresses(k)
    ensures ReplayBytes(k, []) == Replayed([], 0)
  {
    assert k.next([]).None?;
  }

  lemma ReplayWholeLog(k: Coding, log: seq<Record>)
    requires Sound(k) && AllFit(k, log)
    ensures ReplayBytes(k, LogBytes(k, log)) == Replayed(log, |LogBytes(k, log)|)
  {
    ReplayPrefix(k, log, []);
    NothingToReplay(k);
    assert LogBytes(k, log) + [] == LogBytes(k, log);
    assert log + [] == log;
  }

  /** On any bytes at all, replaying what replay kept gives the same records and cuts nothing. */
  lemma {:induction false} ReplayIdempotent(k: Coding, bs: Bytes)
    requires Sound(k)
    ensures ReplayBytes(k, bs[..ReplayBytes(k, bs).good]) == ReplayBytes(k, bs)
    decreases |bs|
  {
    var head := k.next(bs);
    var good := ReplayBytes(k, bs).good;
    if head.Some? {
      var n := head.value.pos;
      ReplayIdempotent(k, bs[n..]);
      assert k.next(bs[..good]) == head;
      assert bs[..good][n..] == bs[n..][..good - n];
    } else {
      NothingToReplay(k);
      assert bs[..good] == [];
    }
  }

  // ---------------------------------------------------------------- cutting the log

  /** Length of the prefix whose records carry timestamps up to `maxTs`. */
  ghost function KeepUntil(k: Coding, bs: Bytes, maxTs: int): (n: nat)
    requires Progresses(k)
    ensures n <= |bs|
    decreases |bs|
  {
    var head := k.peek(bs);
    if head.None? || head.value.item > maxTs then 0
    else head.value.pos + KeepUntil(k, bs[head.value.pos..], maxTs)
  }

  predicate Increasing(log: seq<Record>) {
    forall i, j :: 0 <= i < j < |log| ==> log[i].ts < log[j].ts
  }

  /** The records that survive a cut at `ts`. */
  function CutLog(log: seq<Record>, ts: int): seq<Record> {
    if log == [] || log[0].ts > ts then [] else [log[0]] + CutLog(log[1..], ts)
  }

  lemma TakePast(a: Bytes, b: Bytes, n: nat)
    requires n <= |b|
    ensures (a + b)[..|a| + n] == a + b[..n]
  {
  }

  /** Cutting the file at a timestamp leaves exactly the bytes of the cut log. */
  lemma {:induction false} CutBytes(k: Coding, log: seq<Record>, ts: int)
    requires Sound(k) && AllFit(k, log)
    ensures LogBytes(k, log)[..KeepUntil(k, LogBytes(k, log), ts)] == LogBytes(k, CutLog(log, ts))
    decreases |log|
  {
    if log != [] {
      var first, rest := k.enc(log[0]), LogBytes(k, log[1..]);
      assert k.peek(first + rest) == Some(Cursor(log[0].ts, |first|));
      assert (first + rest)[|first|..] == rest;
      CutBytes(k, log[1..], ts);
      if log[0].ts <= ts {
        var n := KeepUntil(k, rest, ts);
        TakePast(first, rest, n);
        assert ([log[0]] + CutLog(log[1..], ts))[1..] == CutLog(log[1..], ts);
      }
    }
  }

  /** A cut keeps a prefix of the log, and in an increasing log exactly the records up to `ts`. */
  lemma {:induction false} CutIsPrefix(log: seq<Record>, ts: int)
    ensures CutLog(log, ts) <= log
    ensures forall i :: 0 <= i < |CutLog(log, ts)| ==> log[i].ts <= ts
    ensures Increasing(log) ==> forall i :: |CutLog(log, ts)| <= i < |log| ==> log[i].ts > ts
  {
    if log != [] && log[0].ts <= ts {
      CutIsPrefix(log[1..], ts);
      var n := |CutLog(log[1..], ts)|;
      assert forall i :: 1 <= i < 1 + n ==> log[i] == log[1..][i - 1];
      if Increasing(log) {
        assert forall i :: 1 + n <= i < |log| ==> log[i] == log[1..][i - 1];
      }
    }
  }

  // ---------------------------------------------------------------- the log file object

  datatype Fault = NoFault | WriteFails(written: nat)

  /** The replay loop: records from the front until one cannot be read. */
  method ReadRecords(k: Coding, bytes: Bytes) returns (records: seq<Record>, offset: nat)
    requires Progresses(k)
    ensures Replayed(records, offset) == ReplayBytes(k, bytes)
  {
    records, offset := [], 0;
    ghost var all := ReplayBytes(k, bytes);
    var rest := bytes;
    assert records + all.records == all.records;
    while rest != []
      invariant offset <= |bytes| && rest == bytes[offset..]
      invariant Remains(k, all, records, offset, rest)
      decreases |rest|
    {
      var head := k.next(rest);
      ReplayTurn(k, all, records, offset, rest);
      if head.None? {
        return;
      }
      DropDrop(bytes, offset, head.value.pos);
      records, offset, rest := records + [head.value.item], offset + head.value.pos, rest[head.value.pos..];
    }
    NothingToReplay(k);
    assert records + [] == records;
  }

  class WriteAheadLog {
    const enabled: bool
    const k: Coding
    var file: Bytes

    constructor (enabled: bool, k: Coding, contents: Bytes)
      ensures this.enabled == enabled && this.k == k && file == contents
    {
      this.enabled := enabled;
      this.k := k;
      file := contents;
    }

    /** Read every good record in order and cut the file after the last one. */
    method Replay() returns (records: seq<Record>)
      requires Progresses(k)
      modifies this
      ensures !enabled ==> records == [] && file == old(file)
      ensures enabled ==> records == ReplayBytes(k, old(file)).records
      ensures enabled ==> file == old(file)[..ReplayBytes(k, old(file)).good]
    {
      records := [];
      if !enabled {
        return;
      }
      var offset: nat;
      records, offset := ReadRecords(k, file);
      if offset != |file| {
        file := file[..offset];
      } else {
        assert file[..offset] == file;
      }
    }

    /** Append one commit.  A write that fails part-way is cut back before the error is raised. */
    method WriteCommit(r: Record, fault: Fault) returns (ok: bool)
      modifies this
      ensures r.batches == [] || !enabled ==> ok && file == old(file)
      ensures r.batches != [] && enabled ==> ok == (k.fits(r) && fault == NoFault)
      ensures r.batches != [] && enabled ==> file == if ok then old(file) + k.enc(r) else old(file)
    {
      if r.batches == [] || !enabled {
        return true;
      }
      if !k.fits(r) {
        return false;
      }
      var record := k.enc(r);
      var start := |file|;
      match fault
      case NoFault =>
        file := file + record;
        return true;
      case WriteFails(written) =>
        file := file + (if written <= |record| then record[..written] else record);
        file := file[..start];
        return false;
    }

    /** Cut the file at the first record past `maxTs`, or at the first bad record. */
    method Truncate(maxTs: int)
      requires Progresses(k)
      modifies this
      ensures file == if enabled then old(file)[..KeepUntil(k, old(file), maxTs)] else old(file)
    {
      if !enabled {
        return;
      }
      var size, offset, keep := |file|, 0, |file|;
      assert file[0..] == file;
      while offset < size
        invariant 0 <= offset <= size == |file| && file == old(file) && keep == size
        invariant KeepUntil(k, file, maxTs) == offset + KeepUntil(k, file[offset..], maxTs)
      {
        ghost var rest := file[offset..];
        var head := k.peek(file[offset..]);
        if head.None? || head.value.item > maxTs {
          keep := offset;
          break;
        }
        assert rest[head.value.pos..] == file[offset + head.value.pos..];
        offset := offset + head.value.pos;
      }
      file := file[..keep];
    }
  }
}
