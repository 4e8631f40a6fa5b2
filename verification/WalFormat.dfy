/**
 The on-disk form of one commit: a length-prefixed, checksummed record holding every batch of
 the commit with its kind.  Frame and name serialisation and the checksum are parameters; every
 result holds for all of them.
 */
module WalFormat {
  import opened Values

  type Frame = seq<Row>

  datatype Kind = Insert | Tombstone | TombstoneUpdate

  datatype LogBatch = LogBatch(table: string, kind: Kind, frame: Frame)

  datatype Record = Record(ts: nat, batches: seq<LogBatch>)

  datatype Codec = Codec(
    encName: string -> Bytes,
    decName: Bytes -> Option<string>,
    encFrame: Frame -> Bytes,
    decFrame: Bytes -> Option<Frame>,
    crc: Bytes -> nat)

  /** Names and frames survive a trip through their serialised form; the checksum fits 32 bits. */
  ghost predicate Lawful(c: Codec) {
    && (forall s :: c.decName(c.encName(s)) == Some(s))
    && (forall f :: c.decFrame(c.encFrame(f)) == Some(f))
    && (forall bs :: c.crc(bs) < Pow256(4))
  }

  const HEADER_SIZE := 8

  // ---------------------------------------------------------------- fixed-width integers

  function Pow256(k: nat): (p: nat)
    ensures p >= 1
  {
    if k == 0 then 1 else 256 * Pow256(k - 1)
  }

  function LittleEndian(n: nat, width: nat): (bs: Bytes)
    ensures |bs| == width
  {
    if width == 0 then [] else [(n % 256) as Byte] + LittleEndian(n / 256, width - 1)
  }

  function UintOf(bs: Bytes): nat {
    if bs == [] then 0 else bs[0] as nat + 256 * UintOf(bs[1..])
  }

  lemma {:induction false} UintRoundTrip(n: nat, width: nat)
    requires n < Pow256(width)
    ensures UintOf(LittleEndian(n, width)) == n
  {
    if width != 0 {
      UintRoundTrip(n / 256, width - 1);
      assert LittleEndian(n, width)[1..] == LittleEndian(n / 256, width - 1);
    }
  }

  // ---------------------------------------------------------------- building a record

  function KindByte(k: Kind): nat {
    match k
    case Insert => 0
    case Tombstone => 1
    case TombstoneUpdate => 2
  }

  function KindOf(b: nat): Option<Kind> {
    if b == 0 then Some(Insert) else if b == 1 then Some(Tombstone) else if b == 2 then Some(TombstoneUpdate) else None
  }

  /** A length-prefixed byte string. */
  function Prefixed(bs: Bytes): Bytes {
    LittleEndian(|bs|, 4) + bs
  }

  function BatchBytes(c: Codec, b: LogBatch): Bytes {
    LittleEndian(KindByte(b.kind), 1) + (Prefixed(c.encName(b.table)) + Prefixed(c.encFrame(b.frame)))
  }

  function BatchesBytes(enc: LogBatch -> Bytes, bs: seq<LogBatch>): Bytes {
    if bs == [] then [] else enc(bs[0]) + BatchesBytes(enc, bs[1..])
  }

  function BatchWriter(c: Codec): LogBatch -> Bytes {
    b => BatchBytes(c, b)
  }

  function PayloadBytes(c: Codec, r: Record): Bytes {
    LittleEndian(r.ts, 8) + (LittleEndian(|r.batches|, 4) + BatchesBytes(BatchWriter(c), r.batches))
  }

  function RecordBytes(c: Codec, r: Record): Bytes {
    var payload := PayloadBytes(c, r);
    LittleEndian(|payload|, 4) + LittleEndian(c.crc(payload), 4) + payload
  }

  predicate BatchFits(c: Codec, b: LogBatch) {
    |c.encName(b.table)| < Pow256(4) && |c.encFrame(b.frame)| < Pow256(4)
  }

  /** Exactly when packing the record raises no range error. */
  predicate Encodable(c: Codec, r: Record) {
    && r.ts < Pow256(8)
    && |r.batches| < Pow256(4)
    && (forall i :: 0 <= i < |r.batches| ==> BatchFits(c, r.batches[i]))
    && |PayloadBytes(c, r)| < Pow256(4)
  }

  // ---------------------------------------------------------------- reading a payload

  /** Unpack a fixed-width integer at `pos`; a short buffer is an error. */
  function ReadUint(bs: Bytes, pos: nat, width: nat): Option<nat> {
    if pos + width <= |bs| then Some(UintOf(bs[pos..pos + width])) else None
  }

  /** Slicing that stops at the end of the buffer instead of failing. */
  function Slice(bs: Bytes, pos: nat, len: nat): Bytes {
    if |bs| <= pos then [] else if |bs| <= pos + len then bs[pos..] else bs[pos..pos + len]
  }

  datatype Cursor<+T> = Cursor(item: T, pos: nat)

  function ReadPrefixed(bs: Bytes, pos: nat): Option<Cursor<Bytes>> {
    var len := ReadUint(bs, pos, 4);
    if len.None? then None else Some(Cursor(Slice(bs, pos + 4, len.value), pos + 4 + len.value))
  }

  function ReadBatch(c: Codec, bs: Bytes, pos: nat): Option<Cursor<LogBatch>> {
    var kindByte := ReadUint(bs, pos, 1);
    if kindByte.None? then None else
    var nameBytes := ReadPrefixed(bs, pos + 1);
    if nameBytes.None? then None else
    var name := c.decName(nameBytes.value.item);
    if name.None? then None else
    var arrow := ReadPrefixed(bs, nameBytes.value.pos);
    if arrow.None? then None else
    var kind, frame := KindOf(kindByte.value), c.decFrame(arrow.value.item);
    if kind.None? || frame.None? then None
    else Some(Cursor(LogBatch(name.value, kind.value, frame.value), arrow.value.pos))
  }

  type Reader = (Bytes, nat) -> Option<Cursor<LogBatch>>

  function BatchReader(c: Codec): Reader {
    (bs: Bytes, pos: nat) => ReadBatch(c, bs, pos)
  }

  function ReadBatches(read: Reader, bs: Bytes, pos: nat, n: nat): Option<seq<LogBatch>>
    decreases n
  {
    if n == 0 then Some([])
    else
      var b := read(bs, pos);
      if b.None? then None
      else
        var rest := ReadBatches(read, bs, b.value.pos, n - 1);
        if rest.None? then None else Some([b.value.item] + rest.value)
  }

  function ParsePayload(c: Codec, payload: Bytes): Option<Record> {
    var ts := ReadUint(payload, 0, 8);
    if ts.None? then None else
    var n := ReadUint(payload, 8, 4);
    if n.None? then None else
    var batches := ReadBatches(BatchReader(c), payload, 12, n.value);
    if batches.None? then None else Some(Record(ts.value, batches.value))
  }

  lemma SliceOf(pre: Bytes, mid: Bytes, post: Bytes)
    ensures Slice(pre + mid + post, |pre|, |mid|) == mid
  {
    var all := pre + mid + post;
    if mid == [] {
      assert |all| <= |pre| ==> Slice(all, |pre|, |mid|) == [];
    } else {
      assert all[|pre|..|pre| + |mid|] == mid;
    }
  }

  lemma ReadBack(pre: Bytes, n: nat, width: nat, post: Bytes)
    requires n < Pow256(width)
    ensures ReadUint(pre + LittleEndian(n, width) + post, |pre|, width) == Some(n)
  {
    var all := pre + LittleEndian(n, width) + post;
    assert all[|pre|..|pre| + width] == LittleEndian(n, width);
    UintRoundTrip(n, width);
  }

  lemma PrefixedReadBack(pre: Bytes, item: Bytes, post: Bytes)
    requires |item| < Pow256(4)
    ensures ReadPrefixed(pre + Prefixed(item) + post, |pre|) == Some(Cursor(item, |pre + Prefixed(item)|))
  {
    var len := LittleEndian(|item|, 4);
    assert pre + Prefixed(item) + post == pre + len + (item + post);
    ReadBack(pre, |item|, 4, item + post);
    assert pre + Prefixed(item) + post == (pre + len) + item + post;
    SliceOf(pre + len, item, post);
  }

  lemma BatchReadBack(c: Codec, pre: Bytes, b: LogBatch, post: Bytes)
    requires Lawful(c) && BatchFits(c, b)
    ensures ReadBatch(c, pre + BatchBytes(c, b) + post, |pre|) == Some(Cursor(b, |pre| + |BatchBytes(c, b)|))
  {
    var name, arrow := c.encName(b.table), c.encFrame(b.frame);
    var all := pre + BatchBytes(c, b) + post;
    BatchLayout(pre, LittleEndian(KindByte(b.kind), 1), Prefixed(name), Prefixed(arrow), post);
    assert ReadUint(all, |pre|, 1) == Some(KindByte(b.kind)) by {
      ReadBack(pre, KindByte(b.kind), 1, Prefixed(name) + Prefixed(arrow) + post);
    }
    var pos := |pre| + 1;
    assert ReadPrefixed(all, pos) == Some(Cursor(name, pos + |Prefixed(name)|)) by {
      PrefixedReadBack(pre + LittleEndian(KindByte(b.kind), 1), name, Prefixed(arrow) + post);
    }
    var pos' := pos + |Prefixed(name)|;
    assert ReadPrefixed(all, pos') == Some(Cursor(arrow, pos' + |Prefixed(arrow)|)) by {
      PrefixedReadBack(pre + LittleEndian(KindByte(b.kind), 1) + Prefixed(name), arrow, post);
    }
  }

  lemma BatchLayout(pre: Bytes, k: Bytes, n: Bytes, f: Bytes, post: Bytes)
    ensures pre + (k + (n + f)) + post == pre + k + (n + f + post)
    ensures pre + (k + (n + f)) + post == (pre + k) + n + (f + post)
    ensures pre + (k + (n + f)) + post == (pre + k + n) + f + post
  {
  }

  ghost predicate Undoes(read: Reader, enc: LogBatch -> Bytes, fits: LogBatch -> bool) {
    forall pre: Bytes, b, post: Bytes :: fits(b) ==> read(pre + enc(b) + post, |pre|) == Some(Cursor(b, |pre| + |enc(b)|))
  }

  lemma {:induction false} BatchesReadBack(read: Reader, enc: LogBatch -> Bytes, fits: LogBatch -> bool, pre: Bytes,
                                           bs: seq<LogBatch>)
    requires Undoes(read, enc, fits) && forall i :: 0 <= i < |bs| ==> fits(bs[i])
    ensures ReadBatches(read, pre + BatchesBytes(enc, bs), |pre|, |bs|) == Some(bs)
    decreases |bs|
  {
    if bs != [] {
      var first, rest := enc(bs[0]), BatchesBytes(enc, bs[1..]);
      BatchesReadBack(read, enc, fits, pre + first, bs[1..]);
      assert pre + BatchesBytes(enc, bs) == pre + first + rest;
      assert [bs[0]] + bs[1..] == bs;
    }
  }

  function BatchFitter(c: Codec): LogBatch -> bool {
    b => BatchFits(c, b)
  }

  lemma ReaderUndoesWriter(c: Codec)
    requires Lawful(c)
    ensures Undoes(BatchReader(c), BatchWriter(c), BatchFitter(c))
  {
    var read, enc, fits := BatchReader(c), BatchWriter(c), BatchFitter(c);
    forall pre: Bytes, b, post: Bytes | fits(b)
      ensures read(pre + enc(b) + post, |pre|) == Some(Cursor(b, |pre| + |enc(b)|))
    {
      ReaderReadsBack(c, read, enc, pre, b, post);
    }
  }

  lemma ReaderReadsBack(c: Codec, read: Reader, enc: LogBatch -> Bytes, pre: Bytes, b: LogBatch, post: Bytes)
    requires Lawful(c) && BatchFits(c, b) && read == BatchReader(c) && enc == BatchWriter(c)
    ensures read(pre + enc(b) + post, |pre|) == Some(Cursor(b, |pre| + |enc(b)|))
  {
    BatchReadBack(c, pre, b, post);
    var all := pre + BatchBytes(c, b) + post;
    assert read(all, |pre|) == ReadBatch(c, all, |pre|);
  }

  lemma BodyReadBack(c: Codec, pre: Bytes, bs: seq<LogBatch>)
    requires Lawful(c) && forall i :: 0 <= i < |bs| ==> BatchFits(c, bs[i])
    ensures ReadBatches(BatchReader(c), pre + BatchesBytes(BatchWriter(c), bs), |pre|, |bs|) == Some(bs)
  {
    ReaderUndoesWriter(c);
    BatchesReadBack(BatchReader(c), BatchWriter(c), BatchFitter(c), pre, bs);
  }

  /** Parsing a built payload gives back the commit, batch for batch and kind for kind. */
  lemma PayloadRoundTrip(c: Codec, r: Record)
    requires Lawful(c) && Encodable(c, r)
    ensures ParsePayload(c, PayloadBytes(c, r)) == Some(r)
  {
    var ts, n, body := LittleEndian(r.ts, 8), LittleEndian(|r.batches|, 4), BatchesBytes(BatchWriter(c), r.batches);
    var all := PayloadBytes(c, r);
    assert all == [] + ts + (n + body);
    ReadBack([], r.ts, 8, n + body);
    assert all == ts + n + body;
    ReadBack(ts, |r.batches|, 4, body);
    assert all == (ts + n) + body;
    BodyReadBack(c, ts + n, r.batches);
  }

  // ---------------------------------------------------------------- one record in the file

  /** The record at the head of `bs` and its length, None for a torn, corrupt or unreadable one. */
  function NextRecord(c: Codec, bs: Bytes): (r: Option<Cursor<Record>>)
    ensures r.Some? ==> HEADER_SIZE <= r.value.pos <= |bs|
  {
    if |bs| < HEADER_SIZE then None else
    var len, crc := UintOf(bs[..4]), UintOf(bs[4..8]);
    if HEADER_SIZE + len > |bs| then None else
    var payload := bs[HEADER_SIZE..HEADER_SIZE + len];
    if c.crc(payload) != crc then None else
    var r := ParsePayload(c, payload);
    if r.None? then None else Some(Cursor(r.value, HEADER_SIZE + len))
  }

  /** Timestamp and length of the record at the head of `bs`; the payload is checked, not parsed. */
  function PeekRecord(c: Codec, bs: Bytes): (r: Option<Cursor<nat>>)
    ensures r.Some? ==> HEADER_SIZE <= r.value.pos <= |bs|
  {
    if |bs| < HEADER_SIZE then None else
    var len, crc := UintOf(bs[..4]), UintOf(bs[4..8]);
    if HEADER_SIZE + len > |bs| then None else
    var payload := bs[HEADER_SIZE..HEADER_SIZE + len];
    if c.crc(payload) != crc || |payload| < 8 then None
    else Some(Cursor(UintOf(payload[..8]), HEADER_SIZE + len))
  }

  lemma HeaderReadBack(c: Codec, r: Record, post: Bytes)
    requires Lawful(c) && Encodable(c, r)
    ensures var bs := RecordBytes(c, r) + post;
            |bs| >= HEADER_SIZE && UintOf(bs[..4]) == |PayloadBytes(c, r)| &&
            UintOf(bs[4..8]) == c.crc(PayloadBytes(c, r)) &&
            bs[8..8 + |PayloadBytes(c, r)|] == PayloadBytes(c, r)
  {
    var payload := PayloadBytes(c, r);
    var bs := RecordBytes(c, r) + post;
    assert bs[..4] == LittleEndian(|payload|, 4);
    assert bs[4..8] == LittleEndian(c.crc(payload), 4);
    UintRoundTrip(|payload|, 4);
    UintRoundTrip(c.crc(payload), 4);
  }

  /** A whole record reads back as itself, whatever follows it. */
  lemma NextReadBack(c: Codec, r: Record, post: Bytes)
    requires Lawful(c) && Encodable(c, r)
    ensures NextRecord(c, RecordBytes(c, r) + post) == Some(Cursor(r, |RecordBytes(c, r)|))
    ensures PeekRecord(c, RecordBytes(c, r) + post) == Some(Cursor(r.ts, |RecordBytes(c, r)|))
  {
    HeaderReadBack(c, r, post);
    PayloadRoundTrip(c, r);
    assert PayloadBytes(c, r)[..8] == LittleEndian(r.ts, 8);
    UintRoundTrip(r.ts, 8);
  }

  /** A write cut short at any byte leaves a tail that replay refuses, whatever the checksum. */
  lemma TornRecordRefused(c: Codec, r: Record, cut: nat)
    requires Lawful(c) && Encodable(c, r) && cut < |RecordBytes(c, r)|
    ensures NextRecord(c, RecordBytes(c, r)[..cut]) == None
  {
    var all := RecordBytes(c, r);
    var bs := all[..cut];
    if HEADER_SIZE <= cut {
      HeaderReadBack(c, r, []);
      assert all + [] == all;
      assert bs[..4] == all[..4];
    }
  }

  /** A record whose payload was damaged in place is refused whenever the checksum tells. */
  lemma DamagedRecordRefused(c: Codec, r: Record, damaged: Bytes, post: Bytes)
    requires Lawful(c) && Encodable(c, r) && |damaged| == |PayloadBytes(c, r)| && c.crc(damaged) != c.crc(PayloadBytes(c, r))
    ensures var bs := RecordBytes(c, r)[..HEADER_SIZE] + damaged + post;
            NextRecord(c, bs) == None && PeekRecord(c, bs) == None
  {
    var bs := RecordBytes(c, r)[..HEADER_SIZE] + damaged + post;
    HeaderReadBack(c, r, []);
    assert RecordBytes(c, r) + [] == RecordBytes(c, r);
    assert bs[..4] == RecordBytes(c, r)[..4] && bs[4..8] == RecordBytes(c, r)[4..8];
    assert bs[HEADER_SIZE..HEADER_SIZE + |damaged|] == damaged;
  }

  /** Reading a record looks at nothing past its end. */
  lemma NextIsLocal(c: Codec, bs: Bytes, m: nat)
    requires NextRecord(c, bs).Some? && NextRecord(c, bs).value.pos <= m <= |bs|
    ensures NextRecord(c, bs[..m]) == NextRecord(c, bs)
  {
    var n := NextRecord(c, bs).value.pos;
    assert bs[..m][..4] == bs[..4] && bs[..m][4..8] == bs[4..8] && bs[..m][8..n] == bs[8..n];
  }

  /** The header and payload steps of reading one record. */
  method ReadRecord(c: Codec, bs: Bytes) returns (r: Option<Cursor<Record>>)
    ensures r == NextRecord(c, bs)
  {
    if |bs| < HEADER_SIZE {
      return None;
    }
    var len, crc := UintOf(bs[..4]), UintOf(bs[4..8]);
    if HEADER_SIZE + len > |bs| {
      return None;
    }
    var payload := bs[HEADER_SIZE..HEADER_SIZE + len];
    if c.crc(payload) != crc {
      return None;
    }
    var rec := ReadPayload(c, payload);
    return if rec.None? then None else Some(Cursor(rec.value, HEADER_SIZE + len));
  }

  /** The payload loop: `pos` advances batch by batch. */
  method ReadPayload(c: Codec, payload: Bytes) returns (r: Option<Record>)
    ensures r == ParsePayload(c, payload)
  {
    var ts := ReadUint(payload, 0, 8);
    if ts.None? {
      return None;
    }
    var n := ReadUint(payload, 8, 4);
    if n.None? {
      return None;
    }
    var batches := ReadBatchLoop(BatchReader(c), payload, 12, n.value);
    return if batches.None? then None else Some(Record(ts.value, batches.value));
  }

  method ReadBatchLoop(read: Reader, payload: Bytes, start: nat, n: nat) returns (r: Option<seq<LogBatch>>)
    ensures r == ReadBatches(read, payload, start, n)
  {
    var pos, out := start, [];
    ghost var all := ReadBatches(read, payload, start, n);
    PrependNone(all);
    for i := 0 to n
      invariant all == Prepend(out, ReadBatches(read, payload, pos, n - i))
    {
      var b := read(payload, pos);
      PrependStep(read, payload, pos, n - i, out);
      if b.None? {
        return None;
      }
      out, pos := out + [b.value.item], b.value.pos;
    }
    assert out + [] == out;
    return Some(out);
  }

  lemma PrependNone(rest: Option<seq<LogBatch>>)
    ensures Prepend([], rest) == rest
  {
    if rest.Some? {
      assert [] + rest.value == rest.value;
    }
  }

  function Prepend(out: seq<LogBatch>, rest: Option<seq<LogBatch>>): Option<seq<LogBatch>> {
    if rest.None? then None else Some(out + rest.value)
  }

  lemma PrependStep(read: Reader, bs: Bytes, pos: nat, n: nat, out: seq<LogBatch>)
    requires n > 0
    ensures var b := read(bs, pos);
            Prepend(out, ReadBatches(read, bs, pos, n)) ==
            if b.None? then None else Prepend(out + [b.value.item], ReadBatches(read, bs, b.value.pos, n - 1))
  {
    var b := read(bs, pos);
    if b.Some? && ReadBatches(read, bs, b.value.pos, n - 1).Some? {
      var rest := ReadBatches(read, bs, b.value.pos, n - 1).value;
      assert out + ([b.value.item] + rest) == (out + [b.value.item]) + rest;
    }
  }

  // ---------------------------------------------------------------- what the log file needs to know

  /** How records are laid out, as the log file sees it. */
  datatype Coding = Coding(
    next: Bytes -> Option<Cursor<Record>>,
    peek: Bytes -> Option<Cursor<nat>>,
    enc: Record -> Bytes,
    fits: Record -> bool)

  function WalCoding(c: Codec): Coding {
    Coding(bs => NextRecord(c, bs), bs => PeekRecord(c, bs), r => RecordBytes(c, r), r => Encodable(c, r))
  }

  ghost predicate Progresses(k: Coding) {
    && (forall bs :: k.next(bs).Some? ==> 0 < k.next(bs).value.pos <= |bs|)
    && (forall bs :: k.peek(bs).Some? ==> 0 < k.peek(bs).value.pos <= |bs|)
  }

  ghost predicate ReadsBack(k: Coding) {
    && (forall r, post :: k.fits(r) ==> k.next(k.enc(r) + post) == Some(Cursor(r, |k.enc(r)|)))
    && (forall r, post :: k.fits(r) ==> k.peek(k.enc(r) + post) == Some(Cursor(r.ts, |k.enc(r)|)))
  }

  ghost predicate RefusesTorn(k: Coding) {
    forall r, cut: nat :: k.fits(r) && cut < |k.enc(r)| ==> k.next(k.enc(r)[..cut]) == None
  }

  ghost predicate ReadsLocally(k: Coding) {
    forall bs: Bytes, m: nat :: k.next(bs).Some? && k.next(bs).value.pos <= m <= |bs| ==> k.next(bs[..m]) == k.next(bs)
  }

  ghost predicate Sound(k: Coding) {
    Progresses(k) && ReadsBack(k) && RefusesTorn(k) && ReadsLocally(k)
  }

  /** The on-disk layout has the four properties recovery rests on. */
  lemma WalCodingSound(c: Codec)
    requires Lawful(c)
    ensures Sound(WalCoding(c))
  {
    var k := WalCoding(c);
    forall r, post | k.fits(r)
      ensures k.next(k.enc(r) + post) == Some(Cursor(r, |k.enc(r)|))
      ensures k.peek(k.enc(r) + post) == Some(Cursor(r.ts, |k.enc(r)|))
    {
      NextReadBack(c, r, post);
    }
    forall r, cut: nat | k.fits(r) && cut < |k.enc(r)|
      ensures k.next(k.enc(r)[..cut]) == None
    {
      TornRecordRefused(c, r, cut);
    }
    forall bs: Bytes, m: nat | k.next(bs).Some? && k.next(bs).value.pos <= m <= |bs|
      ensures k.next(bs[..m]) == k.next(bs)
    {
      NextIsLocal(c, bs, m);
    }
  }

  /** The bytes of one record, written out: length and checksum, timestamp, number of batches, and for
      the batch its kind, name and frame, every number low byte first. */
  lemma RecordExample(c: Codec, payload: Bytes)
    requires c.encName("t") == [116] && c.encFrame([]) == [7]
    requires payload == [2, 1, 0, 0, 0, 0, 0, 0] + [1, 0, 0, 0] + [2] + [1, 0, 0, 0, 116] + [1, 0, 0, 0, 7]
    ensures RecordBytes(c, Record(258, [LogBatch("t", TombstoneUpdate, [])])) == [23, 0, 0, 0] + LittleEndian(c.crc(payload), 4) + payload
    ensures KindByte(Insert) == 0 && KindByte(Tombstone) == 1
  {
    BatchExample(c, LogBatch("t", TombstoneUpdate, []));
    PayloadExample(c, LogBatch("t", TombstoneUpdate, []), payload);
    Digits(23, 0, 23);
  }

  lemma BatchExample(c: Codec, b: LogBatch)
    requires c.encName("t") == [116] && c.encFrame([]) == [7] && b == LogBatch("t", TombstoneUpdate, [])
    ensures BatchBytes(c, b) == [2] + ([1, 0, 0, 0, 116] + [1, 0, 0, 0, 7])
  {
    Digits(1, 0, 1);
    assert Prefixed([116]) == [1, 0, 0, 0, 116] && Prefixed([7]) == [1, 0, 0, 0, 7];
    assert LittleEndian(2, 1) == [2] + LittleEndian(0, 0);
  }

  lemma PayloadExample(c: Codec, b: LogBatch, payload: Bytes)
    requires BatchBytes(c, b) == [2] + ([1, 0, 0, 0, 116] + [1, 0, 0, 0, 7])
    requires payload == [2, 1, 0, 0, 0, 0, 0, 0] + [1, 0, 0, 0] + [2] + [1, 0, 0, 0, 116] + [1, 0, 0, 0, 7]
    ensures PayloadBytes(c, Record(258, [b])) == payload && |payload| == 23
  {
    Digits(258, 1, 2);
    Digits(1, 0, 1);
    assert [b][1..] == [];
    var none: Bytes := [];
    assert BatchesBytes(BatchWriter(c), [b]) == BatchBytes(c, b) + none;
    assert BatchBytes(c, b) + none == BatchBytes(c, b);
  }

  /** A number below 65536 in four and in eight bytes. */
  lemma Digits(n: nat, hi: nat, lo: nat)
    requires n == 256 * hi + lo && hi < 256 && lo < 256
    ensures LittleEndian(n, 4) == [lo as Byte, hi as Byte, 0, 0]
    ensures LittleEndian(n, 8) == [lo as Byte, hi as Byte, 0, 0, 0, 0, 0, 0]
  {
    assert n % 256 == lo && n / 256 == hi && hi % 256 == hi && hi / 256 == 0;
    Zeros(2);
    Zeros(6);
    assert LittleEndian(hi, 3) == [hi as Byte] + LittleEndian(0, 2);
    assert LittleEndian(hi, 7) == [hi as Byte] + LittleEndian(0, 6);
  }

  lemma {:induction false} Zeros(width: nat)
    ensures LittleEndian(0, width) == seq(width, i => 0)
  {
    if width > 0 { Zeros(width - 1); }
  }
}
