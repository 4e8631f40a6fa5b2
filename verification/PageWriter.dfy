/**
 Page headers as the Compact Protocol writes them, and the parser read back over them: every field
 lands where its number says, and a chunk of written pages parses into exactly those pages.
 */
module PageWriter {
  import opened Values
  import opened Varints
  import opened PageFormat

  /** The struct inside a page header. */
  datatype Inner =
    | NoInner
    | DataPage(numValues: int, encoding: int, defEncoding: int, repEncoding: int)
    | DictPage(numValues: int, encoding: int)

  datatype Header = Header(kind: int, uncompSize: int, compSize: int, crc: Option<int>, inner: Inner)

  // ---------------------------------------------------------------- writing

  /** An i32 field whose number is one more than the last one's. */
  function IntField(v: int): Bytes {
    [0x15] + WriteVarint(v)
  }

  function IntFields(vs: seq<int>): Bytes {
    if vs == [] then [] else IntField(vs[0]) + IntFields(vs[1..])
  }

  function InnerValues(inner: Inner): seq<int> {
    match inner
    case NoInner => []
    case DataPage(n, e, d, r) => [n, e, d, r]
    case DictPage(n, e) => [n, e]
  }

  /** Field 5 holds a data page header and field 7 a dictionary page header, after field `last`. */
  function InnerField(inner: Inner, last: nat): Bytes
    requires last <= 4
  {
    if inner.NoInner? then []
    else [(((if inner.DataPage? then 5 else 7) - last) * 16 + 12) as Byte] + (IntFields(InnerValues(inner)) + [0])
  }

  /** Type, sizes, and the checksum if there is one. */
  function HeaderValues(h: Header): (vs: seq<int>)
    ensures 3 <= |vs| <= 4
  {
    [h.kind, h.uncompSize, h.compSize] + if h.crc.Some? then [h.crc.value] else []
  }

  function HeaderBytes(h: Header): Bytes {
    IntFields(HeaderValues(h)) + (InnerField(h.inner, |HeaderValues(h)|) + [0])
  }

  // ---------------------------------------------------------------- what should be read

  predicate Is32(v: int) {
    -0x8000_0000 <= v < 0x8000_0000
  }

  predicate All32(vs: seq<int>) {
    forall i :: 0 <= i < |vs| ==> Is32(vs[i])
  }

  predicate Fits(h: Header) {
    All32(HeaderValues(h)) && All32(InnerValues(h.inner))
  }

  /** The page a header stands for; what it does not give is 0, or -1 for an encoding. */
  function PageOf(h: Header, payloadOff: int, headerLen: int): Page {
    match h.inner
    case NoInner => Page(h.kind, payloadOff, headerLen, h.compSize, h.uncompSize, 0, -1, -1, -1)
    case DataPage(n, e, d, r) => Page(h.kind, payloadOff, headerLen, h.compSize, h.uncompSize, n, e, d, r)
    case DictPage(n, e) => Page(h.kind, payloadOff, headerLen, h.compSize, h.uncompSize, n, e, -1, -1)
  }

  // ---------------------------------------------------------------- reading one field

  /** `data` holds `bytes` from p to q. */
  predicate Holds(data: Bytes, p: nat, bytes: Bytes, q: nat) {
    q == p + |bytes| <= |data| && forall i :: 0 <= i < |bytes| ==> bytes[i] == data[p + i]
  }

  lemma HoldsParts(data: Bytes, p: nat, a: Bytes, b: Bytes, q: nat)
    requires Holds(data, p, a + b, q)
    ensures Holds(data, p, a, p + |a|) && Holds(data, p + |a|, b, q)
  {
    assert forall i :: 0 <= i < |a| ==> a[i] == (a + b)[i];
    forall i | 0 <= i < |b| ensures b[i] == data[p + |a| + i] {
      assert b[i] == (a + b)[|a| + i];
    }
  }

  lemma HoldsThree(data: Bytes, p: nat, a: Bytes, b: Bytes, c: Bytes, q: nat) returns (at: nat)
    requires Holds(data, p, (a + b) + c, q)
    ensures Holds(data, p, a, at) && Holds(data, at, b + c, q)
  {
    Assoc(a, b, c);
    HoldsParts(data, p, a, b + c, q);
    at := p + |a|;
  }

  lemma VarintAt(data: Bytes, p: nat, v: int, q: nat)
    requires Is32(v) && Holds(data, p, WriteVarint(v), q)
    ensures ZigzagVarint(data, p) == Some(Read(v, q))
  {
    assert data == data[..p] + WriteVarint(v) + data[q..];
    VarintRoundTrip(data[..p], v, data[q..]);
  }

  lemma FieldHeader(data: Bytes, p: nat, last: int)
    requires p < |data| && data[p] >= 16 && data[p] % 16 != 0
    ensures FieldAt(data, p, last) == Some(Read(Field(data[p] as nat % 16, last + data[p] as nat / 16), p + 1))
  {
  }

  lemma IntFieldAt(data: Bytes, p: nat, v: int, q: nat, last: int)
    requires Is32(v) && Holds(data, p, IntField(v), q)
    ensures FieldAt(data, p, last) == Some(Read(Field(I32, last + 1), p + 1)) && ZigzagVarint(data, p + 1) == Some(Read(v, q))
  {
    HoldsParts(data, p, [0x15], WriteVarint(v), q);
    assert data[p] == [0x15][0];
    FieldHeader(data, p, last);
    VarintAt(data, p + 1, v, q);
  }

  /** The first of several fields, and where the others start. */
  lemma FieldsCons(data: Bytes, p: nat, vs: seq<int>, rest: Bytes, q: nat) returns (at: nat)
    requires vs != [] && Holds(data, p, IntFields(vs) + rest, q)
    ensures Holds(data, p, IntField(vs[0]), at) && Holds(data, at, IntFields(vs[1..]) + rest, q)
  {
    at := HoldsThree(data, p, IntField(vs[0]), IntFields(vs[1..]), rest, q);
  }

  lemma FieldsAlone(data: Bytes, p: nat, vs: seq<int>, q: nat) returns (at: nat)
    requires vs != [] && Holds(data, p, IntFields(vs), q)
    ensures Holds(data, p, IntField(vs[0]), at) && Holds(data, at, IntFields(vs[1..]), q)
  {
    assert IntFields(vs) + [] == IntFields(vs) && IntFields(vs[1..]) + [] == IntFields(vs[1..]);
    at := FieldsCons(data, p, vs, [], q);
  }

  lemma StopAt(data: Bytes, p: nat, q: nat, last: int)
    requires Holds(data, p, [0], q)
    ensures q == p + 1 && FieldAt(data, p, last) == Some(Read(Field(STOP, last), q))
  {
    assert data[p] == [0][0];
  }

  // ---------------------------------------------------------------- the inner header

  lemma InnerStep(data: Bytes, p: nat, dict: bool, last: int, pg: Page, v: int, q: nat)
    requires Is32(v) && Holds(data, p, IntField(v), q)
    ensures InnerHeader(data, p, dict, last, pg) == InnerHeader(data, q, dict, last + 1, Store(pg, dict, last + 1, v))
  {
    IntFieldAt(data, p, v, q, last);
  }

  lemma InnerStop(data: Bytes, p: nat, dict: bool, last: int, pg: Page, q: nat)
    requires Holds(data, p, [0], q)
    ensures InnerHeader(data, p, dict, last, pg) == Some(Read(pg, q))
  {
    StopAt(data, p, q, last);
  }

  /** The fields numbered from last + 1 on, stored one after the other. */
  function StoreAll(pg: Page, dict: bool, last: int, vs: seq<int>): Page
    decreases |vs|
  {
    if vs == [] then pg else StoreAll(Store(pg, dict, last + 1, vs[0]), dict, last + 1, vs[1..])
  }

  lemma {:induction false} InnerRead(data: Bytes, p: nat, dict: bool, last: int, pg: Page, vs: seq<int>, q: nat)
    requires All32(vs) && Holds(data, p, IntFields(vs) + [0], q)
    ensures InnerHeader(data, p, dict, last, pg) == Some(Read(StoreAll(pg, dict, last, vs), q))
    decreases |vs|
  {
    if vs == [] {
      assert [] + [0] == [0];
      InnerStop(data, p, dict, last, pg, q);
    } else {
      var at := FieldsCons(data, p, vs, [0], q);
      InnerStep(data, p, dict, last, pg, vs[0], at);
      InnerRead(data, at, dict, last + 1, Store(pg, dict, last + 1, vs[0]), vs[1..], q);
    }
  }

  function WithInner(pg: Page, inner: Inner): Page {
    match inner
    case NoInner => pg
    case DataPage(n, e, d, r) => pg.(numValues := n, valueEncoding := e, defEncoding := d, repEncoding := r)
    case DictPage(n, e) => pg.(numValues := n, valueEncoding := e)
  }

  /** The four fields of a data page header and the two of a dictionary page header. */
  lemma StoredValues(pg: Page, inner: Inner)
    requires !inner.NoInner? && All32(InnerValues(inner))
    ensures StoreAll(pg, inner.DictPage?, 0, InnerValues(inner)) == WithInner(pg, inner)
  {
    var vs := InnerValues(inner);
    assert forall i :: 0 <= i < |vs| ==> Is32(vs[i]);
    match inner
    case DataPage(n, e, d, r) =>
      assert Is32(vs[0]) && Is32(vs[1]) && Is32(vs[2]) && Is32(vs[3]);
      var g1 := pg.(numValues := n);
      var g2 := g1.(valueEncoding := e);
      var g3 := g2.(defEncoding := d);
      StoreCons(pg, false, 0, n, [e, d, r]);
      StoreCons(g1, false, 1, e, [d, r]);
      StoreCons(g2, false, 2, d, [r]);
      StoreCons(g3, false, 3, r, []);
    case DictPage(n, e) =>
      assert Is32(vs[0]) && Is32(vs[1]);
      StoreCons(pg, true, 0, n, [e]);
      StoreCons(pg.(numValues := n), true, 1, e, []);
  }

  lemma StoreCons(pg: Page, dict: bool, last: int, v: int, rest: seq<int>)
    ensures StoreAll(pg, dict, last, [v] + rest) == StoreAll(Store(pg, dict, last + 1, v), dict, last + 1, rest)
  {
    assert ([v] + rest)[1..] == rest;
  }

  // ---------------------------------------------------------------- the page header

  /** The page after one more of the first four fields; the checksum is not kept. */
  function WithField(pg: Page, id: int, v: int): Page {
    if id == 1 then pg.(kind := v) else if id == 2 then pg.(uncompSize := v) else if id == 3 then pg.(compSize := v) else pg
  }

  function WithFields(pg: Page, last: int, vs: seq<int>): Page
    decreases |vs|
  {
    if vs == [] then pg else WithFields(WithField(pg, last + 1, vs[0]), last + 1, vs[1..])
  }

  lemma HeaderStep(data: Bytes, p: nat, last: int, pg: Page, v: int, q: nat)
    requires Is32(v) && Holds(data, p, IntField(v), q) && 0 <= last <= 3
    ensures HeaderFields(data, p, last, pg) == HeaderFields(data, q, last + 1, WithField(pg, last + 1, v))
  {
    IntFieldAt(data, p, v, q, last);
  }

  lemma HeaderStop(data: Bytes, p: nat, last: int, pg: Page, q: nat)
    requires Holds(data, p, [0], q)
    ensures HeaderFields(data, p, last, pg) == Some(Read(pg, q))
  {
    StopAt(data, p, q, last);
  }

  /** `reader` reads header fields as the parser does. */
  ghost predicate IsReader(data: Bytes, reader: (nat, int, Page) -> Option<Read<Page>>) {
    forall p: nat, last, pg {:trigger HeaderFields(data, p, last, pg)} :: reader(p, last, pg) == HeaderFields(data, p, last, pg)
  }

  lemma ReaderStep(data: Bytes, reader: (nat, int, Page) -> Option<Read<Page>>, p: nat, last: int, pg: Page, v: int, q: nat)
    requires IsReader(data, reader) && Is32(v) && Holds(data, p, IntField(v), q) && 0 <= last <= 3
    ensures reader(p, last, pg) == reader(q, last + 1, WithField(pg, last + 1, v))
  {
    HeaderStep(data, p, last, pg, v, q);
  }

  lemma {:induction false} HeaderInts(data: Bytes, reader: (nat, int, Page) -> Option<Read<Page>>, p: nat, last: int, pg: Page,
                                      vs: seq<int>, q: nat)
    requires IsReader(data, reader)
    requires All32(vs) && 0 <= last && last + |vs| <= 4 && Holds(data, p, IntFields(vs), q)
    ensures reader(p, last, pg) == reader(q, last + |vs|, WithFields(pg, last, vs))
    decreases |vs|
  {
    if vs != [] {
      var at := FieldsAlone(data, p, vs, q);
      ReaderStep(data, reader, p, last, pg, vs[0], at);
      HeaderInts(data, reader, at, last + 1, WithField(pg, last + 1, vs[0]), vs[1..], q);
    }
  }

  lemma StructField(data: Bytes, p: nat, last: nat, id: nat, bytes: Bytes, q: nat)
    requires last <= 4 && (id == 5 || id == 7) && Holds(data, p, [((id - last) * 16 + 12) as Byte] + bytes, q)
    ensures FieldAt(data, p, last) == Some(Read(Field(STRUCT, id), p + 1)) && Holds(data, p + 1, bytes, q)
  {
    var b := ((id - last) * 16 + 12) as Byte;
    HoldsParts(data, p, [b], bytes, q);
    assert data[p] == [b][0];
    FieldHeader(data, p, last);
  }

  lemma StructStep(data: Bytes, p: nat, last: nat, pg: Page, inner: Inner, q: nat)
    requires last <= 4 && !inner.NoInner? && All32(InnerValues(inner)) && Holds(data, p, InnerField(inner, last), q)
    ensures HeaderFields(data, p, last, pg) == HeaderFields(data, q, if inner.DataPage? then 5 else 7, WithInner(pg, inner))
  {
    StructField(data, p, last, if inner.DataPage? then 5 else 7, IntFields(InnerValues(inner)) + [0], q);
    InnerRead(data, p + 1, inner.DictPage?, 0, pg, InnerValues(inner), q);
    StoredValues(pg, inner);
  }

  lemma HeaderTail(data: Bytes, p: nat, last: nat, pg: Page, inner: Inner, q: nat)
    requires last <= 4 && All32(InnerValues(inner)) && Holds(data, p, InnerField(inner, last) + [0], q)
    ensures HeaderFields(data, p, last, pg) == Some(Read(WithInner(pg, inner), q))
  {
    var p1 := p + |InnerField(inner, last)|;
    HoldsParts(data, p, InnerField(inner, last), [0], q);
    if inner.NoInner? {
      HeaderStop(data, p, last, pg, q);
    } else {
      StructStep(data, p, last, pg, inner, p1);
      HeaderStop(data, p1, if inner.DataPage? then 5 else 7, WithInner(pg, inner), q);
    }
  }

  lemma HeaderValuesLand(h: Header)
    ensures WithInner(WithFields(NEW_PAGE, 0, HeaderValues(h)), h.inner) == PageOf(h, 0, 0)
  {
    var c := if h.crc.Some? then [h.crc.value] else [];
    var g1 := NEW_PAGE.(kind := h.kind);
    var g2 := g1.(uncompSize := h.uncompSize);
    var g3 := g2.(compSize := h.compSize);
    assert HeaderValues(h) == [h.kind] + ([h.uncompSize] + ([h.compSize] + c));
    FieldCons(NEW_PAGE, 0, h.kind, [h.uncompSize] + ([h.compSize] + c));
    FieldCons(g1, 1, h.uncompSize, [h.compSize] + c);
    FieldCons(g2, 2, h.compSize, c);
    if h.crc.Some? { FieldCons(g3, 3, h.crc.value, []); }
  }

  lemma FieldCons(pg: Page, last: int, v: int, rest: seq<int>)
    ensures WithFields(pg, last, [v] + rest) == WithFields(WithField(pg, last + 1, v), last + 1, rest)
  {
    assert ([v] + rest)[1..] == rest;
  }

  lemma HeaderParts(data: Bytes, p: nat, h: Header, q: nat) returns (at: nat)
    requires Holds(data, p, HeaderBytes(h), q)
    ensures Holds(data, p, IntFields(HeaderValues(h)), at) && Holds(data, at, InnerField(h.inner, |HeaderValues(h)|) + [0], q)
  {
    var ints := IntFields(HeaderValues(h));
    HoldsParts(data, p, ints, InnerField(h.inner, |HeaderValues(h)|) + [0], q);
    at := p + |ints|;
  }

  /** A written header reads back with every value in its field, up to the byte after its STOP. */
  lemma HeaderReadBack(data: Bytes, p: nat, h: Header, q: nat)
    requires Fits(h) && Holds(data, p, HeaderBytes(h), q)
    ensures PageHeader(data, p) == Some(Read(PageOf(h, 0, 0), q))
  {
    var vs := HeaderValues(h);
    var at := HeaderParts(data, p, h, q);
    var reader := (p: nat, last: int, pg: Page) => HeaderFields(data, p, last, pg);
    HeaderInts(data, reader, p, 0, NEW_PAGE, vs, at);
    HeaderTail(data, at, |vs|, WithFields(NEW_PAGE, 0, vs), h.inner, q);
    HeaderValuesLand(h);
  }

  // ---------------------------------------------------------------- a whole chunk

  datatype WrittenPage = WrittenPage(header: Header, payload: Bytes)

  /** The header gives the size of the payload, and there is one. */
  predicate WellWritten(w: WrittenPage) {
    Fits(w.header) && w.header.compSize == |w.payload| > 0
  }

  function ChunkBytes(ws: seq<WrittenPage>): Bytes {
    if ws == [] then [] else HeaderBytes(ws[0].header) + (ws[0].payload + ChunkBytes(ws[1..]))
  }

  /** The pages of a chunk that starts `p` bytes after `chunkOff`. */
  function PagesOf(ws: seq<WrittenPage>, p: nat, chunkOff: nat): seq<Page> {
    if ws == [] then []
    else
      var len := |HeaderBytes(ws[0].header)|;
      [PageOf(ws[0].header, chunkOff + p + len, len)] + PagesOf(ws[1..], p + len + |ws[0].payload|, chunkOff)
  }

  lemma PageReadBack(data: Bytes, p: nat, w: WrittenPage, chunkOff: nat, q: nat, end: nat)
    requires WellWritten(w) && |data| < 0x8000_0000 && Holds(data, p, HeaderBytes(w.header), q) && end == q + |w.payload| <= |data|
    ensures PageAt(data, p, chunkOff) == Some(Read(PageOf(w.header, chunkOff + q, q - p), end))
  {
    HeaderReadBack(data, p, w.header, q);
    PlacedPage(data, p, chunkOff, PageOf(w.header, 0, 0), q);
  }

  lemma PlacedPage(data: Bytes, p: nat, chunkOff: nat, pg: Page, q: nat)
    requires |data| < 0x8000_0000 && PageHeader(data, p) == Some(Read(pg, q)) && 0 < pg.compSize <= |data| - q
    ensures PageAt(data, p, chunkOff) == Some(Read(pg.(headerLen := q - p, payloadOff := chunkOff + q), q + pg.compSize))
  {
  }

  lemma PagesCons(data: Bytes, p: nat, chunkOff: nat, pg: Page, next: nat, rest: seq<Page>)
    requires p <= |data| && PageAt(data, p, chunkOff) == Some(Read(pg, next)) && PagesFrom(data, next, chunkOff) == Some(rest)
    ensures PagesFrom(data, p, chunkOff) == Some([pg] + rest)
  {
  }

  lemma ChunkParts(data: Bytes, p: nat, ws: seq<WrittenPage>) returns (q: nat, end: nat)
    requires ws != [] && Holds(data, p, ChunkBytes(ws), |data|)
    ensures q == p + |HeaderBytes(ws[0].header)| && end == q + |ws[0].payload| <= |data|
    ensures Holds(data, p, HeaderBytes(ws[0].header), q) && Holds(data, end, ChunkBytes(ws[1..]), |data|)
  {
    var header, payload, rest := HeaderBytes(ws[0].header), ws[0].payload, ChunkBytes(ws[1..]);
    HoldsParts(data, p, header, payload + rest, |data|);
    HoldsParts(data, p + |header|, payload, rest, |data|);
    q, end := p + |header|, p + |header| + |payload|;
  }

  /** `one` reads pages as the parser does. */
  ghost predicate IsPageAt(data: Bytes, chunkOff: nat, one: nat -> Option<Read<Page>>) {
    forall p: nat {:trigger PageAt(data, p, chunkOff)} :: one(p) == PageAt(data, p, chunkOff)
  }

  lemma OneReads(data: Bytes, chunkOff: nat, one: nat -> Option<Read<Page>>, w: WrittenPage, p: nat, q: nat)
    requires |data| < 0x8000_0000 && IsPageAt(data, chunkOff, one)
    requires WellWritten(w) && Holds(data, p, HeaderBytes(w.header), q) && q + |w.payload| <= |data|
    ensures one(p) == Some(Read(PageOf(w.header, chunkOff + q, q - p), q + |w.payload|))
  {
    PageReadBack(data, p, w, chunkOff, q, q + |w.payload|);
  }

  /** `all` puts the page at p before those after it. */
  ghost predicate AddsOne(data: Bytes, one: nat -> Option<Read<Page>>, all: nat -> Option<seq<Page>>) {
    && all(|data|) == Some([])
    && forall p: nat :: p <= |data| && one(p).Some? && all(one(p).value.next).Some? ==>
         all(p) == Some([one(p).value.value] + all(one(p).value.next).value)
  }

  lemma {:induction false} ReadsPages(data: Bytes, one: nat -> Option<Read<Page>>, all: nat -> Option<seq<Page>>,
                                      p: nat, ws: seq<WrittenPage>, chunkOff: nat)
    requires |data| < 0x8000_0000 && IsPageAt(data, chunkOff, one) && AddsOne(data, one, all)
    requires Holds(data, p, ChunkBytes(ws), |data|) && forall i :: 0 <= i < |ws| ==> WellWritten(ws[i])
    ensures all(p) == Some(PagesOf(ws, p, chunkOff))
    decreases |ws|
  {
    if ws != [] {
      var q, end := ChunkParts(data, p, ws);
      ReadsPages(data, one, all, end, ws[1..], chunkOff);
      OneReads(data, chunkOff, one, ws[0], p, q);
    }
  }

  /** A chunk of written pages parses into exactly those pages, each at its place. */
  lemma ChunkReadBack(ws: seq<WrittenPage>, chunkOff: nat)
    requires |ChunkBytes(ws)| < 0x8000_0000 && forall i :: 0 <= i < |ws| ==> WellWritten(ws[i])
    ensures PagesFrom(ChunkBytes(ws), 0, chunkOff) == Some(PagesOf(ws, 0, chunkOff))
  {
    ParsesPages(ChunkBytes(ws), ws, chunkOff);
  }

  lemma PagesFromAdds(data: Bytes, chunkOff: nat, one: nat -> Option<Read<Page>>, all: nat -> Option<seq<Page>>)
    requires IsPageAt(data, chunkOff, one)
    requires forall p: nat :: p <= |data| ==> all(p) == PagesFrom(data, p, chunkOff)
    ensures AddsOne(data, one, all)
  {
    forall p: nat | p <= |data| && one(p).Some? && all(one(p).value.next).Some?
      ensures all(p) == Some([one(p).value.value] + all(one(p).value.next).value)
    {
      PagesCons(data, p, chunkOff, one(p).value.value, one(p).value.next, all(one(p).value.next).value);
    }
  }

  lemma ParsesPages(data: Bytes, ws: seq<WrittenPage>, chunkOff: nat)
    requires data == ChunkBytes(ws) && |data| < 0x8000_0000 && forall i :: 0 <= i < |ws| ==> WellWritten(ws[i])
    ensures PagesFrom(data, 0, chunkOff) == Some(PagesOf(ws, 0, chunkOff))
  {
    var one := (p: nat) => PageAt(data, p, chunkOff);
    var all := (p: nat) => if p <= |data| then PagesFrom(data, p, chunkOff) else None;
    PagesFromAdds(data, chunkOff, one, all);
    ReadsPages(data, one, all, 0, ws, chunkOff);
  }

  // ---------------------------------------------------------------- fields that are skipped or refused

  /** An i32 field with its number given relative to the last one, or in full. */
  datatype IntEntry = Near(value: int) | Far(id: int, value: int)

  function EntryBytes(f: IntEntry): Bytes {
    match f
    case Near(v) => IntField(v)
    case Far(id, v) => ([5] + WriteVarint(id)) + WriteVarint(v)
  }

  predicate EntryFits(f: IntEntry) {
    Is32(f.value) && (f.Far? ==> Is32(f.id))
  }

  function EntriesBytes(fs: seq<IntEntry>): Bytes {
    if fs == [] then [] else EntryBytes(fs[0]) + EntriesBytes(fs[1..])
  }

  /** A field header with no relative number is followed by the number itself. */
  lemma FarFieldAt(data: Bytes, p: nat, t: Byte, id: int, last: int, q: nat)
    requires 1 <= t < 16 && Is32(id) && Holds(data, p, [t] + WriteVarint(id), q)
    ensures FieldAt(data, p, last) == Some(Read(Field(t as nat, id), q))
  {
    HoldsParts(data, p, [t], WriteVarint(id), q);
    assert data[p] == [t][0];
    VarintAt(data, p + 1, id, q);
  }

  lemma NearSkip(data: Bytes, p: nat, v: int, q: nat)
    requires Is32(v) && Holds(data, p, IntField(v), q)
    ensures SkipFields(data, p) == SkipFields(data, q)
  {
    HoldsParts(data, p, [0x15], WriteVarint(v), q);
    assert data[p] == [0x15][0];
    VarintAt(data, p + 1, v, q);
    assert SkipValue(data, p + 1, I32) == Some(q);
  }

  lemma FarSkip(data: Bytes, p: nat, id: int, v: int, q: nat)
    requires Is32(id) && Is32(v) && Holds(data, p, ([5] + WriteVarint(id)) + WriteVarint(v), q)
    ensures SkipFields(data, p) == SkipFields(data, q)
  {
    var at := p + 1 + |WriteVarint(id)|;
    HoldsParts(data, p, [5] + WriteVarint(id), WriteVarint(v), q);
    HoldsParts(data, p, [5], WriteVarint(id), at);
    assert data[p] == [5][0];
    VarintAt(data, p + 1, id, at);
    VarintAt(data, at, v, q);
    FarSkipAt(data, p, id, at, v, q);
  }

  lemma FarSkipAt(data: Bytes, p: nat, id: int, at: nat, v: int, q: nat)
    requires p < |data| && data[p] == 5
    requires ZigzagVarint(data, p + 1) == Some(Read(id, at)) && ZigzagVarint(data, at) == Some(Read(v, q))
    ensures SkipFields(data, p) == SkipFields(data, q)
  {
    assert AfterFieldId(data, p + 1, 0) == Some(at) && SkipValue(data, at, I32) == Some(q);
  }

  lemma EntrySkip(data: Bytes, p: nat, f: IntEntry, q: nat)
    requires EntryFits(f) && Holds(data, p, EntryBytes(f), q)
    ensures SkipFields(data, p) == SkipFields(data, q)
  {
    match f
    case Near(v) => NearSkip(data, p, v, q);
    case Far(id, v) => FarSkip(data, p, id, v, q);
  }

  /** `skip` skips fields as the parser does. */
  ghost predicate IsSkipper(data: Bytes, skip: nat -> Option<nat>) {
    forall p: nat {:trigger SkipFields(data, p)} :: p <= |data| ==> skip(p) == SkipFields(data, p)
  }

  lemma SkipperStep(data: Bytes, skip: nat -> Option<nat>, p: nat, f: IntEntry, q: nat)
    requires IsSkipper(data, skip) && EntryFits(f) && Holds(data, p, EntryBytes(f), q)
    ensures skip(p) == skip(q)
  {
    EntrySkip(data, p, f, q);
  }

  lemma SkipperStop(data: Bytes, skip: nat -> Option<nat>, p: nat, q: nat)
    requires IsSkipper(data, skip) && Holds(data, p, [0], q)
    ensures skip(p) == Some(q)
  {
    assert data[p] == [0][0];
    assert SkipFields(data, p) == Some(q);
  }

  lemma EntriesCons(data: Bytes, p: nat, fs: seq<IntEntry>, rest: Bytes, q: nat) returns (at: nat)
    requires fs != [] && Holds(data, p, EntriesBytes(fs) + rest, q)
    ensures Holds(data, p, EntryBytes(fs[0]), at) && Holds(data, at, EntriesBytes(fs[1..]) + rest, q)
  {
    at := HoldsThree(data, p, EntryBytes(fs[0]), EntriesBytes(fs[1..]), rest, q);
  }

  lemma {:induction false} SkipsEntries(data: Bytes, skip: nat -> Option<nat>, p: nat, fs: seq<IntEntry>, q: nat)
    requires IsSkipper(data, skip)
    requires (forall i :: 0 <= i < |fs| ==> EntryFits(fs[i])) && Holds(data, p, EntriesBytes(fs) + [0], q)
    ensures skip(p) == Some(q)
    decreases |fs|
  {
    if fs == [] {
      assert EntriesBytes(fs) + [0] == [0];
      SkipperStop(data, skip, p, q);
    } else {
      var at := EntriesCons(data, p, fs, [0], q);
      SkipperStep(data, skip, p, fs[0], at);
      SkipsEntries(data, skip, at, fs[1..], q);
    }
  }

  /** A struct of integers, however its fields are numbered, is skipped up to the byte after its STOP. */
  lemma StructSkipped(data: Bytes, p: nat, fs: seq<IntEntry>, q: nat)
    requires (forall i :: 0 <= i < |fs| ==> EntryFits(fs[i])) && Holds(data, p, EntriesBytes(fs) + [0], q)
    ensures SkipValue(data, p, STRUCT) == Some(q)
  {
    var skip := (p: nat) => if p <= |data| then SkipFields(data, p) else None;
    SkipsEntries(data, skip, p, fs, q);
  }

  /** A header field the parser does not know, such as a version 2 page header, leaves the page as it
      is. */
  lemma UnknownStruct(data: Bytes, p: nat, last: int, pg: Page, id: int, fs: seq<IntEntry>, at: nat, q: nat)
    requires FieldAt(data, p, last) == Some(Read(Field(STRUCT, id), at)) && id !in {1, 2, 3, 5, 7}
    requires (forall i :: 0 <= i < |fs| ==> EntryFits(fs[i])) && Holds(data, at, EntriesBytes(fs) + [0], q)
    ensures HeaderFields(data, p, last, pg) == HeaderFields(data, q, id, pg)
  {
    StructSkipped(data, at, fs, q);
  }

  /** So does one inside a data or dictionary page header. */
  lemma UnknownInnerStruct(data: Bytes, p: nat, dict: bool, last: int, pg: Page, id: int, fs: seq<IntEntry>, at: nat, q: nat)
    requires FieldAt(data, p, last) == Some(Read(Field(STRUCT, id), at))
    requires (forall i :: 0 <= i < |fs| ==> EntryFits(fs[i])) && Holds(data, at, EntriesBytes(fs) + [0], q)
    ensures InnerHeader(data, p, dict, last, pg) == InnerHeader(data, q, dict, id, pg)
  {
    StructSkipped(data, at, fs, q);
  }

  /** The page type and the two sizes must be i32 fields. */
  lemma WrongTypeRefused(data: Bytes, p: nat, last: int, pg: Page, kind: nat, id: int, at: nat)
    requires FieldAt(data, p, last) == Some(Read(Field(kind, id), at)) && id in {1, 2, 3} && kind != STOP && kind != I32
    ensures HeaderFields(data, p, last, pg) == None
  {
  }
}
