/**
 Parquet page headers as the parser reads them: what each construct consumes, as functions of the
 bytes and a position.  None is the exception the parser throws.
 */
module PageFormat {
  import opened Values
  import opened Varints

  const STOP := 0
  const BOOL_TRUE := 1
  const BOOL_FALSE := 2
  const BYTE := 3
  const I16 := 4
  const I32 := 5
  const I64 := 6
  const DOUBLE := 7
  const BINARY := 8
  const LIST := 9
  const SET := 10
  const MAP := 11
  const STRUCT := 12

  function ByteAt(data: Bytes, p: nat): (r: Option<Read<nat>>)
    ensures r.Some? ==> r.value.next == p + 1 <= |data| && r.value.value < 256
  {
    if p >= |data| then None else Some(Read(data[p] as nat, p + 1))
  }

  function Skip(data: Bytes, p: nat, n: nat): (r: Option<nat>)
    ensures r.Some? ==> p <= r.value <= |data|
  {
    if p + n > |data| then None else Some(p + n)
  }

  /** A length: a zigzag varint that must not be negative. */
  function Length(data: Bytes, p: nat): (r: Option<Read<nat>>)
    ensures r.Some? ==> p < r.value.next <= |data|
  {
    var r := ZigzagVarint(data, p);
    if r.None? || r.value.value < 0 then None else Some(Read(r.value.value, r.value.next))
  }

  // ---------------------------------------------------------------- skipping a value

  /** The position after one value of the given type. */
  function SkipValue(data: Bytes, p: nat, t: nat): (r: Option<nat>)
    requires p <= |data|
    ensures r.Some? ==> p <= r.value <= |data|
    decreases |data| - p, 1, 0
  {
    if t == BOOL_TRUE || t == BOOL_FALSE then Some(p)
    else if t == BYTE then Skip(data, p, 1)
    else if t == I16 || t == I32 || t == I64 then
      var v := ZigzagVarint(data, p); if v.None? then None else Some(v.value.next)
    else if t == DOUBLE then Skip(data, p, 8)
    else if t == BINARY then
      var n := Length(data, p); if n.None? then None else Skip(data, n.value.next, n.value.value)
    else if t == STRUCT then SkipFields(data, p)
    else if t == LIST || t == SET then
      var et := ByteAt(data, p);
      if et.None? then None
      else
        var n := Length(data, et.value.next);
        if n.None? then None else SkipMany(data, n.value.next, et.value.value % 16, n.value.value)
    else if t == MAP then
      var n := Length(data, p);
      if n.None? then None
      else if n.value.value == 0 then Some(n.value.next)
      else
        var kt := ByteAt(data, n.value.next);
        if kt.None? then None
        else
          var vt := ByteAt(data, kt.value.next);
          if vt.None? then None
          else SkipPairs(data, vt.value.next, kt.value.value % 16, vt.value.value % 16, n.value.value)
    else None
  }

  /** Fields up to and including the STOP byte. */
  function SkipFields(data: Bytes, p: nat): (r: Option<nat>)
    requires p <= |data|
    ensures r.Some? ==> p < r.value <= |data|
    decreases |data| - p, 0, 0
  {
    var fh := ByteAt(data, p);
    if fh.None? then None
    else
      var ft := fh.value.value % 16;
      if ft == STOP then Some(fh.value.next)
      else
        var at := AfterFieldId(data, fh.value.next, fh.value.value / 16);
        if at.None? then None
        else
          var next := SkipValue(data, at.value, ft);
          if next.None? then None else SkipFields(data, next.value)
  }

  /** A zero delta means an explicit field id follows. */
  function AfterFieldId(data: Bytes, p: nat, delta: nat): (r: Option<nat>)
    requires p <= |data|
    ensures r.Some? ==> p <= r.value <= |data|
  {
    if delta != 0 then Some(p)
    else
      var id := ZigzagVarint(data, p); if id.None? then None else Some(id.value.next)
  }

  /** n values of one type.  Elements may take no bytes at all, so n is what runs out. */
  function SkipMany(data: Bytes, p: nat, t: nat, n: nat): (r: Option<nat>)
    requires p <= |data|
    ensures r.Some? ==> p <= r.value <= |data|
    decreases |data| - p, 2, n
  {
    if n == 0 then Some(p)
    else
      var next := SkipValue(data, p, t);
      if next.None? then None else SkipMany(data, next.value, t, n - 1)
  }

  function SkipPairs(data: Bytes, p: nat, kt: nat, vt: nat, n: nat): (r: Option<nat>)
    requires p <= |data|
    ensures r.Some? ==> p <= r.value <= |data|
    decreases |data| - p, 2, n
  {
    if n == 0 then Some(p)
    else
      var k := SkipValue(data, p, kt);
      if k.None? then None
      else
        var v := SkipValue(data, k.value, vt);
        if v.None? then None else SkipPairs(data, v.value, kt, vt, n - 1)
  }

  // ---------------------------------------------------------------- headers

  /** `(int)v`: the low 32 bits, signed. */
  function Int32(v: int): (r: int)
    ensures -0x8000_0000 <= r < 0x8000_0000
    ensures -0x8000_0000 <= v < 0x8000_0000 ==> r == v
  {
    var u := v % 0x1_0000_0000;
    if u < 0x8000_0000 then u else u - 0x1_0000_0000
  }

  datatype Page = Page(
    kind: int, payloadOff: int, headerLen: int, compSize: int, uncompSize: int, numValues: int,
    valueEncoding: int, defEncoding: int, repEncoding: int)

  datatype Field = Field(kind: nat, id: int)

  /** Field type and absolute id; a STOP leaves the id as it was. */
  function FieldAt(data: Bytes, p: nat, last: int): (r: Option<Read<Field>>)
    ensures r.Some? ==> p < r.value.next <= |data|
  {
    var fh := ByteAt(data, p);
    if fh.None? then None
    else
      var ft, delta := fh.value.value % 16, fh.value.value / 16;
      if ft == STOP then Some(Read(Field(STOP, last), fh.value.next))
      else if delta != 0 then Some(Read(Field(ft, last + delta), fh.value.next))
      else
        var id := ZigzagVarint(data, fh.value.next);
        if id.None? then None else Some(Read(Field(ft, Int32(id.value.value)), id.value.next))
  }

  /** DataPageHeader stores four fields, DictionaryPageHeader the first two of them. */
  function Store(pg: Page, dict: bool, id: int, v: int): Page {
    if id == 1 then pg.(numValues := Int32(v))
    else if id == 2 then pg.(valueEncoding := Int32(v))
    else if !dict && id == 3 then pg.(defEncoding := Int32(v))
    else if !dict && id == 4 then pg.(repEncoding := Int32(v))
    else pg
  }

  /** The fields of a nested page header: i32 fields are stored, others skipped. */
  function InnerHeader(data: Bytes, p: nat, dict: bool, last: int, pg: Page): (r: Option<Read<Page>>)
    ensures r.Some? ==> p < r.value.next <= |data|
    ensures r.Some? ==> r.value.value.compSize == pg.compSize
    decreases |data| - p
  {
    var f := FieldAt(data, p, last);
    if f.None? then None
    else if f.value.value.kind == STOP then Some(Read(pg, f.value.next))
    else if f.value.value.kind == I32 then
      var v := ZigzagVarint(data, f.value.next);
      if v.None? then None
      else InnerHeader(data, v.value.next, dict, f.value.value.id, Store(pg, dict, f.value.value.id, v.value.value))
    else
      var next := SkipValue(data, f.value.next, f.value.value.kind);
      if next.None? then None else InnerHeader(data, next.value, dict, f.value.value.id, pg)
  }

  /** One field of the page header, at the position after its field header. */
  function HeaderField(data: Bytes, p: nat, f: Field, pg: Page): (r: Option<Read<Page>>)
    requires p <= |data|
    ensures r.Some? ==> p <= r.value.next <= |data|
  {
    if f.id == 1 || f.id == 2 || f.id == 3 then
      var v := ZigzagVarint(data, p);
      if f.kind != I32 || v.None? then None
      else
        var w := Int32(v.value.value);
        Some(Read(if f.id == 1 then pg.(kind := w) else if f.id == 2 then pg.(uncompSize := w) else pg.(compSize := w), v.value.next))
    else if (f.id == 5 || f.id == 7) && f.kind == STRUCT then InnerHeader(data, p, f.id == 7, 0, pg)
    else
      var next := SkipValue(data, p, f.kind);
      if next.None? then None else Some(Read(pg, next.value))
  }

  function HeaderFields(data: Bytes, p: nat, last: int, pg: Page): (r: Option<Read<Page>>)
    ensures r.Some? ==> p < r.value.next <= |data|
    decreases |data| - p
  {
    var f := FieldAt(data, p, last);
    if f.None? then None
    else if f.value.value.kind == STOP then Some(Read(pg, f.value.next))
    else
      var next := HeaderField(data, f.value.next, f.value.value, pg);
      if next.None? then None else HeaderFields(data, next.value.next, f.value.value.id, next.value.value)
  }

  const NEW_PAGE := Page(0, 0, 0, 0, 0, 0, -1, -1, -1)

  function PageHeader(data: Bytes, p: nat): (r: Option<Read<Page>>)
    ensures r.Some? ==> p < r.value.next <= |data|
  {
    HeaderFields(data, p, 0, NEW_PAGE)
  }

  // ---------------------------------------------------------------- a column chunk

  /** The page at p, with its place in the file filled in, and the position after its payload. */
  function PageAt(data: Bytes, p: nat, chunkOff: nat): (r: Option<Read<Page>>)
    ensures r.Some? ==> p < r.value.next <= |data|
  {
    var h := PageHeader(data, p);
    if h.None? then None
    else
      var pg, at := h.value.value, h.value.next;
      if pg.compSize <= 0 || |data| - at < pg.compSize then None
      else Some(Read(pg.(headerLen := Int32(at - p), payloadOff := chunkOff + at), at + pg.compSize))
  }

  function PagesFrom(data: Bytes, p: nat, chunkOff: nat): (r: Option<seq<Page>>)
    requires p <= |data|
    decreases |data| - p
  {
    if p == |data| then Some([])
    else
      var pg := PageAt(data, p, chunkOff);
      if pg.None? then None
      else
        var rest := PagesFrom(data, pg.value.next, chunkOff);
        if rest.None? then None else Some([pg.value.value] + rest.value)
  }

  // ---------------------------------------------------------------- tiling

  /** Headers and payloads follow one another without gap or overlap from p to the end. */
  predicate Tiles(pages: seq<Page>, p: nat, end: nat, chunkOff: nat) {
    if pages == [] then p == end
    else
      var pg := pages[0];
      && pg.headerLen > 0 && pg.compSize > 0
      && pg.payloadOff == chunkOff + p + pg.headerLen
      && Tiles(pages[1..], p + pg.headerLen + pg.compSize, end, chunkOff)
  }

  function TotalSize(pages: seq<Page>): int {
    if pages == [] then 0 else pages[0].headerLen + pages[0].compSize + TotalSize(pages[1..])
  }

  /** On success the pages tile the chunk exactly, in order. */
  lemma {:induction false} PagesTile(data: Bytes, p: nat, chunkOff: nat)
    requires p <= |data| < 0x8000_0000 && PagesFrom(data, p, chunkOff).Some?
    ensures Tiles(PagesFrom(data, p, chunkOff).value, p, |data|, chunkOff)
    decreases |data| - p
  {
    if p < |data| {
      var pg := PageAt(data, p, chunkOff).value;
      PagesTile(data, pg.next, chunkOff);
    }
  }

  lemma {:induction false} TilesAddUp(pages: seq<Page>, p: nat, end: nat, chunkOff: nat)
    requires Tiles(pages, p, end, chunkOff)
    ensures p + TotalSize(pages) == end
  {
    if pages != [] { TilesAddUp(pages[1..], p + pages[0].headerLen + pages[0].compSize, end, chunkOff); }
  }

  /** Page k's payload lies inside the chunk and ends where page k+1's header starts. */
  lemma {:induction false} PayloadsInOrder(pages: seq<Page>, p: nat, end: nat, chunkOff: nat, k: nat)
    requires Tiles(pages, p, end, chunkOff) && k < |pages|
    ensures chunkOff + p < pages[k].payloadOff && pages[k].payloadOff + pages[k].compSize <= chunkOff + end
    ensures k + 1 < |pages| ==> pages[k + 1].payloadOff == pages[k].payloadOff + pages[k].compSize + pages[k + 1].headerLen
    ensures k + 1 == |pages| ==> pages[k].payloadOff + pages[k].compSize == chunkOff + end
  {
    var next := p + pages[0].headerLen + pages[0].compSize;
    if k > 0 {
      PayloadsInOrder(pages[1..], next, end, chunkOff, k - 1);
    } else {
      TilesAhead(pages[1..], next, end, chunkOff);
    }
  }

  lemma {:induction false} TilesAhead(pages: seq<Page>, p: nat, end: nat, chunkOff: nat)
    requires Tiles(pages, p, end, chunkOff)
    ensures p <= end
  {
    if pages != [] { TilesAhead(pages[1..], p + pages[0].headerLen + pages[0].compSize, end, chunkOff); }
  }

  // ---------------------------------------------------------------- where the skip is off

  lemma BinarySkipMeans(data: Bytes, p: nat, v: int, q: nat)
    requires p <= |data| && ZigzagVarint(data, p) == Some(Read(v, q))
    ensures SkipValue(data, p, BINARY) == if v < 0 then None else Skip(data, q, v)
  {
  }

  /** `data` holds, from p, a binary value as the Compact Protocol writes it: a plain, unsigned
      length and that many bytes, starting at `start`. */
  predicate HoldsBinary(data: Bytes, p: nat, bytes: Bytes, start: nat) {
    && start == p + |Groups(|bytes|)| && start + |bytes| <= |data|
    && data[p..start] == Groups(|bytes|) && data[start..start + |bytes|] == bytes
  }

  /** The skip reads that length as zigzag: odd lengths are refused and even ones halved. */
  lemma BinarySkipLands(data: Bytes, p: nat, bytes: Bytes, start: nat)
    requires HoldsBinary(data, p, bytes, start) && |bytes| < TWO64
    ensures SkipValue(data, p, BINARY) == if |bytes| % 2 == 0 then Some(start + |bytes| / 2) else None
  {
    assert data == data[..p] + Groups(|bytes|) + data[start..];
    PlainReadAsZigzag(data, data[..p], |bytes|, data[start..], start);
    BinarySkipMeans(data, p, Unzigzag(|bytes|), start);
  }

  /** So the skip finds the end of such a value exactly when the value is empty. */
  lemma BinarySkipExactIff(data: Bytes, p: nat, bytes: Bytes, start: nat)
    requires HoldsBinary(data, p, bytes, start) && |bytes| < TWO64
    ensures SkipValue(data, p, BINARY) == Some(start + |bytes|) <==> bytes == []
  {
    BinarySkipLands(data, p, bytes, start);
  }

  /** One byte of binary is already refused. */
  lemma BinarySkipCounterexample()
    ensures HoldsBinary([1, 7], 0, [7], 1) && SkipValue([1, 7], 0, BINARY) == None
  {
    var data: Bytes, bytes: Bytes := [1, 7], [7];
    assert Groups(1) == [1];
    assert data[0..1] == [1] && data[1..2] == bytes;
    BinarySkipLands(data, 0, bytes, 1);
  }
}
