/** The page-header parser itself: a cursor that moves over one column chunk and never leaves it. */
module PageParser {
  import opened Values
  import opened Varints
  import opened PageFormat

  class Cursor {
    const data: Bytes
    var p: nat

    ghost predicate Valid()
      reads this
    {
      p <= |data|
    }

    constructor (bytes: Bytes)
      ensures Valid() && data == bytes && p == 0
    {
      data := bytes;
      p := 0;
    }

    method Byte() returns (r: Option<nat>)
      requires Valid()
      modifies this
      ensures Valid()
      ensures match ByteAt(data, old(p)) case None => r == None case Some(v) => r == Some(v.value) && p == v.next
    {
      if p >= |data| { return None; }
      r := Some(data[p] as nat);
      p := p + 1;
    }

    method SkipBytes(n: nat) returns (ok: bool)
      requires Valid()
      modifies this
      ensures Valid()
      ensures match Skip(data, old(p), n) case None => !ok case Some(q) => ok && p == q
    {
      if p + n > |data| { return false; }
      p := p + n;
      return true;
    }

    /** At most ten groups, accumulated at a growing shift. */
    method Varint() returns (r: Option<int>)
      requires Valid()
      modifies this
      ensures Valid()
      ensures match ZigzagVarint(data, old(p)) case None => r == None case Some(v) => r == Some(v.value) && p == v.next
    {
      var u, i := 0, 0;
      while i < 10
        invariant Valid() && 0 <= i <= 10 && 0 <= u
        invariant VarintFrom(data, old(p), 0, 0) == VarintFrom(data, p, i, u)
      {
        var b := Byte();
        if b.None? { return None; }
        u := Place(u, b.value % 128, i);
        if b.value < 128 { return Some(Unzigzag(u)); }
        i := i + 1;
      }
      return None;
    }

    method LengthVarint() returns (r: Option<nat>)
      requires Valid()
      modifies this
      ensures Valid()
      ensures match Length(data, old(p)) case None => r == None case Some(v) => r == Some(v.value) && p == v.next
    {
      var v := Varint();
      if v.None? || v.value < 0 { return None; }
      return Some(v.value);
    }

    /** Skips one value; the bytes that remain bound the nesting. */
    method SkipOne(t: nat) returns (ok: bool)
      requires Valid()
      modifies this
      ensures Valid()
      ensures match PageFormat.SkipValue(data, old(p), t) case None => !ok case Some(q) => ok && p == q
      decreases |data| - p, 1
    {
      if t == BOOL_TRUE || t == BOOL_FALSE {
        return true;
      } else if t == BYTE {
        ok := SkipBytes(1);
      } else if t == I16 || t == I32 || t == I64 {
        var v := Varint();
        return v.Some?;
      } else if t == DOUBLE {
        ok := SkipBytes(8);
      } else if t == BINARY {
        var n := LengthVarint();
        if n.None? { return false; }
        ok := SkipBytes(n.value);
      } else if t == STRUCT {
        ok := SkipStruct();
      } else if t == LIST || t == SET {
        ok := SkipList();
      } else if t == MAP {
        ok := SkipMap();
      } else {
        return false;
      }
    }

    method SkipStruct() returns (ok: bool)
      requires Valid()
      modifies this
      ensures Valid()
      ensures match SkipFields(data, old(p)) case None => !ok case Some(q) => ok && p == q
      decreases |data| - p, 0
    {
      while true
        invariant Valid() && old(p) <= p
        invariant SkipFields(data, old(p)) == SkipFields(data, p)
        decreases |data| - p
      {
        var fh := Byte();
        if fh.None? { return false; }
        if fh.value % 16 == STOP { return true; }
        if fh.value / 16 == 0 {
          var id := Varint();
          if id.None? { return false; }
        }
        var more := SkipOne(fh.value % 16);
        if !more { return false; }
      }
    }

    method SkipList() returns (ok: bool)
      requires Valid()
      modifies this
      ensures Valid()
      ensures match PageFormat.SkipValue(data, old(p), LIST) case None => !ok case Some(q) => ok && p == q
      decreases |data| - p, 0
    {
      var et := Byte();
      if et.None? { return false; }
      var n := LengthVarint();
      if n.None? { return false; }
      ghost var start := p;
      var i := 0;
      while i < n.value
        invariant Valid() && start <= p && 0 <= i <= n.value
        invariant SkipMany(data, start, et.value % 16, n.value) == SkipMany(data, p, et.value % 16, n.value - i)
        decreases n.value - i
      {
        var more := SkipOne(et.value % 16);
        if !more { return false; }
        i := i + 1;
      }
      return true;
    }

    method SkipMap() returns (ok: bool)
      requires Valid()
      modifies this
      ensures Valid()
      ensures match PageFormat.SkipValue(data, old(p), MAP) case None => !ok case Some(q) => ok && p == q
      decreases |data| - p, 0
    {
      var n := LengthVarint();
      if n.None? { return false; }
      if n.value == 0 { return true; }
      var kt := Byte();
      if kt.None? { return false; }
      var vt := Byte();
      if vt.None? { return false; }
      ok := SkipEntries(kt.value % 16, vt.value % 16, n.value);
    }

    method SkipEntries(kt: nat, vt: nat, n: nat) returns (ok: bool)
      requires Valid()
      modifies this
      ensures Valid()
      ensures match SkipPairs(data, old(p), kt, vt, n) case None => !ok case Some(q) => ok && p == q
      decreases |data| - p, 2
    {
      var i := 0;
      while i < n
        invariant Valid() && old(p) <= p && 0 <= i <= n
        invariant SkipPairs(data, old(p), kt, vt, n) == SkipPairs(data, p, kt, vt, n - i)
        decreases n - i
      {
        var more := SkipOne(kt);
        if !more { return false; }
        more := SkipOne(vt);
        if !more { return false; }
        i := i + 1;
      }
      return true;
    }

    method ReadField(last: int) returns (r: Option<Field>)
      requires Valid()
      modifies this
      ensures Valid()
      ensures match FieldAt(data, old(p), last) case None => r == None case Some(f) => r == Some(f.value) && p == f.next
    {
      var fh := Byte();
      if fh.None? { return None; }
      var ft, delta := fh.value % 16, fh.value / 16;
      if ft == STOP { return Some(Field(STOP, last)); }
      if delta != 0 { return Some(Field(ft, last + delta)); }
      var id := Varint();
      if id.None? { return None; }
      return Some(Field(ft, Int32(id.value)));
    }

    /** DataPageHeader, or DictionaryPageHeader when `dict` holds. */
    method ParseInnerHeader(dict: bool, page: Page) returns (r: Option<Page>)
      requires Valid()
      modifies this
      ensures Valid()
      ensures match InnerHeader(data, old(p), dict, 0, page) case None => r == None case Some(h) => r == Some(h.value) && p == h.next
    {
      var pg, last := page, 0;
      while true
        invariant Valid()
        invariant InnerHeader(data, old(p), dict, 0, page) == InnerHeader(data, p, dict, last, pg)
        decreases |data| - p
      {
        var f := ReadField(last);
        if f.None? { return None; }
        if f.value.kind == STOP { return Some(pg); }
        last := f.value.id;
        if f.value.kind == I32 {
          var v := Varint();
          if v.None? { return None; }
          pg := Store(pg, dict, last, v.value);
        } else {
          var ok := SkipOne(f.value.kind);
          if !ok { return None; }
        }
      }
    }

    method ParseHeaderField(f: Field, page: Page) returns (r: Option<Page>)
      requires Valid()
      modifies this
      ensures Valid()
      ensures match HeaderField(data, old(p), f, page) case None => r == None case Some(h) => r == Some(h.value) && p == h.next
    {
      if f.id == 1 || f.id == 2 || f.id == 3 {
        if f.kind != I32 { return None; }
        var v := Varint();
        if v.None? { return None; }
        var w := Int32(v.value);
        return Some(if f.id == 1 then page.(kind := w) else if f.id == 2 then page.(uncompSize := w) else page.(compSize := w));
      } else if (f.id == 5 || f.id == 7) && f.kind == STRUCT {
        r := ParseInnerHeader(f.id == 7, page);
      } else {
        var ok := SkipOne(f.kind);
        if !ok { return None; }
        return Some(page);
      }
    }

    /** One PageHeader, leaving the cursor at its payload. */
    method ParsePageHeader() returns (r: Option<Page>)
      requires Valid()
      modifies this
      ensures Valid()
      ensures match PageHeader(data, old(p)) case None => r == None case Some(h) => r == Some(h.value) && p == h.next
    {
      var pg, last := NEW_PAGE, 0;
      while true
        invariant Valid()
        invariant HeaderFields(data, old(p), 0, NEW_PAGE) == HeaderFields(data, p, last, pg)
        decreases |data| - p
      {
        var f := ReadField(last);
        if f.None? { return None; }
        if f.value.kind == STOP { return Some(pg); }
        last := f.value.id;
        var next := ParseHeaderField(f.value, pg);
        if next.None? { return None; }
        pg := next.value;
      }
    }
  
    /** One header and its payload, placed in the file. */
    method ParsePage(chunkOff: nat) returns (r: Option<Page>)
      requires Valid()
      modifies this
      ensures Valid()
      ensures match PageAt(data, old(p), chunkOff) case None => r == None case Some(g) => r == Some(g.value) && p == g.next
    {
      var start := p;
      var h := ParsePageHeader();
      if h.None? { return None; }
      var pg := h.value.(headerLen := Int32(p - start));
      if pg.compSize <= 0 { return None; }
      pg := pg.(payloadOff := chunkOff + p);
      if |data| - p < pg.compSize { return None; }
      var _ := SkipBytes(pg.compSize);
      return Some(pg);
    }
  }

  /** With the pages read so far, what is left to read from p decides the result. */
  ghost predicate Continues(chunk: Bytes, chunkOff: nat, p: nat, pages: seq<Page>)
    requires p <= |chunk|
  {
    var rest := PagesFrom(chunk, p, chunkOff);
    PagesFrom(chunk, 0, chunkOff) == if rest.None? then None else Some(pages + rest.value)
  }

  lemma ContinuesAtStart(chunk: Bytes, chunkOff: nat)
    ensures Continues(chunk, chunkOff, 0, [])
  {
    var rest, none: seq<Page> := PagesFrom(chunk, 0, chunkOff), [];
    if rest.Some? { assert none + rest.value == rest.value; }
  }

  lemma ContinuesAfter(chunk: Bytes, chunkOff: nat, p: nat, pages: seq<Page>)
    requires p < |chunk| && Continues(chunk, chunkOff, p, pages)
    ensures var pg := PageAt(chunk, p, chunkOff);
            if pg.None? then PagesFrom(chunk, 0, chunkOff) == None else Continues(chunk, chunkOff, pg.value.next, pages + [pg.value.value])
  {
    var pg := PageAt(chunk, p, chunkOff);
    if pg.Some? {
      var rest := PagesFrom(chunk, pg.value.next, chunkOff);
      if rest.Some? { assert pages + ([pg.value.value] + rest.value) == (pages + [pg.value.value]) + rest.value; }
    }
  }

  lemma ParsedTiles(chunk: Bytes, chunkOff: nat)
    requires |chunk| < 0x8000_0000 && PagesFrom(chunk, 0, chunkOff).Some?
    ensures var pages := PagesFrom(chunk, 0, chunkOff).value;
            Tiles(pages, 0, |chunk|, chunkOff) && TotalSize(pages) == |chunk|
  {
    PagesTile(chunk, 0, chunkOff);
    TilesAddUp(PagesFrom(chunk, 0, chunkOff).value, 0, |chunk|, chunkOff);
  }

  /** `(size_t)n` on 64 bits. */
  function SizeT(n: int): int {
    if n < 0 then n + TWO64 else n
  }

  /** All pages of a column chunk.  Success means that headers and payloads tile it.  A negative size
      turns into a huge unsigned one, which the length check refuses unless the sum wraps past it;
      then the chunk ends before it starts and its first byte is refused. */
  method ParseColumnChunkPages(file: Bytes, chunkOff: nat, total: int) returns (r: Option<seq<Page>>)
    requires -0x8000_0000 <= total < 0x8000_0000 && |file| < TWO63 && chunkOff < TWO63
    ensures total < 0 || chunkOff + total > |file| ==> r == None
    ensures total >= 0 && chunkOff + total <= |file| ==> r == PagesFrom(file[chunkOff..chunkOff + total], 0, chunkOff)
    ensures r.Some? ==> Tiles(r.value, 0, total, chunkOff) && TotalSize(r.value) == total
  {
    if (chunkOff + SizeT(total)) % TWO64 > |file| { return None; }
    if total < 0 { return None; }
    var chunk := file[chunkOff..chunkOff + total];
    var c := new Cursor(chunk);
    var pages: seq<Page> := [];
    ContinuesAtStart(chunk, chunkOff);
    while c.p < total
      invariant fresh(c) && c.data == chunk && c.Valid()
      invariant Continues(chunk, chunkOff, c.p, pages)
      decreases total - c.p
    {
      ContinuesAfter(chunk, chunkOff, c.p, pages);
      var pg := c.ParsePage(chunkOff);
      if pg.None? { return None; }
      pages := pages + [pg.value];
    }
    assert pages + [] == pages;
    r := Some(pages);
    ParsedTiles(chunk, chunkOff);
  }
}
