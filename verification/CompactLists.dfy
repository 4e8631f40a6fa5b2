/**
 Lists, sets and maps as the Compact Protocol writes them, against the skip that the page parser
 runs over them.  A list of up to 14 elements holds its size in its header byte and has no count; a
 longer one has a plain count, and so has a map.  The skip always reads a count, and reads it as
 zigzag.
 */
module CompactLists {
  import opened Values
  import opened Varints
  import opened PageFormat

  predicate IsBool(t: nat) { t == BOOL_TRUE || t == BOOL_FALSE }

  predicate IsInt(t: nat) { t == I16 || t == I32 || t == I64 }

  predicate IsList(t: nat) { t == LIST || t == SET }

  // ---------------------------------------------------------------- runs of values

  /** Only a boolean is skipped without a byte. */
  lemma ValueGrows(data: Bytes, p: nat, t: nat)
    requires p <= |data| && !IsBool(t) && SkipValue(data, p, t).Some?
    ensures p < SkipValue(data, p, t).value
  {
  }

  lemma {:induction false} ManyGrow(data: Bytes, p: nat, t: nat, n: nat)
    requires p <= |data| && !IsBool(t) && n > 0 && SkipMany(data, p, t, n).Some?
    ensures p < SkipMany(data, p, t, n).value
  {
    ValueGrows(data, p, t);
  }

  /** Where a run ends tells how many values it has. */
  lemma {:induction false} RunDecidesCount(data: Bytes, p: nat, t: nat, n: nat, m: nat, end: nat)
    requires p <= |data| && !IsBool(t) && SkipMany(data, p, t, n) == Some(end)
    ensures SkipMany(data, p, t, m) == Some(end) <==> m == n
    decreases n
  {
    if n == 0 || m == 0 {
      if n > 0 { ManyGrow(data, p, t, n); }
      if m > 0 && SkipMany(data, p, t, m).Some? { ManyGrow(data, p, t, m); }
    } else {
      RunDecidesCount(data, SkipValue(data, p, t).value, t, n - 1, m - 1, end);
    }
  }

  lemma {:induction false} BoolsTakeNothing(data: Bytes, p: nat, t: nat, n: nat)
    requires p <= |data| && IsBool(t)
    ensures SkipMany(data, p, t, n) == Some(p)
  {
    if n > 0 { BoolsTakeNothing(data, p, t, n - 1); }
  }

  /** The bytes of one integer after the other. */
  function IntsBytes(vs: seq<int>): Bytes {
    if vs == [] then [] else WriteVarint(vs[0]) + IntsBytes(vs[1..])
  }

  predicate HoldsInts(data: Bytes, p: nat, vs: seq<int>, end: nat) {
    && p <= end <= |data| && data[p..end] == IntsBytes(vs)
    && forall i :: 0 <= i < |vs| ==> -TWO63 <= vs[i] < TWO63
  }

  lemma RunSplits(data: Bytes, p: nat, head: Bytes, tail: Bytes, q: nat, end: nat)
    requires p <= end <= |data| && data[p..end] == head + tail && q == p + |head|
    ensures q <= end && data == data[..p] + head + data[q..] && data[q..end] == tail
  {
    assert data[p..q] == data[p..end][..|head|];
    assert data[q..end] == data[p..end][|head|..];
  }

  /** The first of the integers is read back, and the others stand after it. */
  lemma HeadOfInts(data: Bytes, p: nat, vs: seq<int>, end: nat, q: nat)
    requires HoldsInts(data, p, vs, end) && vs != [] && q == p + |WriteVarint(vs[0])|
    ensures ZigzagVarint(data, p) == Some(Read(vs[0], q)) && HoldsInts(data, q, vs[1..], end)
  {
    RunSplits(data, p, WriteVarint(vs[0]), IntsBytes(vs[1..]), q, end);
    VarintRoundTrip(data[..p], vs[0], data[q..]);
  }

  lemma {:induction false} IntsAreSkipped(data: Bytes, p: nat, t: nat, vs: seq<int>, end: nat)
    requires HoldsInts(data, p, vs, end) && IsInt(t)
    ensures SkipMany(data, p, t, |vs|) == Some(end)
    decreases |vs|
  {
    if vs != [] {
      var q := p + |WriteVarint(vs[0])|;
      HeadOfInts(data, p, vs, end, q);
      IntsAreSkipped(data, q, t, vs[1..], end);
    }
  }

  predicate IsFixed(t: nat) { t == BYTE || t == DOUBLE }

  /** The bytes of n values of a fixed width. */
  function Span(t: nat, n: nat): nat {
    if t == BYTE then n else 8 * n
  }

  lemma {:induction false} FixedRun(data: Bytes, p: nat, t: nat, n: nat)
    requires p <= |data| && IsFixed(t)
    ensures SkipMany(data, p, t, n) == Skip(data, p, Span(t, n))
    decreases n
  {
    if n > 0 && SkipValue(data, p, t).Some? { FixedRun(data, SkipValue(data, p, t).value, t, n - 1); }
  }

  // ---------------------------------------------------------------- short lists

  lemma ListSkipMeans(data: Bytes, p: nat, t: nat, et: nat, v: int, q: nat)
    requires p < |data| && IsList(t) && et == data[p] as nat % 16
    requires ZigzagVarint(data, p + 1) == Some(Read(v, q))
    ensures SkipValue(data, p, t) == if v < 0 then None else SkipMany(data, q, et, v)
  {
    var b := ByteAt(data, p).value;
    assert b.next == p + 1 && b.value % 16 == et;
  }

  /** An empty list is its header byte; the skip always goes past that byte. */
  lemma EmptyShortListNever(data: Bytes, p: nat, t: nat)
    requires p < |data| && IsList(t)
    ensures SkipValue(data, p, t) != Some(p + 1)
  {
  }

  /** A short list of integers is skipped exactly when its first integer happens to be the number
      of the integers after it. */
  lemma ShortIntListIff(data: Bytes, p: nat, t: nat, vs: seq<int>, end: nat)
    requires p < |data| && IsList(t) && IsInt(data[p] as nat % 16)
    requires vs != [] && HoldsInts(data, p + 1, vs, end)
    ensures SkipValue(data, p, t) == Some(end) <==> vs[0] == |vs| - 1
  {
    var et, q := data[p] as nat % 16, p + 1 + |WriteVarint(vs[0])|;
    HeadOfInts(data, p + 1, vs, end, q);
    ListSkipMeans(data, p, t, et, vs[0], q);
    IntsAreSkipped(data, q, et, vs[1..], end);
    if vs[0] >= 0 { RunDecidesCount(data, q, et, |vs| - 1, vs[0], end); }
  }

  /** A short list of bytes or doubles is skipped exactly when its first bytes, read as a number, give
      the number of the elements that fill the rest. */
  lemma ShortFixedListIff(data: Bytes, p: nat, t: nat, n: nat, end: nat)
    requires p < |data| && IsList(t) && IsFixed(data[p] as nat % 16)
    requires end == p + 1 + Span(data[p] as nat % 16, n) <= |data|
    ensures SkipValue(data, p, t) == Some(end) <==>
            var c := ZigzagVarint(data, p + 1);
            c.Some? && c.value.value >= 0 && c.value.next + Span(data[p] as nat % 16, c.value.value) == end
  {
    var c, et := ZigzagVarint(data, p + 1), data[p] as nat % 16;
    if c.Some? {
      ListSkipMeans(data, p, t, et, c.value.value, c.value.next);
      if c.value.value >= 0 { FixedRun(data, c.value.next, et, c.value.value); }
    }
  }

  /** A byte is its own number when it is below 128. */
  lemma SmallByteRead(data: Bytes, p: nat)
    requires p < |data| && data[p] < 128
    ensures ZigzagVarint(data, p) == Some(Read(Unzigzag(data[p] as nat), p + 1))
  {
    assert Shift(data[p] as nat, 0) == data[p] as nat;
  }

  /** Booleans in a list take one byte each, 1 for true and 2 for false.  A short list of them is
      skipped exactly when it holds one false. */
  lemma ShortBoolListIff(data: Bytes, p: nat, t: nat, n: nat)
    requires IsList(t) && 1 <= n && p + 1 + n <= |data| && IsBool(data[p] as nat % 16)
    requires IsBool(data[p + 1] as nat)
    ensures SkipValue(data, p, t) == Some(p + 1 + n) <==> n == 1 && data[p + 1] == 2
  {
    var et, v := data[p] as nat % 16, Unzigzag(data[p + 1] as nat);
    SmallByteRead(data, p + 1);
    ListSkipMeans(data, p, t, et, v, p + 2);
    if v >= 0 { BoolsTakeNothing(data, p + 2, et, v); }
  }

  // ---------------------------------------------------------------- long lists

  /** A plain number stands from p up to `start`. */
  predicate HoldsCount(data: Bytes, p: nat, n: nat, start: nat) {
    n < TWO64 && start == p + |Groups(n)| && start <= |data| && data[p..start] == Groups(n)
  }

  lemma CountRead(data: Bytes, p: nat, n: nat, start: nat)
    requires HoldsCount(data, p, n, start)
    ensures ZigzagVarint(data, p) == Some(Read(Unzigzag(n), start))
  {
    assert data == data[..p] + Groups(n) + data[start..];
    PlainReadAsZigzag(data, data[..p], n, data[start..], start);
  }

  /** The count of a long list is read as zigzag: odd ones are refused and even ones halved. */
  lemma LongListLands(data: Bytes, p: nat, t: nat, n: nat, start: nat)
    requires p < |data| && IsList(t) && HoldsCount(data, p + 1, n, start)
    ensures SkipValue(data, p, t) == if n % 2 == 0 then SkipMany(data, start, data[p] as nat % 16, n / 2) else None
  {
    CountRead(data, p + 1, n, start);
    ListSkipMeans(data, p, t, data[p] as nat % 16, Unzigzag(n), start);
  }

  /** So, whatever the type of the elements, a long list of values that the skip itself gets right is
      skipped exactly only when it is empty. */
  lemma LongListIff(data: Bytes, p: nat, t: nat, n: nat, start: nat, end: nat)
    requires p < |data| && IsList(t) && HoldsCount(data, p + 1, n, start) && !IsBool(data[p] as nat % 16)
    requires SkipMany(data, start, data[p] as nat % 16, n) == Some(end)
    ensures SkipValue(data, p, t) == Some(end) <==> n == 0
  {
    LongListLands(data, p, t, n, start);
    RunDecidesCount(data, start, data[p] as nat % 16, n, n / 2, end);
  }

  lemma LongIntListIff(data: Bytes, p: nat, t: nat, vs: seq<int>, start: nat, end: nat)
    requires p < |data| && IsList(t) && IsInt(data[p] as nat % 16)
    requires HoldsCount(data, p + 1, |vs|, start) && HoldsInts(data, start, vs, end)
    ensures SkipValue(data, p, t) == Some(end) <==> vs == []
  {
    IntsAreSkipped(data, start, data[p] as nat % 16, vs, end);
    LongListIff(data, p, t, |vs|, start, end);
  }

  lemma LongBoolListIff(data: Bytes, p: nat, t: nat, n: nat, start: nat)
    requires p < |data| && IsList(t) && HoldsCount(data, p + 1, n, start) && IsBool(data[p] as nat % 16)
    ensures SkipValue(data, p, t) == Some(start + n) <==> n == 0
  {
    LongListLands(data, p, t, n, start);
    BoolsTakeNothing(data, start, data[p] as nat % 16, n / 2);
  }

  // ---------------------------------------------------------------- maps

  lemma MapSkipMeans(data: Bytes, p: nat, v: int, q: nat)
    requires p <= |data| && ZigzagVarint(data, p) == Some(Read(v, q))
    ensures SkipValue(data, p, MAP) ==
            if v < 0 then None
            else if v == 0 then Some(q)
            else if q + 2 > |data| then None
            else SkipPairs(data, q + 2, data[q] as nat % 16, data[q + 1] as nat % 16, v)
  {
  }

  /** A map has a plain count and then, unless it is empty, one byte for both types.  The skip
      refuses odd counts, halves even ones, and takes the first byte of the first key for the
      type of the values. */
  lemma MapLands(data: Bytes, p: nat, n: nat, start: nat)
    requires HoldsCount(data, p, n, start)
    ensures SkipValue(data, p, MAP) ==
            if n % 2 == 1 then None
            else if n == 0 then Some(start)
            else if start + 2 > |data| then None
            else SkipPairs(data, start + 2, data[start] as nat % 16, data[start + 1] as nat % 16, n / 2)
  {
    CountRead(data, p, n, start);
    MapSkipMeans(data, p, Unzigzag(n), start);
  }

  /** Pairs are skipped key by key and value by value: with booleans on one side, which take no bytes,
      what is skipped is the other side. */
  lemma {:induction false} PairsTakeTurns(data: Bytes, p: nat, b: nat, t: nat, n: nat)
    requires p <= |data| && IsBool(b)
    ensures SkipPairs(data, p, t, b, n) == SkipMany(data, p, t, n)
    ensures SkipPairs(data, p, b, t, n) == SkipMany(data, p, t, n)
    decreases n
  {
    if n > 0 && SkipValue(data, p, t).Some? { PairsTakeTurns(data, SkipValue(data, p, t).value, b, t, n - 1); }
  }

  // ---------------------------------------------------------------- inputs

  /** The list that holds the one i32 value 1 is refused. */
  lemma ShortListCounterexample()
    ensures HoldsInts([0x15, 2], 1, [1], 2) && SkipValue([0x15, 2], 0, LIST) == None
  {
    var data: Bytes := [0x15, 2];
    assert WriteVarint(1) == [2] && IntsBytes([1]) == [2] + [];
    assert data[1..2] == [2];
    HeadOfInts(data, 1, [1], 2, 2);
    ListSkipMeans(data, 0, LIST, I32, 1, 2);
    assert SkipValue(data, 2, I32) == None;
  }

  /** So is the map of one i32 pair. */
  lemma MapCounterexample()
    ensures HoldsCount([1, 0x55, 2, 2], 0, 1, 1) && HoldsInts([1, 0x55, 2, 2], 2, [1, 1], 4)
    ensures SkipValue([1, 0x55, 2, 2], 0, MAP) == None
  {
    var data: Bytes := [1, 0x55, 2, 2];
    assert Groups(1) == [1] && WriteVarint(1) == [2];
    assert IntsBytes([1]) == [2] + [];
    assert [1, 1][1..] == [1];
    assert IntsBytes([1, 1]) == [2] + [2];
    assert data[0..1] == [1] && data[2..4] == [2, 2];
    MapLands(data, 0, 1, 1);
  }
}
