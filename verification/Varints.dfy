/** Variable-length integers of the Thrift Compact Protocol: base 128, low groups first, zigzag signs. */
module Varints {
  import opened Values

  const TWO63: int := 0x8000_0000_0000_0000
  const TWO64: int := 0x1_0000_0000_0000_0000

  /** `low << 7 i`. */
  function Shift(low: nat, i: nat): nat {
    if i == 0 then low else 128 * Shift(low, i - 1)
  }

  datatype Read<+T> = Read(value: T, next: nat)

  /** `u | (low << 7 i)` in 64-bit arithmetic, where u has no bits at or above the shift. */
  function Place(u: nat, low: nat, i: nat): (r: nat)
    ensures r < TWO64
  {
    (u + Shift(low, i)) % TWO64
  }

  /** Reading from group i on, `u` so far, in 64-bit arithmetic; ten groups at most. */
  function VarintFrom(data: Bytes, p: nat, i: nat, u: nat): (r: Option<Read<nat>>)
    requires i <= 10
    ensures r.Some? ==> p < r.value.next <= |data| && r.value.value < TWO64
    decreases 10 - i
  {
    if i == 10 || p >= |data| then None
    else
      var b := data[p] as nat;
      var v := Place(u, b % 128, i);
      if b < 128 then Some(Read(v, p + 1)) else VarintFrom(data, p + 1, i + 1, v)
  }

  function Unzigzag(u: nat): int {
    if u % 2 == 0 then u / 2 else -(u / 2) - 1
  }

  function ZigzagVarint(data: Bytes, p: nat): (r: Option<Read<int>>)
    ensures r.Some? ==> p < r.value.next <= |data| && -TWO63 <= r.value.value < TWO63
  {
    var r := VarintFrom(data, p, 0, 0);
    if r.None? then None else Some(Read(Unzigzag(r.value.value), r.value.next))
  }

  // ---------------------------------------------------------------- writing

  function Zigzag(n: int): nat {
    if n >= 0 then 2 * n else -2 * n - 1
  }

  function Groups(v: nat): (bs: Bytes)
    ensures bs != []
  {
    if v < 128 then [v as Byte] else [(v % 128 + 128) as Byte] + Groups(v / 128)
  }

  function WriteVarint(n: int): Bytes {
    Groups(Zigzag(n))
  }

  // ---------------------------------------------------------------- reading back

  lemma {:induction false} ShiftMono(a: nat, b: nat, i: nat)
    requires a <= b
    ensures Shift(a, i) <= Shift(b, i)
  {
    if i > 0 { ShiftMono(a, b, i - 1); }
  }

  lemma {:induction false} ShiftOut(i: nat)
    requires i >= 9
    ensures Shift(128, i) >= TWO64
  {
    if i > 9 {
      ShiftOut(i - 1);
    } else {
      assert Shift(128, 5) == 0x400_0000_0000;
    }
  }

  /** One more group can follow only while it still fits. */
  lemma GroupFits(v: nat, i: nat)
    requires Shift(v, i) < TWO64 && v >= 128
    ensures i + 1 < 10
  {
    ShiftMono(128, v, i);
    if i >= 9 { ShiftOut(i); }
  }

  lemma {:induction false} SplitGroup(v: nat, i: nat)
    ensures Shift(v % 128, i) + Shift(v / 128, i + 1) == Shift(v, i)
  {
    if i > 0 { SplitGroup(v, i - 1); }
  }

  lemma PlaceExact(u: nat, low: nat, i: nat)
    requires u + Shift(low, i) < TWO64
    ensures Place(u, low, i) == u + Shift(low, i)
  {
  }

  lemma {:induction false} GroupsReadBack(pre: Bytes, v: nat, rest: Bytes, i: nat, u: nat)
    requires i < 10 && u + Shift(v, i) < TWO64
    ensures VarintFrom(pre + Groups(v) + rest, |pre|, i, u) == Some(Read(u + Shift(v, i), |pre| + |Groups(v)|))
    decreases v
  {
    var data, b := pre + Groups(v) + rest, Groups(v)[0];
    assert data[|pre|] == b;
    if v < 128 {
      PlaceExact(u, v, i);
    } else {
      SplitGroup(v, i);
      var u' := u + Shift(v % 128, i);
      assert u' + Shift(v / 128, i + 1) == u + Shift(v, i);
      PlaceExact(u, v % 128, i);
      GroupFits(v, i);
      GroupsReadBack(pre + [b], v / 128, rest, i + 1, u');
      assert data == (pre + [b]) + Groups(v / 128) + rest;
    }
  }

  lemma PlainReadBack(pre: Bytes, v: nat, rest: Bytes)
    requires v < TWO64
    ensures VarintFrom(pre + Groups(v) + rest, |pre|, 0, 0) == Some(Read(v, |pre| + |Groups(v)|))
  {
    assert Shift(v, 0) == v;
    GroupsReadBack(pre, v, rest, 0, 0);
  }

  /** A plain length is read as if it were zigzag. */
  lemma PlainReadAsZigzag(data: Bytes, pre: Bytes, v: nat, rest: Bytes, end: nat)
    requires v < TWO64 && data == pre + Groups(v) + rest && end == |pre| + |Groups(v)|
    ensures ZigzagVarint(data, |pre|) == Some(Read(Unzigzag(v), end))
  {
    PlainReadBack(pre, v, rest);
    ZigzagOf(data, |pre|, v, end);
  }

  lemma ZigzagOf(data: Bytes, p: nat, v: nat, q: nat)
    requires VarintFrom(data, p, 0, 0) == Some(Read(v, q))
    ensures ZigzagVarint(data, p) == Some(Read(Unzigzag(v), q))
  {
  }

  /** The reader inverts the writer on every 64-bit integer, wherever the bytes stand. */
  lemma VarintRoundTrip(pre: Bytes, n: int, rest: Bytes)
    requires -TWO63 <= n < TWO63
    ensures ZigzagVarint(pre + WriteVarint(n) + rest, |pre|) == Some(Read(n, |pre| + |WriteVarint(n)|))
  {
    PlainReadAsZigzag(pre + WriteVarint(n) + rest, pre, Zigzag(n), rest, |pre| + |WriteVarint(n)|);
  }
}
