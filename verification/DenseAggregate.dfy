/**
 Filter-then-group-by through the dense kernel: factorised keys give each group a run of
 accumulator cells, and the read-out turns non-empty groups back into rows.
 */
module DenseAggregate {
  import opened Values
  import opened Bags
  import opened Sums
  import opened MixedRadix
  import opened DenseKernel

  const MAX_ACC_CELLS: nat := 4096

  /** One input row: its group keys, whether the filter passes it, the value of each SUM argument. */
  datatype KRow = KRow(keys: Key, passes: bool, vals: seq<real>)

  datatype AggKind = CountStar | SumArg

  datatype OutRow = OutRow(keys: Key, vals: seq<real>)

  function Contribution(aggs: seq<AggKind>, row: KRow, slot: nat): real
    requires slot < |aggs|
  {
    if aggs[slot].CountStar? then 1.0 else if slot < |row.vals| then row.vals[slot] else 0.0
  }

  // ---------------------------------------------------------------- the reference

  function Weight(aggs: seq<AggKind>, keys: Key, slot: nat): KRow -> real
    requires slot < |aggs|
  {
    (row: KRow) => if row.passes && row.keys == keys then Contribution(aggs, row, slot) else 0.0
  }

  /** One aggregate of one group, over the rows that pass. */
  function GroupTotal(rows: seq<KRow>, aggs: seq<AggKind>, keys: Key, slot: nat): real
    requires slot < |aggs|
  {
    SumOver(rows, Weight(aggs, keys, slot))
  }

  predicate HasPassing(rows: seq<KRow>, keys: Key) {
    exists i :: 0 <= i < |rows| && rows[i].passes && rows[i].keys == keys
  }

  predicate RightRow(rows: seq<KRow>, aggs: seq<AggKind>, o: OutRow) {
    HasPassing(rows, o.keys) && |o.vals| == |aggs| &&
    forall slot :: 0 <= slot < |aggs| ==> o.vals[slot] == GroupTotal(rows, aggs, o.keys, slot)
  }

  predicate Listed(out: seq<OutRow>, keys: Key) {
    exists x :: 0 <= x < |out| && out[x].keys == keys
  }

  predicate KeysDiffer(out: seq<OutRow>) {
    forall x, y :: 0 <= x < y < |out| ==> out[x].keys != out[y].keys
  }

  /** Filter, then group: one row for each key that some passing row has, and its totals. */
  ghost predicate IsGroupBy(rows: seq<KRow>, aggs: seq<AggKind>, out: seq<OutRow>) {
    && KeysDiffer(out)
    && (forall o :: o in out ==> RightRow(rows, aggs, o))
    && (forall i :: 0 <= i < |rows| && rows[i].passes ==> Listed(out, rows[i].keys))
  }

  // ---------------------------------------------------------------- what the totals are

  /** The rows of a group: those that pass and have its keys. */
  function Members(rows: seq<KRow>, keys: Key): (group: seq<KRow>)
    ensures forall m :: m in group <==> m in rows && m.passes && m.keys == keys
  {
    if rows == [] then []
    else
      var n := |rows| - 1;
      assert rows == rows[..n] + [rows[n]];
      Members(rows[..n], keys) + if rows[n].passes && rows[n].keys == keys then [rows[n]] else []
  }

  predicate Complete(rows: seq<KRow>, slot: nat) {
    forall m :: m in rows ==> slot < |m.vals|
  }

  function ArgSum(rows: seq<KRow>, slot: nat): real
    requires Complete(rows, slot)
  {
    if rows == [] then 0.0 else ArgSum(rows[..|rows| - 1], slot) + rows[|rows| - 1].vals[slot]
  }

  /** COUNT(*) is the number of rows in the group. */
  lemma {:induction false} CountIsSize(rows: seq<KRow>, aggs: seq<AggKind>, keys: Key, slot: nat)
    requires slot < |aggs| && aggs[slot].CountStar?
    ensures GroupTotal(rows, aggs, keys, slot) == |Members(rows, keys)| as real
  {
    if rows != [] {
      var n := |rows| - 1;
      CountIsSize(rows[..n], aggs, keys, slot);
      SumLast(rows, Weight(aggs, keys, slot));
    }
  }

  /** SUM is the sum of its argument over the rows in the group. */
  lemma {:induction false} SumIsSum(rows: seq<KRow>, aggs: seq<AggKind>, keys: Key, slot: nat)
    requires slot < |aggs| && aggs[slot].SumArg? && Complete(rows, slot)
    ensures GroupTotal(rows, aggs, keys, slot) == ArgSum(Members(rows, keys), slot)
  {
    if rows != [] {
      var n := |rows| - 1;
      var front, row := Members(rows[..n], keys), rows[n];
      assert Complete(rows[..n], slot);
      SumIsSum(rows[..n], aggs, keys, slot);
      SumLast(rows, Weight(aggs, keys, slot));
      if row.passes && row.keys == keys {
        assert Members(rows, keys) == front + [row];
        ArgSumSnoc(front, row, slot);
      } else {
        assert Members(rows, keys) == front;
      }
    }
  }

  lemma ArgSumSnoc(front: seq<KRow>, row: KRow, slot: nat)
    requires Complete(front, slot) && slot < |row.vals|
    ensures Complete(front + [row], slot) && ArgSum(front + [row], slot) == ArgSum(front, slot) + row.vals[slot]
  {
    assert (front + [row])[..|front|] == front;
  }

  lemma SumLast(rows: seq<KRow>, w: KRow -> real)
    requires rows != []
    ensures SumOver(rows, w) == SumOver(rows[..|rows| - 1], w) + w(rows[|rows| - 1])
  {
    var n := |rows| - 1;
    assert rows == rows[..n] + [rows[n]];
    SumAppend(rows[..n], [rows[n]], w);
    SumOne(rows[n], w);
  }

  // ---------------------------------------------------------------- keys and codes

  predicate Distinct(s: seq<Value>) {
    forall x, y :: 0 <= x < y < |s| ==> s[x] != s[y]
  }

  /** `factorize`: the distinct values of each key column. */
  predicate Factorised(rows: seq<KRow>, uniques: seq<seq<Value>>) {
    && (forall j :: 0 <= j < |uniques| ==> Distinct(uniques[j]))
    && forall i :: 0 <= i < |rows| ==> KeysKnown(rows[i].keys, uniques)
  }

  predicate KeysKnown(keys: Key, uniques: seq<seq<Value>>) {
    |keys| == |uniques| && forall j :: 0 <= j < |uniques| ==> keys[j] in uniques[j]
  }

  function Sizes(uniques: seq<seq<Value>>): (s: seq<nat>)
    ensures |s| == |uniques| && forall j :: 0 <= j < |s| ==> s[j] == |uniques[j]|
  {
    seq(|uniques|, j requires 0 <= j < |uniques| => |uniques[j]|)
  }

  function Codes(keys: Key, uniques: seq<seq<Value>>): (codes: seq<nat>)
    requires KeysKnown(keys, uniques)
    ensures CodesFit(codes, Sizes(uniques))
    ensures forall j :: 0 <= j < |uniques| ==> uniques[j][codes[j]] == keys[j]
  {
    seq(|uniques|, j requires 0 <= j < |uniques| => IndexOf(uniques[j], keys[j]))
  }

  function Labels(codes: seq<nat>, uniques: seq<seq<Value>>): (keys: Key)
    requires CodesFit(codes, Sizes(uniques))
    ensures |keys| == |uniques| && forall j :: 0 <= j < |uniques| ==> keys[j] == uniques[j][codes[j]]
  {
    seq(|uniques|, j requires 0 <= j < |uniques| => uniques[j][codes[j]])
  }

  function GroupOf(keys: Key, uniques: seq<seq<Value>>): nat
    requires KeysKnown(keys, uniques)
  {
    Encode(Codes(keys, uniques), Sizes(uniques))
  }

  function KeysOf(g: nat, uniques: seq<seq<Value>>): Key
    requires Positive(Sizes(uniques)) && g < Prod(Sizes(uniques))
  {
    EncodeDecode(g, Sizes(uniques));
    Labels(Decode(g, Sizes(uniques)), uniques)
  }

  /** A group index stands for exactly one combination of key values. */
  lemma GroupIffKeys(keys: Key, g: nat, uniques: seq<seq<Value>>)
    requires KeysKnown(keys, uniques) && Positive(Sizes(uniques)) && g < Prod(Sizes(uniques))
    requires forall j :: 0 <= j < |uniques| ==> Distinct(uniques[j])
    ensures GroupOf(keys, uniques) == g <==> keys == KeysOf(g, uniques)
  {
    var sizes, codes := Sizes(uniques), Codes(keys, uniques);
    DecodeEncode(codes, sizes);
    EncodeDecode(g, sizes);
    var back := Decode(g, sizes);
    assert Labels(codes, uniques) == keys;
    if keys == Labels(back, uniques) {
      forall j | 0 <= j < |uniques| ensures codes[j] == back[j] {
        assert uniques[j][codes[j]] == uniques[j][back[j]];
        assert Distinct(uniques[j]);
      }
      assert codes == back;
    }
  }

  // ---------------------------------------------------------------- what the rows add

  function Cell(g: nat, nagg: nat, slot: nat): nat {
    g * nagg + slot
  }

  function SlotAdds(aggs: seq<AggKind>, row: KRow, block: nat, g: nat, m: nat): seq<Op>
    requires m <= |aggs|
  {
    if m == 0 then []
    else SlotAdds(aggs, row, block, g, m - 1) + [Add(block, Cell(g, |aggs|, m - 1), Contribution(aggs, row, m - 1))]
  }

  function RowAdds(aggs: seq<AggKind>, uniques: seq<seq<Value>>, row: KRow, block: nat): seq<Op>
    requires KeysKnown(row.keys, uniques)
  {
    if row.passes then SlotAdds(aggs, row, block, GroupOf(row.keys, uniques), |aggs|) else []
  }

  /** The additions of all threads, for any assignment of rows to blocks. */
  function Adds(rows: seq<KRow>, aggs: seq<AggKind>, uniques: seq<seq<Value>>, blockOf: nat -> nat): seq<Op>
    requires Factorised(rows, uniques)
  {
    if rows == [] then []
    else
      var n := |rows| - 1;
      Adds(rows[..n], aggs, uniques, blockOf) + RowAdds(aggs, uniques, rows[n], blockOf(n))
  }

  lemma CellInRange(g: nat, groups: nat, nagg: nat, slot: nat)
    requires g < groups && slot < nagg
    ensures Cell(g, nagg, slot) < groups * nagg
  {
    DigitBound(g, groups, slot, nagg);
  }

  lemma CellIsUnique(g: nat, h: nat, nagg: nat, s: nat, t: nat)
    requires s < nagg && t < nagg
    ensures Cell(g, nagg, s) == Cell(h, nagg, t) <==> g == h && s == t
  {
    DigitSplit(g, s, nagg);
    DigitSplit(h, t, nagg);
  }

  lemma {:induction false} SlotAddsFit(aggs: seq<AggKind>, row: KRow, block: nat, g: nat, m: nat, blocks: nat, groups: nat)
    requires m <= |aggs| && block < blocks && g < groups
    ensures AllAdds(SlotAdds(aggs, row, block, g, m), blocks, groups * |aggs|)
  {
    if m > 0 {
      SlotAddsFit(aggs, row, block, g, m - 1, blocks, groups);
      CellInRange(g, groups, |aggs|, m - 1);
    }
  }

  /** Every addition lands inside the accumulators. */
  lemma {:induction false} AddsFit(rows: seq<KRow>, aggs: seq<AggKind>, uniques: seq<seq<Value>>, blockOf: nat -> nat, blocks: nat)
    requires Factorised(rows, uniques) && forall i: nat :: blockOf(i) < blocks
    ensures AllAdds(Adds(rows, aggs, uniques, blockOf), blocks, Prod(Sizes(uniques)) * |aggs|)
  {
    if rows != [] {
      var n := |rows| - 1;
      AddsFit(rows[..n], aggs, uniques, blockOf, blocks);
      assert KeysKnown(rows[n].keys, uniques);
      EncodeInRange(Codes(rows[n].keys, uniques), Sizes(uniques));
      SlotAddsFit(aggs, rows[n], blockOf(n), GroupOf(rows[n].keys, uniques), |aggs|, blocks, Prod(Sizes(uniques)));
    }
  }

  lemma {:induction false} SlotAddsSum(aggs: seq<AggKind>, row: KRow, block: nat, g: nat, m: nat, h: nat, slot: nat)
    requires m <= |aggs| && slot < |aggs|
    ensures SumOver(SlotAdds(aggs, row, block, g, m), CellOf(Cell(h, |aggs|, slot))) ==
            if g == h && slot < m then Contribution(aggs, row, slot) else 0.0
  {
    if m > 0 {
      SlotAddsSum(aggs, row, block, g, m - 1, h, slot);
      CellIsUnique(g, h, |aggs|, m - 1, slot);
      var last := Add(block, Cell(g, |aggs|, m - 1), Contribution(aggs, row, m - 1));
      SumAppend(SlotAdds(aggs, row, block, g, m - 1), [last], CellOf(Cell(h, |aggs|, slot)));
      SumOne(last, CellOf(Cell(h, |aggs|, slot)));
    }
  }

  lemma RowAddsSum(aggs: seq<AggKind>, uniques: seq<seq<Value>>, row: KRow, block: nat, g: nat, slot: nat)
    requires KeysKnown(row.keys, uniques) && Positive(Sizes(uniques)) && g < Prod(Sizes(uniques)) && slot < |aggs|
    requires forall j :: 0 <= j < |uniques| ==> Distinct(uniques[j])
    ensures SumOver(RowAdds(aggs, uniques, row, block), CellOf(Cell(g, |aggs|, slot))) ==
            Weight(aggs, KeysOf(g, uniques), slot)(row)
  {
    GroupIffKeys(row.keys, g, uniques);
    SlotAddsSum(aggs, row, block, GroupOf(row.keys, uniques), |aggs|, g, slot);
  }

  /** What the rows add to a cell is the group's total. */
  lemma {:induction false} AddsSum(rows: seq<KRow>, aggs: seq<AggKind>, uniques: seq<seq<Value>>, blockOf: nat -> nat, g: nat, slot: nat)
    requires Factorised(rows, uniques) && Positive(Sizes(uniques)) && g < Prod(Sizes(uniques)) && slot < |aggs|
    ensures SumOver(Adds(rows, aggs, uniques, blockOf), CellOf(Cell(g, |aggs|, slot))) ==
            GroupTotal(rows, aggs, KeysOf(g, uniques), slot)
  {
    if rows != [] {
      var n := |rows| - 1;
      AddsSum(rows[..n], aggs, uniques, blockOf, g, slot);
      assert KeysKnown(rows[n].keys, uniques);
      RowAddsSum(aggs, uniques, rows[n], blockOf(n), g, slot);
      SumAppend(Adds(rows[..n], aggs, uniques, blockOf), RowAdds(aggs, uniques, rows[n], blockOf(n)), CellOf(Cell(g, |aggs|, slot)));
    }
  }

  // ---------------------------------------------------------------- reading out

  predicate HasCount(aggs: seq<AggKind>) {
    exists slot :: 0 <= slot < |aggs| && aggs[slot].CountStar?
  }

  function CountSlot(aggs: seq<AggKind>): (slot: nat)
    ensures HasCount(aggs) ==> slot < |aggs| && aggs[slot].CountStar?
  {
    if aggs == [] || aggs[0].CountStar? then 0
    else
      assert HasCount(aggs) ==> HasCount(aggs[1..]) by {
        if HasCount(aggs) {
          var s :| 0 <= s < |aggs| && aggs[s].CountStar?;
          assert aggs[1..][s - 1].CountStar?;
        }
      }
      1 + CountSlot(aggs[1..])
  }

  function Slice(acc: seq<real>, g: nat, nagg: nat): (vals: seq<real>)
    requires Cell(g, nagg, nagg) <= |acc|
    ensures |vals| == nagg && forall s :: 0 <= s < nagg ==> vals[s] == acc[Cell(g, nagg, s)]
  {
    seq(nagg, s requires 0 <= s < nagg => acc[Cell(g, nagg, s)])
  }

  predicate AnyNonZero(vals: seq<real>) {
    exists s :: 0 <= s < |vals| && vals[s] != 0.0
  }

  /** A group is read out when its COUNT(*) is positive or, with no COUNT(*), when some cell is not 0. */
  predicate Emitted(aggs: seq<AggKind>, vals: seq<real>)
    requires |vals| == |aggs|
  {
    if HasCount(aggs) then vals[CountSlot(aggs)] > 0.0 else AnyNonZero(vals)
  }

  lemma SliceFits(g: nat, groups: nat, nagg: nat)
    requires g < groups
    ensures Cell(g, nagg, nagg) <= groups * nagg
  {
    MulStep(g, groups, nagg);
  }

  function ReadOut(acc: seq<real>, aggs: seq<AggKind>, uniques: seq<seq<Value>>, n: nat): seq<OutRow>
    requires Positive(Sizes(uniques)) && n <= Prod(Sizes(uniques)) && |acc| == Prod(Sizes(uniques)) * |aggs|
  {
    if n == 0 then []
    else
      SliceFits(n - 1, Prod(Sizes(uniques)), |aggs|);
      var vals := Slice(acc, n - 1, |aggs|);
      ReadOut(acc, aggs, uniques, n - 1) + if Emitted(aggs, vals) then [OutRow(KeysOf(n - 1, uniques), vals)] else []
  }

  /** The read-out loop, decoding each emitted group with quotients and remainders. */
  method BuildResult(acc: seq<real>, aggs: seq<AggKind>, uniques: seq<seq<Value>>, strides: seq<nat>) returns (out: seq<OutRow>)
    requires Positive(Sizes(uniques)) && AreStrides(strides, Sizes(uniques)) && |acc| == Prod(Sizes(uniques)) * |aggs|
    ensures out == ReadOut(acc, aggs, uniques, Prod(Sizes(uniques)))
  {
    var sizes := Sizes(uniques);
    var groups := Prod(sizes);
    var slot := 0;
    while slot < |aggs| && !aggs[slot].CountStar?
      invariant slot <= |aggs| && forall s :: 0 <= s < slot ==> !aggs[s].CountStar?
    {
      slot := slot + 1;
    }
    CountSlotIsFirst(aggs, slot);
    out := [];
    for g := 0 to groups
      invariant out == ReadOut(acc, aggs, uniques, g)
    {
      SliceFits(g, groups, |aggs|);
      var vals := Slice(acc, g, |aggs|);
      var show := if slot < |aggs| then vals[slot] > 0.0 else AnyNonZero(vals);
      if show {
        var codes := DecodeLoop(g, strides, sizes);
        EncodeDecode(g, sizes);
        out := out + [OutRow(Labels(codes, uniques), vals)];
      }
    }
  }

  lemma {:induction false} CountSlotIsFirst(aggs: seq<AggKind>, slot: nat)
    requires slot <= |aggs| && (forall s :: 0 <= s < slot ==> !aggs[s].CountStar?) && (slot < |aggs| ==> aggs[slot].CountStar?)
    ensures HasCount(aggs) <==> slot < |aggs|
    ensures slot < |aggs| ==> CountSlot(aggs) == slot
  {
    if slot > 0 {
      CountSlotIsFirst(aggs[1..], slot - 1);
      if s :| 0 <= s < |aggs| && aggs[s].CountStar? {
        assert aggs[1..][s - 1].CountStar?;
      }
    }
  }

  // ---------------------------------------------------------------- the read-out is the group-by

  /** The accumulators hold the totals. */
  ghost predicate Accumulated(rows: seq<KRow>, aggs: seq<AggKind>, uniques: seq<seq<Value>>, acc: seq<real>)
    requires Positive(Sizes(uniques))
  {
    && |acc| == Prod(Sizes(uniques)) * |aggs|
    && forall g: nat, slot: nat {:trigger Cell(g, |aggs|, slot)} :: g < Prod(Sizes(uniques)) && slot < |aggs| ==>
         Cell(g, |aggs|, slot) < |acc| && acc[Cell(g, |aggs|, slot)] == GroupTotal(rows, aggs, KeysOf(g, uniques), slot)
  }

  /** Does the read-out show this key? */
  ghost predicate Shown(rows: seq<KRow>, aggs: seq<AggKind>, keys: Key) {
    if HasCount(aggs) then HasPassing(rows, keys)
    else exists slot :: 0 <= slot < |aggs| && GroupTotal(rows, aggs, keys, slot) != 0.0
  }

  lemma {:induction false} NoPassingNoTotal(rows: seq<KRow>, aggs: seq<AggKind>, keys: Key, slot: nat)
    requires slot < |aggs| && !HasPassing(rows, keys)
    ensures GroupTotal(rows, aggs, keys, slot) == 0.0
  {
    if rows != [] {
      var n := |rows| - 1;
      assert forall i :: 0 <= i < n ==> rows[..n][i] == rows[i];
      NoPassingNoTotal(rows[..n], aggs, keys, slot);
    }
  }

  lemma {:induction false} CountIsPositive(rows: seq<KRow>, aggs: seq<AggKind>, keys: Key, slot: nat)
    requires slot < |aggs| && aggs[slot].CountStar?
    ensures GroupTotal(rows, aggs, keys, slot) >= 0.0
    ensures HasPassing(rows, keys) <==> GroupTotal(rows, aggs, keys, slot) > 0.0
  {
    if rows != [] {
      var n := |rows| - 1;
      CountIsPositive(rows[..n], aggs, keys, slot);
      if i :| 0 <= i < |rows| && rows[i].passes && rows[i].keys == keys {
        if i < n { assert rows[..n][i] == rows[i]; }
      }
      if i :| 0 <= i < n && rows[..n][i].passes && rows[..n][i].keys == keys { assert rows[i].passes; }
    }
  }

  lemma EmittedIffShown(rows: seq<KRow>, aggs: seq<AggKind>, keys: Key, vals: seq<real>)
    requires |vals| == |aggs| && forall s :: 0 <= s < |aggs| ==> vals[s] == GroupTotal(rows, aggs, keys, s)
    ensures Emitted(aggs, vals) <==> Shown(rows, aggs, keys)
    ensures Shown(rows, aggs, keys) ==> HasPassing(rows, keys)
  {
    if HasCount(aggs) {
      CountIsPositive(rows, aggs, keys, CountSlot(aggs));
    } else {
      if s :| 0 <= s < |aggs| && GroupTotal(rows, aggs, keys, s) != 0.0 {
        assert vals[s] != 0.0;
        if !HasPassing(rows, keys) { NoPassingNoTotal(rows, aggs, keys, s); }
      }
    }
  }

  lemma KeysOfDistinct(uniques: seq<seq<Value>>, g: nat, h: nat)
    requires Positive(Sizes(uniques)) && g < Prod(Sizes(uniques)) && h < Prod(Sizes(uniques)) && g != h
    requires forall j :: 0 <= j < |uniques| ==> Distinct(uniques[j])
    ensures KeysOf(g, uniques) != KeysOf(h, uniques)
  {
    var keys := KeysOf(g, uniques);
    EncodeDecode(g, Sizes(uniques));
    assert KeysKnown(keys, uniques);
    GroupIffKeys(keys, g, uniques);
    GroupIffKeys(keys, h, uniques);
  }

  /** One group more: its row, if shown, with its totals. */
  lemma ReadOutStep(rows: seq<KRow>, aggs: seq<AggKind>, uniques: seq<seq<Value>>, acc: seq<real>, m: nat) returns (o: OutRow)
    requires Positive(Sizes(uniques)) && Accumulated(rows, aggs, uniques, acc) && m < Prod(Sizes(uniques))
    ensures o.keys == KeysOf(m, uniques) && (Shown(rows, aggs, o.keys) ==> RightRow(rows, aggs, o))
    ensures ReadOut(acc, aggs, uniques, m + 1) == ReadOut(acc, aggs, uniques, m) + if Shown(rows, aggs, o.keys) then [o] else []
  {
    var keys := KeysOf(m, uniques);
    SliceFits(m, Prod(Sizes(uniques)), |aggs|);
    var vals := Slice(acc, m, |aggs|);
    forall s | 0 <= s < |aggs| ensures vals[s] == GroupTotal(rows, aggs, keys, s) {
      assert vals[s] == acc[Cell(m, |aggs|, s)];
    }
    EmittedIffShown(rows, aggs, keys, vals);
    o := OutRow(keys, vals);
  }

  predicate ComesFrom(keys: Key, uniques: seq<seq<Value>>, n: nat)
    requires Positive(Sizes(uniques)) && n <= Prod(Sizes(uniques))
  {
    exists g: nat :: g < n && KeysOf(g, uniques) == keys
  }

  /** What the first n groups leave in the output. */
  lemma {:induction false} ReadOutMeans(rows: seq<KRow>, aggs: seq<AggKind>, uniques: seq<seq<Value>>, acc: seq<real>, n: nat)
    requires Positive(Sizes(uniques)) && Accumulated(rows, aggs, uniques, acc) && n <= Prod(Sizes(uniques))
    requires forall j :: 0 <= j < |uniques| ==> Distinct(uniques[j])
    ensures forall o :: o in ReadOut(acc, aggs, uniques, n) ==> RightRow(rows, aggs, o) && ComesFrom(o.keys, uniques, n)
    ensures KeysDiffer(ReadOut(acc, aggs, uniques, n))
    ensures forall keys :: Listed(ReadOut(acc, aggs, uniques, n), keys) <==> ComesFrom(keys, uniques, n) && Shown(rows, aggs, keys)
  {
    if n > 0 {
      var m := n - 1;
      ReadOutMeans(rows, aggs, uniques, acc, m);
      var o := ReadOutStep(rows, aggs, uniques, acc, m);
      var before := ReadOut(acc, aggs, uniques, m);
      var more := if Shown(rows, aggs, o.keys) then [o] else [];
      forall keys ensures ComesFrom(keys, uniques, n) <==> ComesFrom(keys, uniques, m) || keys == o.keys {
        OneMoreGroup(uniques, m, keys);
      }
      forall x | 0 <= x < |before| ensures before[x].keys != o.keys {
        assert before[x] in before;
        NotYet(uniques, m, before[x].keys);
      }
      AppendDiffers(before, more, o);
      forall keys ensures Listed(before + more, keys) <==> Listed(before, keys) || (more != [] && keys == o.keys) {
        AppendLists(before, more, o, keys);
      }
    }
  }

  lemma OneMoreGroup(uniques: seq<seq<Value>>, m: nat, keys: Key)
    requires Positive(Sizes(uniques)) && m < Prod(Sizes(uniques))
    ensures ComesFrom(keys, uniques, m + 1) <==> ComesFrom(keys, uniques, m) || keys == KeysOf(m, uniques)
  {
  }

  lemma NotYet(uniques: seq<seq<Value>>, m: nat, keys: Key)
    requires Positive(Sizes(uniques)) && m < Prod(Sizes(uniques)) && ComesFrom(keys, uniques, m)
    requires forall j :: 0 <= j < |uniques| ==> Distinct(uniques[j])
    ensures keys != KeysOf(m, uniques)
  {
    var g: nat :| g < m && KeysOf(g, uniques) == keys;
    KeysOfDistinct(uniques, g, m);
  }

  lemma AppendDiffers(before: seq<OutRow>, more: seq<OutRow>, o: OutRow)
    requires KeysDiffer(before) && (more == [] || more == [o]) && forall x :: 0 <= x < |before| ==> before[x].keys != o.keys
    ensures KeysDiffer(before + more)
  {
  }

  lemma AppendLists(before: seq<OutRow>, more: seq<OutRow>, o: OutRow, keys: Key)
    requires more == [] || more == [o]
    ensures Listed(before + more, keys) <==> Listed(before, keys) || (more != [] && keys == o.keys)
  {
    var all := before + more;
    if x :| 0 <= x < |before| && before[x].keys == keys { assert all[x].keys == keys; }
    if more != [] { assert all[|before|] == o; }
  }

  /** The read-out of correct accumulators is filter-then-group-by exactly when it shows every key
      that a passing row has. */
  lemma ReadOutIsGroupByIff(rows: seq<KRow>, aggs: seq<AggKind>, uniques: seq<seq<Value>>, acc: seq<real>)
    requires Factorised(rows, uniques) && Positive(Sizes(uniques)) && Accumulated(rows, aggs, uniques, acc)
    ensures IsGroupBy(rows, aggs, ReadOut(acc, aggs, uniques, Prod(Sizes(uniques)))) <==>
            forall i :: 0 <= i < |rows| && rows[i].passes ==> Shown(rows, aggs, rows[i].keys)
  {
    var groups := Prod(Sizes(uniques));
    var out := ReadOut(acc, aggs, uniques, groups);
    ReadOutMeans(rows, aggs, uniques, acc, groups);
    forall i | 0 <= i < |rows| ensures Listed(out, rows[i].keys) <==> Shown(rows, aggs, rows[i].keys) {
      var keys := rows[i].keys;
      assert KeysKnown(keys, uniques);
      EncodeInRange(Codes(keys, uniques), Sizes(uniques));
      GroupIffKeys(keys, GroupOf(keys, uniques), uniques);
    }
  }

  // ---------------------------------------------------------------- end to end

  lemma PositiveSizes(rows: seq<KRow>, uniques: seq<seq<Value>>)
    requires Factorised(rows, uniques) && rows != []
    ensures Positive(Sizes(uniques))
  {
    assert KeysKnown(rows[0].keys, uniques);
    forall j | 0 <= j < |uniques| ensures |uniques[j]| > 0 {
      assert rows[0].keys[j] in uniques[j];
    }
  }

  /** The kernel's accumulators hold the totals, for any block split and any interleaving, and no
      index reaches MAX_ACC_CELLS. */
  lemma KernelAccumulates(rows: seq<KRow>, aggs: seq<AggKind>, uniques: seq<seq<Value>>, blockOf: nat -> nat, blocks: nat, ops: seq<Op>)
    requires Factorised(rows, uniques) && rows != [] && Prod(Sizes(uniques)) * |aggs| <= MAX_ACC_CELLS
    requires forall i: nat :: blockOf(i) < blocks
    requires Schedule(ops, Adds(rows, aggs, uniques, blockOf), blocks, Prod(Sizes(uniques)) * |aggs|)
    ensures Positive(Sizes(uniques)) && AllFit(ops, blocks, Prod(Sizes(uniques)) * |aggs|)
    ensures forall i :: 0 <= i < |ops| ==> ops[i].cell < 4096
    ensures Accumulated(rows, aggs, uniques, Run(ops, blocks, Prod(Sizes(uniques)) * |aggs|).gacc)
  {
    var groups := Prod(Sizes(uniques));
    var cells := groups * |aggs|;
    var adds := Adds(rows, aggs, uniques, blockOf);
    PositiveSizes(rows, uniques);
    AddsFit(rows, aggs, uniques, blockOf, blocks);
    ScheduleFits(ops, adds, blocks, cells);
    forall i | 0 <= i < |ops| ensures ops[i].cell < 4096 { assert Fits(ops[i], blocks, cells); }
    var acc := Run(ops, blocks, cells).gacc;
    forall g: nat, slot: nat | g < groups && slot < |aggs|
      ensures Cell(g, |aggs|, slot) < |acc| && acc[Cell(g, |aggs|, slot)] == GroupTotal(rows, aggs, KeysOf(g, uniques), slot)
    {
      CellInRange(g, groups, |aggs|, slot);
      KernelIsExact(ops, adds, blocks, cells, Cell(g, |aggs|, slot));
      AddsSum(rows, aggs, uniques, blockOf, g, slot);
    }
  }

  /** With COUNT(*) among the aggregates the dense path is filter-then-group-by; without it, exactly
      when no group of passing rows has every aggregate equal to 0. */
  lemma DenseIsGroupByIff(rows: seq<KRow>, aggs: seq<AggKind>, uniques: seq<seq<Value>>, blockOf: nat -> nat, blocks: nat, ops: seq<Op>)
    requires Factorised(rows, uniques) && rows != [] && Prod(Sizes(uniques)) * |aggs| <= MAX_ACC_CELLS
    requires forall i: nat :: blockOf(i) < blocks
    requires Schedule(ops, Adds(rows, aggs, uniques, blockOf), blocks, Prod(Sizes(uniques)) * |aggs|)
    ensures Positive(Sizes(uniques)) && AllFit(ops, blocks, Prod(Sizes(uniques)) * |aggs|)
    ensures var cells := Prod(Sizes(uniques)) * |aggs|;
            IsGroupBy(rows, aggs, ReadOut(Run(ops, blocks, cells).gacc, aggs, uniques, Prod(Sizes(uniques)))) <==>
            (HasCount(aggs) || forall i :: 0 <= i < |rows| && rows[i].passes ==>
               exists slot :: 0 <= slot < |aggs| && GroupTotal(rows, aggs, rows[i].keys, slot) != 0.0)
  {
    KernelAccumulates(rows, aggs, uniques, blockOf, blocks, ops);
    var acc := Run(ops, blocks, Prod(Sizes(uniques)) * |aggs|).gacc;
    ReadOutIsGroupByIff(rows, aggs, uniques, acc);
  }

  /** SUM alone over one passing row that holds 0: the group is lost in every run. */
  lemma ZeroSumCounterexample(blockOf: nat -> nat, blocks: nat, ops: seq<Op>)
    requires forall i: nat :: blockOf(i) < blocks
    requires var rows, uniques := [KRow([Int(1)], true, [0.0])], [[Int(1)]];
             Factorised(rows, uniques) && Schedule(ops, Adds(rows, [SumArg], uniques, blockOf), blocks, 1)
    ensures var rows, uniques := [KRow([Int(1)], true, [0.0])], [[Int(1)]];
            && Positive(Sizes(uniques)) && Prod(Sizes(uniques)) == 1 && AllFit(ops, blocks, 1)
            && !IsGroupBy(rows, [SumArg], ReadOut(Run(ops, blocks, 1).gacc, [SumArg], uniques, 1))
  {
    var row, aggs, uniques := KRow([Int(1)], true, [0.0]), [SumArg], [[Int(1)]];
    assert Sizes(uniques) == [1] && [1][1..] == [];
    assert Prod([1]) == 1;
    DenseIsGroupByIff([row], aggs, uniques, blockOf, blocks, ops);
    SumOne(row, Weight(aggs, row.keys, 0));
    assert [row][0].passes && GroupTotal([row], aggs, [row][0].keys, 0) == 0.0;
  }
}
