/**
 ROW_NUMBER, RANK, DENSE_RANK, LAG and LEAD: computed on the sorted frame, put back by the saved
 positions, and equal to counting rows of the frame as it was given.
 */
module Ranking {
  import opened Values
  import opened Bags
  import opened WindowColumns
  import opened Windows

  // ---------------------------------------------------------------- the columns

  function RowNumber(work: seq<WRow>): (out: seq<int>)
    ensures |out| == |work|
    ensures forall i :: 0 <= i < |work| ==> out[i] == i - PStart(work)[i] + 1
  {
    seq(|work|, i requires 0 <= i < |work| => i - PStart(work)[i] + 1)
  }

  /** The row number at the head of the peer group, held down the group. */
  function Rank(work: seq<WRow>): (out: seq<int>)
    ensures |out| == |work|
  {
    Held(RowNumber(work), PeerBoundary(work))
  }

  function PeerCount(work: seq<WRow>): (out: seq<int>)
    ensures |out| == |work|
    ensures forall i: nat :: i < |work| ==> out[i] == CountMarks(PeerBoundary(work), i)
  {
    seq(|work|, i requires 0 <= i < |work| => CountMarks(PeerBoundary(work), i))
  }

  function DenseRank(work: seq<WRow>): (out: seq<int>)
    ensures |out| == |work|
    ensures forall i :: 0 <= i < |work| ==> out[i] == PeerCount(work)[i] - Held(PeerCount(work), Boundary(work))[i] + 1
  {
    seq(|work|, i requires 0 <= i < |work| => PeerCount(work)[i] - Held(PeerCount(work), Boundary(work))[i] + 1)
  }

  /** `arg.shift(n)`, NULL where nothing moves in. */
  function Shifted(work: seq<WRow>, n: int, i: nat): Value {
    if 0 <= i - n < |work| then work[i - n].arg else Null
  }

  function Step(lead: bool, n: nat): int {
    if lead then 0 - n else n
  }

  predicate OffsetValid(work: seq<WRow>, lead: bool, n: nat, i: nat)
    requires i < |work|
  {
    var inPart, size := i - PStart(work)[i], PEnd(work)[i] - PStart(work)[i] + 1;
    if lead then inPart <= size - 1 - n else inPart >= n
  }

  function LagLead(work: seq<WRow>, lead: bool, n: nat, defaults: seq<Value>): (out: seq<Value>)
    requires |defaults| == |work|
    ensures |out| == |work|
    ensures forall i: nat :: i < |work| ==>
              out[i] == if OffsetValid(work, lead, n, i) then Shifted(work, Step(lead, n), i) else defaults[i]
  {
    seq(|work|, i requires 0 <= i < |work| =>
      if OffsetValid(work, lead, n, i) then Shifted(work, Step(lead, n), i) else defaults[i])
  }

  /** LAG and LEAD read the row so many places away in the same partition, or give the default. */
  lemma OffsetStaysInPartition(lp: Order, lo: Order, work: seq<WRow>, lead: bool, n: nat, defaults: seq<Value>, i: nat)
    requires Frame(lp, lo, work) && i < |work| == |defaults|
    ensures var k := if lead then i + n else i - n;
            LagLead(work, lead, n, defaults)[i] ==
            if 0 <= k < |work| && work[k].part == work[i].part then work[k].arg else defaults[i]
  {
    var k := if lead then i + n else i - n;
    PartitionIsBlock(lp, lo, work, i, i);
    if 0 <= k < |work| { PartitionIsBlock(lp, lo, work, i, k); }
  }

  // ---------------------------------------------------------------- the sort and its undoing

  /** `pos` lists each row number of the frame once. */
  predicate Permutation(pos: seq<nat>) {
    && (forall j :: 0 <= j < |pos| ==> pos[j] < |pos|)
    && (forall j, k :: 0 <= j < k < |pos| ==> pos[j] != pos[k])
    && (forall p: nat :: p < |pos| ==> p in pos)
  }

  function Gather(df: seq<WRow>, pos: seq<nat>): (work: seq<WRow>)
    requires |pos| == |df| && forall j :: 0 <= j < |pos| ==> pos[j] < |df|
    ensures |work| == |df| && forall j :: 0 <= j < |df| ==> work[j] == df[pos[j]]
  {
    seq(|pos|, j requires 0 <= j < |pos| => df[pos[j]])
  }

  /** What sorting the frame may leave: ties in any order. */
  ghost predicate SortedBy(lp: Order, lo: Order, df: seq<WRow>, pos: seq<nat>) {
    |pos| == |df| && Permutation(pos) && Frame(lp, lo, Gather(df, pos))
  }

  /** Sorting the results by the saved position. */
  function Restore<T>(result: seq<T>, pos: seq<nat>): (out: seq<T>)
    requires |result| == |pos| && Permutation(pos)
    ensures |out| == |pos|
    ensures forall j :: 0 <= j < |pos| ==> out[pos[j]] == result[j]
  {
    var out := seq(|pos|, p requires 0 <= p < |pos| => result[IndexOf(pos, p)]);
    assert forall j :: 0 <= j < |pos| ==> IndexOf(pos, pos[j]) == j;
    out
  }

  // ---------------------------------------------------------------- counting on the given frame

  ghost function SmallerRows(lo: Order, df: seq<WRow>, p: nat): set<nat>
    requires p < |df|
  {
    set q: nat | q < |df| && df[q].part == df[p].part && lo(df[q].ord, df[p].ord)
  }

  ghost function SmallerKeys(lo: Order, df: seq<WRow>, p: nat): set<Key>
    requires p < |df|
  {
    set q: nat | q < |df| && df[q].part == df[p].part && lo(df[q].ord, df[p].ord) :: df[q].ord
  }

  ghost function PartRows(df: seq<WRow>, p: nat): set<nat>
    requires p < |df|
  {
    set q: nat | q < |df| && df[q].part == df[p].part
  }

  function Span(a: nat, b: nat): (s: set<nat>)
    ensures forall k: nat :: k in s <==> a <= k < b
  {
    if b <= a then {} else Span(a, b - 1) + {b - 1}
  }

  lemma {:induction false} SpanSize(a: nat, b: nat)
    requires a <= b
    ensures |Span(a, b)| == b - a
  {
    if a < b {
      SpanSize(a, b - 1);
    }
  }

  function Image(s: set<nat>, pos: seq<nat>): set<nat>
    requires forall k :: k in s ==> k < |pos|
  {
    set k | k in s :: pos[k]
  }

  lemma {:induction false} ImageSize(s: set<nat>, pos: seq<nat>)
    requires Permutation(pos) && forall k :: k in s ==> k < |pos|
    ensures |Image(s, pos)| == |s|
  {
    if s != {} {
      var k :| k in s;
      ImageSize(s - {k}, pos);
      assert Image(s, pos) == Image(s - {k}, pos) + {pos[k]};
      assert pos[k] !in Image(s - {k}, pos);
    }
  }

  /** Rows of the given frame found in a block of the sorted one. */
  lemma BlockSize(pos: seq<nat>, a: nat, b: nat, rows: set<nat>)
    requires Permutation(pos) && a <= b <= |pos|
    requires forall q :: q in rows ==> q < |pos|
    requires forall k: nat :: k < |pos| ==> (pos[k] in rows <==> a <= k < b)
    ensures |rows| == b - a
  {
    SpanSize(a, b);
    ImageSize(Span(a, b), pos);
    forall q | q in rows ensures q in Image(Span(a, b), pos) {
      assert pos[IndexOf(pos, q)] == q;
    }
    assert rows == Image(Span(a, b), pos);
  }

  lemma RankOnWork(work: seq<WRow>, i: nat)
    requires i < |work|
    ensures Rank(work)[i] == PeerStart(work)[i] - PStart(work)[i] + 1
  {
    StartIsMark(work, i);
    HeldAt(RowNumber(work), PeerBoundary(work), i);
    var k := LastMark(PeerBoundary(work), i);
    StartIsMark(work, k);
    PeersInside(work, i);
    SameStart(Boundary(work), i, k);
  }

  lemma {:induction false} SameStart(marks: seq<bool>, i: nat, k: nat)
    requires k <= i < |marks| && marks[0] && LastMark(marks, i) <= k
    ensures LastMark(marks, k) == LastMark(marks, i)
  {
    if k < i { SameStart(marks, i - 1, k); }
  }

  /** RANK is one more than the rows of the partition with a strictly smaller order key. */
  lemma RankCounts(lp: Order, lo: Order, df: seq<WRow>, pos: seq<nat>, p: nat)
    requires SortedBy(lp, lo, df, pos) && p < |df|
    ensures Restore(Rank(Gather(df, pos)), pos)[p] == 1 + |SmallerRows(lo, df, p)|
  {
    var work, i := Gather(df, pos), IndexOf(pos, p);
    RankOnWork(work, i);
    PeersAreBlock(lp, lo, work, i, i);
    PartitionIsBlock(lp, lo, work, i, i);
    forall k: nat | k < |pos| ensures pos[k] in SmallerRows(lo, df, p) <==> PStart(work)[i] <= k < PeerStart(work)[i] {
      SmallerIsAbove(lp, lo, work, i, k);
    }
    BlockSize(pos, PStart(work)[i], PeerStart(work)[i], SmallerRows(lo, df, p));
    assert Restore(Rank(work), pos)[pos[i]] == Rank(work)[i];
  }

  // ---------------------------------------------------------------- distinct keys

  function KeysIn(work: seq<WRow>, a: nat, b: nat): set<Key>
    requires b <= |work|
  {
    if b <= a then {} else KeysIn(work, a, b - 1) + {work[b - 1].ord}
  }

  lemma {:induction false} KeysInMeans(work: seq<WRow>, a: nat, b: nat, key: Key)
    requires b <= |work|
    ensures key in KeysIn(work, a, b) <==> exists k: nat :: a <= k < b && work[k].ord == key
  {
    if a < b { KeysInMeans(work, a, b - 1, key); }
  }

  /** Down a partition, the peer boundaries passed count the distinct keys met. */
  lemma {:induction false} MarksCountKeys(work: seq<WRow>, a: nat, e: nat)
    requires Together(work) && a < e <= |work| && work[a].part == work[e - 1].part
    ensures |KeysIn(work, a, e)| == CountMarks(PeerBoundary(work), e - 1) - CountMarks(PeerBoundary(work), a) + 1
    decreases e - a
  {
    var m := e - 1;
    if a < m {
      assert Tied(work, a, m - 1, m);
      MarksCountKeys(work, a, m);
      KeyIsNew(work, a, m);
    }
  }

  lemma KeyIsNew(work: seq<WRow>, a: nat, m: nat)
    requires Together(work) && a < m < |work| && work[a].part == work[m].part
    ensures work[m].ord in KeysIn(work, a, m) <==> !PeerBoundary(work)[m]
  {
    KeysInMeans(work, a, m, work[m].ord);
    if work[m].ord in KeysIn(work, a, m) {
      var k: nat :| a <= k < m && work[k].ord == work[m].ord;
      assert Tied(work, a, k, m);
      SamePeer(work, k, m);
    }
    if !PeerBoundary(work)[m] {
      SamePeer(work, m - 1, m);
      assert work[m - 1].ord == work[m].ord;
    }
  }

  lemma DenseOnWork(lp: Order, lo: Order, work: seq<WRow>, i: nat)
    requires Frame(lp, lo, work) && i < |work|
    ensures 0 <= PStart(work)[i] <= i && DenseRank(work)[i] == |KeysIn(work, PStart(work)[i], i + 1)|
  {
    StartIsMark(work, i);
    var a := LastMark(Boundary(work), i);
    SortedTogether(lp, lo, work);
    DenseFrom(work, a, i);
  }

  lemma DenseFrom(work: seq<WRow>, a: nat, i: nat)
    requires Together(work) && i < |work| && a == LastMark(Boundary(work), i)
    ensures DenseRank(work)[i] == |KeysIn(work, a, i + 1)|
  {
    SamePart(work, a, i);
    DenseIsMarks(work, i);
    MarksCountKeys(work, a, i + 1);
  }

  lemma DenseIsMarks(work: seq<WRow>, i: nat)
    requires i < |work|
    ensures var p, a := PeerBoundary(work), LastMark(Boundary(work), i);
            DenseRank(work)[i] == CountMarks(p, i) - CountMarks(p, a) + 1
  {
    HeldAt(PeerCount(work), Boundary(work), i);
  }

  /** A key of the partition is met by row i exactly when it is smaller than row i's or equal. */
  lemma KeysSoFar(lp: Order, lo: Order, df: seq<WRow>, pos: seq<nat>, i: nat, key: Key)
    requires SortedBy(lp, lo, df, pos) && i < |df| && 0 <= PStart(Gather(df, pos))[i] <= i
    ensures var work := Gather(df, pos);
            key in KeysIn(work, PStart(work)[i], i + 1) <==> key in SmallerKeys(lo, df, pos[i]) || key == work[i].ord
  {
    var work := Gather(df, pos);
    KeysInMeans(work, PStart(work)[i], i + 1, key);
    if key in KeysIn(work, PStart(work)[i], i + 1) {
      var k: nat :| PStart(work)[i] <= k < i + 1 && work[k].ord == key;
      MetKey(lp, lo, df, pos, i, k);
    }
    if key in SmallerKeys(lo, df, pos[i]) {
      var k := SmallerKeyMet(lp, lo, df, pos, i, key);
    }
  }

  lemma MetKey(lp: Order, lo: Order, df: seq<WRow>, pos: seq<nat>, i: nat, k: nat)
    requires SortedBy(lp, lo, df, pos) && k <= i < |df| && PStart(Gather(df, pos))[i] <= k
    ensures var work := Gather(df, pos); work[k].ord in SmallerKeys(lo, df, pos[i]) || work[k].ord == work[i].ord
  {
    var work := Gather(df, pos);
    SmallerIsAbove(lp, lo, work, i, k);
    PeersAreBlock(lp, lo, work, i, k);
    assert work[k] == df[pos[k]];
  }

  lemma SmallerKeyMet(lp: Order, lo: Order, df: seq<WRow>, pos: seq<nat>, i: nat, key: Key) returns (k: nat)
    requires SortedBy(lp, lo, df, pos) && i < |df| && key in SmallerKeys(lo, df, pos[i])
    ensures PStart(Gather(df, pos))[i] <= k < i + 1 && k < |df| && Gather(df, pos)[k].ord == key
  {
    var work, p := Gather(df, pos), pos[i];
    var q: nat :| q < |df| && df[q].part == df[p].part && lo(df[q].ord, df[p].ord) && df[q].ord == key;
    k := IndexOf(pos, q);
    SmallerIsAbove(lp, lo, work, i, k);
    PeersAreBlock(lp, lo, work, i, i);
  }

  /** DENSE_RANK is one more than the distinct smaller order keys of the partition. */
  lemma DenseRankCounts(lp: Order, lo: Order, df: seq<WRow>, pos: seq<nat>, p: nat)
    requires SortedBy(lp, lo, df, pos) && p < |df|
    ensures Restore(DenseRank(Gather(df, pos)), pos)[p] == 1 + |SmallerKeys(lo, df, p)|
  {
    var work, i := Gather(df, pos), IndexOf(pos, p);
    DenseOnWork(lp, lo, work, i);
    var met := KeysIn(work, PStart(work)[i], i + 1);
    forall key ensures key in met <==> key in SmallerKeys(lo, df, p) || key == work[i].ord {
      KeysSoFar(lp, lo, df, pos, i, key);
    }
    assert met == SmallerKeys(lo, df, p) + {work[i].ord};
    assert work[i].ord !in SmallerKeys(lo, df, p);
    assert Restore(DenseRank(work), pos)[pos[i]] == DenseRank(work)[i];
  }

  // ---------------------------------------------------------------- row numbers

  /** Row numbers run from 1 to the size of the partition. */
  lemma RowNumberInRange(lp: Order, lo: Order, df: seq<WRow>, pos: seq<nat>, p: nat)
    requires SortedBy(lp, lo, df, pos) && p < |df|
    ensures 1 <= Restore(RowNumber(Gather(df, pos)), pos)[p] <= |PartRows(df, p)|
  {
    var work, i := Gather(df, pos), IndexOf(pos, p);
    PartitionSize(lp, lo, df, pos, i);
    PartitionIsBlock(lp, lo, work, i, i);
    assert Restore(RowNumber(work), pos)[pos[i]] == RowNumber(work)[i];
  }

  lemma PartitionSize(lp: Order, lo: Order, df: seq<WRow>, pos: seq<nat>, i: nat)
    requires SortedBy(lp, lo, df, pos) && i < |df|
    ensures var work := Gather(df, pos); |PartRows(df, pos[i])| == PEnd(work)[i] - PStart(work)[i] + 1
  {
    var work := Gather(df, pos);
    PartitionIsBlock(lp, lo, work, i, i);
    forall k: nat | k < |pos| ensures pos[k] in PartRows(df, pos[i]) <==> PStart(work)[i] <= k < PEnd(work)[i] + 1 {
      PartitionIsBlock(lp, lo, work, i, k);
    }
    BlockSize(pos, PStart(work)[i], PEnd(work)[i] + 1, PartRows(df, pos[i]));
  }

  lemma SamePartSameStart(lp: Order, lo: Order, work: seq<WRow>, i: nat, k: nat)
    requires Frame(lp, lo, work) && i < |work| && k < |work| && work[i].part == work[k].part
    ensures PStart(work)[i] == PStart(work)[k]
  {
    PartitionIsBlock(lp, lo, work, i, k);
    PartitionIsBlock(lp, lo, work, k, i);
    StartIsMark(work, i);
    StartIsMark(work, k);
    if k <= i { SameStart(Boundary(work), i, k); } else { SameStart(Boundary(work), k, i); }
  }

  /** Each number is given once, and a row with a smaller order key has a smaller number. */
  lemma RowNumberOrders(lp: Order, lo: Order, df: seq<WRow>, pos: seq<nat>, p: nat, q: nat)
    requires SortedBy(lp, lo, df, pos) && p < |df| && q < |df| && df[p].part == df[q].part
    ensures var rn := Restore(RowNumber(Gather(df, pos)), pos);
            (rn[p] == rn[q] ==> p == q) && (lo(df[p].ord, df[q].ord) ==> rn[p] < rn[q])
  {
    var work, i, k := Gather(df, pos), IndexOf(pos, p), IndexOf(pos, q);
    SamePartSameStart(lp, lo, work, i, k);
    SmallerIsAbove(lp, lo, work, k, i);
    PeersAreBlock(lp, lo, work, k, k);
    assert Restore(RowNumber(work), pos)[pos[i]] == RowNumber(work)[i];
    assert Restore(RowNumber(work), pos)[pos[k]] == RowNumber(work)[k];
  }

  /** Every number from 1 to the size of the partition is given. */
  lemma RowNumberReached(lp: Order, lo: Order, df: seq<WRow>, pos: seq<nat>, p: nat, r: nat) returns (q: nat)
    requires SortedBy(lp, lo, df, pos) && p < |df| && 1 <= r <= |PartRows(df, p)|
    ensures q < |df| && df[q].part == df[p].part && Restore(RowNumber(Gather(df, pos)), pos)[q] == r
  {
    var work, i := Gather(df, pos), IndexOf(pos, p);
    PartitionSize(lp, lo, df, pos, i);
    PartitionIsBlock(lp, lo, work, i, i);
    var k := PStart(work)[i] + r - 1;
    PartitionIsBlock(lp, lo, work, i, k);
    SamePartSameStart(lp, lo, work, i, k);
    q := pos[k];
    assert Restore(RowNumber(work), pos)[pos[k]] == RowNumber(work)[k];
  }
}
