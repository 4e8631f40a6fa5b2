/**
 Ranking and offset window functions: positions minus partition and peer boundaries on the sorted
 frame agree with counting rows of the original frame.
 */
module Windows {
  import opened Values
  import opened WindowColumns

  datatype WRow = WRow(part: Key, ord: Key, arg: Value)

  type Order = (Key, Key) -> bool

  /** Asymmetric and total.  Transitivity is not needed: sortedness is stated for every pair. */
  ghost predicate StrictOrder(less: Order) {
    && (forall a, b :: less(a, b) ==> !less(b, a))
    && (forall a, b :: a == b || less(a, b) || less(b, a))
  }

  predicate Before(lp: Order, lo: Order, a: WRow, b: WRow) {
    lp(a.part, b.part) || (a.part == b.part && !lo(b.ord, a.ord))
  }

  predicate Sorted(lp: Order, lo: Order, work: seq<WRow>) {
    forall i, k :: 0 <= i < k < |work| ==> Before(lp, lo, work[i], work[k])
  }

  // ---------------------------------------------------------------- boundaries

  /** The null-aware change test: NULL equals NULL. */
  predicate Changed(v: Value, prev: Value) {
    var either, both := v == Null || prev == Null, v == Null && prev == Null;
    (either && !both) || (!either && v != prev)
  }

  predicate AnyChanged(a: Key, b: Key) {
    |a| != |b| || exists c :: 0 <= c < |a| && Changed(a[c], b[c])
  }

  lemma AnyChangedMeans(a: Key, b: Key)
    ensures AnyChanged(a, b) <==> a != b
  {
    if a != b && |a| == |b| {
      var c :| 0 <= c < |a| && a[c] != b[c];
      assert Changed(a[c], b[c]);
    }
  }

  predicate StartsPart(work: seq<WRow>, i: nat)
    requires i < |work|
  {
    i == 0 || AnyChanged(work[i].part, work[i - 1].part)
  }

  predicate StartsPeers(work: seq<WRow>, i: nat)
    requires i < |work|
  {
    StartsPart(work, i) || AnyChanged(work[i].ord, work[i - 1].ord)
  }

  /** True at the first row of each partition. */
  function Boundary(work: seq<WRow>): (b: seq<bool>)
    ensures |b| == |work|
    ensures forall i: nat :: i < |work| ==> b[i] == StartsPart(work, i)
  {
    seq(|work|, i requires 0 <= i < |work| => StartsPart(work, i))
  }

  /** True at the first row of each run of equal order keys. */
  function PeerBoundary(work: seq<WRow>): (b: seq<bool>)
    ensures |b| == |work|
    ensures forall i: nat :: i < |work| ==> b[i] == StartsPeers(work, i)
  {
    seq(|work|, i requires 0 <= i < |work| => StartsPeers(work, i))
  }

  function Positions(n: nat): (s: seq<int>)
    ensures |s| == n && forall i :: 0 <= i < n ==> s[i] == i
  {
    seq(n, i => i)
  }

  function PStart(work: seq<WRow>): (s: seq<int>)
    ensures |s| == |work|
  {
    Held(Positions(|work|), Boundary(work))
  }

  function PEnd(work: seq<WRow>): (s: seq<int>)
    ensures |s| == |work|
  {
    HeldBack(Positions(|work|), Ends(Boundary(work)))
  }

  function PeerStart(work: seq<WRow>): (s: seq<int>)
    ensures |s| == |work|
  {
    Held(Positions(|work|), PeerBoundary(work))
  }

  function PeerEnd(work: seq<WRow>): (s: seq<int>)
    ensures |s| == |work|
  {
    HeldBack(Positions(|work|), Ends(PeerBoundary(work)))
  }

  /** A frame the window code works on: sorted by partition, then by order key. */
  ghost predicate Frame(lp: Order, lo: Order, work: seq<WRow>) {
    StrictOrder(lp) && StrictOrder(lo) && Sorted(lp, lo, work)
  }

  lemma StartIsMark(work: seq<WRow>, i: nat)
    requires i < |work|
    ensures PStart(work)[i] == LastMark(Boundary(work), i)
    ensures PEnd(work)[i] == RunEnd(Boundary(work), i)
    ensures PeerStart(work)[i] == LastMark(PeerBoundary(work), i)
    ensures PeerEnd(work)[i] == RunEnd(PeerBoundary(work), i)
  {
    var ps := Positions(|work|);
    HeldAt(ps, Boundary(work), i);
    HeldAt(ps, PeerBoundary(work), i);
    HeldBackAt(ps, Boundary(work), Ends(Boundary(work)), i, 0);
    HeldBackAt(ps, PeerBoundary(work), Ends(PeerBoundary(work)), i, 0);
  }

  /** A row between two rows with equal keys has their keys. */
  predicate Tied(work: seq<WRow>, i: nat, j: nat, k: nat)
    requires i < |work| && j < |work| && k < |work|
  {
    work[i].part == work[k].part ==> work[j].part == work[k].part && (work[i].ord == work[k].ord ==> work[j].ord == work[k].ord)
  }

  /** Sorting leaves equal keys side by side. */
  ghost predicate Together(work: seq<WRow>) {
    forall i: nat, j: nat, k: nat {:trigger Tied(work, i, j, k)} :: i <= j <= k < |work| ==> Tied(work, i, j, k)
  }

  lemma Between(lp: Order, lo: Order, a: WRow, b: WRow, c: WRow)
    requires StrictOrder(lp) && StrictOrder(lo) && Before(lp, lo, a, b) && Before(lp, lo, b, c) && a.part == c.part
    ensures b.part == c.part
    ensures a.ord == c.ord ==> b.ord == c.ord
  {
  }

  lemma SortedTogether(lp: Order, lo: Order, work: seq<WRow>)
    requires Frame(lp, lo, work)
    ensures Together(work)
  {
    forall i: nat, j: nat, k: nat | i <= j <= k < |work|
      ensures Tied(work, i, j, k)
    {
      if i < j < k && work[i].part == work[k].part { Between(lp, lo, work[i], work[j], work[k]); }
    }
  }

  /** No mark between two rows of one partition, and conversely. */
  lemma {:induction false} SamePart(work: seq<WRow>, i: nat, k: nat)
    requires Together(work) && i <= k < |work|
    ensures work[i].part == work[k].part <==> forall j :: i < j <= k ==> !Boundary(work)[j]
    decreases k - i
  {
    if i < k {
      SamePart(work, i, k - 1);
      AnyChangedMeans(work[k].part, work[k - 1].part);
      assert Tied(work, i, k - 1, k);
      assert Boundary(work)[k] == (work[k].part != work[k - 1].part);
    }
  }

  lemma {:induction false} SamePeer(work: seq<WRow>, i: nat, k: nat)
    requires Together(work) && i <= k < |work|
    ensures work[i].part == work[k].part && work[i].ord == work[k].ord <==> forall j :: i < j <= k ==> !PeerBoundary(work)[j]
    decreases k - i
  {
    if i < k {
      SamePeer(work, i, k - 1);
      AnyChangedMeans(work[k].part, work[k - 1].part);
      AnyChangedMeans(work[k].ord, work[k - 1].ord);
      assert Tied(work, i, k - 1, k);
      assert PeerBoundary(work)[k] == (work[k].part != work[k - 1].part || work[k].ord != work[k - 1].ord);
    }
  }

  /** A partition is one block of rows, NULL keys forming a partition of their own. */
  lemma PartitionIsBlock(lp: Order, lo: Order, work: seq<WRow>, i: nat, k: nat)
    requires Frame(lp, lo, work) && i < |work| && k < |work|
    ensures 0 <= PStart(work)[i] <= i <= PEnd(work)[i] < |work|
    ensures work[k].part == work[i].part <==> PStart(work)[i] <= k <= PEnd(work)[i]
  {
    StartIsMark(work, i);
    SortedTogether(lp, lo, work);
    var b := Boundary(work);
    if k <= i { SamePart(work, k, i); } else { SamePart(work, i, k); }
    RunOf(b, i, k);
  }

  /** A peer group is one block inside it. */
  lemma PeersAreBlock(lp: Order, lo: Order, work: seq<WRow>, i: nat, k: nat)
    requires Frame(lp, lo, work) && i < |work| && k < |work|
    ensures PStart(work)[i] <= PeerStart(work)[i] <= i <= PeerEnd(work)[i] <= PEnd(work)[i]
    ensures work[k].part == work[i].part && work[k].ord == work[i].ord <==> PeerStart(work)[i] <= k <= PeerEnd(work)[i]
  {
    StartIsMark(work, i);
    SortedTogether(lp, lo, work);
    PeersInside(work, i);
    if k <= i { SamePeer(work, k, i); } else { SamePeer(work, i, k); }
    RunOf(PeerBoundary(work), i, k);
  }

  lemma PeersInside(work: seq<WRow>, i: nat)
    requires i < |work|
    ensures LastMark(Boundary(work), i) <= LastMark(PeerBoundary(work), i)
    ensures RunEnd(PeerBoundary(work), i) <= RunEnd(Boundary(work), i)
  {
    var b, p := Boundary(work), PeerBoundary(work);
    assert p[LastMark(b, i)];
    assert RunEnd(b, i) + 1 == |work| || p[RunEnd(b, i) + 1];
  }

  /** Within a partition, a row sorts strictly before another exactly when it stands above that
      row's peers. */
  lemma SmallerIsAbove(lp: Order, lo: Order, work: seq<WRow>, i: nat, k: nat)
    requires Frame(lp, lo, work) && i < |work| && k < |work|
    ensures work[k].part == work[i].part && lo(work[k].ord, work[i].ord) <==> PStart(work)[i] <= k < PeerStart(work)[i]
  {
    PartitionIsBlock(lp, lo, work, i, k);
    PeersAreBlock(lp, lo, work, i, k);
    if k < i { assert Before(lp, lo, work[k], work[i]); }
    if i < k { assert Before(lp, lo, work[i], work[k]); }
  }
}
