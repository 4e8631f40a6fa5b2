/**
 The dense aggregation kernel: every block adds its rows into accumulators of its own, waits, and
 then adds those into the global ones.  Atomic additions of all blocks may interleave in any order.
 */
module DenseKernel {
  import opened Sums

  datatype Op = Add(block: nat, cell: nat, val: real) | Flush(block: nat, cell: nat)

  /** Shared accumulators of each block, and the global ones. */
  datatype State = State(sh: seq<seq<real>>, gacc: seq<real>)

  predicate Shape(s: State, blocks: nat, cells: nat) {
    |s.sh| == blocks && |s.gacc| == cells && forall b :: 0 <= b < blocks ==> |s.sh[b]| == cells
  }

  predicate Fits(op: Op, blocks: nat, cells: nat) {
    op.block < blocks && op.cell < cells
  }

  predicate AllFit(ops: seq<Op>, blocks: nat, cells: nat) {
    forall i :: 0 <= i < |ops| ==> Fits(ops[i], blocks, cells)
  }

  function Zero(blocks: nat, cells: nat): (s: State)
    ensures Shape(s, blocks, cells)
    ensures forall b, k :: 0 <= b < blocks && 0 <= k < cells ==> s.sh[b][k] == 0.0
    ensures forall k :: 0 <= k < cells ==> s.gacc[k] == 0.0
  {
    State(seq(blocks, _ => seq(cells, _ => 0.0)), seq(cells, _ => 0.0))
  }

  function Step(s: State, op: Op, blocks: nat, cells: nat): (t: State)
    requires Shape(s, blocks, cells) && Fits(op, blocks, cells)
    ensures Shape(t, blocks, cells)
  {
    match op
    case Add(b, k, v) => s.(sh := s.sh[b := s.sh[b][k := s.sh[b][k] + v]])
    case Flush(b, k) => s.(gacc := s.gacc[k := s.gacc[k] + s.sh[b][k]])
  }

  function Run(ops: seq<Op>, blocks: nat, cells: nat): (t: State)
    requires AllFit(ops, blocks, cells)
    ensures Shape(t, blocks, cells)
  {
    if ops == [] then Zero(blocks, cells)
    else Step(Run(ops[..|ops| - 1], blocks, cells), ops[|ops| - 1], blocks, cells)
  }

  // ---------------------------------------------------------------- schedules

  function BlockFlushes(b: nat, cells: nat): seq<Op> {
    if cells == 0 then [] else BlockFlushes(b, cells - 1) + [Flush(b, cells - 1)]
  }

  /** Each block hands over each of its cells once. */
  function Flushes(blocks: nat, cells: nat): seq<Op> {
    if blocks == 0 then [] else Flushes(blocks - 1, cells) + BlockFlushes(blocks - 1, cells)
  }

  /** The barrier: no block adds after it has begun to hand over. */
  predicate Barrier(ops: seq<Op>) {
    forall i, j :: 0 <= i < j < |ops| && ops[i].Flush? && ops[j].Add? ==> ops[i].block != ops[j].block
  }

  predicate AllAdds(adds: seq<Op>, blocks: nat, cells: nat) {
    forall i :: 0 <= i < |adds| ==> adds[i].Add? && Fits(adds[i], blocks, cells)
  }

  /** Any interleaving of the rows' additions and the hand-overs that respects the barrier. */
  ghost predicate Schedule(ops: seq<Op>, adds: seq<Op>, blocks: nat, cells: nat) {
    multiset(ops) == multiset(adds + Flushes(blocks, cells)) && Barrier(ops)
  }

  lemma {:induction false} FlushesShape(blocks: nat, cells: nat, op: Op)
    requires op in Flushes(blocks, cells)
    ensures op.Flush? && Fits(op, blocks, cells)
  {
    if op in BlockFlushes(blocks - 1, cells) {
      BlockFlushesShape(blocks - 1, cells, op);
    } else {
      FlushesShape(blocks - 1, cells, op);
    }
  }

  lemma {:induction false} BlockFlushesShape(b: nat, cells: nat, op: Op)
    requires op in BlockFlushes(b, cells)
    ensures op.Flush? && op.block == b && op.cell < cells
  {
    if op != Flush(b, cells - 1) { BlockFlushesShape(b, cells - 1, op); }
  }

  /** No step of a schedule leaves the accumulators. */
  lemma ScheduleFits(ops: seq<Op>, adds: seq<Op>, blocks: nat, cells: nat)
    requires Schedule(ops, adds, blocks, cells) && AllAdds(adds, blocks, cells)
    ensures AllFit(ops, blocks, cells)
  {
    forall i | 0 <= i < |ops| ensures Fits(ops[i], blocks, cells) {
      var op := ops[i];
      assert op in multiset(ops);
      assert op in multiset(adds + Flushes(blocks, cells));
      if op in Flushes(blocks, cells) { FlushesShape(blocks, cells, op); }
    }
  }

  // ---------------------------------------------------------------- what a run leaves

  function AddTo(b: nat, k: nat): Op -> real {
    (op: Op) => if op.Add? && op.block == b && op.cell == k then op.val else 0.0
  }

  function CellOf(k: nat): Op -> real {
    (op: Op) => if op.Add? && op.cell == k then op.val else 0.0
  }

  /** What one hand-over carries, when its block has finished adding. */
  function Carried(ops: seq<Op>, k: nat): Op -> real {
    (op: Op) => if op.Flush? && op.cell == k then SumOver(ops, AddTo(op.block, k)) else 0.0
  }

  lemma {:induction false} SharedIsSum(ops: seq<Op>, blocks: nat, cells: nat, b: nat, k: nat)
    requires AllFit(ops, blocks, cells) && b < blocks && k < cells
    ensures Run(ops, blocks, cells).sh[b][k] == SumOver(ops, AddTo(b, k))
  {
    if ops != [] { SharedIsSum(ops[..|ops| - 1], blocks, cells, b, k); }
  }

  /** After the barrier nothing more is added, so a hand-over carries the whole sum of its block. */
  lemma CarriesAll(ops: seq<Op>, n: nat, k: nat)
    requires Barrier(ops) && n < |ops| && ops[n].Flush?
    ensures SumOver(ops[..n], AddTo(ops[n].block, k)) == SumOver(ops, AddTo(ops[n].block, k))
  {
    var f := AddTo(ops[n].block, k);
    assert ops == ops[..n] + ops[n..];
    SumAppend(ops[..n], ops[n..], f);
    forall op | op in ops[n..] ensures f(op) == 0.0 {
      var j :| 0 <= j < |ops[n..]| && ops[n..][j] == op;
      assert ops[n + j] == op;
    }
    SumZero(ops[n..], f);
  }

  lemma {:induction false} GlobalIsSum(ops: seq<Op>, blocks: nat, cells: nat, k: nat, n: nat)
    requires AllFit(ops, blocks, cells) && Barrier(ops) && k < cells && n <= |ops|
    ensures Run(ops[..n], blocks, cells).gacc[k] == SumOver(ops[..n], Carried(ops, k))
  {
    if n > 0 {
      GlobalIsSum(ops, blocks, cells, k, n - 1);
      var op := ops[n - 1];
      assert ops[..n][..n - 1] == ops[..n - 1] && ops[..n][n - 1] == op;
      if op.Flush? && op.cell == k {
        SharedIsSum(ops[..n - 1], blocks, cells, op.block, k);
        CarriesAll(ops, n - 1, k);
      }
    }
  }

  // ---------------------------------------------------------------- adding it all up

  lemma {:induction false} BlockFlushSum(ops: seq<Op>, b: nat, cells: nat, k: nat)
    ensures SumOver(BlockFlushes(b, cells), Carried(ops, k)) == if k < cells then SumOver(ops, AddTo(b, k)) else 0.0
  {
    if cells > 0 {
      BlockFlushSum(ops, b, cells - 1, k);
      SumAppend(BlockFlushes(b, cells - 1), [Flush(b, cells - 1)], Carried(ops, k));
      SumOne(Flush(b, cells - 1), Carried(ops, k));
    }
  }

  function BlockSum(ops: seq<Op>, k: nat): nat -> real {
    (b: nat) => SumOver(ops, AddTo(b, k))
  }

  predicate BlockCarries(b: nat, cells: nat, w: Op -> real, g: nat -> real) {
    SumOver(BlockFlushes(b, cells), w) == g(b)
  }

  lemma {:induction false} SumByBlock(blocks: nat, cells: nat, w: Op -> real, g: nat -> real)
    requires forall b: nat :: b < blocks ==> BlockCarries(b, cells, w, g)
    ensures SumOver(Flushes(blocks, cells), w) == SumTo(blocks, g)
  {
    if blocks > 0 {
      var last := blocks - 1;
      SumByBlock(last, cells, w, g);
      SumAppend(Flushes(last, cells), BlockFlushes(last, cells), w);
      assert BlockCarries(last, cells, w, g);
    }
  }

  lemma FlushSum(ops: seq<Op>, blocks: nat, cells: nat, k: nat)
    requires k < cells
    ensures SumOver(Flushes(blocks, cells), Carried(ops, k)) == SumTo(blocks, BlockSum(ops, k))
  {
    forall b: nat | b < blocks ensures BlockCarries(b, cells, Carried(ops, k), BlockSum(ops, k)) {
      BlockFlushSum(ops, b, cells, k);
    }
    SumByBlock(blocks, cells, Carried(ops, k), BlockSum(ops, k));
  }

  /** Splitting the additions of a cell by block loses none. */
  lemma {:induction false} BlocksCoverAdds(adds: seq<Op>, blocks: nat, cells: nat, k: nat)
    requires AllAdds(adds, blocks, cells)
    ensures SumTo(blocks, BlockSum(adds, k)) == SumOver(adds, CellOf(k))
  {
    var n := |adds| - 1;
    if adds == [] {
      SumToCong(blocks, BlockSum(adds, k), (b: nat) => 0.0);
      SumToSpike(blocks, (b: nat) => 0.0, 0);
    } else {
      BlocksCoverAdds(adds[..n], blocks, cells, k);
      var last := (b: nat) => AddTo(b, k)(adds[n]);
      SumToPlus(blocks, BlockSum(adds[..n], k), last, BlockSum(adds, k));
      SumToSpike(blocks, last, adds[n].block);
    }
  }

  lemma OnlyAddsAdd(ops: seq<Op>, adds: seq<Op>, blocks: nat, cells: nat, b: nat, k: nat)
    requires Schedule(ops, adds, blocks, cells)
    ensures SumOver(ops, AddTo(b, k)) == SumOver(adds, AddTo(b, k))
  {
    var f, fl := AddTo(b, k), Flushes(blocks, cells);
    SumBag(ops, adds + fl, f);
    SumAppend(adds, fl, f);
    forall op | op in fl ensures f(op) == 0.0 { FlushesShape(blocks, cells, op); }
    SumZero(fl, f);
  }

  /** For any block split and any order of atomic additions, each global cell ends with the sum of
      what the rows contribute to it. */
  lemma KernelIsExact(ops: seq<Op>, adds: seq<Op>, blocks: nat, cells: nat, k: nat)
    requires Schedule(ops, adds, blocks, cells) && AllAdds(adds, blocks, cells) && k < cells
    ensures AllFit(ops, blocks, cells)
    ensures Run(ops, blocks, cells).gacc[k] == SumOver(adds, CellOf(k))
  {
    var fl, w := Flushes(blocks, cells), Carried(ops, k);
    ScheduleFits(ops, adds, blocks, cells);
    GlobalIsSum(ops, blocks, cells, k, |ops|);
    assert ops[..|ops|] == ops;
    SumBag(ops, adds + fl, w);
    SumAppend(adds, fl, w);
    forall op | op in adds ensures w(op) == 0.0 { }
    SumZero(adds, w);
    FlushSum(ops, blocks, cells, k);
    forall b: nat | b < blocks ensures BlockSum(ops, k)(b) == BlockSum(adds, k)(b) { OnlyAddsAdd(ops, adds, blocks, cells, b, k); }
    SumToCong(blocks, BlockSum(ops, k), BlockSum(adds, k));
    BlocksCoverAdds(adds, blocks, cells, k);
  }
}
