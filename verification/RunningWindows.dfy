/**
 Running SUM, COUNT and AVG: per-partition prefix sums and two gathers per row against the direct
 fold over the row's window.
 */
module RunningWindows {
  import opened Values
  import opened Bags
  import opened Sums
  import opened WindowColumns
  import opened Windows
  import opened Ranking

  // ---------------------------------------------------------------- frames

  datatype Bound = UnboundedPreceding | Preceding(n: nat) | CurrentRow | Following(n: nat) | UnboundedFollowing

  datatype Spec = Range(start: Bound, end: Bound) | Rows(start: Bound, end: Bound)

  /** What the parser lets through. */
  predicate Legal(f: Spec) {
    && !f.start.UnboundedFollowing? && !f.end.UnboundedPreceding?
    && (f.Range? ==> (f.start.UnboundedPreceding? || f.start.CurrentRow?) && (f.end.CurrentRow? || f.end.UnboundedFollowing?))
  }

  function RowsOffset(b: Bound, at: int, size: int): int {
    match b
    case UnboundedPreceding => 0
    case UnboundedFollowing => size - 1
    case CurrentRow => at
    case Preceding(n) => at - n
    case Following(n) => at + n
  }

  function InPart(work: seq<WRow>, i: nat): int
    requires i < |work|
  {
    i - PStart(work)[i]
  }

  function Size(work: seq<WRow>, i: nat): int
    requires i < |work|
  {
    PEnd(work)[i] - PStart(work)[i] + 1
  }

  /** First row of the window, counted from the start of the partition. */
  function Lo(work: seq<WRow>, f: Spec, i: nat): int
    requires i < |work|
  {
    var raw := match f
      case Range(s, _) => if s.CurrentRow? then PeerStart(work)[i] - PStart(work)[i] else 0
      case Rows(s, _) => RowsOffset(s, InPart(work, i), Size(work, i));
    if raw >= 0 then raw else 0
  }

  /** Last row of the window; may lie below 0, which leaves the window empty. */
  function Hi(work: seq<WRow>, f: Spec, i: nat): int
    requires i < |work|
  {
    var pe := if PeerEnd(work)[i] <= PEnd(work)[i] then PeerEnd(work)[i] else PEnd(work)[i];
    var raw := match f
      case Range(_, e) => if e.CurrentRow? then pe - PStart(work)[i] else Size(work, i) - 1
      case Rows(_, e) => RowsOffset(e, InPart(work, i), Size(work, i));
    if raw <= Size(work, i) - 1 then raw else Size(work, i) - 1
  }

  /** The direct reading: is row k in the window of row i? */
  predicate InWindow(lo: Order, work: seq<WRow>, f: Spec, i: nat, k: nat)
    requires i < |work| && k < |work|
  {
    && work[k].part == work[i].part
    && match f
       case Range(s, e) => (s.CurrentRow? ==> !lo(work[k].ord, work[i].ord)) && (e.CurrentRow? ==> !lo(work[i].ord, work[k].ord))
       case Rows(s, e) => AtOrAfter(s, i, k) && AtOrBefore(e, i, k)
  }

  predicate AtOrAfter(b: Bound, i: nat, k: nat) {
    match b
    case UnboundedPreceding => true
    case Preceding(n) => k >= i - n
    case CurrentRow => k >= i
    case Following(n) => k >= i + n
    case UnboundedFollowing => false
  }

  predicate AtOrBefore(b: Bound, i: nat, k: nat) {
    match b
    case UnboundedFollowing => true
    case Preceding(n) => k <= i - n
    case CurrentRow => k <= i
    case Following(n) => k <= i + n
    case UnboundedPreceding => false
  }

  lemma LargerIsBelow(lp: Order, lo: Order, work: seq<WRow>, i: nat, k: nat)
    requires Frame(lp, lo, work) && i < |work| && k < |work|
    ensures work[k].part == work[i].part && lo(work[i].ord, work[k].ord) <==> PeerEnd(work)[i] < k <= PEnd(work)[i]
  {
    PartitionIsBlock(lp, lo, work, i, k);
    PeersAreBlock(lp, lo, work, i, k);
    SmallerIsAbove(lp, lo, work, i, k);
    if k < i { assert Before(lp, lo, work[k], work[i]); }
    if i < k { assert Before(lp, lo, work[i], work[k]); }
  }

  /** The window is the block from lo to hi of the row's partition. */
  lemma WindowIsBlock(lp: Order, lo: Order, work: seq<WRow>, f: Spec, i: nat, k: nat)
    requires Frame(lp, lo, work) && Legal(f) && i < |work| && k < |work|
    ensures InWindow(lo, work, f, i, k) <==> PStart(work)[i] + Lo(work, f, i) <= k <= PStart(work)[i] + Hi(work, f, i)
  {
    PartitionIsBlock(lp, lo, work, i, k);
    PeersAreBlock(lp, lo, work, i, k);
    if f.Range? {
      SmallerIsAbove(lp, lo, work, i, k);
      LargerIsBelow(lp, lo, work, i, k);
    }
  }

  lemma BoundsClamped(lp: Order, lo: Order, work: seq<WRow>, f: Spec, i: nat)
    requires Frame(lp, lo, work) && i < |work|
    ensures 0 <= PStart(work)[i] && 0 <= Lo(work, f, i) && Hi(work, f, i) <= PEnd(work)[i] - PStart(work)[i] && PEnd(work)[i] < |work|
  {
    PartitionIsBlock(lp, lo, work, i, i);
  }

  // ---------------------------------------------------------------- sums

  function SumRange(xs: seq<real>, a: int, b: int): real
    requires 0 <= a && b <= |xs|
    decreases b - a
  {
    if b <= a then 0.0 else SumRange(xs, a, b - 1) + xs[b - 1]
  }

  /** Sum over the first n rows that belong. */
  function SumWhere(xs: seq<real>, belongs: nat -> bool, n: nat): real
    requires n <= |xs|
  {
    if n == 0 then 0.0 else SumWhere(xs, belongs, n - 1) + if belongs(n - 1) then xs[n - 1] else 0.0
  }

  /** The rows that belong, among the first n, are those from a up to b. */
  ghost predicate IsBlock(belongs: nat -> bool, n: nat, a: int, b: int) {
    forall k: nat :: k < n ==> (belongs(k) <==> a <= k < b)
  }

  /** Only the block counts. */
  lemma {:induction false} SumOfBlock(xs: seq<real>, belongs: nat -> bool, n: nat, a: int, b: int)
    requires n <= |xs| && 0 <= a && b <= |xs| && IsBlock(belongs, n, a, b)
    ensures SumWhere(xs, belongs, n) == SumRange(xs, a, if b <= n then b else n)
  {
    if n > 0 { SumOfBlock(xs, belongs, n - 1, a, b); }
  }

  /** `groupby(pid).cumsum()`: rows up to i of row i's group. */
  function GroupSum(pid: seq<nat>, xs: seq<real>, g: nat, i: nat): real
    requires |pid| == |xs| && i < |xs|
  {
    (if pid[i] == g then xs[i] else 0.0) + if i == 0 then 0.0 else GroupSum(pid, xs, g, i - 1)
  }

  function PartIds(work: seq<WRow>): (pid: seq<nat>)
    ensures |pid| == |work| && forall i: nat :: i < |work| ==> pid[i] == CountMarks(Boundary(work), i)
  {
    seq(|work|, i requires 0 <= i < |work| => CountMarks(Boundary(work), i))
  }

  function Prefix(work: seq<WRow>, xs: seq<real>): (out: seq<real>)
    requires |xs| == |work|
    ensures |out| == |work|
    ensures forall i: nat :: i < |work| ==> out[i] == GroupSum(PartIds(work), xs, PartIds(work)[i], i)
  {
    seq(|work|, i requires 0 <= i < |work| => GroupSum(PartIds(work), xs, PartIds(work)[i], i))
  }

  lemma {:induction false} GroupSumIsRange(pid: seq<nat>, xs: seq<real>, g: nat, a: nat, i: nat)
    requires |pid| == |xs| && a <= i < |xs|
    requires forall k :: a <= k <= i ==> pid[k] == g
    requires forall k :: 0 <= k < a ==> pid[k] != g
    ensures GroupSum(pid, xs, g, i) == SumRange(xs, a, i + 1)
  {
    if a < i {
      GroupSumIsRange(pid, xs, g, a, i - 1);
    } else if i > 0 {
      GroupSumNone(pid, xs, g, i - 1);
    }
  }

  lemma {:induction false} GroupSumNone(pid: seq<nat>, xs: seq<real>, g: nat, i: nat)
    requires |pid| == |xs| && i < |xs| && forall k :: 0 <= k <= i ==> pid[k] != g
    ensures GroupSum(pid, xs, g, i) == 0.0
  {
    if i > 0 { GroupSumNone(pid, xs, g, i - 1); }
  }

  /** The prefix sum of a row is the sum from the start of its partition. */
  lemma PrefixIsRange(lp: Order, lo: Order, work: seq<WRow>, xs: seq<real>, i: nat)
    requires Frame(lp, lo, work) && |xs| == |work| && i < |work|
    ensures 0 <= PStart(work)[i] <= i && Prefix(work, xs)[i] == SumRange(xs, PStart(work)[i], i + 1)
  {
    var b, pid := Boundary(work), PartIds(work);
    StartIsMark(work, i);
    var a := LastMark(b, i);
    forall k: nat | k <= i ensures pid[k] == pid[i] <==> a <= k {
      SameCount(b, k, i);
      RunOf(b, i, k);
    }
    GroupSumIsRange(pid, xs, pid[i], a, i);
  }

  lemma {:induction false} RangeSplits(xs: seq<real>, a: int, m: int, b: int)
    requires 0 <= a <= m <= b <= |xs|
    ensures SumRange(xs, a, b) == SumRange(xs, a, m) + SumRange(xs, m, b)
    decreases b - m
  {
    if m < b { RangeSplits(xs, a, m, b - 1); }
  }

  // ---------------------------------------------------------------- gathering

  /** Positional read; `stray` is whatever the library does out of range, None meaning it raises. */
  function Read(prefix: seq<real>, at: int, stray: int -> Option<real>): Option<real> {
    if 0 <= at < |prefix| then Some(prefix[at]) else stray(at)
  }

  /** prefix[hi] - prefix[lo - 1], subtracting nothing at the start of the partition. */
  function GatherDiff(prefix: seq<real>, start: int, lo: int, hi: int, stray: int -> Option<real>): Option<real> {
    var h := Read(prefix, start + hi, stray);
    var s := Read(prefix, if lo > 0 then start + lo - 1 else 0, stray);
    if h.None? || s.None? then None else Some(h.value - if lo > 0 then s.value else 0.0)
  }

  /** A non-empty window gathers only inside its own partition and yields the sum over it. */
  lemma GatherIsSum(lp: Order, lo: Order, work: seq<WRow>, xs: seq<real>, i: nat, l: int, h: int, stray: int -> Option<real>)
    requires Frame(lp, lo, work) && |xs| == |work| && i < |work| && 0 <= l <= h <= PEnd(work)[i] - PStart(work)[i]
    ensures var start := PStart(work)[i];
            && 0 <= start && start + h < |work|
            && GatherDiff(Prefix(work, xs), start, l, h, stray) == Some(SumRange(xs, start + l, start + h + 1))
  {
    var start := PStart(work)[i];
    PrefixAt(lp, lo, work, xs, i, start + h);
    if l > 0 {
      PrefixAt(lp, lo, work, xs, i, start + l - 1);
      RangeSplits(xs, start, start + l, start + h + 1);
    }
  }

  lemma PrefixAt(lp: Order, lo: Order, work: seq<WRow>, xs: seq<real>, i: nat, k: int)
    requires Frame(lp, lo, work) && |xs| == |work| && i < |work| && PStart(work)[i] <= k <= PEnd(work)[i]
    ensures 0 <= PStart(work)[i] && 0 <= k < |work| && Prefix(work, xs)[k] == SumRange(xs, PStart(work)[i], k + 1)
  {
    PartitionIsBlock(lp, lo, work, i, i);
    PartitionIsBlock(lp, lo, work, i, k);
    SamePartSameStart(lp, lo, work, i, k);
    PrefixIsRange(lp, lo, work, xs, k);
  }

  // ---------------------------------------------------------------- the aggregates

  function NotNull(args: seq<Option<real>>): (out: seq<real>)
    ensures |out| == |args| && forall i :: 0 <= i < |args| ==> out[i] == if args[i].Some? then 1.0 else 0.0
  {
    seq(|args|, i requires 0 <= i < |args| => if args[i].Some? then 1.0 else 0.0)
  }

  function FillZero(args: seq<Option<real>>): (out: seq<real>)
    ensures |out| == |args| && forall i :: 0 <= i < |args| ==> out[i] == if args[i].Some? then args[i].value else 0.0
  {
    seq(|args|, i requires 0 <= i < |args| => if args[i].Some? then args[i].value else 0.0)
  }

  /** The query fails, or the cell holds a value or NULL. */
  datatype Cell = Raised | Holds(value: Option<real>)

  datatype Func = CountStar | Count | Sum | Avg

  /** The non-null count by gathers, masked to 0 where the window is empty. */
  function CountAt(work: seq<WRow>, args: seq<Option<real>>, f: Spec, i: nat, stray: int -> Option<real>): Option<real>
    requires |args| == |work| && i < |work|
  {
    var c := GatherDiff(Prefix(work, NotNull(args)), PStart(work)[i], Lo(work, f, i), Hi(work, f, i), stray);
    if c.Some? && Lo(work, f, i) > Hi(work, f, i) then Some(0.0) else c
  }

  function Running(fn: Func, work: seq<WRow>, args: seq<Option<real>>, f: Spec, i: nat, stray: int -> Option<real>): Cell
    requires |args| == |work| && i < |work|
  {
    var l, h := Lo(work, f, i), Hi(work, f, i);
    if fn.CountStar? then Holds(Some(if l <= h then (h - l + 1) as real else 0.0))
    else
      var c := CountAt(work, args, f, i, stray);
      if c.None? then Raised
      else if fn.Count? then Holds(c)
      else
        var s := GatherDiff(Prefix(work, FillZero(args)), PStart(work)[i], l, h, stray);
        if s.None? then Raised
        else if c.value <= 0.0 then Holds(None)
        else Holds(Some(if fn.Sum? then s.value else s.value / c.value))
  }

  function Here(lo: Order, work: seq<WRow>, f: Spec, i: nat): nat -> bool
    requires i < |work|
  {
    (k: nat) => k < |work| && InWindow(lo, work, f, i, k)
  }

  function Present(lo: Order, work: seq<WRow>, args: seq<Option<real>>, f: Spec, i: nat): nat -> bool
    requires |args| == |work| && i < |work|
  {
    (k: nat) => k < |work| && InWindow(lo, work, f, i, k) && args[k].Some?
  }

  /** The direct reading: fold over the rows of the window, skipping NULLs. */
  ghost function Direct(fn: Func, lo: Order, work: seq<WRow>, args: seq<Option<real>>, f: Spec, i: nat): Option<real>
    requires |args| == |work| && i < |work|
  {
    var here, present := Here(lo, work, f, i), Present(lo, work, args, f, i);
    match fn
    case CountStar => Some(Members(here, |work|) as real)
    case Count => Some(Members(present, |work|) as real)
    case Sum => if Members(present, |work|) == 0 then None else Some(Total(args, here, |work|))
    case Avg => if Members(present, |work|) == 0 then None else Some(Total(args, here, |work|) / Members(present, |work|) as real)
  }

  function Members(belongs: nat -> bool, n: nat): nat {
    if n == 0 then 0 else Members(belongs, n - 1) + if belongs(n - 1) then 1 else 0
  }

  function Total(args: seq<Option<real>>, belongs: nat -> bool, n: nat): real
    requires n <= |args|
  {
    if n == 0 then 0.0
    else Total(args, belongs, n - 1) + if belongs(n - 1) && args[n - 1].Some? then args[n - 1].value else 0.0
  }

  lemma {:induction false} TotalIsSum(args: seq<Option<real>>, belongs: nat -> bool, n: nat)
    requires n <= |args|
    ensures Total(args, belongs, n) == SumWhere(FillZero(args), belongs, n)
  {
    if n > 0 { TotalIsSum(args, belongs, n - 1); }
  }

  lemma {:induction false} MembersAreSum(args: seq<Option<real>>, here: nat -> bool, present: nat -> bool, n: nat)
    requires n <= |args| && forall k: nat :: k < n ==> (present(k) <==> here(k) && args[k].Some?)
    ensures Members(present, n) as real == SumWhere(NotNull(args), here, n)
  {
    if n > 0 { MembersAreSum(args, here, present, n - 1); }
  }

  lemma {:induction false} MembersOfBlock(belongs: nat -> bool, n: nat, a: int, b: int)
    requires 0 <= a && IsBlock(belongs, n, a, b)
    ensures var e := if b <= n then b else n; Members(belongs, n) == if a < e then e - a else 0
  {
    if n > 0 { MembersOfBlock(belongs, n - 1, a, b); }
  }

  lemma {:induction false} FewerMembers(here: nat -> bool, present: nat -> bool, n: nat)
    requires forall k: nat :: present(k) ==> here(k)
    ensures Members(present, n) <= Members(here, n)
  {
    if n > 0 { FewerMembers(here, present, n - 1); }
  }

  // ---------------------------------------------------------------- the theorem

  lemma HereIsBlock(lp: Order, lo: Order, work: seq<WRow>, f: Spec, i: nat)
    requires Frame(lp, lo, work) && Legal(f) && i < |work|
    ensures var start := PStart(work)[i];
            IsBlock(Here(lo, work, f, i), |work|, start + Lo(work, f, i), start + Hi(work, f, i) + 1)
  {
    forall k: nat | k < |work|
      ensures Here(lo, work, f, i)(k) <==> PStart(work)[i] + Lo(work, f, i) <= k < PStart(work)[i] + Hi(work, f, i) + 1
    {
      WindowIsBlock(lp, lo, work, f, i, k);
    }
  }

  /** Gathering a column over a non-empty window is summing it over the direct window. */
  lemma GatherIsDirect(lp: Order, lo: Order, work: seq<WRow>, xs: seq<real>, f: Spec, i: nat, stray: int -> Option<real>)
    requires Frame(lp, lo, work) && Legal(f) && |xs| == |work| && i < |work| && Lo(work, f, i) <= Hi(work, f, i)
    ensures GatherDiff(Prefix(work, xs), PStart(work)[i], Lo(work, f, i), Hi(work, f, i), stray) ==
            Some(SumWhere(xs, Here(lo, work, f, i), |work|))
  {
    BoundsClamped(lp, lo, work, f, i);
    HereIsBlock(lp, lo, work, f, i);
    GatherOverBlock(lp, lo, work, xs, i, Lo(work, f, i), Hi(work, f, i), stray, Here(lo, work, f, i), |work|);
  }

  lemma GatherOverBlock(lp: Order, lo: Order, work: seq<WRow>, xs: seq<real>, i: nat, l: int, h: int,
                        stray: int -> Option<real>, here: nat -> bool, n: nat)
    requires Frame(lp, lo, work) && |xs| == |work| == n && i < n && 0 <= l <= h <= PEnd(work)[i] - PStart(work)[i]
    requires IsBlock(here, n, PStart(work)[i] + l, PStart(work)[i] + h + 1)
    ensures GatherDiff(Prefix(work, xs), PStart(work)[i], l, h, stray) == Some(SumWhere(xs, here, n))
  {
    GatherIsSum(lp, lo, work, xs, i, l, h, stray);
    WholeBlock(Prefix(work, xs), xs, PStart(work)[i], l, h, stray, here, n);
  }

  lemma WholeBlock(prefix: seq<real>, xs: seq<real>, start: int, l: int, h: int, stray: int -> Option<real>, here: nat -> bool, n: nat)
    requires |xs| == n && 0 <= start && 0 <= l && start + h < n && IsBlock(here, n, start + l, start + h + 1)
    requires GatherDiff(prefix, start, l, h, stray) == Some(SumRange(xs, start + l, start + h + 1))
    ensures GatherDiff(prefix, start, l, h, stray) == Some(SumWhere(xs, here, n))
  {
    SumOfBlock(xs, here, n, start + l, start + h + 1);
  }

  lemma EmptyWindow(lp: Order, lo: Order, work: seq<WRow>, args: seq<Option<real>>, f: Spec, i: nat)
    requires Frame(lp, lo, work) && Legal(f) && |args| == |work| && i < |work| && Lo(work, f, i) > Hi(work, f, i)
    ensures Members(Here(lo, work, f, i), |work|) == 0 && Members(Present(lo, work, args, f, i), |work|) == 0
  {
    var start := PStart(work)[i];
    HereIsBlock(lp, lo, work, f, i);
    BoundsClamped(lp, lo, work, f, i);
    MembersOfBlock(Here(lo, work, f, i), |work|, start + Lo(work, f, i), start + Hi(work, f, i) + 1);
    FewerMembers(Here(lo, work, f, i), Present(lo, work, args, f, i), |work|);
  }

  lemma CountStarIsFold(lp: Order, lo: Order, work: seq<WRow>, args: seq<Option<real>>, f: Spec, i: nat, stray: int -> Option<real>)
    requires Frame(lp, lo, work) && Legal(f) && |args| == |work| && i < |work|
    ensures Running(CountStar, work, args, f, i, stray) == Holds(Direct(CountStar, lo, work, args, f, i))
  {
    var l, h, start := Lo(work, f, i), Hi(work, f, i), PStart(work)[i];
    if l > h {
      EmptyWindow(lp, lo, work, args, f, i);
    } else {
      BoundsClamped(lp, lo, work, f, i);
      HereIsBlock(lp, lo, work, f, i);
      MembersOfBlock(Here(lo, work, f, i), |work|, start + l, start + h + 1);
    }
  }

  lemma CountIsMembers(lp: Order, lo: Order, work: seq<WRow>, args: seq<Option<real>>, f: Spec, i: nat, stray: int -> Option<real>)
    requires Frame(lp, lo, work) && Legal(f) && |args| == |work| && i < |work|
    ensures Lo(work, f, i) <= Hi(work, f, i) ==> CountAt(work, args, f, i, stray).Some?
    ensures CountAt(work, args, f, i, stray).Some? ==>
              CountAt(work, args, f, i, stray).value == Members(Present(lo, work, args, f, i), |work|) as real
  {
    if Lo(work, f, i) > Hi(work, f, i) {
      EmptyWindow(lp, lo, work, args, f, i);
    } else {
      GatherIsDirect(lp, lo, work, NotNull(args), f, i, stray);
      CountsPresent(lo, work, args, f, i);
    }
  }

  lemma CountsPresent(lo: Order, work: seq<WRow>, args: seq<Option<real>>, f: Spec, i: nat)
    requires |args| == |work| && i < |work|
    ensures SumWhere(NotNull(args), Here(lo, work, f, i), |work|) == Members(Present(lo, work, args, f, i), |work|) as real
  {
    MembersAreSum(args, Here(lo, work, f, i), Present(lo, work, args, f, i), |work|);
  }

  lemma SumIsTotal(lp: Order, lo: Order, work: seq<WRow>, args: seq<Option<real>>, f: Spec, i: nat, stray: int -> Option<real>)
    requires Frame(lp, lo, work) && Legal(f) && |args| == |work| && i < |work| && Lo(work, f, i) <= Hi(work, f, i)
    ensures GatherDiff(Prefix(work, FillZero(args)), PStart(work)[i], Lo(work, f, i), Hi(work, f, i), stray) ==
            Some(Total(args, Here(lo, work, f, i), |work|))
  {
    GatherIsDirect(lp, lo, work, FillZero(args), f, i, stray);
    TotalIsSum(args, Here(lo, work, f, i), |work|);
  }

  /** Whatever a stray gather returns, a query that comes back holds the direct fold in every row. */
  lemma RunningIsFold(fn: Func, lp: Order, lo: Order, work: seq<WRow>, args: seq<Option<real>>, f: Spec, i: nat,
                      stray: int -> Option<real>)
    requires Frame(lp, lo, work) && Legal(f) && |args| == |work| && i < |work|
    ensures Running(fn, work, args, f, i, stray) == Raised || Running(fn, work, args, f, i, stray) == Holds(Direct(fn, lo, work, args, f, i))
    ensures InWindow(lo, work, f, i, i) ==> Running(fn, work, args, f, i, stray) != Raised
  {
    CountStarIsFold(lp, lo, work, args, f, i, stray);
    CountIsMembers(lp, lo, work, args, f, i, stray);
    WindowIsBlock(lp, lo, work, f, i, i);
    if Lo(work, f, i) <= Hi(work, f, i) {
      SumIsTotal(lp, lo, work, args, f, i, stray);
    } else {
      EmptyWindow(lp, lo, work, args, f, i);
    }
  }

  /** The frame reaches from at or before the current row to at or after it. */
  predicate HoldsCurrentRow(f: Spec) {
    && (f.start.UnboundedPreceding? || f.start.Preceding? || f.start.CurrentRow? || f.start == Following(0))
    && (f.end.UnboundedFollowing? || f.end.Following? || f.end.CurrentRow? || f.end == Preceding(0))
  }

  lemma CurrentRowInWindow(lp: Order, lo: Order, work: seq<WRow>, f: Spec, i: nat)
    requires Frame(lp, lo, work) && i < |work|
    ensures HoldsCurrentRow(f) ==> InWindow(lo, work, f, i, i)
    ensures f.Rows? && InWindow(lo, work, f, i, i) ==> HoldsCurrentRow(f)
  {
  }

  // ---------------------------------------------------------------- folds over the rows as they were given

  lemma {:induction false} DistinctCounts(s: seq<nat>)
    requires forall j, k :: 0 <= j < k < |s| ==> s[j] != s[k]
    ensures forall x :: multiset(s)[x] == if x in s then 1 else 0
  {
    if s != [] {
      var n := |s| - 1;
      DistinctCounts(s[..n]);
      assert s == s[..n] + [s[n]];
      assert s[n] !in s[..n];
    }
  }

  lemma PermutationBag(pos: seq<nat>)
    requires Permutation(pos)
    ensures multiset(pos) == multiset(Upto(|pos|))
  {
    DistinctCounts(pos);
    DistinctCounts(Upto(|pos|));
    forall x: nat ensures x in pos <==> x in Upto(|pos|) {
      if x in Upto(|pos|) { assert x < |pos|; }
      if x < |pos| { assert Upto(|pos|)[x] == x; }
    }
  }

  function GatherArgs(args: seq<Option<real>>, pos: seq<nat>): (out: seq<Option<real>>)
    requires |pos| == |args| && forall j :: 0 <= j < |pos| ==> pos[j] < |args|
    ensures |out| == |args| && forall j :: 0 <= j < |args| ==> out[j] == args[pos[j]]
  {
    seq(|pos|, j requires 0 <= j < |pos| => args[pos[j]])
  }

  function CountOf(belongs: nat -> bool): nat -> real {
    (q: nat) => if belongs(q) then 1.0 else 0.0
  }

  function ValueOf(args: seq<Option<real>>, belongs: nat -> bool): nat -> real {
    (q: nat) => if q < |args| && belongs(q) && args[q].Some? then args[q].value else 0.0
  }

  /** Counting or adding along a list of positions. */
  lemma {:induction false} MembersAlong(along: seq<nat>, here: nat -> bool, belongs: nat -> bool, n: nat)
    requires n <= |along| && forall k: nat :: k < n ==> (here(k) <==> belongs(along[k]))
    ensures Members(here, n) as real == SumOver(along[..n], CountOf(belongs))
  {
    if n > 0 {
      MembersAlong(along, here, belongs, n - 1);
      assert along[..n][..n - 1] == along[..n - 1];
    }
  }

  lemma {:induction false} TotalAlong(along: seq<nat>, given: seq<Option<real>>, args: seq<Option<real>>, here: nat -> bool, belongs: nat -> bool, n: nat)
    requires n <= |along| && n <= |given| && forall k :: 0 <= k < n ==> along[k] < |args| && given[k] == args[along[k]]
    requires forall k: nat :: k < n ==> (here(k) <==> belongs(along[k]))
    ensures Total(given, here, n) == SumOver(along[..n], ValueOf(args, belongs))
  {
    if n > 0 {
      TotalAlong(along, given, args, here, belongs, n - 1);
      assert along[..n][..n - 1] == along[..n - 1];
    }
  }

  lemma SameMembersAnyOrder(pos: seq<nat>, here: nat -> bool, belongs: nat -> bool)
    requires Permutation(pos) && forall k: nat :: k < |pos| ==> (here(k) <==> belongs(pos[k]))
    ensures Members(here, |pos|) == Members(belongs, |pos|)
  {
    var ids := Upto(|pos|);
    PermutationBag(pos);
    MembersAlong(pos, here, belongs, |pos|);
    MembersAlong(ids, belongs, belongs, |pos|);
    assert pos[..|pos|] == pos && ids[..|pos|] == ids;
    SumBag(pos, ids, CountOf(belongs));
  }

  lemma SameTotalAnyOrder(pos: seq<nat>, args: seq<Option<real>>, here: nat -> bool, belongs: nat -> bool)
    requires Permutation(pos) && |args| == |pos| && forall k: nat :: k < |pos| ==> (here(k) <==> belongs(pos[k]))
    ensures Total(GatherArgs(args, pos), here, |pos|) == Total(args, belongs, |pos|)
  {
    var ids := Upto(|pos|);
    PermutationBag(pos);
    TotalAlong(pos, GatherArgs(args, pos), args, here, belongs, |pos|);
    TotalAlong(ids, args, args, belongs, belongs, |pos|);
    assert pos[..|pos|] == pos && ids[..|pos|] == ids;
    SumBag(pos, ids, ValueOf(args, belongs));
  }

  /** A RANGE window does not depend on where its rows stand: the fold over the sorted frame is the
      fold over the frame as it was given. */
  lemma RangeFoldAnyOrder(fn: Func, lo: Order, df: seq<WRow>, pos: seq<nat>, args: seq<Option<real>>, f: Spec, j: nat)
    requires |pos| == |df| == |args| && Permutation(pos) && f.Range? && j < |df|
    ensures Direct(fn, lo, Gather(df, pos), GatherArgs(args, pos), f, j) == Direct(fn, lo, df, args, f, pos[j])
  {
    var work, given := Gather(df, pos), GatherArgs(args, pos);
    var here, there := Here(lo, work, f, j), Here(lo, df, f, pos[j]);
    var present, thereToo := Present(lo, work, given, f, j), Present(lo, df, args, f, pos[j]);
    forall k: nat | k < |pos| ensures (here(k) <==> there(pos[k])) && (present(k) <==> thereToo(pos[k])) {
    }
    SameMembersAnyOrder(pos, here, there);
    SameMembersAnyOrder(pos, present, thereToo);
    SameTotalAnyOrder(pos, args, here, there);
  }

  /** End to end: after sorting, gathering and putting back, every row finds in its original place the
      fold over its own window: for RANGE over the rows as they were given, for ROWS over them in
      sorted order. */
  lemma RunningReturnsToRows(fn: Func, lp: Order, lo: Order, df: seq<WRow>, pos: seq<nat>, args: seq<Option<real>>, f: Spec,
                             stray: int -> Option<real>, out: seq<Cell>)
    requires SortedBy(lp, lo, df, pos) && |args| == |df| && Legal(f) && HoldsCurrentRow(f)
    requires |out| == |df|
    requires forall j: nat :: j < |df| ==> out[j] == Running(fn, Gather(df, pos), GatherArgs(args, pos), f, j, stray)
    ensures forall p: nat :: p < |df| ==>
              Restore(out, pos)[p] ==
              Holds(if f.Range? then Direct(fn, lo, df, args, f, p)
                    else Direct(fn, lo, Gather(df, pos), GatherArgs(args, pos), f, IndexOf(pos, p)))
  {
    var work, given := Gather(df, pos), GatherArgs(args, pos);
    forall p: nat | p < |df|
      ensures Restore(out, pos)[p] == Holds(Direct(fn, lo, work, given, f, IndexOf(pos, p)))
      ensures f.Range? ==> Direct(fn, lo, work, given, f, IndexOf(pos, p)) == Direct(fn, lo, df, args, f, p)
    {
      var j := IndexOf(pos, p);
      assert pos[j] == p;
      RunningIsFold(fn, lp, lo, work, given, f, j, stray);
      CurrentRowInWindow(lp, lo, work, f, j);
      if f.Range? { RangeFoldAnyOrder(fn, lo, df, pos, args, f, j); }
    }
  }
}
