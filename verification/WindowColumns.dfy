/** The whole-column operations window functions are made of. */
module WindowColumns {

  /** `xs.where(marks).ffill()` for a column whose first row is marked. */
  function Held<T>(xs: seq<T>, marks: seq<bool>): (out: seq<T>)
    requires |marks| == |xs| && (xs != [] ==> marks[0])
    ensures |out| == |xs|
  {
    if xs == [] then []
    else
      var n := |xs| - 1;
      var before := Held(xs[..n], marks[..n]);
      before + [if marks[n] then xs[n] else before[n - 1]]
  }

  /** `marks.shift(-1).fillna(True)`: the rows just before a mark, and the last row. */
  function Ends(marks: seq<bool>): (out: seq<bool>)
    ensures |out| == |marks|
    ensures forall i :: 0 <= i < |marks| ==> out[i] == (i + 1 == |marks| || marks[i + 1])
  {
    seq(|marks|, i requires 0 <= i < |marks| => i + 1 == |marks| || marks[i + 1])
  }

  /** `xs.where(ends).bfill()` for a column whose last row is an end. */
  function HeldBack<T>(xs: seq<T>, ends: seq<bool>): (out: seq<T>)
    requires |ends| == |xs| && (xs != [] ==> ends[|ends| - 1])
    ensures |out| == |xs|
  {
    if xs == [] then []
    else
      var after := HeldBack(xs[1..], ends[1..]);
      [if ends[0] then xs[0] else after[0]] + after
  }

  /** The nearest mark at or above row i. */
  function LastMark(marks: seq<bool>, i: nat): (k: nat)
    requires i < |marks| && marks[0]
    ensures k <= i && marks[k] && forall j :: k < j <= i ==> !marks[j]
  {
    if marks[i] then i else LastMark(marks, i - 1)
  }

  /** The last row before the next mark below row i. */
  function RunEnd(marks: seq<bool>, i: nat): (k: nat)
    requires i < |marks|
    ensures i <= k < |marks| && (k + 1 == |marks| || marks[k + 1]) && forall j :: i < j <= k ==> !marks[j]
    decreases |marks| - i
  {
    if i + 1 == |marks| || marks[i + 1] then i else RunEnd(marks, i + 1)
  }

  /** The run of row i: the rows no mark separates from it. */
  lemma RunOf(marks: seq<bool>, i: nat, k: nat)
    requires i < |marks| && k < |marks| && marks[0]
    ensures LastMark(marks, i) <= k <= RunEnd(marks, i) <==>
            if k <= i then forall j :: k < j <= i ==> !marks[j] else forall j :: i < j <= k ==> !marks[j]
  {
  }

  lemma {:induction false} HeldAt<T>(xs: seq<T>, marks: seq<bool>, i: nat)
    requires |marks| == |xs| && i < |xs| && marks[0]
    ensures Held(xs, marks)[i] == xs[LastMark(marks, i)]
  {
    var n := |xs| - 1;
    if i < n {
      HeldAt(xs[..n], marks[..n], i);
      LastMarkIsLocal(marks[..n], marks, i);
    } else if !marks[n] {
      HeldAt(xs[..n], marks[..n], n - 1);
      LastMarkIsLocal(marks[..n], marks, n - 1);
    }
  }

  lemma {:induction false} LastMarkIsLocal(a: seq<bool>, b: seq<bool>, i: nat)
    requires i < |a| <= |b| && a[0] && forall j :: 0 <= j < |a| ==> a[j] == b[j]
    ensures LastMark(a, i) == LastMark(b, i)
  {
    if !a[i] { LastMarkIsLocal(a, b, i - 1); }
  }

  lemma {:induction false} HeldBackAt<T>(xs: seq<T>, marks: seq<bool>, ends: seq<bool>, i: nat, from: nat)
    requires from <= i < |marks| && |xs| == |ends| == |marks| - from && ends[|ends| - 1]
    requires forall j :: 0 <= j < |ends| ==> ends[j] == Ends(marks)[from + j]
    ensures HeldBack(xs, ends)[i - from] == xs[RunEnd(marks, i) - from]
    decreases |xs|
  {
    if i > from {
      HeldBackAt(xs[1..], marks, ends[1..], i, from + 1);
    } else if !ends[0] {
      HeldBackAt(xs[1..], marks, ends[1..], i + 1, from + 1);
    }
  }

  /** `marks.cumsum()`. */
  function CountMarks(marks: seq<bool>, i: nat): (c: nat)
    requires i < |marks|
  {
    (if marks[i] then 1 else 0) + (if i == 0 then 0 else CountMarks(marks, i - 1))
  }

  /** Rows between two marks carry the same count. */
  lemma {:induction false} CountFlat(marks: seq<bool>, i: nat, k: nat)
    requires i <= k < |marks| && forall j :: i < j <= k ==> !marks[j]
    ensures CountMarks(marks, i) == CountMarks(marks, k)
  {
    if i < k { CountFlat(marks, i, k - 1); }
  }

  lemma {:induction false} CountGrows(marks: seq<bool>, i: nat, k: nat)
    requires i <= k < |marks|
    ensures CountMarks(marks, i) <= CountMarks(marks, k)
    ensures i < k && marks[k] ==> CountMarks(marks, i) < CountMarks(marks, k)
  {
    if i < k { CountGrows(marks, i, k - 1); }
  }

  /** Two rows carry the same count exactly when no mark lies between them. */
  lemma SameCount(marks: seq<bool>, i: nat, k: nat)
    requires i <= k < |marks|
    ensures CountMarks(marks, i) == CountMarks(marks, k) <==> forall j :: i < j <= k ==> !marks[j]
  {
    if j :| i < j <= k && marks[j] {
      CountGrows(marks, i, j);
      CountGrows(marks, j, k);
    } else {
      CountFlat(marks, i, k);
    }
  }
}
