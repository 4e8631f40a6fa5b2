/** Row-major group codes: one index per combination of key codes, and back. */
module MixedRadix {

  function Prod(sizes: seq<nat>): nat {
    if sizes == [] then 1 else sizes[0] * Prod(sizes[1..])
  }

  predicate CodesFit(codes: seq<nat>, sizes: seq<nat>) {
    |codes| == |sizes| && forall j :: 0 <= j < |sizes| ==> codes[j] < sizes[j]
  }

  predicate Positive(sizes: seq<nat>) {
    forall j :: 0 <= j < |sizes| ==> sizes[j] > 0
  }

  /** The last key varies fastest. */
  function Encode(codes: seq<nat>, sizes: seq<nat>): nat
    requires |codes| == |sizes|
  {
    if sizes == [] then 0 else codes[0] * Prod(sizes[1..]) + Encode(codes[1..], sizes[1..])
  }

  function Decode(g: nat, sizes: seq<nat>): (codes: seq<nat>)
    requires Positive(sizes)
    ensures |codes| == |sizes|
  {
    if sizes == [] then []
    else
      ProdPositive(sizes[1..]);
      [g / Prod(sizes[1..])] + Decode(g % Prod(sizes[1..]), sizes[1..])
  }

  lemma {:induction false} ProdPositive(sizes: seq<nat>)
    requires Positive(sizes)
    ensures Prod(sizes) > 0
  {
    if sizes != [] {
      ProdPositive(sizes[1..]);
      MulPositive(sizes[0], Prod(sizes[1..]));
    }
  }

  lemma MulPositive(a: nat, b: nat)
    requires a > 0 && b > 0
    ensures a * b > 0
  {
  }

  lemma DigitBound(a: nat, n: nat, r: nat, m: nat)
    requires a < n && r < m
    ensures a * m + r < n * m
  {
    MulStep(a, n, m);
  }

  lemma MulMono(a: nat, b: nat, m: nat)
    requires a <= b
    ensures a * m <= b * m
  {
  }

  lemma MulStep(a: nat, b: nat, m: nat)
    requires a < b
    ensures a * m + m <= b * m
  {
    MulMono(a + 1, b, m);
    assert (a + 1) * m == a * m + m;
  }

  lemma DigitSplit(a: nat, r: nat, m: nat)
    requires r < m
    ensures (a * m + r) / m == a && (a * m + r) % m == r
  {
    var x := a * m + r;
    var q, s := x / m, x % m;
    assert x == q * m + s;
    if q < a {
      MulStep(q, a, m);
    } else if a < q {
      MulStep(a, q, m);
    }
  }

  lemma DigitJoin(g: nat, n: nat, m: nat) returns (c: nat, r: nat)
    requires m > 0 && g < n * m
    ensures c < n && r < m && g == c * m + r
  {
    c, r := g / m, g % m;
    assert g == c * m + r;
    if n <= c { MulMono(n, c, m); }
  }

  /** Every index is below the number of groups. */
  lemma {:induction false} EncodeInRange(codes: seq<nat>, sizes: seq<nat>)
    requires CodesFit(codes, sizes)
    ensures Encode(codes, sizes) < Prod(sizes)
  {
    if sizes != [] {
      EncodeInRange(codes[1..], sizes[1..]);
      DigitBound(codes[0], sizes[0], Encode(codes[1..], sizes[1..]), Prod(sizes[1..]));
    }
  }

  /** Codes come back from their index. */
  lemma {:induction false} DecodeEncode(codes: seq<nat>, sizes: seq<nat>)
    requires CodesFit(codes, sizes) && Positive(sizes)
    ensures Decode(Encode(codes, sizes), sizes) == codes
  {
    if sizes != [] {
      DecodeEncode(codes[1..], sizes[1..]);
      EncodeInRange(codes[1..], sizes[1..]);
      DigitSplit(codes[0], Encode(codes[1..], sizes[1..]), Prod(sizes[1..]));
      assert codes == [codes[0]] + codes[1..];
    }
  }

  lemma FitCons(c: nat, rest: seq<nat>, sizes: seq<nat>)
    requires sizes != [] && c < sizes[0] && CodesFit(rest, sizes[1..])
    ensures CodesFit([c] + rest, sizes)
  {
    var d := [c] + rest;
    forall j | 0 <= j < |sizes| ensures d[j] < sizes[j] {
      if j > 0 { assert d[j] == rest[j - 1] && sizes[j] == sizes[1..][j - 1]; }
    }
  }

  lemma EncodeCons(c: nat, rest: seq<nat>, sizes: seq<nat>)
    requires sizes != [] && |rest| == |sizes| - 1
    ensures Encode([c] + rest, sizes) == c * Prod(sizes[1..]) + Encode(rest, sizes[1..])
  {
    assert ([c] + rest)[1..] == rest;
  }

  lemma {:induction false} Covered(g: nat, sizes: seq<nat>) returns (codes: seq<nat>)
    requires Positive(sizes) && g < Prod(sizes)
    ensures CodesFit(codes, sizes) && Encode(codes, sizes) == g
  {
    codes := [];
    if sizes != [] {
      var m := Prod(sizes[1..]);
      ProdPositive(sizes[1..]);
      var c, r := DigitJoin(g, sizes[0], m);
      var rest := Covered(r, sizes[1..]);
      FitCons(c, rest, sizes);
      EncodeCons(c, rest, sizes);
      codes := [c] + rest;
    }
  }

  /** Every index is the code of one combination. */
  lemma EncodeDecode(g: nat, sizes: seq<nat>)
    requires Positive(sizes) && g < Prod(sizes)
    ensures CodesFit(Decode(g, sizes), sizes) && Encode(Decode(g, sizes), sizes) == g
  {
    var codes := Covered(g, sizes);
    DecodeEncode(codes, sizes);
  }

  /** Two combinations with one index are the same combination. */
  lemma NoCollision(a: seq<nat>, b: seq<nat>, sizes: seq<nat>)
    requires CodesFit(a, sizes) && CodesFit(b, sizes) && Positive(sizes) && Encode(a, sizes) == Encode(b, sizes)
    ensures a == b
  {
    DecodeEncode(a, sizes);
    DecodeEncode(b, sizes);
  }

  // ---------------------------------------------------------------- the loops

  predicate AreStrides(strides: seq<nat>, sizes: seq<nat>) {
    |strides| == |sizes| && forall j :: 0 <= j < |sizes| ==> strides[j] == Prod(sizes[j + 1..])
  }

  lemma {:induction false} ProdAppend(a: seq<nat>, b: seq<nat>)
    ensures Prod(a + b) == Prod(a) * Prod(b)
  {
    if a == [] {
      assert a + b == b;
    } else {
      ProdAppend(a[1..], b);
      assert (a + b)[1..] == a[1..] + b;
      MulAssoc(a[0], Prod(a[1..]), Prod(b));
    }
  }

  lemma MulAssoc(a: nat, b: nat, c: nat)
    ensures a * (b * c) == (a * b) * c
  {
  }

  /** The index expression of the kernel: the codes times their strides, summed. */
  function Dot(codes: seq<nat>, strides: seq<nat>): nat
    requires |codes| == |strides|
  {
    if codes == [] then 0 else codes[0] * strides[0] + Dot(codes[1..], strides[1..])
  }

  lemma {:induction false} DotIsEncode(codes: seq<nat>, strides: seq<nat>, sizes: seq<nat>)
    requires |codes| == |sizes| && AreStrides(strides, sizes)
    ensures Dot(codes, strides) == Encode(codes, sizes)
  {
    if sizes != [] {
      assert AreStrides(strides[1..], sizes[1..]) by {
        forall j | 0 <= j < |sizes| - 1 ensures strides[1..][j] == Prod(sizes[1..][j + 1..]) {
          assert sizes[1..][j + 1..] == sizes[j + 2..];
        }
      }
      DotIsEncode(codes[1..], strides[1..], sizes[1..]);
    }
  }

  /** `np.prod`: multiply from the left. */
  method NpProd(xs: seq<nat>) returns (acc: nat)
    ensures acc == Prod(xs)
  {
    acc := 1;
    for i := 0 to |xs|
      invariant acc == Prod(xs[..i])
    {
      ProdAppend(xs[..i], [xs[i]]);
      assert xs[..i + 1] == xs[..i] + [xs[i]];
      ProdOne(xs[i]);
      acc := acc * xs[i];
    }
    assert xs[..|xs|] == xs;
  }

  lemma ProdOne(x: nat)
    ensures Prod([x]) == x
  {
    assert [x][1..] == [];
  }

  /** Strides under which every combination of codes has an index of its own below the group count. */
  method ComputeStrides(sizes: seq<nat>) returns (strides: seq<nat>, groups: nat)
    requires Positive(sizes)
    ensures AreStrides(strides, sizes) && groups == Prod(sizes)
    ensures forall a :: CodesFit(a, sizes) ==> Dot(a, strides) < groups
    ensures forall a, b :: CodesFit(a, sizes) && CodesFit(b, sizes) && Dot(a, strides) == Dot(b, strides) ==> a == b
  {
    strides := [];
    for j := 0 to |sizes|
      invariant |strides| == j && forall k :: 0 <= k < j ==> strides[k] == Prod(sizes[k + 1..])
    {
      var stride := NpProd(sizes[j + 1..]);
      strides := strides + [stride];
    }
    groups := NpProd(sizes);
    forall a | CodesFit(a, sizes) ensures Dot(a, strides) == Encode(a, sizes) < groups {
      DotIsEncode(a, strides, sizes);
      EncodeInRange(a, sizes);
    }
    forall a, b | CodesFit(a, sizes) && CodesFit(b, sizes) && Dot(a, strides) == Dot(b, strides) ensures a == b {
      NoCollision(a, b, sizes);
    }
  }

  /** Reading the codes back with quotients and remainders. */
  method DecodeLoop(g: nat, strides: seq<nat>, sizes: seq<nat>) returns (codes: seq<nat>)
    requires Positive(sizes) && AreStrides(strides, sizes)
    ensures codes == Decode(g, sizes)
  {
    codes := [];
    var rem := g;
    for j := 0 to |sizes|
      invariant |codes| == j && codes + Decode(rem, sizes[j..]) == Decode(g, sizes)
    {
      ghost var tail := sizes[j..];
      assert tail[1..] == sizes[j + 1..] && strides[j] == Prod(sizes[j + 1..]);
      ProdPositive(sizes[j + 1..]);
      assert Decode(rem, tail) == [rem / strides[j]] + Decode(rem % strides[j], sizes[j + 1..]);
      codes, rem := codes + [rem / strides[j]], rem % strides[j];
    }
    assert sizes[|sizes|..] == [];
    assert codes + [] == codes;
  }
}
