/** Sums of a weight over a list, and when the order of the list does not matter. */
module Sums {
  import opened Bags

  function SumOver<T>(xs: seq<T>, f: T -> real): real {
    if xs == [] then 0.0 else SumOver(xs[..|xs| - 1], f) + f(xs[|xs| - 1])
  }

  lemma {:induction false} SumAppend<T>(a: seq<T>, b: seq<T>, f: T -> real)
    ensures SumOver(a + b, f) == SumOver(a, f) + SumOver(b, f)
  {
    if b == [] {
      assert a + b == a;
    } else {
      var n := |b| - 1;
      SumAppend(a, b[..n], f);
      assert (a + b)[..|a + b| - 1] == a + b[..n];
    }
  }

  lemma SumOne<T>(x: T, f: T -> real)
    ensures SumOver([x], f) == f(x)
  {
    assert [x][..0] == [];
  }

  /** Addition does not care in which order the list comes. */
  lemma {:induction false} SumBag<T>(a: seq<T>, b: seq<T>, f: T -> real)
    requires multiset(a) == multiset(b)
    ensures SumOver(a, f) == SumOver(b, f)
  {
    if a == [] {
      assert |b| == |multiset(b)|;
    } else {
      var k := SplitAtHead(a, b);
      SumBag(a[1..], b[..k] + b[k + 1..], f);
      assert a == [a[0]] + a[1..];
      SumAppend([a[0]], a[1..], f);
      SumOne(a[0], f);
      SumAppend(b[..k] + [a[0]], b[k + 1..], f);
      SumAppend(b[..k], [a[0]], f);
      SumAppend(b[..k], b[k + 1..], f);
    }
  }

  lemma {:induction false} SumCong<T>(xs: seq<T>, f: T -> real, g: T -> real)
    requires forall x :: x in xs ==> f(x) == g(x)
    ensures SumOver(xs, f) == SumOver(xs, g)
  {
    if xs != [] {
      var n := |xs| - 1;
      assert xs[n] in xs && forall x :: x in xs[..n] ==> x in xs;
      SumCong(xs[..n], f, g);
    }
  }

  lemma {:induction false} SumZero<T>(xs: seq<T>, f: T -> real)
    requires forall x :: x in xs ==> f(x) == 0.0
    ensures SumOver(xs, f) == 0.0
  {
    if xs != [] {
      var n := |xs| - 1;
      assert xs[n] in xs && forall x :: x in xs[..n] ==> x in xs;
      SumZero(xs[..n], f);
    }
  }

  function SumTo(n: nat, f: nat -> real): real {
    if n == 0 then 0.0 else SumTo(n - 1, f) + f(n - 1)
  }

  lemma {:induction false} SumToPlus(n: nat, f: nat -> real, g: nat -> real, h: nat -> real)
    requires forall k: nat :: k < n ==> h(k) == f(k) + g(k)
    ensures SumTo(n, h) == SumTo(n, f) + SumTo(n, g)
  {
    if n > 0 { SumToPlus(n - 1, f, g, h); }
  }

  lemma {:induction false} SumToCong(n: nat, f: nat -> real, g: nat -> real)
    requires forall k: nat :: k < n ==> f(k) == g(k)
    ensures SumTo(n, f) == SumTo(n, g)
  {
    if n > 0 { SumToCong(n - 1, f, g); }
  }

  /** A sum with at most one non-zero term. */
  lemma {:induction false} SumToSpike(n: nat, f: nat -> real, at: nat)
    requires forall k: nat :: k < n && k != at ==> f(k) == 0.0
    ensures SumTo(n, f) == if at < n then f(at) else 0.0
  {
    if n > 0 { SumToSpike(n - 1, f, at); }
  }
}
