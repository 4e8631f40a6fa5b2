/** Mapping lists to lists and looking at the result as a bag. */
module Bags {

  function Flat<T, U>(xs: seq<T>, f: T -> seq<U>): seq<U> {
    if xs == [] then [] else f(xs[0]) + Flat(xs[1..], f)
  }

  lemma {:induction false} FlatAppend<T, U>(a: seq<T>, b: seq<T>, f: T -> seq<U>)
    ensures Flat(a + b, f) == Flat(a, f) + Flat(b, f)
  {
    if a == [] {
      assert a + b == b;
    } else {
      FlatAppend(a[1..], b, f);
      assert (a + b)[1..] == a[1..] + b;
    }
  }

  /** Where an element stands does not matter to the bag. */
  lemma {:induction false} FlatMove<T, U>(u: seq<T>, x: T, v: seq<T>, f: T -> seq<U>)
    ensures multiset(Flat(u + [x] + v, f)) == multiset(f(x)) + multiset(Flat(u + v, f))
  {
    if u == [] {
      assert u + [x] + v == [x] + v && u + v == v && ([x] + v)[1..] == v;
    } else {
      FlatMove(u[1..], x, v, f);
      assert (u + [x] + v)[1..] == u[1..] + [x] + v;
      assert (u + v)[1..] == u[1..] + v;
    }
  }

  lemma TakeOut<T>(u: seq<T>, x: T, v: seq<T>)
    ensures multiset(u + [x] + v) == multiset(u + v) + multiset{x}
  {
  }

  /** Taking the head of one list out of another list with the same bag. */
  lemma SplitAtHead<T>(a: seq<T>, b: seq<T>) returns (k: nat)
    requires a != [] && multiset(a) == multiset(b)
    ensures k < |b| && b == b[..k] + [a[0]] + b[k + 1..]
    ensures multiset(a[1..]) == multiset(b[..k] + b[k + 1..])
  {
    var x := a[0];
    assert x in multiset(b);
    k :| 0 <= k < |b| && b[k] == x;
    assert b == b[..k] + [x] + b[k + 1..];
    assert a == [] + [x] + a[1..] && a[1..] == [] + a[1..];
    TakeOut([], x, a[1..]);
    TakeOut(b[..k], x, b[k + 1..]);
    Cancel(multiset(a[1..]), multiset(b[..k] + b[k + 1..]), x);
  }

  lemma Cancel<T>(a: multiset<T>, b: multiset<T>, x: T)
    requires a + multiset{x} == b + multiset{x}
    ensures a == b
  {
    assert a == a + multiset{x} - multiset{x};
    assert b == b + multiset{x} - multiset{x};
  }

  /** A mapped list is the same bag for every order of its input. */
  lemma {:induction false} FlatBag<T, U>(a: seq<T>, b: seq<T>, f: T -> seq<U>)
    requires multiset(a) == multiset(b)
    ensures multiset(Flat(a, f)) == multiset(Flat(b, f))
  {
    if a == [] {
      assert |b| == |multiset(b)|;
    } else {
      var k := SplitAtHead(a, b);
      FlatBag(a[1..], b[..k] + b[k + 1..], f);
      FlatMove(b[..k], a[0], b[k + 1..], f);
    }
  }

  lemma {:induction false} FlatCong<T, U>(xs: seq<T>, f: T -> seq<U>, g: T -> seq<U>)
    requires forall x :: x in xs ==> multiset(f(x)) == multiset(g(x))
    ensures multiset(Flat(xs, f)) == multiset(Flat(xs, g))
  {
    if xs != [] {
      FlatCong(xs[1..], f, g);
      assert xs[0] in xs;
    }
  }

  lemma {:induction false} FlatSame<T, U>(xs: seq<T>, f: T -> seq<U>, g: T -> seq<U>)
    requires forall x :: x in xs ==> f(x) == g(x)
    ensures Flat(xs, f) == Flat(xs, g)
  {
    if xs != [] {
      FlatSame(xs[1..], f, g);
      assert xs[0] in xs;
    }
  }

  lemma {:induction false} FlatEmpty<T, U>(xs: seq<T>, f: T -> seq<U>)
    requires forall x :: x in xs ==> f(x) == []
    ensures Flat(xs, f) == []
  {
    if xs != [] {
      FlatEmpty(xs[1..], f);
      assert xs[0] in xs;
    }
  }

  lemma {:induction false} FlatPlus<T, U>(xs: seq<T>, f: T -> seq<U>, g: T -> seq<U>, fg: T -> seq<U>)
    requires forall x :: x in xs ==> multiset(fg(x)) == multiset(f(x)) + multiset(g(x))
    ensures multiset(Flat(xs, fg)) == multiset(Flat(xs, f)) + multiset(Flat(xs, g))
  {
    if xs != [] {
      FlatPlus(xs[1..], f, g, fg);
      assert xs[0] in xs;
    }
  }

  lemma SameMembers<T>(a: seq<T>, b: seq<T>)
    requires multiset(a) == multiset(b)
    ensures forall x :: x in a <==> x in b
    ensures |a| == |b|
  {
    forall x
      ensures x in a <==> x in b
    {
      assert x in a <==> x in multiset(a);
      assert x in b <==> x in multiset(b);
    }
    assert |a| == |multiset(a)| && |b| == |multiset(b)|;
  }

  lemma {:induction false} FlatMember<T, U>(xs: seq<T>, f: T -> seq<U>, y: U)
    ensures y in Flat(xs, f) <==> exists x :: x in xs && y in f(x)
  {
    if xs != [] {
      FlatMember(xs[1..], f, y);
      assert xs == [xs[0]] + xs[1..];
    }
  }

  /** Mapping a mapped list. */
  lemma {:induction false} FlatFlat<S, T, U>(xs: seq<S>, f: S -> seq<T>, g: T -> seq<U>, fg: S -> seq<U>)
    requires forall x :: x in xs ==> fg(x) == Flat(f(x), g)
    ensures Flat(Flat(xs, f), g) == Flat(xs, fg)
  {
    if xs != [] {
      FlatFlat(xs[1..], f, g, fg);
      FlatAppend(f(xs[0]), Flat(xs[1..], f), g);
      assert xs[0] in xs;
    }
  }

  function Upto(n: nat): (s: seq<nat>)
    ensures |s| == n && forall i :: 0 <= i < n ==> s[i] == i
  {
    seq(n, i => i)
  }

  /** A loop over the elements is a loop over the positions. */
  lemma {:induction false} FlatIndex<T, U>(xs: seq<T>, f: T -> seq<U>, g: nat -> seq<U>, n: nat)
    requires n <= |xs| && forall i: nat :: i < |xs| ==> g(i) == f(xs[i])
    ensures Flat(Upto(n), g) == Flat(xs[..n], f)
  {
    if n > 0 {
      FlatIndex(xs, f, g, n - 1);
      var last: seq<nat>, x := [n - 1], [xs[n - 1]];
      assert Upto(n) == Upto(n - 1) + last && xs[..n] == xs[..n - 1] + x;
      FlatAppend<nat, U>(Upto(n - 1), last, g);
      FlatAppend(xs[..n - 1], x, f);
      assert last[1..] == [] && x[1..] == [];
    }
  }

  function IndexOf<T(==)>(s: seq<T>, x: T): (i: nat)
    ensures x in s ==> i < |s| && s[i] == x
  {
    if s == [] || s[0] == x then 0 else 1 + IndexOf(s[1..], x)
  }
}
