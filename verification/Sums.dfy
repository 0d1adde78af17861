/** Sums over lists of names. */
module Sums {

  function Sum(names: seq<string>, f: string -> nat): nat {
    if names == [] then 0 else Sum(names[..|names| - 1], f) + f(names[|names| - 1])
  }

  lemma {:induction false} SumAppend(a: seq<string>, b: seq<string>, f: string -> nat)
    ensures Sum(a + b, f) == Sum(a, f) + Sum(b, f)
  {
    if b == [] {
      assert a + b == a;
    } else {
      assert (a + b)[..|a + b| - 1] == a + b[..|b| - 1];
      SumAppend(a, b[..|b| - 1], f);
    }
  }

  lemma Around(b: seq<string>, p: nat)
    requires p < |b|
    ensures b == b[..p] + [b[p]] + b[p + 1..]
  {
  }

  function Without(b: seq<string>, p: nat): seq<string>
    requires p < |b|
  {
    b[..p] + b[p + 1..]
  }

  lemma WithoutOne(b: seq<string>, p: nat)
    requires p < |b|
    ensures multiset(Without(b, p)) == multiset(b) - multiset{b[p]}
  {
    Around(b, p);
  }

  lemma SumMiddle(all: seq<string>, front: seq<string>, x: string, back: seq<string>, f: string -> nat)
    requires all == front + [x] + back
    ensures Sum(all, f) == Sum(front + back, f) + f(x)
  {
    SumAppend(front + [x], back, f);
    SumAppend(front, back, f);
    assert (front + [x])[..|front|] == front;
  }

  lemma SumWithoutOne(b: seq<string>, p: nat, f: string -> nat)
    requires p < |b|
    ensures Sum(b, f) == Sum(Without(b, p), f) + f(b[p])
  {
    Around(b, p);
    SumMiddle(b, b[..p], b[p], b[p + 1..], f);
  }

  /** Sums do not depend on the order. */
  lemma {:induction false} SumPermuted(a: seq<string>, b: seq<string>, f: string -> nat)
    requires multiset(a) == multiset(b)
    ensures Sum(a, f) == Sum(b, f)
    decreases |a|
  {
    if a == [] {
      assert |multiset(b)| == |b|;
    } else {
      assert a[0] in multiset(b);
      var p :| 0 <= p < |b| && b[p] == a[0];
      WithoutOne(a, 0);
      WithoutOne(b, p);
      SumWithoutOne(a, 0, f);
      SumWithoutOne(b, p, f);
      SumPermuted(Without(a, 0), Without(b, p), f);
    }
  }

  /** Distinct lists of the same names are permutations of each other. */
  lemma SameNames(a: seq<string>, b: seq<string>)
    requires forall i, j :: 0 <= i < j < |a| ==> a[i] != a[j]
    requires forall i, j :: 0 <= i < j < |b| ==> b[i] != b[j]
    requires forall x :: x in a <==> x in b
    ensures multiset(a) == multiset(b)
  {
    forall x ensures multiset(a)[x] == multiset(b)[x] {
      OnceAtMost(a, x);
      OnceAtMost(b, x);
    }
  }

  lemma {:induction false} OnceAtMost(a: seq<string>, x: string)
    requires forall i, j :: 0 <= i < j < |a| ==> a[i] != a[j]
    ensures multiset(a)[x] == if x in a then 1 else 0
  {
    if a != [] {
      var n := |a| - 1;
      OnceAtMost(a[..n], x);
      assert a == a[..n] + [a[n]];
    }
  }
}
