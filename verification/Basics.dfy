// Shared vocabulary: optional values, bytes, bounded sums over sequences.

module Basics {
  datatype Option<+T> = None | Some(value: T)

  type byte = b: int | 0 <= b < 256

  function Min(a: int, b: int): int {
    if a <= b then a else b
  }

  function Max(a: int, b: int): int {
    if a <= b then b else a
  }

  predicate Lacks<T(==)>(s: seq<T>, x: T) {
    forall i :: 0 <= i < |s| ==> s[i] != x
  }

  // The sum of f over the elements of xs.
  function Sum<T>(f: T -> int, xs: seq<T>): int {
    if xs == [] then 0 else Sum(f, xs[..|xs| - 1]) + f(xs[|xs| - 1])
  }

  // Replacing one element shifts the sum by the difference of its two values.
  lemma {:induction false} SumUpdate<T>(f: T -> int, xs: seq<T>, i: nat, x: T)
    requires i < |xs|
    ensures Sum(f, xs[i := x]) == Sum(f, xs) - f(xs[i]) + f(x)
  {
    var ys := xs[i := x];
    if i == |xs| - 1 {
      assert ys[..|ys| - 1] == xs[..|xs| - 1];
    } else {
      SumUpdate(f, xs[..|xs| - 1], i, x);
      assert ys[..|ys| - 1] == xs[..|xs| - 1][i := x];
    }
  }

  // A sum whose terms are all at most b, one of them at most b - slack.
  lemma {:induction false} SumAtMost<T>(f: T -> int, xs: seq<T>, b: int)
    requires forall i :: 0 <= i < |xs| ==> f(xs[i]) <= b
    ensures Sum(f, xs) <= |xs| * b
  {
    if xs != [] {
      SumAtMost(f, xs[..|xs| - 1], b);
    }
  }

  lemma {:induction false} SumZero<T>(f: T -> int, xs: seq<T>)
    requires forall i :: 0 <= i < |xs| ==> f(xs[i]) == 0
    ensures Sum(f, xs) == 0
  {
    if xs != [] {
      SumZero(f, xs[..|xs| - 1]);
    }
  }

  // Pointwise order between two functions lifts to sums, with the gap at any one index.
  lemma {:induction false} SumDominates<S, T>(f: S -> int, xs: seq<S>, g: T -> int, ys: seq<T>, k: nat)
    requires |xs| == |ys| && k < |xs|
    requires forall i :: 0 <= i < |xs| ==> f(xs[i]) <= g(ys[i])
    ensures Sum(f, xs) <= Sum(g, ys) - (g(ys[k]) - f(xs[k]))
  {
    var xs', ys' := xs[..|xs| - 1], ys[..|ys| - 1];
    if k < |xs'| {
      SumDominates(f, xs', g, ys', k);
    } else if xs' != [] {
      SumDominates(f, xs', g, ys', 0);
    }
  }
}
