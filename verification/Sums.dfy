/** Totals over a list, and their independence of its order. */
module Sums {
  /** The multiset sum of the images of a list's elements. */
  ghost function Total<A, B>(f: A -> multiset<B>, xs: seq<A>): multiset<B> {
    if xs == [] then multiset{} else Total(f, xs[..|xs| - 1]) + f(xs[|xs| - 1])
  }

  lemma {:induction false} TotalConcat<A, B>(f: A -> multiset<B>, xs: seq<A>, ys: seq<A>)
    ensures Total(f, xs + ys) == Total(f, xs) + Total(f, ys)
  {
    if ys == [] {
      assert xs + ys == xs;
    } else {
      assert (xs + ys)[..|xs + ys| - 1] == xs + ys[..|ys| - 1];
      TotalConcat(f, xs, ys[..|ys| - 1]);
    }
  }

  lemma TakeOut<A, B>(f: A -> multiset<B>, xs: seq<A>, i: nat) returns (rest: seq<A>)
    requires i < |xs|
    ensures Total(f, xs) == Total(f, rest) + f(xs[i])
    ensures multiset(xs) == multiset(rest) + multiset{xs[i]} && |rest| == |xs| - 1
  {
    var a, b := xs[..i], xs[i + 1..];
    rest := a + b;
    assert xs == a + ([xs[i]] + b);
    TotalConcat(f, a, [xs[i]] + b);
    TotalConcat(f, [xs[i]], b);
    TotalConcat(f, a, b);
    assert Total(f, [xs[i]]) == f(xs[i]);
  }

  lemma Cancel<A>(a: multiset<A>, b: multiset<A>, x: A)
    requires a + multiset{x} == b + multiset{x}
    ensures a == b
  {
    assert a == (a + multiset{x}) - multiset{x} && b == (b + multiset{x}) - multiset{x};
  }

  lemma {:induction false} TotalIgnoresOrder<A, B>(f: A -> multiset<B>, xs: seq<A>, ys: seq<A>)
    requires multiset(xs) == multiset(ys)
    ensures Total(f, xs) == Total(f, ys)
    decreases |xs|
  {
    if xs == [] {
      SameSize(xs, ys);
    } else {
      assert xs[0] in multiset(ys);
      var i :| 0 <= i < |ys| && ys[i] == xs[0];
      var a := TakeOut(f, xs, 0);
      var b := TakeOut(f, ys, i);
      Cancel(multiset(a), multiset(b), xs[0]);
      TotalIgnoresOrder(f, a, b);
    }
  }

  lemma SameSize<A>(xs: seq<A>, ys: seq<A>)
    requires multiset(xs) == multiset(ys)
    ensures |xs| == |ys|
  {
    assert |multiset(xs)| == |multiset(ys)|;
  }
}
