/** Offsets and limits over a list, and what reading it page by page gives back. */
module Paging {
  function Skip<T>(xs: seq<T>, n: nat): seq<T> { if n <= |xs| then xs[n..] else [] }

  function Take<T>(xs: seq<T>, n: nat): seq<T> { if n <= |xs| then xs[..n] else xs }

  function Page<T>(xs: seq<T>, offset: nat, limit: nat): seq<T> { Take(Skip(xs, offset), limit) }

  /** Where page `k` begins: k times the page size. */
  function Offset(k: nat, size: nat): nat { if k == 0 then 0 else Offset(k - 1, size) + size }

  lemma {:induction false} OffsetIsProduct(k: nat, size: nat)
    ensures Offset(k, size) == k * size
  {
    if k == 0 {
    } else {
      OffsetIsProduct(k - 1, size);
      assert k * size == (k - 1) * size + size;
    }
  }

  /** The first pages of a size, read at offsets 0, size, 2 * size, ... */
  function Pages<T>(xs: seq<T>, size: nat, count: nat): seq<seq<T>> {
    if count == 0 then [] else Pages(xs, size, count - 1) + [Page(xs, Offset(count - 1, size), size)]
  }

  function Flatten<T>(xss: seq<seq<T>>): seq<T> {
    if xss == [] then [] else Flatten(xss[..|xss| - 1]) + xss[|xss| - 1]
  }

  function Filter<T>(keep: T -> bool, xs: seq<T>): seq<T> {
    if xs == [] then []
    else Filter(keep, xs[..|xs| - 1]) + (if keep(xs[|xs| - 1]) then [xs[|xs| - 1]] else [])
  }

  lemma FlattenAppend<T>(xss: seq<seq<T>>, xs: seq<T>)
    ensures Flatten(xss + [xs]) == Flatten(xss) + xs
  {
    assert (xss + [xs])[..|xss|] == xss;
  }

  lemma TakeAndPage<T>(xs: seq<T>, before: nat, size: nat)
    ensures Take(xs, before) + Page(xs, before, size) == Take(xs, before + size)
  {
  }

  lemma OneMorePage<T>(xs: seq<T>, pages: seq<seq<T>>, before: nat, size: nat)
    requires Flatten(pages) == Take(xs, before)
    ensures Flatten(pages + [Page(xs, before, size)]) == Take(xs, before + size)
  {
    FlattenAppend(pages, Page(xs, before, size));
    TakeAndPage(xs, before, size);
  }

  lemma PagesCoverMore<T>(xs: seq<T>, size: nat, count: nat)
    requires Flatten(Pages(xs, size, count)) == Take(xs, Offset(count, size))
    ensures Flatten(Pages(xs, size, count + 1)) == Take(xs, Offset(count + 1, size))
  {
    OneMorePage(xs, Pages(xs, size, count), Offset(count, size), size);
  }

  lemma {:induction false} PagesCover<T>(xs: seq<T>, size: nat, count: nat)
    ensures Flatten(Pages(xs, size, count)) == Take(xs, Offset(count, size))
  {
    var k := 0;
    assert Flatten(Pages(xs, size, k)) == Take(xs, Offset(k, size));
    while k < count
      invariant k <= count
      invariant Flatten(Pages(xs, size, k)) == Take(xs, Offset(k, size))
    {
      PagesCoverMore(xs, size, k);
      k := k + 1;
    }
  }

  /** Pages of any size, read until the list is passed, give the whole list back: nothing lost or repeated. */
  lemma PagesTile<T>(xs: seq<T>, size: nat, count: nat)
    requires |xs| <= Offset(count, size)
    ensures Flatten(Pages(xs, size, count)) == xs
  {
    PagesCover(xs, size, count);
  }

  /** A page is the slice from its offset on, as long as its limit and the list allow. */
  lemma PageIsSlice<T>(xs: seq<T>, offset: nat, limit: nat)
    ensures var page, rest := Page(xs, offset, limit), if offset < |xs| then |xs| - offset else 0;
      && |page| == (if limit < rest then limit else rest)
      && forall i :: 0 <= i < |page| ==> page[i] == xs[offset + i]
  {
  }

  /** A page of a longer list begins with that page of the shorter one. */
  lemma PageGrows<T>(xs: seq<T>, ys: seq<T>, offset: nat, limit: nat)
    requires xs <= ys
    ensures Page(xs, offset, limit) <= Page(ys, offset, limit)
  {
  }

  lemma {:induction false} FilterConcat<T>(keep: T -> bool, xs: seq<T>, ys: seq<T>)
    ensures Filter(keep, xs + ys) == Filter(keep, xs) + Filter(keep, ys)
  {
    if ys == [] {
      assert xs + ys == xs;
    } else {
      assert (xs + ys)[..|xs + ys| - 1] == xs + ys[..|ys| - 1];
      FilterConcat(keep, xs, ys[..|ys| - 1]);
    }
  }

  lemma {:induction false} FilterShortens<T>(keep: T -> bool, xs: seq<T>)
    ensures |Filter(keep, xs)| <= |xs|
  {
    if xs == [] {
    } else {
      FilterShortens(keep, xs[..|xs| - 1]);
    }
  }

  lemma {:induction false} FilterCounts<T>(keep: T -> bool, xs: seq<T>, x: T)
    ensures multiset(Filter(keep, xs))[x] == if keep(x) then multiset(xs)[x] else 0
  {
    if xs == [] {
    } else {
      FilterCounts(keep, xs[..|xs| - 1], x);
      assert xs == xs[..|xs| - 1] + [xs[|xs| - 1]];
    }
  }
}
