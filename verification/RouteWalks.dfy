/** Walks in the fee graph, their fees, and the repair of a walk into a simple one. */
module RouteWalks {
  import opened Numbers
  import opened RouteGraph
  import opened RouteSearch

  /** The node a path stands at after `k` hops. */
  function NodeAt(net: Net, p: seq<Hop>, k: nat): NodeId
    requires k <= |p|
  {
    if k == 0 then net.source else p[k - 1].node
  }

  function End(net: Net, p: seq<Hop>): NodeId { NodeAt(net, p, |p|) }

  ghost predicate IsHop(net: Net, a: NodeId, h: Hop) {
    exists e :: e in net.links && e.source == a && HopOf(e) == h
  }

  /** Every hop is an admitted edge leaving the node before it, at that edge's fee. */
  ghost predicate IsWalk(net: Net, p: seq<Hop>) {
    forall k :: 0 <= k < |p| ==> HopAt(net, p, k)
  }

  ghost predicate HopAt(net: Net, p: seq<Hop>, k: nat)
    requires k < |p|
  {
    IsHop(net, NodeAt(net, p, k), p[k])
  }

  /** No node twice, our own included. */
  ghost predicate IsSimple(net: Net, p: seq<Hop>) {
    forall i, j :: 0 <= i < j <= |p| ==> NodeAt(net, p, i) != NodeAt(net, p, j)
  }

  /** The destination is not passed through on the way. */
  ghost predicate Avoids(net: Net, p: seq<Hop>) {
    forall k :: 0 <= k < |p| ==> NodeAt(net, p, k) != net.dest
  }

  /** A walk to `t` that does not pass through the destination. */
  ghost predicate IsWalkTo(net: Net, p: seq<Hop>, t: NodeId) {
    IsWalk(net, p) && Avoids(net, p) && End(net, p) == t
  }

  function Cost(p: seq<Hop>): nat {
    if p == [] then 0 else Cost(p[..|p| - 1]) + p[|p| - 1].fee
  }

  lemma {:induction false} CostConcat(p: seq<Hop>, q: seq<Hop>)
    ensures Cost(p + q) == Cost(p) + Cost(q)
  {
    if q == [] {
      assert p + q == p;
    } else {
      assert (p + q)[..|p + q| - 1] == p + q[..|q| - 1];
      CostConcat(p, q[..|q| - 1]);
    }
  }

  lemma CostSplit(p: seq<Hop>, k: nat)
    requires k <= |p|
    ensures Cost(p) == Cost(p[..k]) + Cost(p[k..])
  {
    assert p == p[..k] + p[k..];
    CostConcat(p[..k], p[k..]);
  }

  lemma PrefixIsWalk(net: Net, p: seq<Hop>, k: nat)
    requires IsWalk(net, p) && k <= |p|
    ensures IsWalk(net, p[..k]) && End(net, p[..k]) == NodeAt(net, p, k)
    ensures Avoids(net, p) ==> Avoids(net, p[..k])
    ensures IsSimple(net, p) ==> IsSimple(net, p[..k])
  {
    var q := p[..k];
    assert forall i :: 0 <= i <= k ==> NodeAt(net, q, i) == NodeAt(net, p, i);
    forall i | 0 <= i < k ensures HopAt(net, q, i) {
      assert HopAt(net, p, i);
    }
  }

  lemma {:induction false} CostBound(net: Net, p: seq<Hop>)
    requires IsWalk(net, p)
    ensures Cost(p) <= |p| * MAX_FEE
  {
    if p == [] {
    } else {
      var n := |p| - 1;
      PrefixIsWalk(net, p, n);
      CostBound(net, p[..n]);
      assert HopAt(net, p, n);
      TermAdded(Cost(p[..n]), p[n].fee, n, MAX_FEE);
    }
  }

  /** A walk with one more hop. */
  lemma AppendHop(net: Net, p: seq<Hop>, h: Hop)
    requires IsWalk(net, p) && IsHop(net, End(net, p), h)
    ensures IsWalk(net, p + [h])
  {
    var q := p + [h];
    AppendNodes(net, p, h);
    forall k | 0 <= k < |q| ensures HopAt(net, q, k) {
      if k < |p| {
        assert HopAt(net, p, k);
        assert q[k] == p[k];
      } else {
        assert q[k] == h;
      }
    }
  }

  lemma AppendNodes(net: Net, p: seq<Hop>, h: Hop)
    ensures End(net, p + [h]) == h.node && Cost(p + [h]) == Cost(p) + h.fee
    ensures forall k :: 0 <= k <= |p| ==> NodeAt(net, p + [h], k) == NodeAt(net, p, k)
  {
    assert (p + [h])[..|p|] == p;
  }

  /** The nodes of a walk spliced from a prefix of one and a suffix of another. */
  lemma SpliceNodes(net: Net, p: seq<Hop>, q: seq<Hop>, i: nat)
    requires i <= |q| && End(net, p) == NodeAt(net, q, i)
    ensures forall k :: 0 <= k <= |p| ==> NodeAt(net, p + q[i..], k) == NodeAt(net, p, k)
    ensures forall k {:trigger NodeAt(net, q, k)} ::
              i <= k <= |q| ==> NodeAt(net, p + q[i..], |p| + (k - i)) == NodeAt(net, q, k)
    ensures End(net, p + q[i..]) == End(net, q)
  {
    forall k | i <= k <= |q| ensures NodeAt(net, p + q[i..], |p| + (k - i)) == NodeAt(net, q, k) {
      if k > i { assert (p + q[i..])[|p| + (k - i) - 1] == q[k - 1]; }
    }
    assert NodeAt(net, p + q[i..], |p| + (|q| - i)) == NodeAt(net, q, |q|);
  }

  lemma Splice(net: Net, p: seq<Hop>, q: seq<Hop>, i: nat)
    requires IsWalk(net, p) && IsWalk(net, q) && i <= |q| && End(net, p) == NodeAt(net, q, i)
    ensures IsWalk(net, p + q[i..]) && End(net, p + q[i..]) == End(net, q)
  {
    SpliceNodes(net, p, q, i);
    var r := p + q[i..];
    forall k | 0 <= k < |r| ensures HopAt(net, r, k) {
      if k < |p| {
        assert HopAt(net, p, k);
      } else {
        var m := i + (k - |p|);
        assert HopAt(net, q, m);
        assert NodeAt(net, r, |p| + (m - i)) == NodeAt(net, q, m);
      }
    }
  }

  lemma SpliceCost(p: seq<Hop>, q: seq<Hop>, i: nat)
    requires i <= |q|
    ensures Cost(p + q[i..]) == Cost(p) + Cost(q) - Cost(q[..i])
  {
    CostConcat(p, q[i..]);
    CostSplit(q, i);
  }

  lemma SpliceAvoids(net: Net, p: seq<Hop>, q: seq<Hop>, i: nat)
    requires Avoids(net, p) && Avoids(net, q) && i <= |q| && End(net, p) == NodeAt(net, q, i)
    ensures Avoids(net, p + q[i..])
  {
    SpliceNodes(net, p, q, i);
    var r := p + q[i..];
    forall k | 0 <= k < |r| ensures NodeAt(net, r, k) != net.dest {
      if k >= |p| {
        var m := i + (k - |p|);
        assert NodeAt(net, r, |p| + (m - i)) == NodeAt(net, q, m);
      }
    }
  }

  /** Splicing simple walks that meet only at the splice gives a simple one. */
  lemma SpliceSimple(net: Net, p: seq<Hop>, q: seq<Hop>, i: nat)
    requires IsSimple(net, p) && IsSimple(net, q) && i <= |q| && End(net, p) == NodeAt(net, q, i)
    requires forall a, j :: 0 <= a < |p| && i < j <= |q| ==> NodeAt(net, p, a) != NodeAt(net, q, j)
    ensures IsSimple(net, p + q[i..])
  {
    SpliceNodes(net, p, q, i);
    var r, n := p + q[i..], |p|;
    forall a, b | 0 <= a < b <= |r| ensures NodeAt(net, r, a) != NodeAt(net, r, b) {
      if b <= n {
        assert NodeAt(net, p, a) != NodeAt(net, p, b);
      } else {
        var j := i + (b - n);
        assert NodeAt(net, r, n + (j - i)) == NodeAt(net, q, j);
        if a >= n {
          var k := i + (a - n);
          assert NodeAt(net, r, n + (k - i)) == NodeAt(net, q, k);
        }
      }
    }
  }

  /** Cutting the cycles out of a walk makes it simple and no dearer. */
  lemma {:induction false} Shorten(net: Net, p: seq<Hop>) returns (q: seq<Hop>)
    requires IsWalk(net, p)
    ensures IsWalk(net, q) && IsSimple(net, q) && End(net, q) == End(net, p) && Cost(q) <= Cost(p)
    ensures Avoids(net, p) ==> Avoids(net, q)
    decreases |p|
  {
    if IsSimple(net, p) {
      q := p;
    } else {
      var i, j :| 0 <= i < j <= |p| && NodeAt(net, p, i) == NodeAt(net, p, j);
      PrefixIsWalk(net, p, i);
      Splice(net, p[..i], p, j);
      SpliceCost(p[..i], p, j);
      if Avoids(net, p) { SpliceAvoids(net, p[..i], p, j); }
      assert p[..j][..i] == p[..i];
      CostSplit(p[..j], i);
      q := Shorten(net, p[..i] + p[j..]);
    }
  }

  /** A walk that passes through the destination can stop there. */
  lemma StopAtDest(net: Net, p: seq<Hop>) returns (q: seq<Hop>)
    requires IsWalk(net, p) && End(net, p) == net.dest
    ensures IsWalkTo(net, q, net.dest) && Cost(q) <= Cost(p)
    decreases |p|
  {
    if Avoids(net, p) {
      q := p;
    } else {
      var k :| 0 <= k < |p| && NodeAt(net, p, k) == net.dest;
      PrefixIsWalk(net, p, k);
      CostSplit(p, k);
      q := StopAtDest(net, p[..k]);
    }
  }
}
