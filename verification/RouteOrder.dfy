/** The heap's order, which the search flattens into one list of numbers, is that of the code's nested tuples. */
module RouteOrder {
  import opened RouteGraph
  import opened RouteSearch

  /** At the first place where they differ the first list is smaller. */
  ghost predicate FirstLess(a: seq<int>, b: seq<int>) {
    exists k :: 0 <= k < |a| && DiffersAt(a, b, k)
  }

  predicate DiffersAt(a: seq<int>, b: seq<int>, k: nat)
    requires k < |a|
  {
    k < |b| && a[..k] == b[..k] && a[k] < b[k]
  }

  /** Nodes compare by the bytes of their keys. */
  ghost predicate NodeLess(a: NodeId, b: NodeId) { FirstLess(a.key, b.key) }

  /** Hops compare by node, then channel id, then fee, then expiry. */
  ghost predicate HopLess(g: Hop, h: Hop) {
    || NodeLess(g.node, h.node)
    || (g.node == h.node
        && (g.scid < h.scid || (g.scid == h.scid && (g.fee < h.fee || (g.fee == h.fee && g.cltv < h.cltv)))))
  }

  /** Paths compare hop by hop, and a beginning comes before the rest. */
  ghost predicate PathLeq(p: seq<Hop>, q: seq<Hop>) {
    p == [] || (q != [] && (HopLess(p[0], q[0]) || (p[0] == q[0] && PathLeq(p[1..], q[1..]))))
  }

  lemma FirstLessStep(a: seq<int>, b: seq<int>)
    requires |a| == |b| > 0
    ensures FirstLess(a, b) <==> a[0] < b[0] || (a[0] == b[0] && FirstLess(a[1..], b[1..]))
  {
    if k :| 0 <= k < |a| && DiffersAt(a, b, k) {
      if k > 0 {
        assert a[0] == a[..k][0] && b[0] == b[..k][0];
        assert a[1..][..k - 1] == a[..k][1..] && b[1..][..k - 1] == b[..k][1..];
        assert DiffersAt(a[1..], b[1..], k - 1);
      }
    }
    if a[0] < b[0] {
      assert DiffersAt(a, b, 0);
    } else if a[0] == b[0] && FirstLess(a[1..], b[1..]) {
      var k :| 0 <= k < |a| - 1 && DiffersAt(a[1..], b[1..], k);
      assert a[..k + 1] == [a[0]] + a[1..][..k] && b[..k + 1] == [b[0]] + b[1..][..k];
      assert DiffersAt(a, b, k + 1);
    }
  }

  /** Lists that begin with parts of one length compare by those parts first. */
  lemma {:induction false} LexByParts(a: seq<int>, b: seq<int>, c: seq<int>, d: seq<int>)
    requires |a| == |b|
    ensures LexLeq(a + c, b + d) <==> FirstLess(a, b) || (a == b && LexLeq(c, d))
  {
    if a == [] {
      assert a + c == c && b + d == d;
    } else {
      FirstLessStep(a, b);
      LexByParts(a[1..], b[1..], c, d);
      assert (a + c)[1..] == a[1..] + c && (b + d)[1..] == b[1..] + d;
      assert a == [a[0]] + a[1..] && b == [b[0]] + b[1..];
    }
  }

  lemma HopByParts(g: Hop, h: Hop)
    ensures FirstLess(g.node.key + [g.scid, g.fee, g.cltv], h.node.key + [h.scid, h.fee, h.cltv]) <==> HopLess(g, h)
    ensures g.node.key + [g.scid, g.fee, g.cltv] == h.node.key + [h.scid, h.fee, h.cltv] <==> g == h
  {
    var a, b := [g.scid, g.fee, g.cltv], [h.scid, h.fee, h.cltv];
    LessByParts(g.node.key, h.node.key, a, b);
    FirstLessStep(a, b);
    FirstLessStep(a[1..], b[1..]);
    FirstLessStep(a[1..][1..], b[1..][1..]);
    if g.node.key + a == h.node.key + b {
      assert g.node.key == (g.node.key + a)[..33] && h.node.key == (h.node.key + b)[..33];
      assert a == (g.node.key + a)[33..] && b == (h.node.key + b)[33..];
      assert a[0] == b[0] && a[1] == b[1] && a[2] == b[2];
    }
  }

  lemma {:induction false} LessByParts(a: seq<int>, b: seq<int>, c: seq<int>, d: seq<int>)
    requires |a| == |b| && |c| == |d|
    ensures FirstLess(a + c, b + d) <==> FirstLess(a, b) || (a == b && FirstLess(c, d))
  {
    if a == [] {
      assert a + c == c && b + d == d;
    } else {
      FirstLessStep(a, b);
      FirstLessStep(a + c, b + d);
      LessByParts(a[1..], b[1..], c, d);
      assert (a + c)[1..] == a[1..] + c && (b + d)[1..] == b[1..] + d;
      assert a == [a[0]] + a[1..] && b == [b[0]] + b[1..];
    }
  }

  lemma {:induction false} PathByParts(p: seq<Hop>, q: seq<Hop>)
    ensures LexLeq(FlatPath(p), FlatPath(q)) <==> PathLeq(p, q)
  {
    if p == [] || q == [] {
    } else {
      var g, h := p[0], q[0];
      PathByParts(p[1..], q[1..]);
      HopByParts(g, h);
      LexByParts(g.node.key + [g.scid, g.fee, g.cltv], h.node.key + [h.scid, h.fee, h.cltv],
                 FlatPath(p[1..]), FlatPath(q[1..]));
    }
  }

  /** Entries compare by cost, then node, then path. */
  lemma LeqIsTupleOrder(x: Entry, y: Entry)
    ensures Leq(x, y) <==>
            || x.cost < y.cost
            || (x.cost == y.cost && NodeLess(x.node, y.node))
            || (x.cost == y.cost && x.node == y.node && PathLeq(x.path, y.path))
  {
    var a, b := [x.cost], [y.cost];
    LexByParts(a + x.node.key, b + y.node.key, FlatPath(x.path), FlatPath(y.path));
    LessByParts(a, b, x.node.key, y.node.key);
    FirstLessStep(a, b);
    PathByParts(x.path, y.path);
    assert a + x.node.key == b + y.node.key <==> x.cost == y.cost && x.node == y.node by {
      assert (a + x.node.key)[0] == x.cost && (b + y.node.key)[0] == y.cost;
      assert (a + x.node.key)[1..] == x.node.key && (b + y.node.key)[1..] == y.node.key;
    }
  }
}
