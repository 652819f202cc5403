/**
 When the route finder is optimal, decided by the channels alone: exactly when
 no simple path from our node to the destination has more than six hops.
 */
module RouteTopology {
  import opened Numbers
  import opened RouteGraph
  import opened RouteSearch
  import opened RouteWalks
  import opened RouteSoundness
  import opened RouteOptimality

  function NetFor(edges: seq<Edge>, amount: u64, source: NodeId, dest: NodeId): Net {
    Net(Priced(amount, edges), source, dest)
  }

  ghost predicate Joined(edges: seq<Edge>, a: NodeId, b: NodeId) {
    exists e :: e in edges && e.source == a && e.target == b
  }

  /** A sequence of distinct nodes, each joined to the next, from one node to another. */
  ghost predicate IsTrail(edges: seq<Edge>, ns: seq<NodeId>, source: NodeId, dest: NodeId) {
    && |ns| > 0 && ns[0] == source && ns[|ns| - 1] == dest && NoRepeats(ns)
    && forall k :: 0 <= k < |ns| - 1 ==> Joined(edges, ns[k], ns[k + 1])
  }

  /** No trail has more than six hops, that is, seven nodes. */
  ghost predicate ShortTrails(edges: seq<Edge>, source: NodeId, dest: NodeId) {
    forall ns :: IsTrail(edges, ns, source, dest) ==> |ns| <= MAX_HOPS + 1
  }

  /** The same channel directions with other fees. */
  ghost predicate Repriced(edges: seq<Edge>, other: seq<Edge>) {
    && |edges| == |other|
    && forall i :: 0 <= i < |edges| ==> other[i].(baseMsat := edges[i].baseMsat, ppm := edges[i].ppm) == edges[i]
  }

  function Trail(net: Net, q: seq<Hop>): (ns: seq<NodeId>)
    ensures |ns| == |q| + 1 && forall k :: 0 <= k <= |q| ==> ns[k] == NodeAt(net, q, k)
  {
    seq(|q| + 1, k requires 0 <= k <= |q| => NodeAt(net, q, k))
  }

  /** A link of a priced net is one of the edges, priced. */
  lemma LinkIsEdge(edges: seq<Edge>, amount: u64, l: Link) returns (i: nat)
    requires l in Priced(amount, edges)
    ensures i < |edges| && l == Price(amount, edges[i]) && edges[i] in edges
  {
    i :| 0 <= i < |edges| && l == Price(amount, edges[i]);
  }

  lemma WalkIsTrail(edges: seq<Edge>, amount: u64, source: NodeId, dest: NodeId, q: seq<Hop>)
    requires IsWalk(NetFor(edges, amount, source, dest), q) && IsSimple(NetFor(edges, amount, source, dest), q)
    ensures var net := NetFor(edges, amount, source, dest);
      IsTrail(edges, Trail(net, q), source, End(net, q))
  {
    var net := NetFor(edges, amount, source, dest);
    var ns := Trail(net, q);
    forall k | 0 <= k < |ns| - 1 ensures Joined(edges, ns[k], ns[k + 1]) {
      assert HopAt(net, q, k);
      var l :| l in net.links && l.source == NodeAt(net, q, k) && HopOf(l) == q[k];
      var i := LinkIsEdge(edges, amount, l);
    }
  }

  /** On short trails the first route of any query is optimal. */
  lemma ShortTrailsSuffice(edges: seq<Edge>, amount: u64, source: NodeId, dest: NodeId)
    requires source != dest && ShortTrails(edges, source, dest)
    ensures !SomeLongWalk(NetFor(edges, amount, source, dest), dest)
    ensures LongWalksAreDearer(NetFor(edges, amount, source, dest))
    ensures FirstIsOptimal(NetFor(edges, amount, source, dest))
  {
    var net := NetFor(edges, amount, source, dest);
    if q :| IsLongWalk(net, q, dest) { WalkIsTrail(edges, amount, source, dest, q); }
    forall p | IsWalkToDest(net, p) ensures FirstIsNoDearer(net, 1, p) { FirstRouteIsOptimal(net, 1, p); }
  }

  // ---------- fees that a long trail makes the finder get wrong ----------

  function StepAt(ns: seq<NodeId>, k: nat): (NodeId, NodeId)
    requires k + 1 < |ns|
  {
    (ns[k], ns[k + 1])
  }

  function Steps(ns: seq<NodeId>): set<(NodeId, NodeId)> {
    set k | 0 <= k < |ns| - 1 :: StepAt(ns, k)
  }

  /** One millisatoshi everywhere except for the steps given, which are free. */
  function FreeOn(edges: seq<Edge>, steps: set<(NodeId, NodeId)>): seq<Edge> {
    seq(|edges|, i requires 0 <= i < |edges| =>
      edges[i].(baseMsat := if (edges[i].source, edges[i].target) in steps then 0 else 1, ppm := 0))
  }

  lemma FreeOnFees(edges: seq<Edge>, steps: set<(NodeId, NodeId)>, amount: u64)
    ensures Repriced(edges, FreeOn(edges, steps))
    ensures forall l :: l in Priced(amount, FreeOn(edges, steps)) ==>
              l.fee == if (l.source, l.target) in steps then 0 else 1
  {
  }

  /** The trail, walked for free, passes only through nodes before its `n`th. */
  lemma {:induction false} FreeWalk(edges: seq<Edge>, ns: seq<NodeId>, amount: u64, source: NodeId, dest: NodeId,
                                    end: NodeId, n: nat)
      returns (q: seq<Hop>)
    requires IsTrail(edges, ns, source, end) && n < |ns|
    ensures var net := NetFor(FreeOn(edges, Steps(ns)), amount, source, dest);
      && IsWalk(net, q) && End(net, q) == ns[n] && Cost(q) == 0
      && |q| == n && forall k :: 0 <= k <= n ==> NodeAt(net, q, k) == ns[k]
  {
    var net := NetFor(FreeOn(edges, Steps(ns)), amount, source, dest);
    q := [];
    if n == 0 {
    } else {
      q := FreeWalk(edges, ns, amount, source, dest, end, n - 1);
      assert Joined(edges, ns[n - 1], ns[n - 1 + 1]);
      var i :| 0 <= i < |edges| && edges[i].source == ns[n - 1] && edges[i].target == ns[n];
      var l := net.links[i];
      FreeOnFees(edges, Steps(ns), amount);
      assert l in Priced(amount, FreeOn(edges, Steps(ns))) && StepAt(ns, n - 1) in Steps(ns);
      assert IsHop(net, End(net, q), HopOf(l));
      AppendHop(net, q, HopOf(l));
      AppendNodes(net, q, HopOf(l));
      q := q + [HopOf(l)];
    }
  }

  /** A free walk can only follow the trail, wherever the query is bound for. */
  lemma {:induction false} FreeMeansOnTrail(
      edges: seq<Edge>, ns: seq<NodeId>, amount: u64, end: NodeId, net: Net, p: seq<Hop>)
    requires IsTrail(edges, ns, net.source, end) && net.links == Priced(amount, FreeOn(edges, Steps(ns)))
    requires IsWalk(net, p) && Cost(p) == 0
    ensures |p| < |ns| && End(net, p) == ns[|p|]
  {
    if p == [] {
    } else {
      var n := |p| - 1;
      PrefixIsWalk(net, p, n);
      assert HopAt(net, p, n);
      FreeMeansOnTrail(edges, ns, amount, end, net, p[..n]);
      assert p[n].fee == 0 && Cost(p[..n]) == 0;
      FreeHop(edges, ns, amount, end, net, p, n);
    }
  }

  lemma FreeHop(edges: seq<Edge>, ns: seq<NodeId>, amount: u64, end: NodeId, net: Net, p: seq<Hop>, n: nat)
    requires IsTrail(edges, ns, net.source, end) && net.links == Priced(amount, FreeOn(edges, Steps(ns)))
    requires n < |ns| && n < |p| && p[n].fee == 0 && HopAt(net, p, n) && NodeAt(net, p, n) == ns[n]
    ensures n + 1 < |ns| && p[n].node == ns[n + 1]
  {
    var l :| l in net.links && l.source == NodeAt(net, p, n) && HopOf(l) == p[n];
    FreeOnFees(edges, Steps(ns), amount);
    TrailGoesOn(ns, n, l.target);
  }

  lemma TrailGoesOn(ns: seq<NodeId>, n: nat, b: NodeId)
    requires NoRepeats(ns) && n < |ns| && (ns[n], b) in Steps(ns)
    ensures n + 1 < |ns| && b == ns[n + 1]
  {
    var k :| 0 <= k < |ns| - 1 && ns[k] == ns[n] && ns[k + 1] == b;
    assert k == n;
  }

  lemma LongTrailMisleads(edges: seq<Edge>, ns: seq<NodeId>, amount: u64, source: NodeId, dest: NodeId)
    requires IsTrail(edges, ns, source, dest) && |ns| > MAX_HOPS + 1
    ensures !FirstIsOptimal(NetFor(FreeOn(edges, Steps(ns)), amount, source, dest))
  {
    var net := NetFor(FreeOn(edges, Steps(ns)), amount, source, dest);
    var q := FreeWalk(edges, ns, amount, source, dest, dest, |ns| - 1);
    if FirstIsOptimal(net) {
      assert IsWalkToDest(net, q) && FirstIsNoDearer(net, 1, q);
      RoutesAreSound(net, 1);
      var r := Routes(net, 1)[0];
      assert IsRoute(net, r);
      FreeMeansOnTrail(edges, ns, amount, dest, net, r.path);
    }
  }

  /**
   The first route is optimal for every fee the channels could charge exactly
   when no simple path to the destination has more than six hops.
   */
  lemma OptimalForAllFeesIff(edges: seq<Edge>, amount: u64, source: NodeId, dest: NodeId)
    requires source != dest
    ensures ShortTrails(edges, source, dest) <==>
            forall other :: Repriced(edges, other) ==> FirstIsOptimal(NetFor(other, amount, source, dest))
  {
    if ShortTrails(edges, source, dest) {
      forall other | Repriced(edges, other) ensures FirstIsOptimal(NetFor(other, amount, source, dest)) {
        RepricingKeepsTrails(edges, other, source, dest);
        ShortTrailsSuffice(other, amount, source, dest);
      }
    } else {
      var ns :| IsTrail(edges, ns, source, dest) && |ns| > MAX_HOPS + 1;
      FreeOnFees(edges, Steps(ns), amount);
      LongTrailMisleads(edges, ns, amount, source, dest);
    }
  }

  lemma RepricedTrail(edges: seq<Edge>, other: seq<Edge>, ns: seq<NodeId>, source: NodeId, dest: NodeId)
    requires Repriced(edges, other) && IsTrail(other, ns, source, dest)
    ensures IsTrail(edges, ns, source, dest)
  {
    forall k | 0 <= k < |ns| - 1 ensures Joined(edges, ns[k], ns[k + 1]) {
      assert Joined(other, ns[k], ns[k + 1]);
      var i :| 0 <= i < |other| && other[i].source == ns[k] && other[i].target == ns[k + 1];
      assert edges[i] in edges;
    }
  }

  lemma RepricingKeepsTrails(edges: seq<Edge>, other: seq<Edge>, source: NodeId, dest: NodeId)
    requires Repriced(edges, other) && ShortTrails(edges, source, dest)
    ensures ShortTrails(other, source, dest)
  {
    forall ns | IsTrail(other, ns, source, dest) ensures |ns| <= MAX_HOPS + 1 {
      RepricedTrail(edges, other, ns, source, dest);
    }
  }

  // ---------- small graphs ----------

  function Nodes(edges: seq<Edge>): set<NodeId> {
    (set e | e in edges :: e.source) + (set e | e in edges :: e.target)
  }

  lemma {:induction false} DistinctCount<T>(xs: seq<T>, s: set<T>)
    requires NoRepeats(xs) && forall x :: x in xs ==> x in s
    ensures |xs| <= |s|
  {
    if xs == [] {
    } else {
      var init, last := xs[..|xs| - 1], xs[|xs| - 1];
      DistinctCount(init, s - {last});
      assert s == (s - {last}) + {last};
    }
  }

  /** A graph of at most seven nodes has only short trails. */
  lemma SevenNodesSuffice(edges: seq<Edge>, source: NodeId, dest: NodeId)
    requires source != dest && |Nodes(edges)| <= MAX_HOPS + 1
    ensures ShortTrails(edges, source, dest)
  {
    forall ns | IsTrail(edges, ns, source, dest) ensures |ns| <= MAX_HOPS + 1 {
      forall x | x in ns ensures x in Nodes(edges) {
        var k :| 0 <= k < |ns| && ns[k] == x;
        var j := if k < |ns| - 1 then k else k - 1;
        assert Joined(edges, ns[j], ns[j + 1]);
      }
      DistinctCount(ns, Nodes(edges));
    }
  }
}
