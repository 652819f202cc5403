/**
 When the route finder finds a route at all, decided by the channels alone:
 under any fees, exactly when no tree of trails can keep it from the destination.
 */
module RouteBlocking {
  import opened Numbers
  import opened RouteGraph
  import opened RouteSearch
  import opened RouteWalks
  import opened RouteInvariants
  import opened RouteTree
  import opened RouteTopology

  /**
   Trails of at most six hops, each extending another of them, to nodes other
   than the destination; and every edge from a node within five hops stays among
   those nodes.
   */
  ghost predicate IsBlocking(edges: seq<Edge>, tree: map<NodeId, seq<NodeId>>, source: NodeId, dest: NodeId) {
    && source in tree && dest !in tree
    && (forall u :: u in tree ==> IsTrail(edges, tree[u], source, u) && |tree[u]| <= MAX_HOPS + 1)
    && (forall u, k :: u in tree && 0 < k <= |tree[u]| ==> IsPrefixIn(tree, tree[u], k))
    && (forall e :: e in edges && e.source in tree && |tree[e.source]| <= MAX_HOPS ==> e.target in tree)
  }

  ghost predicate IsPrefixIn(tree: map<NodeId, seq<NodeId>>, ns: seq<NodeId>, k: nat)
    requires 0 < k <= |ns|
  {
    ns[k - 1] in tree && tree[ns[k - 1]] == ns[..k]
  }

  ghost predicate Blockable(edges: seq<Edge>, source: NodeId, dest: NodeId) {
    exists tree :: IsBlocking(edges, tree, source, dest)
  }

  // ---------- a capped tree without a gate is such a tree of trails ----------

  ghost function Trails(net: Net, tree: map<NodeId, Entry>): map<NodeId, seq<NodeId>> {
    map u | u in tree :: Trail(net, tree[u].path)
  }

  lemma TrailPrefix(net: Net, tree: map<NodeId, Entry>, u: NodeId, k: nat)
    requires IsCappedTree(net, tree) && u in tree && 0 < k <= |tree[u].path| + 1
    ensures IsPrefixIn(Trails(net, tree), Trail(net, tree[u].path), k)
  {
    var p := tree[u].path;
    TreeWay(net, tree, u);
    if k <= |p| {
      assert TracedAt(net, tree, tree[u], k - 1);
      assert Trail(net, p)[..k] == Trail(net, p[..k - 1]);
    } else {
      assert Trail(net, p)[..k] == Trail(net, p);
    }
  }

  lemma TrailsBlock(edges: seq<Edge>, other: seq<Edge>, amount: u64, source: NodeId, dest: NodeId,
                    tree: map<NodeId, Entry>)
    requires Repriced(edges, other)
    requires var net := NetFor(other, amount, source, dest);
      IsCappedTree(net, tree) && !HasGate(net, tree)
    ensures IsBlocking(edges, Trails(NetFor(other, amount, source, dest), tree), source, dest)
  {
    var net := NetFor(other, amount, source, dest);
    var trails := Trails(net, tree);
    forall u | u in tree ensures IsTrail(edges, trails[u], source, u) {
      TreeWay(net, tree, u);
      WalkIsTrail(other, amount, source, dest, tree[u].path);
      RepricedTrail(edges, other, trails[u], source, u);
    }
    forall u, k | u in tree && 0 < k <= |trails[u]| ensures IsPrefixIn(trails, trails[u], k) {
      TrailPrefix(net, tree, u, k);
    }
    forall e | e in edges && e.source in tree && |trails[e.source]| <= MAX_HOPS ensures e.target in tree {
      var i :| 0 <= i < |edges| && edges[i] == e;
      StaysInTree(net, tree, net.links[i]);
    }
  }

  lemma StaysInTree(net: Net, tree: map<NodeId, Entry>, l: Link)
    requires IsCappedTree(net, tree) && !HasGate(net, tree) && l in net.links && l.source in Near(tree)
    ensures l.target in tree
  {
    if l.target != net.dest { assert NoBetterBy(tree, l); }
  }

  // ---------- fees under which a tree of trails keeps the finder out ----------

  function TreeSteps(tree: map<NodeId, seq<NodeId>>): set<(NodeId, NodeId)> {
    set u | u in tree && |tree[u]| >= 2 :: (tree[u][|tree[u]| - 2], u)
  }

  ghost function FreeNet(edges: seq<Edge>, tree: map<NodeId, seq<NodeId>>, amount: u64, source: NodeId, dest: NodeId)
    : Net
  {
    NetFor(FreeOn(edges, TreeSteps(tree)), amount, source, dest)
  }

  lemma OursAlone(edges: seq<Edge>, tree: map<NodeId, seq<NodeId>>, source: NodeId, dest: NodeId)
    requires IsBlocking(edges, tree, source, dest)
    ensures |tree[source]| == 1
  {
    var ns := tree[source];
    assert ns[0] == ns[|ns| - 1];
  }

  /** The node before the last on a trail of the tree. */
  lemma Before(edges: seq<Edge>, tree: map<NodeId, seq<NodeId>>, source: NodeId, dest: NodeId, u: NodeId)
      returns (w: NodeId)
    requires IsBlocking(edges, tree, source, dest) && u in tree && |tree[u]| >= 2
    ensures w in tree && w == tree[u][|tree[u]| - 2] && |tree[w]| == |tree[u]| - 1 && Joined(edges, w, u)
  {
    var n := |tree[u]| - 1;
    w := tree[u][n - 1];
    assert IsPrefixIn(tree, tree[u], n);
    assert Joined(edges, tree[u][n - 1], tree[u][n - 1 + 1]);
  }

  /** A free walk stays in the tree, at its own depth. */
  lemma {:induction false} FreeMeansInTree(
      edges: seq<Edge>, tree: map<NodeId, seq<NodeId>>, amount: u64, source: NodeId, dest: NodeId, p: seq<Hop>)
    requires IsBlocking(edges, tree, source, dest)
    requires IsWalk(FreeNet(edges, tree, amount, source, dest), p) && Cost(p) == 0
    ensures var u := End(FreeNet(edges, tree, amount, source, dest), p);
      u in tree && |tree[u]| == |p| + 1
  {
    var net, n := FreeNet(edges, tree, amount, source, dest), |p| - 1;
    if p == [] {
      OursAlone(edges, tree, source, dest);
    } else {
      PrefixIsWalk(net, p, n);
      FreeMeansInTree(edges, tree, amount, source, dest, p[..n]);
      assert HopAt(net, p, n);
      var l :| l in net.links && l.source == NodeAt(net, p, n) && HopOf(l) == p[n];
      FreeOnFees(edges, TreeSteps(tree), amount);
      assert (l.source, l.target) in TreeSteps(tree);
      var w := Before(edges, tree, source, dest, l.target);
    }
  }

  /** The link of the free net for a step of the tree. */
  lemma FreeLink(edges: seq<Edge>, tree: map<NodeId, seq<NodeId>>, amount: u64, source: NodeId, dest: NodeId, u: NodeId)
      returns (w: NodeId, l: Link)
    requires IsBlocking(edges, tree, source, dest) && u in tree && |tree[u]| >= 2
    ensures w in tree && |tree[w]| == |tree[u]| - 1
    ensures l in FreeNet(edges, tree, amount, source, dest).links && l.source == w && l.target == u && l.fee == 0
  {
    w := Before(edges, tree, source, dest, u);
    var i :| 0 <= i < |edges| && edges[i].source == w && edges[i].target == u;
    l := FreeNet(edges, tree, amount, source, dest).links[i];
    FreeOnFees(edges, TreeSteps(tree), amount);
    assert (w, u) in TreeSteps(tree);
  }

  /** Whatever capped tree the search grows there, it has every node of this one, for free. */
  lemma {:induction false} TreeIsExplored(edges: seq<Edge>, tree: map<NodeId, seq<NodeId>>, amount: u64, source: NodeId,
                                          dest: NodeId, grown: map<NodeId, Entry>, u: NodeId)
    requires IsBlocking(edges, tree, source, dest) && u in tree
    requires IsCappedTree(FreeNet(edges, tree, amount, source, dest), grown)
    ensures u in grown && grown[u].cost == 0 && |grown[u].path| == |tree[u]| - 1
    decreases |tree[u]|
  {
    var net := FreeNet(edges, tree, amount, source, dest);
    if |tree[u]| == 1 {
      OursIsEmpty(net, grown);
    } else {
      var w, l := FreeLink(edges, tree, amount, source, dest, u);
      TreeIsExplored(edges, tree, amount, source, dest, grown, w);
      assert NoBetterBy(grown, l);
      TreeWay(net, grown, u);
      FreeMeansInTree(edges, tree, amount, source, dest, grown[u].path);
    }
  }

  /** And no other. */
  lemma {:induction false} NoMoreIsExplored(edges: seq<Edge>, tree: map<NodeId, seq<NodeId>>, amount: u64,
                                            source: NodeId, dest: NodeId, grown: map<NodeId, Entry>, u: NodeId)
    requires IsBlocking(edges, tree, source, dest) && u in grown
    requires IsCappedTree(FreeNet(edges, tree, amount, source, dest), grown)
    ensures u in tree
    decreases |grown[u].path|
  {
    if u == source {
    } else {
      var l := Parent(FreeNet(edges, tree, amount, source, dest), grown, u);
      NoMoreIsExplored(edges, tree, amount, source, dest, grown, l.source);
      LinkStays(edges, tree, amount, source, dest, grown, l);
    }
  }

  lemma LinkStays(edges: seq<Edge>, tree: map<NodeId, seq<NodeId>>, amount: u64, source: NodeId, dest: NodeId,
                  grown: map<NodeId, Entry>, l: Link)
    requires IsBlocking(edges, tree, source, dest)
    requires IsCappedTree(FreeNet(edges, tree, amount, source, dest), grown)
    requires l in FreeNet(edges, tree, amount, source, dest).links && l.source in Near(grown) && l.source in tree
    ensures l.target in tree
  {
    TreeIsExplored(edges, tree, amount, source, dest, grown, l.source);
    var i := LinkIsEdge(FreeOn(edges, TreeSteps(tree)), amount, l);
    assert edges[i] in edges;
  }

  lemma BlockingTreeMisleads(edges: seq<Edge>, tree: map<NodeId, seq<NodeId>>, amount: u64,
                             source: NodeId, dest: NodeId, maxRoutes: nat)
    requires IsBlocking(edges, tree, source, dest)
    ensures Routes(FreeNet(edges, tree, amount, source, dest), maxRoutes) == []
  {
    var net := FreeNet(edges, tree, amount, source, dest);
    SomeTreeAnswers(net);
    var grown :| IsCappedTree(net, grown) && AnswersComeFrom(net, grown);
    forall l | l in net.links && l.source in Near(grown) ensures l.target != dest {
      NoMoreIsExplored(edges, tree, amount, source, dest, grown, l.source);
      LinkStays(edges, tree, amount, source, dest, grown, l);
    }
    if maxRoutes >= 1 { GateMeansAnswer(net, grown, maxRoutes); } else { FewerRoutesIsAPrefix(net, 0, 0); }
  }

  /**
   A route is found under every fee the channels could charge exactly when no
   tree of trails keeps the finder from the destination.
   */
  lemma FoundForAllFeesIff(edges: seq<Edge>, amount: u64, source: NodeId, dest: NodeId)
    requires source != dest
    ensures !Blockable(edges, source, dest) <==>
            forall other :: Repriced(edges, other) ==> Routes(NetFor(other, amount, source, dest), 1) != []
  {
    if tree :| IsBlocking(edges, tree, source, dest) {
      FreeOnFees(edges, TreeSteps(tree), amount);
      BlockingTreeMisleads(edges, tree, amount, source, dest, 1);
    }
    if other :| Repriced(edges, other) && Routes(NetFor(other, amount, source, dest), 1) == [] {
      var net := NetFor(other, amount, source, dest);
      EmptyMeansBlocked(net, 1);
      var tree :| IsCappedTree(net, tree) && !HasGate(net, tree);
      TrailsBlock(edges, other, amount, source, dest, tree);
    }
  }
}
