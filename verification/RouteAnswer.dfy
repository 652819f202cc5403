/**
 The answer of `find_routes` in the terms of the channel graph: paths of channel
 directions, what they cost, and how a returned route shows one.
 */
module RouteAnswer {
  import opened Numbers
  import opened Options
  import opened RouteGraph
  import opened RouteSearch
  import opened RouteWalks
  import opened RouteInvariants
  import opened RouteSoundness
  import opened RouteOptimality
  import opened RouteTree
  import opened RouteTopology
  import Hex
  import Scid

  datatype RouteHop = RouteHop(pubkey: string, shortChannelId: string, fee: u64, expiry: u16)

  datatype FoundRoute = FoundRoute(totalFee: u64, totalTimeLock: u32, hops: seq<RouteHop>)

  // ---------- what an answer has to be ----------

  /** Admitted directions of listed channels, each leaving where the one before arrives. */
  ghost predicate IsPath(graph: Graph, amount: u64, es: seq<Edge>, a: NodeId, b: NodeId) {
    (forall k :: 0 <= k < |es| ==> IsPathAt(graph, amount, es, a, k)) && PathNode(es, a, |es|) == b
  }

  ghost predicate IsPathAt(graph: Graph, amount: u64, es: seq<Edge>, a: NodeId, k: nat)
    requires k < |es|
  {
    IsDirection(es[k], graph.scids, graph.channels, amount) && es[k].source == PathNode(es, a, k)
  }

  function PathNode(es: seq<Edge>, a: NodeId, k: nat): NodeId
    requires k <= |es|
  {
    if k == 0 then a else es[k - 1].target
  }

  ghost predicate IsSimplePath(graph: Graph, amount: u64, es: seq<Edge>, a: NodeId, b: NodeId) {
    && IsPath(graph, amount, es, a, b)
    && forall i, j :: 0 <= i < j <= |es| ==> PathNode(es, a, i) != PathNode(es, a, j)
  }

  function DirectionFee(amount: u64, e: Edge): u64 {
    e.baseMsat + (amount * e.ppm % 0x1_0000_0000_0000_0000) / 1_000_000
  }

  function PathFee(amount: u64, es: seq<Edge>): nat {
    if es == [] then 0 else DirectionFee(amount, es[0]) + PathFee(amount, es[1..])
  }

  function FeeSum(hops: seq<RouteHop>): nat { if hops == [] then 0 else hops[0].fee + FeeSum(hops[1..]) }

  function ExpirySum(hops: seq<RouteHop>): nat { if hops == [] then 0 else hops[0].expiry + ExpirySum(hops[1..]) }

  ghost predicate ShowsHop(h: RouteHop, amount: u64, e: Edge) {
    h == RouteHop(Hex.Encode(e.target.key), Scid.Format(e.scid), DirectionFee(amount, e), e.cltv)
  }

  ghost predicate ShowHops(hops: seq<RouteHop>, amount: u64, es: seq<Edge>) {
    |hops| == |es| && forall k :: 0 <= k < |es| ==> ShowsHop(hops[k], amount, es[k])
  }

  /** The route names the directions of the path in order, and its totals are the sums over its hops. */
  ghost predicate Shows(r: FoundRoute, amount: u64, es: seq<Edge>) {
    && ShowHops(r.hops, amount, es)
    && r.totalFee == FeeSum(r.hops) == PathFee(amount, es) && r.totalTimeLock == ExpirySum(r.hops)
  }

  /** The route shows a simple path of one to six channels. */
  ghost predicate IsShown(graph: Graph, source: NodeId, dest: NodeId, amount: u64, r: FoundRoute) {
    exists es :: IsSimplePath(graph, amount, es, source, dest) && 1 <= |es| <= 6 && Shows(r, amount, es)
  }

  ghost predicate AreShown(graph: Graph, source: NodeId, dest: NodeId, amount: u64, found: seq<FoundRoute>) {
    && (forall i :: 0 <= i < |found| ==> IsShown(graph, source, dest, amount, found[i]))
    && (forall i, j :: 0 <= i < j < |found| ==> found[i].totalFee <= found[j].totalFee)
  }

  ghost predicate FirstCostsAtMost(found: seq<FoundRoute>, c: nat) { found != [] && found[0].totalFee <= c }

  /** A simple path of more than six channels costs at most `c`. */
  ghost predicate LongPathWithin(graph: Graph, source: NodeId, dest: NodeId, amount: u64, c: nat) {
    exists es :: IsSimplePath(graph, amount, es, source, dest) && |es| > 6 && PathFee(amount, es) <= c
  }

  /** The first route is no dearer than any path, or else than any without a long simple path as cheap. */
  ghost predicate FirstIsBest(graph: Graph, source: NodeId, dest: NodeId, amount: u64, found: seq<FoundRoute>) {
    forall es :: IsPath(graph, amount, es, source, dest) ==>
      || FirstCostsAtMost(found, PathFee(amount, es))
      || LongPathWithin(graph, source, dest, amount, PathFee(amount, es))
  }

  // ---------- paths and walks ----------

  function HopsOf(amount: u64, es: seq<Edge>): seq<Hop> {
    seq(|es|, k requires 0 <= k < |es| => HopOf(Price(amount, es[k])))
  }

  ghost function NetOf(graph: Graph, source: NodeId, dest: NodeId, amount: u64): Net {
    NetFor(AdmittedEdges(graph.scids, graph.channels, amount), amount, source, dest)
  }

  lemma PathFeeSplit(amount: u64, es: seq<Edge>)
    requires es != []
    ensures PathFee(amount, es) == PathFee(amount, es[..|es| - 1]) + DirectionFee(amount, es[|es| - 1])
  {
    if |es| == 1 {
      assert es[1..] == [];
    } else {
      PathFeeSplit(amount, es[1..]);
      assert es[1..][..|es| - 2] == es[..|es| - 1][1..];
    }
  }

  lemma {:induction false} PathCost(amount: u64, es: seq<Edge>)
    ensures Cost(HopsOf(amount, es)) == PathFee(amount, es)
  {
    if es == [] {
    } else {
      var n := |es| - 1;
      PathCost(amount, es[..n]);
      PathFeeSplit(amount, es);
      assert HopsOf(amount, es)[..n] == HopsOf(amount, es[..n]);
    }
  }

  lemma PathNodes(net: Net, amount: u64, es: seq<Edge>)
    ensures forall k :: 0 <= k <= |es| ==> NodeAt(net, HopsOf(amount, es), k) == PathNode(es, net.source, k)
  {
  }

  /** A direction is a hop of the priced graph. */
  lemma DirectionIsHop(graph: Graph, source: NodeId, dest: NodeId, amount: u64, e: Edge)
    requires IsDirection(e, graph.scids, graph.channels, amount)
    ensures IsHop(NetOf(graph, source, dest, amount), e.source, HopOf(Price(amount, e)))
  {
    var edges := AdmittedEdges(graph.scids, graph.channels, amount);
    EdgesAreDirections(graph.scids, graph.channels, amount, e);
    var i :| 0 <= i < |edges| && edges[i] == e;
    assert NetOf(graph, source, dest, amount).links[i] == Price(amount, e);
  }

  lemma HopIsDirection(graph: Graph, source: NodeId, dest: NodeId, amount: u64, a: NodeId, h: Hop) returns (e: Edge)
    requires IsHop(NetOf(graph, source, dest, amount), a, h)
    ensures IsDirection(e, graph.scids, graph.channels, amount) && e.source == a && HopOf(Price(amount, e)) == h
  {
    var edges := AdmittedEdges(graph.scids, graph.channels, amount);
    var l :| l in NetOf(graph, source, dest, amount).links && l.source == a && HopOf(l) == h;
    var i := LinkIsEdge(edges, amount, l);
    e := edges[i];
    EdgesAreDirections(graph.scids, graph.channels, amount, e);
  }

  lemma PathIsWalk(graph: Graph, source: NodeId, dest: NodeId, amount: u64, es: seq<Edge>, b: NodeId)
    requires IsPath(graph, amount, es, source, b)
    ensures var net := NetOf(graph, source, dest, amount);
      var p := HopsOf(amount, es);
      IsWalk(net, p) && End(net, p) == b && Cost(p) == PathFee(amount, es)
  {
    var net, p := NetOf(graph, source, dest, amount), HopsOf(amount, es);
    PathCost(amount, es);
    PathNodes(net, amount, es);
    forall k | 0 <= k < |p| ensures HopAt(net, p, k) {
      assert IsPathAt(graph, amount, es, source, k);
      DirectionIsHop(graph, source, dest, amount, es[k]);
    }
  }

  /** The path is the first `k` hops of the walk. */
  ghost predicate Tracks(graph: Graph, net: Net, amount: u64, es: seq<Edge>, p: seq<Hop>, k: nat)
    requires k <= |p|
  {
    IsPath(graph, amount, es, net.source, NodeAt(net, p, k)) && HopsOf(amount, es) == p[..k]
  }

  lemma TrackHop(graph: Graph, source: NodeId, dest: NodeId, amount: u64, es: seq<Edge>, p: seq<Hop>, k: nat)
      returns (fs: seq<Edge>)
    requires k < |p| && IsWalk(NetOf(graph, source, dest, amount), p)
    requires Tracks(graph, NetOf(graph, source, dest, amount), amount, es, p, k)
    ensures Tracks(graph, NetOf(graph, source, dest, amount), amount, fs, p, k + 1)
  {
    var net := NetOf(graph, source, dest, amount);
    assert HopAt(net, p, k);
    fs := PathTo(graph, source, dest, amount, es, NodeAt(net, p, k), p[k]);
    assert p[..k + 1] == p[..k] + [p[k]];
  }

  /** The directions a walk takes. */
  lemma WalkIsPath(graph: Graph, source: NodeId, dest: NodeId, amount: u64, p: seq<Hop>) returns (es: seq<Edge>)
    requires IsWalk(NetOf(graph, source, dest, amount), p)
    ensures IsPath(graph, amount, es, source, End(NetOf(graph, source, dest, amount), p))
    ensures HopsOf(amount, es) == p
  {
    es := [];
    for k := 0 to |p|
      invariant Tracks(graph, NetOf(graph, source, dest, amount), amount, es, p, k)
    {
      es := TrackHop(graph, source, dest, amount, es, p, k);
    }
    assert p[..|p|] == p;
  }

  lemma PathTo(graph: Graph, source: NodeId, dest: NodeId, amount: u64, init: seq<Edge>, a: NodeId, h: Hop)
      returns (es: seq<Edge>)
    requires IsPath(graph, amount, init, source, a) && IsHop(NetOf(graph, source, dest, amount), a, h)
    ensures IsPath(graph, amount, es, source, h.node) && HopsOf(amount, es) == HopsOf(amount, init) + [h]
  {
    var e := HopIsDirection(graph, source, dest, amount, a, h);
    PathGrows(graph, amount, init, source, e);
    HopsGrow(amount, init, e);
    es := init + [e];
  }

  lemma HopsGrow(amount: u64, es: seq<Edge>, e: Edge)
    ensures HopsOf(amount, es + [e]) == HopsOf(amount, es) + [HopOf(Price(amount, e))]
  {
  }

  lemma PathGrows(graph: Graph, amount: u64, es: seq<Edge>, a: NodeId, e: Edge)
    requires IsPath(graph, amount, es, a, e.source) && IsDirection(e, graph.scids, graph.channels, amount)
    ensures IsPath(graph, amount, es + [e], a, e.target)
  {
    var fs := es + [e];
    forall k | 0 <= k < |fs| ensures IsPathAt(graph, amount, fs, a, k) {
      assert PathNode(fs, a, k) == PathNode(es, a, k);
      if k < |es| { assert IsPathAt(graph, amount, es, a, k); }
    }
  }

  /** Simple walks are simple paths and the other way round, at the same fee. */
  lemma SimpleWalkIsPath(graph: Graph, source: NodeId, dest: NodeId, amount: u64, p: seq<Hop>) returns (es: seq<Edge>)
    requires var net := NetOf(graph, source, dest, amount); IsWalk(net, p) && IsSimple(net, p)
    ensures IsSimplePath(graph, amount, es, source, End(NetOf(graph, source, dest, amount), p))
    ensures HopsOf(amount, es) == p && PathFee(amount, es) == Cost(p)
  {
    var net := NetOf(graph, source, dest, amount);
    es := WalkIsPath(graph, source, dest, amount, p);
    PathNodes(net, amount, es);
    PathCost(amount, es);
    forall i, j | 0 <= i < j <= |es| ensures PathNode(es, source, i) != PathNode(es, source, j) {
      assert NodeAt(net, p, i) != NodeAt(net, p, j);
    }
  }

  lemma SimplePathIsWalk(graph: Graph, source: NodeId, dest: NodeId, amount: u64, es: seq<Edge>)
    requires IsSimplePath(graph, amount, es, source, dest)
    ensures var net := NetOf(graph, source, dest, amount);
      IsWalkTo(net, HopsOf(amount, es), dest) && IsSimple(net, HopsOf(amount, es))
  {
    var net, p := NetOf(graph, source, dest, amount), HopsOf(amount, es);
    PathIsWalk(graph, source, dest, amount, es, dest);
    PathNodes(net, amount, es);
    forall k | 0 <= k < |p| ensures NodeAt(net, p, k) != dest {
      assert PathNode(es, source, k) != PathNode(es, source, |es|);
    }
  }

  // ---------- the answer as text ----------

  function RenderHop(h: Hop): RouteHop { RouteHop(Hex.Encode(h.node.key), Scid.Format(h.scid), h.fee, h.cltv) }

  function RenderHops(path: seq<Hop>): seq<RouteHop> {
    seq(|path|, i requires 0 <= i < |path| => RenderHop(path[i]))
  }

  /** Costs are kept in 64 bits; `RouteSumsAreExact` says that loses nothing. */
  function Render(x: Entry): FoundRoute { FoundRoute(Wrap64(x.cost), TimeLock(x.path), RenderHops(x.path)) }

  function RenderAll(routes: seq<Entry>): seq<FoundRoute> {
    seq(|routes|, i requires 0 <= i < |routes| => Render(routes[i]))
  }

  /** What a query answers; a destination that does not parse is `None`. */
  ghost function Answer(graph: Graph, source: NodeId, dest: Option<NodeId>, amount: u64, maxRoutes: nat)
    : seq<FoundRoute>
  {
    if dest.None? then [] else RenderAll(Routes(NetOf(graph, source, dest.value, amount), maxRoutes))
  }

  lemma {:induction false} FeeSumSplit(hops: seq<RouteHop>, h: RouteHop)
    ensures FeeSum(hops + [h]) == FeeSum(hops) + h.fee && ExpirySum(hops + [h]) == ExpirySum(hops) + h.expiry
  {
    if hops == [] {
      assert hops + [h] == [h] && [h][1..] == [];
    } else {
      FeeSumSplit(hops[1..], h);
      assert (hops + [h])[1..] == hops[1..] + [h];
    }
  }

  lemma {:induction false} SumsRender(p: seq<Hop>)
    ensures FeeSum(RenderHops(p)) == Cost(p) && ExpirySum(RenderHops(p)) == ExactTimeLock(p)
  {
    if p == [] {
    } else {
      var n := |p| - 1;
      SumsRender(p[..n]);
      FeeSumSplit(RenderHops(p[..n]), RenderHop(p[n]));
      assert RenderHops(p) == RenderHops(p[..n]) + [RenderHop(p[n])];
    }
  }

  lemma RouteIsShown(graph: Graph, source: NodeId, dest: NodeId, amount: u64, maxRoutes: nat, x: Entry)
    requires x in Routes(NetOf(graph, source, dest, amount), maxRoutes)
    ensures IsShown(graph, source, dest, amount, Render(x)) && Render(x).totalFee == x.cost
  {
    var net := NetOf(graph, source, dest, amount);
    RoutesAreSound(net, maxRoutes);
    RouteSumsAreExact(net, maxRoutes, x);
    assert IsRoute(net, x);
    var es := SimpleWalkIsPath(graph, source, dest, amount, x.path);
    RenderShows(x, amount, es);
  }

  lemma RenderShows(x: Entry, amount: u64, es: seq<Edge>)
    requires x.path == HopsOf(amount, es) && PathFee(amount, es) == Cost(x.path) == x.cost < TWO_64
    requires TimeLock(x.path) == ExactTimeLock(x.path)
    ensures Shows(Render(x), amount, es)
  {
    RenderTotals(x);
    HopsShow(amount, es);
  }

  lemma RenderTotals(x: Entry)
    requires x.cost == Cost(x.path) < TWO_64 && TimeLock(x.path) == ExactTimeLock(x.path)
    ensures var r := Render(x);
      r.totalFee == FeeSum(r.hops) == x.cost && r.totalTimeLock == ExpirySum(r.hops)
  {
    SumsRender(x.path);
  }

  lemma HopsShow(amount: u64, es: seq<Edge>)
    ensures ShowHops(RenderHops(HopsOf(amount, es)), amount, es)
  {
    forall k | 0 <= k < |es| ensures ShowsHop(RenderHop(HopsOf(amount, es)[k]), amount, es[k]) {
      HopShows(amount, es[k]);
    }
  }

  lemma HopShows(amount: u64, e: Edge)
    ensures ShowsHop(RenderHop(HopOf(Price(amount, e))), amount, e)
  {
  }

  /** Every answered route shows a simple path of one to six channels, with its exact totals, cheapest first. */
  lemma AnswerIsShown(graph: Graph, source: NodeId, dest: NodeId, amount: u64, maxRoutes: nat)
    ensures var found := Answer(graph, source, Some(dest), amount, maxRoutes);
      && |found| <= maxRoutes && (source == dest ==> found == [])
      && AreShown(graph, source, dest, amount, found)
  {
    var routes := Routes(NetOf(graph, source, dest, amount), maxRoutes);
    RoutesAreSound(NetOf(graph, source, dest, amount), maxRoutes);
    forall i | 0 <= i < |routes|
      ensures IsShown(graph, source, dest, amount, Render(routes[i])) && Render(routes[i]).totalFee == routes[i].cost
    {
      RouteIsShown(graph, source, dest, amount, maxRoutes, routes[i]);
    }
  }

  lemma FirstRendered(graph: Graph, source: NodeId, dest: NodeId, amount: u64, maxRoutes: nat, p: seq<Hop>)
    ensures FirstIsNoDearer(NetOf(graph, source, dest, amount), maxRoutes, p) <==>
            FirstCostsAtMost(Answer(graph, source, Some(dest), amount, maxRoutes), Cost(p))
  {
    var routes := Routes(NetOf(graph, source, dest, amount), maxRoutes);
    if routes != [] { RouteIsShown(graph, source, dest, amount, maxRoutes, routes[0]); }
  }

  lemma LongWalkIsPath(graph: Graph, source: NodeId, dest: NodeId, amount: u64, c: nat)
    ensures LongWalkWithin(NetOf(graph, source, dest, amount), dest, c) <==>
            LongPathWithin(graph, source, dest, amount, c)
  {
    var net := NetOf(graph, source, dest, amount);
    if q :| IsLongWalk(net, q, dest) && Cost(q) <= c {
      var es := SimpleWalkIsPath(graph, source, dest, amount, q);
      assert |es| == |HopsOf(amount, es)| == |q|;
    }
    if LongPathWithin(graph, source, dest, amount, c) { LongPathIsWalk(graph, source, dest, amount, c); }
  }

  lemma LongPathIsWalk(graph: Graph, source: NodeId, dest: NodeId, amount: u64, c: nat)
    requires LongPathWithin(graph, source, dest, amount, c)
    ensures LongWalkWithin(NetOf(graph, source, dest, amount), dest, c)
  {
    var es :| IsSimplePath(graph, amount, es, source, dest) && |es| > 6 && PathFee(amount, es) <= c;
    SimplePathIsWalk(graph, source, dest, amount, es);
    PathCost(amount, es);
    assert IsLongWalk(NetOf(graph, source, dest, amount), HopsOf(amount, es), dest);
  }

  /** No path beats the first answered route unless a simple path of more than six channels is as cheap. */
  lemma AnswerIsBest(graph: Graph, source: NodeId, dest: NodeId, amount: u64, maxRoutes: nat)
    requires source != dest && maxRoutes >= 1
    ensures FirstIsBest(graph, source, dest, amount, Answer(graph, source, Some(dest), amount, maxRoutes))
  {
    var found := Answer(graph, source, Some(dest), amount, maxRoutes);
    forall es | IsPath(graph, amount, es, source, dest)
      ensures FirstCostsAtMost(found, PathFee(amount, es))
              || LongPathWithin(graph, source, dest, amount, PathFee(amount, es))
    {
      var p := HopsOf(amount, es);
      PathIsWalk(graph, source, dest, amount, es, dest);
      FirstRouteOrLongWalk(NetOf(graph, source, dest, amount), maxRoutes, p);
      FirstRendered(graph, source, dest, amount, maxRoutes, p);
      LongWalkIsPath(graph, source, dest, amount, PathFee(amount, es));
    }
  }

  // ---------- optimal and empty answers, both ways ----------

  ghost predicate PathWithin(graph: Graph, source: NodeId, dest: NodeId, amount: u64, c: int) {
    exists es :: IsPath(graph, amount, es, source, dest) && PathFee(amount, es) <= c
  }

  ghost predicate ShortPathWithin(graph: Graph, source: NodeId, dest: NodeId, amount: u64, c: nat) {
    exists es :: IsSimplePath(graph, amount, es, source, dest) && |es| <= 6 && PathFee(amount, es) <= c
  }

  /** The least fee of any path is that of a simple path of at most six channels and of one of more. */
  ghost predicate PathsTie(graph: Graph, source: NodeId, dest: NodeId, amount: u64) {
    exists c: nat :: ShortPathWithin(graph, source, dest, amount, c) && LongPathWithin(graph, source, dest, amount, c)
                     && !PathWithin(graph, source, dest, amount, c - 1)
  }

  /** The first route costs no more than any path, and there is one if there is a path. */
  ghost predicate FirstIsLeast(graph: Graph, source: NodeId, dest: NodeId, amount: u64, found: seq<FoundRoute>) {
    forall es :: IsPath(graph, amount, es, source, dest) ==> FirstCostsAtMost(found, PathFee(amount, es))
  }

  /** Every simple path of more than six channels is dearer than some path. */
  ghost predicate LongPathsAreDearer(graph: Graph, source: NodeId, dest: NodeId, amount: u64) {
    forall c: nat :: LongPathWithin(graph, source, dest, amount, c) ==> PathWithin(graph, source, dest, amount, c - 1)
  }

  lemma WalkWithin(graph: Graph, source: NodeId, dest: NodeId, amount: u64, c: nat)
    ensures SomeCheaper(NetOf(graph, source, dest, amount), c) <==> PathWithin(graph, source, dest, amount, c - 1)
  {
    var net := NetOf(graph, source, dest, amount);
    if p :| IsWalkToDest(net, p) && Cost(p) < c {
      var es := WalkIsPath(graph, source, dest, amount, p);
      PathCost(amount, es);
    }
    if es :| IsPath(graph, amount, es, source, dest) && PathFee(amount, es) <= c - 1 {
      PathIsWalk(graph, source, dest, amount, es, dest);
      assert IsWalkToDest(net, HopsOf(amount, es));
    }
  }

  lemma DearerAsPaths(graph: Graph, source: NodeId, dest: NodeId, amount: u64)
    ensures LongWalksAreDearer(NetOf(graph, source, dest, amount)) <==> LongPathsAreDearer(graph, source, dest, amount)
  {
    var net := NetOf(graph, source, dest, amount);
    if LongPathsAreDearer(graph, source, dest, amount) {
      forall q | IsLongWalk(net, q, dest) ensures SomeCheaper(net, Cost(q)) {
        LongWalkIsPath(graph, source, dest, amount, Cost(q));
        WalkWithin(graph, source, dest, amount, Cost(q));
      }
    }
    if LongWalksAreDearer(net) {
      forall c: nat | LongPathWithin(graph, source, dest, amount, c)
        ensures PathWithin(graph, source, dest, amount, c - 1)
      {
        LongWalkIsPath(graph, source, dest, amount, c);
        var q :| IsLongWalk(net, q, dest) && Cost(q) <= c;
        WalkWithin(graph, source, dest, amount, Cost(q));
        var es :| IsPath(graph, amount, es, source, dest) && PathFee(amount, es) <= Cost(q) - 1;
        assert PathFee(amount, es) <= c - 1;
      }
    }
  }

  lemma TieAsPaths(graph: Graph, source: NodeId, dest: NodeId, amount: u64)
    requires LengthsTie(NetOf(graph, source, dest, amount))
    ensures PathsTie(graph, source, dest, amount)
  {
    var net := NetOf(graph, source, dest, amount);
    var c :| IsShortWalk(net, c) && IsCheapestWalk(net, c);
    var q :| IsLongWalk(net, q, dest) && IsCheapestWalk(net, q);
    assert Cost(q) <= Cost(c);
    LongWalkIsPath(graph, source, dest, amount, Cost(c));
    WalkWithin(graph, source, dest, amount, Cost(c));
    var es := SimpleWalkIsPath(graph, source, dest, amount, c);
    assert ShortPathWithin(graph, source, dest, amount, Cost(c));
  }

  lemma LeastAsWalks(graph: Graph, source: NodeId, dest: NodeId, amount: u64)
    ensures FirstIsOptimal(NetOf(graph, source, dest, amount)) <==>
            FirstIsLeast(graph, source, dest, amount, Answer(graph, source, Some(dest), amount, 1))
  {
    var net, found := NetOf(graph, source, dest, amount), Answer(graph, source, Some(dest), amount, 1);
    if FirstIsOptimal(net) {
      forall es | IsPath(graph, amount, es, source, dest) ensures FirstCostsAtMost(found, PathFee(amount, es)) {
        PathIsWalk(graph, source, dest, amount, es, dest);
        assert FirstIsNoDearer(net, 1, HopsOf(amount, es));
        FirstRendered(graph, source, dest, amount, 1, HopsOf(amount, es));
      }
    }
    if FirstIsLeast(graph, source, dest, amount, found) {
      forall p | IsWalkToDest(net, p) ensures FirstIsNoDearer(net, 1, p) {
        var es := WalkIsPath(graph, source, dest, amount, p);
        PathCost(amount, es);
        FirstRendered(graph, source, dest, amount, 1, p);
      }
    }
  }

  /** Where long paths are dearer the first of any number of routes is a cheapest path. */
  lemma AnswerIsLeast(graph: Graph, source: NodeId, dest: NodeId, amount: u64, maxRoutes: nat)
    requires source != dest && maxRoutes >= 1
    ensures LongPathsAreDearer(graph, source, dest, amount) ==>
              FirstIsLeast(graph, source, dest, amount, Answer(graph, source, Some(dest), amount, maxRoutes))
  {
    var net := NetOf(graph, source, dest, amount);
    DearerAsPaths(graph, source, dest, amount);
    if LongWalksAreDearer(net) {
      forall es | IsPath(graph, amount, es, source, dest)
        ensures FirstCostsAtMost(Answer(graph, source, Some(dest), amount, maxRoutes), PathFee(amount, es))
      {
        PathIsWalk(graph, source, dest, amount, es, dest);
        FirstRouteIsOptimal(net, maxRoutes, HopsOf(amount, es));
        FirstRendered(graph, source, dest, amount, maxRoutes, HopsOf(amount, es));
      }
    }
  }

  /** Unless short and long paths tie, the one route asked for is a cheapest path exactly when long ones are dearer. */
  lemma AnswerIsLeastIff(graph: Graph, source: NodeId, dest: NodeId, amount: u64)
    requires source != dest
    ensures var found := Answer(graph, source, Some(dest), amount, 1);
      && (LongPathsAreDearer(graph, source, dest, amount) ==> FirstIsLeast(graph, source, dest, amount, found))
      && (!PathsTie(graph, source, dest, amount) ==>
            (FirstIsLeast(graph, source, dest, amount, found) <==> LongPathsAreDearer(graph, source, dest, amount)))
  {
    var net := NetOf(graph, source, dest, amount);
    LeastAsWalks(graph, source, dest, amount);
    DearerAsPaths(graph, source, dest, amount);
    if LongWalksAreDearer(net) { DearerMeansOptimal(net); }
    if LengthsTie(net) { TieAsPaths(graph, source, dest, amount); } else { OptimalIff(net); }
  }

  /** The number of routes and their fees are those of the cheapest edges from a capped tree into the destination. */
  lemma AnswerComesFromTree(graph: Graph, source: NodeId, dest: NodeId, amount: u64)
    requires source != dest
    ensures exists tree ::
              IsCappedTree(NetFor(AdmittedEdges(graph.scids, graph.channels, amount), amount, source, dest), tree)
              && AnswersAreFrom(graph, source, dest, amount, tree)
  {
    var net := NetFor(AdmittedEdges(graph.scids, graph.channels, amount), amount, source, dest);
    assert net == NetOf(graph, source, dest, amount);
    SomeTreeAnswers(net);
    var tree :| IsCappedTree(net, tree) && AnswersComeFrom(net, tree);
    forall k: nat ensures AnswerIsFrom(graph, source, dest, amount, tree, k) {
      assert AreCheapest(Routes(net, k), Candidates(net, net.links, Near(tree)), k);
      FeesRender(graph, source, dest, amount, k);
    }
    assert AnswersAreFrom(graph, source, dest, amount, tree);
  }

  ghost predicate AnswersAreFrom(
      graph: Graph, source: NodeId, dest: NodeId, amount: u64, tree: map<NodeId, Entry>)
  {
    forall k: nat :: AnswerIsFrom(graph, source, dest, amount, tree, k)
  }

  ghost predicate AnswerIsFrom(
      graph: Graph, source: NodeId, dest: NodeId, amount: u64, tree: map<NodeId, Entry>, k: nat)
  {
    var net := NetFor(AdmittedEdges(graph.scids, graph.channels, amount), amount, source, dest);
    exists routes :: AreCheapest(routes, Candidates(net, net.links, Near(tree)), k)
                     && SameFees(Answer(graph, source, Some(dest), amount, k), routes)
  }

  ghost predicate SameFees(found: seq<FoundRoute>, routes: seq<Entry>) {
    |found| == |routes| && forall i :: 0 <= i < |found| ==> found[i].totalFee == routes[i].cost
  }

  lemma FeesRender(graph: Graph, source: NodeId, dest: NodeId, amount: u64, k: nat)
    ensures SameFees(Answer(graph, source, Some(dest), amount, k), Routes(NetOf(graph, source, dest, amount), k))
  {
    var routes := Routes(NetOf(graph, source, dest, amount), k);
    forall i | 0 <= i < |routes| ensures Render(routes[i]).totalFee == routes[i].cost {
      RouteIsShown(graph, source, dest, amount, k, routes[i]);
    }
  }

  /** The text of a hop reads back as the hop. */
  lemma HopReadsBack(h: Hop)
    ensures var r := RenderHop(h);
      && Hex.Decode(r.pubkey) == Ok(h.node.key) && Scid.Parse(r.shortChannelId) == Some(h.scid)
      && r.fee == h.fee && r.expiry == h.cltv
  {
    Hex.DecodeUndoesEncode(h.node.key);
    Scid.ParseUndoesFormat(h.scid);
  }

  /** A graph that lists no channel twice is never answered with the same route twice, even as text. */
  lemma AnswersAreDistinct(graph: Graph, source: NodeId, dest: Option<NodeId>, amount: u64, maxRoutes: nat)
    requires NoRepeats(graph.scids)
    ensures NoRepeats(Answer(graph, source, dest, amount, maxRoutes))
  {
    if dest.Some? {
      var net := NetOf(graph, source, dest.value, amount);
      ListedOnceIsParallelFree(graph.scids, graph.channels, amount, dest.value);
      var routes := Routes(net, maxRoutes);
      forall i, j | 0 <= i < j < |routes| ensures Render(routes[i]) != Render(routes[j]) {
        RoutesAreDistinct(net, maxRoutes, i, j);
        if RenderHops(routes[i].path) == RenderHops(routes[j].path) {
          PathsRenderApart(routes[i].path, routes[j].path);
        }
      }
    }
  }

  lemma PathsRenderApart(p: seq<Hop>, q: seq<Hop>)
    requires RenderHops(p) == RenderHops(q)
    ensures p == q
  {
    assert |p| == |RenderHops(p)| == |RenderHops(q)| == |q|;
    forall k | 0 <= k < |p| ensures p[k] == q[k] {
      assert RenderHops(p)[k] == RenderHops(q)[k];
      HopReadsBack(p[k]);
      HopReadsBack(q[k]);
    }
  }
}
