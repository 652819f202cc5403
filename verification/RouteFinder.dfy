/** `find_routes` itself: adjacency lists, a heap, a visited set and the routes found, updated in loops. */
module RouteFinder {
  import opened Numbers
  import opened Options
  import opened RouteGraph
  import opened RouteSearch
  import opened RouteTopology
  import opened RouteAnswer

  // ---------- building the adjacency lists ----------

  function Listed(adj: map<NodeId, seq<Edge>>, n: NodeId): seq<Edge> { if n in adj then adj[n] else [] }

  /** The adjacency lists hold exactly these edges, each under its source, in order. */
  ghost predicate Lists(adj: map<NodeId, seq<Edge>>, edges: seq<Edge>) {
    forall n :: Listed(adj, n) == OutEdges(edges, n)
  }

  lemma ListsOneMore(adj: map<NodeId, seq<Edge>>, edges: seq<Edge>, e: Edge)
    requires Lists(adj, edges)
    ensures Lists(adj[e.source := Listed(adj, e.source) + [e]], edges + [e])
  {
    assert (edges + [e])[..|edges|] == edges;
    var r := adj[e.source := Listed(adj, e.source) + [e]];
    forall n ensures Listed(r, n) == OutEdges(edges + [e], n) {
      assert Listed(adj, n) == OutEdges(edges, n);
    }
  }

  method AddDirection(adj: map<NodeId, seq<Edge>>, source: NodeId, target: NodeId, scid: u64,
                      update: Option<Policy>, amount: u64, ghost edges: seq<Edge>)
      returns (r: map<NodeId, seq<Edge>>)
    requires Lists(adj, edges)
    ensures Lists(r, edges + DirectionEdge(source, target, scid, update, amount))
  {
    r := adj;
    if update.Some? && amount >= update.value.minHtlc && amount <= update.value.maxHtlc {
      var e := Edge(source, target, scid, update.value.baseMsat, update.value.ppm, update.value.cltv);
      ListsOneMore(adj, edges, e);
      r := adj[source := Listed(adj, source) + [e]];
      assert DirectionEdge(source, target, scid, update, amount) == [e];
    } else {
      assert DirectionEdge(source, target, scid, update, amount) == [];
      assert edges + [] == edges;
    }
  }

  method AddChannel(adj: map<NodeId, seq<Edge>>, scid: u64, c: Channel, amount: u64, ghost edges: seq<Edge>)
      returns (r: map<NodeId, seq<Edge>>)
    requires Lists(adj, edges)
    ensures Lists(r, edges + ChannelEdges(scid, c, amount))
  {
    ghost var one := DirectionEdge(c.nodeOne, c.nodeTwo, scid, c.oneToTwo, amount);
    ghost var two := DirectionEdge(c.nodeTwo, c.nodeOne, scid, c.twoToOne, amount);
    r := AddDirection(adj, c.nodeOne, c.nodeTwo, scid, c.oneToTwo, amount, edges);
    r := AddDirection(r, c.nodeTwo, c.nodeOne, scid, c.twoToOne, amount, edges + one);
    assert edges + one + two == edges + (one + two);
  }

  method BuildAdjacency(graph: Graph, amount: u64) returns (adj: map<NodeId, seq<Edge>>)
    ensures Lists(adj, AdmittedEdges(graph.scids, graph.channels, amount))
  {
    adj := map[];
    for i := 0 to |graph.scids|
      invariant Lists(adj, AdmittedEdges(graph.scids[..i], graph.channels, amount))
    {
      ghost var before := AdmittedEdges(graph.scids[..i], graph.channels, amount);
      assert graph.scids[..i + 1][..i] == graph.scids[..i];
      var scid := graph.scids[i];
      if scid in graph.channels {
        adj := AddChannel(adj, scid, graph.channels[scid], amount, before);
      } else {
        assert before + [] == before;
      }
    }
    assert graph.scids[..|graph.scids|] == graph.scids;
  }

  // ---------- the search ----------

  method PopLeast(heap: multiset<Entry>) returns (x: Entry, rest: multiset<Entry>)
    requires |heap| > 0
    ensures IsLeast(x, heap) && rest == heap - multiset{x}
  {
    LeastExists(heap);
    ghost var least :| IsLeast(least, heap);
    assert least in heap && IsLeast(least, heap);
    x :| x in heap && IsLeast(x, heap);
    rest := heap - multiset{x};
  }

  lemma {:induction false} OwnEdgesSuffice(amount: u64, edges: seq<Edge>, x: Entry, visited: set<NodeId>)
    ensures Pushes(Priced(amount, OutEdges(edges, x.node)), x, visited) == Pushes(Priced(amount, edges), x, visited)
  {
    if edges == [] {
    } else {
      var init, last := edges[..|edges| - 1], edges[|edges| - 1];
      OwnEdgesSuffice(amount, init, x, visited);
      PushesLast(amount, init, last, x, visited);
      assert edges == init + [last];
      if last.source == x.node {
        PushesLast(amount, OutEdges(init, x.node), last, x, visited);
      } else {
        assert OutEdges(edges, x.node) == OutEdges(init, x.node);
        assert PushOf(Price(amount, last), x, visited) == multiset{};
      }
    }
  }

  lemma PushesLast(amount: u64, edges: seq<Edge>, e: Edge, x: Entry, visited: set<NodeId>)
    ensures Pushes(Priced(amount, edges + [e]), x, visited)
         == Pushes(Priced(amount, edges), x, visited) + PushOf(Price(amount, e), x, visited)
  {
    assert Priced(amount, edges + [e]) == Priced(amount, edges) + [Price(amount, e)];
    assert (Priced(amount, edges) + [Price(amount, e)])[..|edges|] == Priced(amount, edges);
  }

  method NextEntry(x: Entry, e: Edge, amount: u64, ghost l: Link) returns (y: Entry)
    requires l == Price(amount, e)
    ensures y == Extend(x, l)
  {
    var hopFee := e.baseMsat + Wrap64(amount * e.ppm) / 1_000_000;
    var newPath := x.path + [Hop(e.target, e.scid, hopFee, e.cltv)];
    y := Entry(Wrap64(x.cost + hopFee), e.target, newPath);
  }

  lemma PushesNext(links: seq<Link>, i: nat, x: Entry, visited: set<NodeId>)
    requires i < |links|
    ensures Pushes(links[..i + 1], x, visited) == Pushes(links[..i], x, visited) + PushOf(links[i], x, visited)
  {
    assert links[..i + 1][..i] == links[..i];
  }

  /** Pushes an entry for each edge of the node just visited. */
  method PushAll(heap: multiset<Entry>, x: Entry, edges: seq<Edge>, visited: set<NodeId>, amount: u64,
                 ghost links: seq<Link>)
      returns (r: multiset<Entry>)
    requires forall e :: e in edges ==> e.source == x.node
    requires links == Priced(amount, edges)
    ensures r == heap + Pushes(links, x, visited)
  {
    r := heap;
    ghost var pushed: multiset<Entry> := multiset{};
    for i := 0 to |edges|
      invariant pushed == Pushes(links[..i], x, visited) && r == heap + pushed
    {
      PushesNext(links, i, x, visited);
      pushed := pushed + PushOf(links[i], x, visited);
      if edges[i].target !in visited {
        var y := NextEntry(x, edges[i], amount, links[i]);
        r := r + multiset{y};
        assert PushOf(links[i], x, visited) == multiset{y};
      } else {
        assert PushOf(links[i], x, visited) == multiset{};
      }
    }
    assert links[..|edges|] == links;
  }

  method Expand(heap: multiset<Entry>, x: Entry, adj: map<NodeId, seq<Edge>>, visited: set<NodeId>, amount: u64,
                ghost edges: seq<Edge>)
      returns (r: multiset<Entry>)
    requires Lists(adj, edges)
    ensures r == heap + Pushes(Priced(amount, edges), x, visited)
  {
    OwnEdgesSuffice(amount, edges, x, visited);
    OutEdgesLeave(edges, x.node);
    assert Listed(adj, x.node) == OutEdges(edges, x.node);
    r := heap;
    if x.node in adj { r := PushAll(heap, x, adj[x.node], visited, amount, Priced(amount, adj[x.node])); }
  }

  lemma {:induction false} OutEdgesLeave(edges: seq<Edge>, n: NodeId)
    ensures forall e :: e in OutEdges(edges, n) ==> e.source == n
  {
    if edges == [] {
    } else {
      OutEdgesLeave(edges[..|edges| - 1], n);
    }
  }

  /** A step, as far as the code keeps its outcome. */
  lemma StepOutcome(net: Net, s: State, x: Entry)
    requires IsLeast(x, s.heap)
    ensures |s.heap| > 0
    ensures var t, rest, visited := Step(net, s), s.heap - multiset{x}, s.settled.Keys;
      if |x.path| > MAX_HOPS then
        t.heap == rest && t.settled.Keys == visited && t.found == s.found
      else if x.node == net.dest then
        t.heap == rest && t.settled.Keys == visited && t.found == s.found + [x]
      else if x.node in visited then
        t.heap == rest && t.settled.Keys == visited && t.found == s.found
      else
        && t.heap == rest + Pushes(net.links, x, visited + {x.node})
        && t.settled.Keys == visited + {x.node} && t.found == s.found
  {
    LeastIsUnique(x, s.heap);
    assert s.settled[x.node := x].Keys == s.settled.Keys + {x.node};
  }

  lemma RenderAllAppend(routes: seq<Entry>, x: Entry)
    ensures RenderAll(routes + [x]) == RenderAll(routes) + [Render(x)]
  {
  }

  /** A running query: not stopped means one more step leads to the same end. */
  lemma RunGoesOn(net: Net, s: State, maxRoutes: nat)
    requires |s.heap| > 0
    ensures if |s.found| >= maxRoutes then Run(net, s, maxRoutes) == s
            else Work(net, Step(net, s)) < Work(net, s) && Run(net, s, maxRoutes) == Run(net, Step(net, s), maxRoutes)
  {
    StepWorks(net, s);
  }

  method Search(adj: map<NodeId, seq<Edge>>, source: NodeId, dest: NodeId, amount: u64, maxRoutes: nat,
                ghost edges: seq<Edge>)
      returns (found: seq<FoundRoute>)
    requires Lists(adj, edges)
    ensures found == RenderAll(Final(NetFor(edges, amount, source, dest), maxRoutes).found)
  {
    found := [];
    var heap := multiset{Entry(0, source, [])};
    var visited: set<NodeId> := {};
    ghost var net := NetFor(edges, amount, source, dest);
    ghost var s := Start(net);
    while |heap| > 0
      invariant heap == s.heap && visited == s.settled.Keys && found == RenderAll(s.found)
      invariant Run(net, s, maxRoutes) == Final(net, maxRoutes)
      decreases Work(net, s)
    {
      var x, rest := PopLeast(heap);
      StepOutcome(net, s, x);
      RunGoesOn(net, s, maxRoutes);
      heap := rest;
      if |found| >= maxRoutes { break; }
      RenderAllAppend(s.found, x);
      s := Step(net, s);
      if |x.path| > MAX_HOPS { continue; }
      if x.node == dest {
        found := found + [Render(x)];
        continue;
      }
      if x.node in visited { continue; }
      visited := visited + {x.node};
      heap := Expand(heap, x, adj, visited, amount, edges);
    }
  }

  /**
   The whole call. Beyond the state machine's answer, its contract says in the
   graph's own terms what each route is, and how the first compares with any path.
   */
  method FindRoutes(graph: Graph, source: NodeId, dest: Option<NodeId>, amount: u64, maxRoutes: nat)
      returns (found: seq<FoundRoute>)
    ensures found == Answer(graph, source, dest, amount, maxRoutes)
    ensures |found| <= maxRoutes && (dest.None? || source == dest.value ==> found == [])
    ensures dest.Some? ==> AreShown(graph, source, dest.value, amount, found)
    ensures dest.Some? && source != dest.value && maxRoutes >= 1 ==>
              FirstIsBest(graph, source, dest.value, amount, found)
    ensures dest.Some? && source != dest.value && maxRoutes >= 1
            && LongPathsAreDearer(graph, source, dest.value, amount) ==>
              FirstIsLeast(graph, source, dest.value, amount, found)
  {
    if dest.Some? {
      AnswerIsShown(graph, source, dest.value, amount, maxRoutes);
      if source != dest.value && maxRoutes >= 1 {
        AnswerIsBest(graph, source, dest.value, amount, maxRoutes);
        AnswerIsLeast(graph, source, dest.value, amount, maxRoutes);
      }
    }
    found := [];
    if dest.None? || source == dest.value { return; }
    var adj := BuildAdjacency(graph, amount);
    found := Search(adj, source, dest.value, amount, maxRoutes,
                    AdmittedEdges(graph.scids, graph.channels, amount));
  }
}
