/**
 The answer does not depend on the order in which the graph lists its channels,
 although edges, adjacency lists and pushes all follow that order.
 */
module RouteIndependence {
  import opened Numbers
  import opened Sums
  import opened RouteGraph
  import opened RouteSearch
  import opened RouteTopology

  // ---------- the search sees its links as a multiset ----------

  ghost function PushFrom(x: Entry, visited: set<NodeId>): Link -> multiset<Entry> {
    (e: Link) => PushOf(e, x, visited)
  }

  lemma {:induction false} PushesAreTotal(links: seq<Link>, x: Entry, visited: set<NodeId>)
    ensures Pushes(links, x, visited) == Total(PushFrom(x, visited), links)
  {
    if links == [] {
    } else {
      PushesAreTotal(links[..|links| - 1], x, visited);
    }
  }

  ghost predicate SameLinks(net: Net, other: Net) {
    net.source == other.source && net.dest == other.dest && multiset(net.links) == multiset(other.links)
  }

  lemma StepIgnoresOrder(net: Net, other: Net, s: State)
    requires SameLinks(net, other) && |s.heap| > 0
    ensures Step(net, s) == Step(other, s)
  {
    var x := Least(s.heap);
    var visited := s.settled[x.node := x].Keys;
    PushesAreTotal(net.links, x, visited);
    PushesAreTotal(other.links, x, visited);
    TotalIgnoresOrder(PushFrom(x, visited), net.links, other.links);
  }

  lemma {:induction false} RunIgnoresOrder(net: Net, other: Net, s: State, maxRoutes: nat)
    requires SameLinks(net, other)
    ensures Run(net, s, maxRoutes) == Run(other, s, maxRoutes)
    decreases Work(net, s)
  {
    if !Stopped(s, maxRoutes) {
      StepIgnoresOrder(net, other, s);
      StepWorks(net, s);
      RunIgnoresOrder(net, other, Step(net, s), maxRoutes);
    }
  }

  // ---------- so does the fee graph see its channels ----------

  ghost function LinksOf(channels: map<u64, Channel>, amount: u64): u64 -> multiset<Link> {
    (scid: u64) =>
      if scid in channels then multiset(Priced(amount, ChannelEdges(scid, channels[scid], amount))) else multiset{}
  }

  lemma PricedConcat(amount: u64, a: seq<Edge>, b: seq<Edge>)
    ensures multiset(Priced(amount, a + b)) == multiset(Priced(amount, a)) + multiset(Priced(amount, b))
  {
    assert Priced(amount, a + b) == Priced(amount, a) + Priced(amount, b);
  }

  lemma {:induction false} LinksAreTotal(scids: seq<u64>, channels: map<u64, Channel>, amount: u64)
    ensures multiset(Priced(amount, AdmittedEdges(scids, channels, amount)))
         == Total(LinksOf(channels, amount), scids)
  {
    if scids == [] {
    } else {
      var init, last := scids[..|scids| - 1], scids[|scids| - 1];
      LinksAreTotal(init, channels, amount);
      var a := AdmittedEdges(init, channels, amount);
      var b := if last in channels then ChannelEdges(last, channels[last], amount) else [];
      assert AdmittedEdges(scids, channels, amount) == a + b;
      PricedConcat(amount, a, b);
      assert LinksOf(channels, amount)(last) == multiset(Priced(amount, b));
    }
  }

  /** Any two listings of the same channels give the same routes, ties included. */
  lemma RoutesIgnoreOrder(scids: seq<u64>, other: seq<u64>, channels: map<u64, Channel>, amount: u64,
                          source: NodeId, dest: NodeId, maxRoutes: nat)
    requires multiset(scids) == multiset(other)
    ensures Routes(NetFor(AdmittedEdges(scids, channels, amount), amount, source, dest), maxRoutes)
         == Routes(NetFor(AdmittedEdges(other, channels, amount), amount, source, dest), maxRoutes)
  {
    var n := NetFor(AdmittedEdges(scids, channels, amount), amount, source, dest);
    var m := NetFor(AdmittedEdges(other, channels, amount), amount, source, dest);
    LinksAreTotal(scids, channels, amount);
    LinksAreTotal(other, channels, amount);
    TotalIgnoresOrder(LinksOf(channels, amount), scids, other);
    RunIgnoresOrder(n, m, Start(n), maxRoutes);
  }
}
