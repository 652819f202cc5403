/**
 The gossip graph as `find_routes` reads it, and the directed fee graph it
 builds from it: one edge per channel direction whose htlc bounds admit the
 amount. Neither `enabled` nor the capacity takes part.
 */
module RouteGraph {
  import opened Numbers
  import opened Options

  type Key33 = k: seq<u8> | |k| == 33 witness seq(33, _ => 0)

  /** A node is its compressed public key; nodes are ordered bytewise. */
  datatype NodeId = NodeId(key: Key33)

  datatype Policy = Policy(baseMsat: u32, ppm: u32, cltv: u16, minHtlc: u64, maxHtlc: u64, enabled: bool)

  datatype Channel = Channel(nodeOne: NodeId, nodeTwo: NodeId, oneToTwo: Option<Policy>, twoToOne: Option<Policy>)

  /** The listed ids, and the lookup that may miss for any of them. */
  datatype Graph = Graph(scids: seq<u64>, channels: map<u64, Channel>)

  datatype Edge = Edge(source: NodeId, target: NodeId, scid: u64, baseMsat: u32, ppm: u32, cltv: u16)

  predicate Admits(p: Policy, amount: u64) { p.minHtlc <= amount <= p.maxHtlc }

  function DirectionEdge(source: NodeId, target: NodeId, scid: u64, update: Option<Policy>, amount: u64): seq<Edge> {
    if update.Some? && Admits(update.value, amount)
    then [Edge(source, target, scid, update.value.baseMsat, update.value.ppm, update.value.cltv)]
    else []
  }

  function ChannelEdges(scid: u64, c: Channel, amount: u64): seq<Edge> {
    DirectionEdge(c.nodeOne, c.nodeTwo, scid, c.oneToTwo, amount)
    + DirectionEdge(c.nodeTwo, c.nodeOne, scid, c.twoToOne, amount)
  }

  function EdgesOf(scid: u64, channels: map<u64, Channel>, amount: u64): seq<Edge> {
    if scid in channels then ChannelEdges(scid, channels[scid], amount) else []
  }

  /** The admitted directions of the first channels listed, in list order. */
  function AdmittedEdges(scids: seq<u64>, channels: map<u64, Channel>, amount: u64): seq<Edge> {
    if scids == [] then []
    else
      AdmittedEdges(scids[..|scids| - 1], channels, amount) + EdgesOf(scids[|scids| - 1], channels, amount)
  }

  /** An edge is one direction of a listed channel, and that direction admits the amount. */
  ghost predicate IsDirection(e: Edge, scids: seq<u64>, channels: map<u64, Channel>, amount: u64) {
    && e.scid in scids && e.scid in channels
    && var c := channels[e.scid];
       || (e.source == c.nodeOne && e.target == c.nodeTwo && DirectionAllows(e, c.oneToTwo, amount))
       || (e.source == c.nodeTwo && e.target == c.nodeOne && DirectionAllows(e, c.twoToOne, amount))
  }

  ghost predicate DirectionAllows(e: Edge, update: Option<Policy>, amount: u64) {
    && update.Some? && update.value.minHtlc <= amount && amount <= update.value.maxHtlc
    && e.baseMsat == update.value.baseMsat && e.ppm == update.value.ppm && e.cltv == update.value.cltv
  }

  lemma {:induction false} EdgesAreDirections(scids: seq<u64>, channels: map<u64, Channel>, amount: u64, e: Edge)
    ensures e in AdmittedEdges(scids, channels, amount) <==> IsDirection(e, scids, channels, amount)
  {
    if scids == [] {
    } else {
      var init, last := scids[..|scids| - 1], scids[|scids| - 1];
      EdgesAreDirections(init, channels, amount, e);
      assert scids == init + [last];
      if last in channels {
        var c := channels[last];
        assert e in ChannelEdges(last, c, amount) <==>
          (e in DirectionEdge(c.nodeOne, c.nodeTwo, last, c.oneToTwo, amount)
           || e in DirectionEdge(c.nodeTwo, c.nodeOne, last, c.twoToOne, amount));
      }
    }
  }

  /** How often the channel lists the edge as one of its directions: both, if it joins a node to itself. */
  ghost function TimesListed(c: Channel, e: Edge, amount: u64): nat {
    (if e.source == c.nodeOne && e.target == c.nodeTwo && DirectionAllows(e, c.oneToTwo, amount) then 1 else 0)
    + (if e.source == c.nodeTwo && e.target == c.nodeOne && DirectionAllows(e, c.twoToOne, amount) then 1 else 0)
  }

  lemma DirectionCounts(source: NodeId, target: NodeId, scid: u64, update: Option<Policy>, amount: u64, e: Edge)
    ensures multiset(DirectionEdge(source, target, scid, update, amount))[e]
         == if e.scid == scid && e.source == source && e.target == target && DirectionAllows(e, update, amount)
            then 1 else 0
  {
  }

  lemma SumCounts(a: seq<Edge>, b: seq<Edge>, e: Edge)
    ensures multiset(a + b)[e] == multiset(a)[e] + multiset(b)[e]
  {
  }

  lemma ChannelCounts(scid: u64, c: Channel, amount: u64, e: Edge)
    ensures multiset(ChannelEdges(scid, c, amount))[e] == if e.scid == scid then TimesListed(c, e, amount) else 0
  {
    DirectionCounts(c.nodeOne, c.nodeTwo, scid, c.oneToTwo, amount, e);
    DirectionCounts(c.nodeTwo, c.nodeOne, scid, c.twoToOne, amount, e);
    SumCounts(DirectionEdge(c.nodeOne, c.nodeTwo, scid, c.oneToTwo, amount),
              DirectionEdge(c.nodeTwo, c.nodeOne, scid, c.twoToOne, amount), e);
  }

  ghost function TimesEach(channels: map<u64, Channel>, amount: u64, e: Edge): nat {
    if e.scid in channels then TimesListed(channels[e.scid], e, amount) else 0
  }

  lemma ScidCounts(scid: u64, channels: map<u64, Channel>, amount: u64, e: Edge, m: nat)
    requires m == TimesEach(channels, amount, e)
    ensures multiset(EdgesOf(scid, channels, amount))[e] == if scid == e.scid then m else 0
  {
    if scid in channels { ChannelCounts(scid, channels[scid], amount, e); }
  }

  lemma {:induction false} CountedBy(scids: seq<u64>, channels: map<u64, Channel>, amount: u64, e: Edge, m: nat)
    requires m == TimesEach(channels, amount, e)
    ensures multiset(AdmittedEdges(scids, channels, amount))[e] == Times(multiset(scids)[e.scid], m)
  {
    if scids == [] {
    } else {
      CountedBy(scids[..|scids| - 1], channels, amount, e, m);
      EdgesOneMore(scids, channels, amount, e);
      ScidCounts(scids[|scids| - 1], channels, amount, e, m);
      ListedOneMore(scids, e.scid);
    }
  }

  /** Each admitted direction is an edge as often as its channel is listed. */
  lemma EdgesAreCounted(scids: seq<u64>, channels: map<u64, Channel>, amount: u64, e: Edge)
    ensures multiset(AdmittedEdges(scids, channels, amount))[e]
         == if e.scid in channels then multiset(scids)[e.scid] * TimesListed(channels[e.scid], e, amount) else 0
  {
    CountedBy(scids, channels, amount, e, TimesEach(channels, amount, e));
    var listed := multiset(scids);
    TimesIsProduct(listed[e.scid], TimesEach(channels, amount, e));
  }

  lemma EdgesOneMore(scids: seq<u64>, channels: map<u64, Channel>, amount: u64, e: Edge)
    requires scids != []
    ensures multiset(AdmittedEdges(scids, channels, amount))[e]
         == multiset(AdmittedEdges(scids[..|scids| - 1], channels, amount))[e]
            + multiset(EdgesOf(scids[|scids| - 1], channels, amount))[e]
  {
    SumCounts(AdmittedEdges(scids[..|scids| - 1], channels, amount), EdgesOf(scids[|scids| - 1], channels, amount), e);
  }

  lemma ListedOneMore(scids: seq<u64>, scid: u64)
    requires scids != []
    ensures var before, after := multiset(scids[..|scids| - 1]), multiset(scids);
      after[scid] == before[scid] + if scid == scids[|scids| - 1] then 1 else 0
  {
    assert scids == scids[..|scids| - 1] + [scids[|scids| - 1]];
  }

  function Times(n: nat, m: nat): nat { if n == 0 then 0 else Times(n - 1, m) + m }

  lemma {:induction false} TimesIsProduct(n: nat, m: nat)
    ensures Times(n, m) == n * m
  {
    if n == 0 {
    } else {
      TimesIsProduct(n - 1, m);
      assert n * m == (n - 1) * m + m;
    }
  }

  /** The edges leaving one node, in list order: what the adjacency map holds for it. */
  function OutEdges(edges: seq<Edge>, n: NodeId): seq<Edge> {
    if edges == [] then []
    else
      var e := edges[|edges| - 1];
      OutEdges(edges[..|edges| - 1], n) + (if e.source == n then [e] else [])
  }
}
