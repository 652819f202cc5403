/**
 A graph of eight nodes whose destination is two hops away and is never found:
 the hop cap is tested before a node is marked visited, so a cheap long way to a
 node shadows a short one. It shadows even a short one of the same fee, by the
 order of the keys; another graph shows such a tie coming out right.
 */
module RouteShadow {
  import opened Numbers
  import opened RouteGraph
  import opened RouteSearch
  import opened RouteWalks
  import opened RouteInvariants
  import opened RouteOptimality
  import opened RouteTopology

  function Numbered(i: nat): NodeId
    requires i < 256
  {
    NodeId([i] + seq(32, _ => 0))
  }

  lemma NumberedApart(i: nat, j: nat)
    requires i < 256 && j < 256
    ensures Numbered(i) == Numbered(j) <==> i == j
  {
    assert Numbered(i).key[0] == i && Numbered(j).key[0] == j;
  }

  function SourceOf(i: nat): nat
    requires i < 8
  {
    if i < 6 then i else if i == 6 then 0 else 6
  }

  function TargetOf(i: nat): nat
    requires i < 8
  {
    if i < 6 then i + 1 else i
  }

  function FeeOf(m: u32, i: nat): u32 { if i < 5 then 0 else if i == 5 then m else 1 }

  /**
   A chain of six hops to node 6, free but for the last of them, which costs `m`;
   for one millisatoshi a channel straight to node 6; for another one on to node 7.
   */
  function Shadowed(m: u32): seq<Edge> {
    seq(8, i requires 0 <= i < 8 => Edge(Numbered(SourceOf(i)), Numbered(TargetOf(i)), i, FeeOf(m, i), 0, 0))
  }

  function ShadowNet(m: u32, amount: u64): Net { NetFor(Shadowed(m), amount, Numbered(0), Numbered(7)) }

  lemma LinkAt(m: u32, amount: u64, i: nat)
    requires i < 8
    ensures var net := ShadowNet(m, amount);
      |net.links| == 8 && net.links[i].source == Numbered(SourceOf(i))
      && net.links[i].target == Numbered(TargetOf(i)) && net.links[i].fee == FeeOf(m, i)
  {
    assert Wrap64(amount * 0) == 0;
  }

  /** Which edge a walk took last. */
  lemma LastEdge(m: u32, amount: u64, p: seq<Hop>) returns (i: nat)
    requires IsWalk(ShadowNet(m, amount), p) && p != []
    ensures i < 8 && NodeAt(ShadowNet(m, amount), p, |p| - 1) == Numbered(SourceOf(i))
    ensures End(ShadowNet(m, amount), p) == Numbered(TargetOf(i)) && p[|p| - 1].fee == FeeOf(m, i)
  {
    var net := ShadowNet(m, amount);
    assert HopAt(net, p, |p| - 1);
    var l :| l in net.links && l.source == NodeAt(net, p, |p| - 1) && HopOf(l) == p[|p| - 1];
    i :| 0 <= i < |net.links| && l == net.links[i];
    LinkAt(m, amount, i);
  }

  /** The walk along one more edge. */
  lemma TakeLink(net: Net, p: seq<Hop>, i: nat) returns (q: seq<Hop>)
    requires i < |net.links| && IsWalk(net, p) && End(net, p) == net.links[i].source
    ensures IsWalk(net, q) && |q| == |p| + 1 && Cost(q) == Cost(p) + net.links[i].fee
    ensures NodeAt(net, q, |q|) == net.links[i].target
    ensures forall k :: 0 <= k <= |p| ==> NodeAt(net, q, k) == NodeAt(net, p, k)
  {
    var e := net.links[i];
    assert IsHop(net, End(net, p), HopOf(e));
    AppendHop(net, p, HopOf(e));
    AppendNodes(net, p, HopOf(e));
    q := p + [HopOf(e)];
  }

  /** The first `n` links are free and lead from each node to the next. */
  ghost predicate BeginsWithChain(net: Net, n: nat)
    requires n < 256
  {
    && net.source == Numbered(0) && n <= |net.links|
    && forall i {:trigger net.links[i]} :: 0 <= i < n ==>
         net.links[i].source == Numbered(i) && net.links[i].target == Numbered(i + 1) && net.links[i].fee == 0
  }

  lemma {:induction false} ChainWalk(net: Net, n: nat) returns (q: seq<Hop>)
    requires n < 256 && BeginsWithChain(net, n)
    ensures IsWalk(net, q) && |q| == n && Cost(q) == 0
    ensures forall j :: 0 <= j <= n ==> NodeAt(net, q, j) == Numbered(j)
  {
    if n == 0 {
      q := [];
    } else {
      q := ChainWalk(net, n - 1);
      q := TakeLink(net, q, n - 1);
    }
  }

  lemma FiveFree(m: u32, amount: u64)
    ensures BeginsWithChain(ShadowNet(m, amount), 5)
  {
    forall i: nat | i < 5 ensures ShadowNet(m, amount).links[i].fee == 0 { LinkAt(m, amount, i); }
  }

  /** The only way to a node before the sixth is the chain. */
  lemma {:induction false} OnlyTheChain(m: u32, amount: u64, p: seq<Hop>, k: nat)
    requires IsWalk(ShadowNet(m, amount), p) && k < 6 && End(ShadowNet(m, amount), p) == Numbered(k)
    ensures |p| == k && Cost(p) == 0 && (k > 0 ==> p[0].node == Numbered(1))
  {
    var net, n := ShadowNet(m, amount), |p| - 1;
    if p == [] {
      NumberedApart(0, k);
    } else {
      var i := LastEdge(m, amount, p);
      NumberedApart(TargetOf(i), k);
      PrefixIsWalk(net, p, n);
      OnlyTheChain(m, amount, p[..n], k - 1);
    }
  }

  // ---------- the run ----------

  lemma FiveIsSettled(m: u32, amount: u64, s: State)
    requires Inv(ShadowNet(m, amount), s) && forall y :: y in s.heap ==> y.cost >= 1
    ensures Numbered(5) in s.settled
  {
    var net := ShadowNet(m, amount);
    FiveFree(m, amount);
    var q := ChainWalk(net, 5);
    forall k | 0 <= k < |q| ensures NodeAt(net, q, k) != net.dest { NumberedApart(k, 7); }
    Follow(net, s, q);
    NumberedApart(5, 7);
    forall p ensures !IsLongWalk(net, p, Numbered(5)) {
      if IsWalkTo(net, p, Numbered(5)) { OnlyTheChain(m, amount, p, 5); }
    }
  }

  /** With nothing free pending, the end of the chain is pending until node 6 is settled. */
  lemma ChainIsPending(m: u32, amount: u64, s: State) returns (y: Entry)
    requires Inv(ShadowNet(m, amount), s) && (forall y :: y in s.heap ==> y.cost >= 1) && Numbered(6) !in s.settled
    ensures y in s.heap && y.cost == m && y.node == Numbered(6) && y.path != [] && y.path[0].node == Numbered(1)
  {
    var net := ShadowNet(m, amount);
    FiveIsSettled(m, amount, s);
    LinkAt(m, amount, 5);
    var x, e := s.settled[Numbered(5)], net.links[5];
    assert e in net.links;
    assert Good(net, x);
    OnlyTheChain(m, amount, x.path, 5);
    y := Extend(x, e);
    ExtendCost(net, x, e);
    NumberedApart(6, 7);
    assert Accounted(net, s, y);
  }

  lemma {:induction false} LexSkip(a: seq<int>, b: seq<int>, c: seq<int>)
    ensures LexLeq(a + b, a + c) <==> LexLeq(b, c)
  {
    if a == [] {
      assert a + b == b && a + c == c;
    } else {
      LexSkip(a[1..], b, c);
      assert (a + b)[1..] == a[1..] + b && (a + c)[1..] == a[1..] + c;
    }
  }

  /** Of two entries at one node and cost, the one that left towards the smaller key comes first. */
  lemma LaterPath(x: Entry, y: Entry)
    requires x.cost == y.cost && x.node == y.node && x.path != [] && y.path != []
    requires x.path[0].node.key[0] > y.path[0].node.key[0]
    ensures !Leq(x, y)
  {
    LexSkip([x.cost] + x.node.key, FlatPath(x.path), FlatPath(y.path));
    assert FlatPath(x.path)[0] == x.path[0].node.key[0] && FlatPath(y.path)[0] == y.path[0].node.key[0];
  }

  /** Node 6 is first popped at the end of the chain. */
  lemma SixComesLate(m: u32, amount: u64, s: State)
    requires m <= 1 && Inv(ShadowNet(m, amount), s) && |s.heap| > 0
    requires Least(s.heap).node == Numbered(6) && Numbered(6) !in s.settled
    ensures |Least(s.heap).path| == 6
  {
    var net, x := ShadowNet(m, amount), Least(s.heap);
    assert Good(net, x);
    NumberedApart(0, 6);
    var n := |x.path| - 1;
    var i := LastEdge(m, amount, x.path);
    NumberedApart(TargetOf(i), 6);
    PrefixIsWalk(net, x.path, n);
    if i == 5 {
      OnlyTheChain(m, amount, x.path[..n], 5);
    } else {
      OnlyTheChain(m, amount, x.path[..n], 0);
      var y := ChainIsPending(m, amount, s);
      NumberedFirst(x, y);
    }
  }

  lemma NumberedFirst(x: Entry, y: Entry)
    requires x.cost == 1 && y.cost <= 1 && x.node == y.node && x.path != [] && y.path != []
    requires x.path[0].node == Numbered(6) && y.path[0].node == Numbered(1)
    ensures !Leq(x, y)
  {
    if Leq(x, y) { LeqCost(x, y); LaterPath(x, y); }
  }

  ghost predicate SixIsLate(s: State) {
    Numbered(6) in s.settled ==> |s.settled[Numbered(6)].path| == 6
  }

  lemma StepIsLate(m: u32, amount: u64, s: State)
    requires m <= 1 && Inv(ShadowNet(m, amount), s) && SixIsLate(s) && |s.heap| > 0
    ensures SixIsLate(Step(ShadowNet(m, amount), s))
  {
    if Least(s.heap).node == Numbered(6) && Numbered(6) !in s.settled { SixComesLate(m, amount, s); }
  }

  lemma {:induction false} RunIsLate(m: u32, amount: u64, s: State, maxRoutes: nat)
    requires m <= 1 && Inv(ShadowNet(m, amount), s) && SixIsLate(s)
    ensures Inv(ShadowNet(m, amount), Run(ShadowNet(m, amount), s, maxRoutes))
    ensures SixIsLate(Run(ShadowNet(m, amount), s, maxRoutes))
    decreases Work(ShadowNet(m, amount), s)
  {
    var net := ShadowNet(m, amount);
    if Stopped(s, maxRoutes) {
    } else {
      StepInv(net, s);
      StepWorks(net, s);
      StepIsLate(m, amount, s);
      RunIsLate(m, amount, Step(net, s), maxRoutes);
    }
  }

  /** So every entry at node 7 has gone along the whole chain. */
  lemma SevenIsTooLate(m: u32, amount: u64, s: State, x: Entry)
    requires Inv(ShadowNet(m, amount), s) && SixIsLate(s)
    requires Traced(ShadowNet(m, amount), s.settled, x) && x.node == Numbered(7)
    ensures |x.path| > MAX_HOPS
  {
    var net := ShadowNet(m, amount);
    NumberedApart(0, 7);
    var i := LastEdge(m, amount, x.path);
    NumberedApart(TargetOf(i), 7);
    assert TracedAt(net, s.settled, x, |x.path| - 1);
  }

  lemma TwoHopsAway(m: u32, amount: u64) returns (q: seq<Hop>)
    ensures IsShortWalk(ShadowNet(m, amount), q) && IsWalkToDest(ShadowNet(m, amount), q) && |q| == 2 && Cost(q) == 2
  {
    var net := ShadowNet(m, amount);
    LinkAt(m, amount, 6);
    LinkAt(m, amount, 7);
    q := TakeLink(net, [], 6);
    q := TakeLink(net, q, 7);
    NumberedApart(0, 6);
    NumberedApart(0, 7);
    NumberedApart(6, 7);
  }

  /**
   Node 7 is two hops away, and yet no query for it returns a route: node 6 is
   expanded along the chain of six hops, beyond which nothing is returned. That
   holds whether the chain is cheaper than the channel straight to node 6 or
   costs the same.
   */
  lemma TwoHopRouteIsMissed(m: u32, amount: u64, maxRoutes: nat)
    requires m <= 1
    ensures Routes(ShadowNet(m, amount), maxRoutes) == []
    ensures exists p :: IsWalkToDest(ShadowNet(m, amount), p) && |p| == 2
  {
    var net := ShadowNet(m, amount);
    var q := TwoHopsAway(m, amount);
    NumberedApart(0, 7);
    StartInv(net);
    RunIsLate(m, amount, Start(net), maxRoutes);
    if Routes(net, maxRoutes) != [] {
      SevenIsTooLate(m, amount, Final(net, maxRoutes), Routes(net, maxRoutes)[0]);
    }
  }

  // ---------- ties ----------

  lemma WayToSeven(amount: u64, p: seq<Hop>)
    requires IsWalkToDest(ShadowNet(1, amount), p)
    ensures Cost(p) >= 2
  {
    var net, n := ShadowNet(1, amount), |p| - 1;
    NumberedApart(0, 7);
    NumberedApart(0, 6);
    var i := LastEdge(1, amount, p);
    NumberedApart(TargetOf(i), 7);
    PrefixIsWalk(net, p, n);
    var j := LastEdge(1, amount, p[..n]);
    NumberedApart(TargetOf(j), 6);
  }

  lemma ChainToSeven(amount: u64) returns (q: seq<Hop>)
    ensures IsLongWalk(ShadowNet(1, amount), q, Numbered(7)) && Cost(q) == 2
  {
    var net := ShadowNet(1, amount);
    FiveFree(1, amount);
    LinkAt(1, amount, 5);
    LinkAt(1, amount, 7);
    q := ChainWalk(net, 5);
    q := TakeLink(net, q, 5);
    q := TakeLink(net, q, 7);
    NumberedIsSimple(net, q);
  }

  lemma NumberedIsSimple(net: Net, q: seq<Hop>)
    requires |q| == 7 && net.dest == Numbered(7) && forall j :: 0 <= j <= 7 ==> NodeAt(net, q, j) == Numbered(j)
    ensures IsSimple(net, q) && Avoids(net, q)
  {
    forall i, j | 0 <= i < j <= 7 ensures NodeAt(net, q, i) != NodeAt(net, q, j) { NumberedApart(i, j); }
  }

  /** A tie of short and long walks that comes out wrong. */
  lemma TieIsMissed(amount: u64, maxRoutes: nat)
    ensures LengthsTie(ShadowNet(1, amount)) && Routes(ShadowNet(1, amount), maxRoutes) == []
  {
    var net := ShadowNet(1, amount);
    var c := TwoHopsAway(1, amount);
    var q := ChainToSeven(amount);
    forall p | IsWalkToDest(net, p) ensures Cost(p) >= 2 { WayToSeven(amount, p); }
    assert IsCheapestWalk(net, c) && IsCheapestWalk(net, q);
    TwoHopRouteIsMissed(1, amount, maxRoutes);
  }

  /** A free chain of seven hops to node 7, and a free channel straight there. */
  function Ringed(): seq<Edge> {
    seq(7, i requires 0 <= i < 7 => Edge(Numbered(i), Numbered(i + 1), i, 0, 0, 0))
    + [Edge(Numbered(0), Numbered(7), 7, 0, 0, 0)]
  }

  lemma RingedLinks(amount: u64)
    ensures var net := NetFor(Ringed(), amount, Numbered(0), Numbered(7));
      && BeginsWithChain(net, 7) && |net.links| == 8
      && net.links[7].source == Numbered(0) && net.links[7].target == Numbered(7) && net.links[7].fee == 0
  {
    assert Wrap64(amount * 0) == 0;
  }

  lemma FreeTie(net: Net, c: seq<Hop>, q: seq<Hop>)
    requires IsShortWalk(net, c) && IsLongWalk(net, q, net.dest) && Cost(c) == Cost(q) == 0
    ensures LengthsTie(net)
  {
    assert IsCheapestWalk(net, c) && IsCheapestWalk(net, q);
  }

  /** A tie of short and long walks that comes out right. */
  lemma TieIsFound(amount: u64)
    ensures LengthsTie(NetFor(Ringed(), amount, Numbered(0), Numbered(7)))
    ensures FirstIsOptimal(NetFor(Ringed(), amount, Numbered(0), Numbered(7)))
  {
    var net := NetFor(Ringed(), amount, Numbered(0), Numbered(7));
    NumberedApart(0, 7);
    RingedLinks(amount);
    var c := TakeLink(net, [], 7);
    var q := ChainWalk(net, 7);
    NumberedIsSimple(net, q);
    FreeTie(net, c, q);
    DirectIsNoDearer(net, 1, net.links[7]);
    assert Cost([HopOf(net.links[7])]) == 0;
    forall p | IsWalkToDest(net, p) ensures FirstIsNoDearer(net, 1, p) { assert Cost(p) >= 0; }
  }
}
