/**
 All returned routes, accounted for: a cheapest way to some node, then one edge
 into the destination, the cheapest such first. They are not the general k
 cheapest paths.
 */
module RouteExactness {
  import opened Numbers
  import opened RouteGraph
  import opened RouteSearch
  import opened RouteWalks
  import opened RouteInvariants
  import opened RouteSoundness
  import opened RouteOptimality
  import opened RouteTree
  import opened RouteTopology

  ghost predicate Reachable(net: Net, u: NodeId) {
    u != net.dest && exists p :: IsWalkTo(net, p, u)
  }

  /** A walk to `u` short of the destination, no dearer than any other. */
  ghost predicate IsCheapestTo(net: Net, x: Entry, u: NodeId) {
    && x.node == u && IsWalkTo(net, x.path, u) && x.cost == Cost(x.path)
    && forall p :: IsWalkTo(net, p, u) ==> x.cost <= Cost(p)
  }

  /** A cheapest way to every node reachable without passing through the destination, and to no other. */
  ghost predicate AreCheapestWays(net: Net, best: map<NodeId, Entry>) {
    && (forall u :: u in best <==> Reachable(net, u))
    && (forall u :: u in best ==> IsCheapestTo(net, best[u], u))
  }

  /** `y` is returned no more often than it is a candidate, and less often only behind `k` routes no dearer. */
  ghost predicate CheapestAt(routes: seq<Entry>, all: multiset<Entry>, k: nat, y: Entry) {
    && multiset(routes)[y] <= all[y]
    && (multiset(routes)[y] < all[y] ==> |routes| == k && forall x :: x in routes ==> x.cost <= y.cost)
  }

  /** The `k` cheapest of `all` as far as entries of fee at most `bound` go. */
  ghost predicate AreCheapestWithin(routes: seq<Entry>, all: multiset<Entry>, k: nat, bound: nat) {
    && SortedByCost(routes) && |routes| <= k
    && forall y: Entry :: y.cost <= bound ==> CheapestAt(routes, all, k, y)
  }

  // ---------- gates, and the room the hop cap leaves them ----------

  /** An edge into the destination. */
  ghost predicate IsGate(net: Net, e: Link) { e in net.links && e.target == net.dest != e.source }

  /** An edge into the destination over which it can be reached for at most `c`. */
  ghost predicate GateAt(net: Net, e: Link, c: nat) { IsGate(net, e) && ReachedFor(net, e.source, c - e.fee) }

  ghost predicate ReachedFor(net: Net, u: NodeId, c: int) { exists p :: IsWalkTo(net, p, u) && Cost(p) <= c }

  ghost predicate IsSimpleTo(net: Net, q: seq<Hop>, u: NodeId) { IsWalkTo(net, q, u) && IsSimple(net, q) }

  ghost predicate SomeCheaperTo(net: Net, u: NodeId, c: nat) { exists p :: IsWalkTo(net, p, u) && Cost(p) < c }

  /** Each simple walk to `u` that leaves no hop for the destination is dearer than some other walk to `u`. */
  ghost predicate Roomy(net: Net, u: NodeId) {
    forall q :: IsSimpleTo(net, q, u) && |q| >= MAX_HOPS ==> SomeCheaperTo(net, u, Cost(q))
  }

  ghost predicate RoomyWithin(net: Net, c: nat) {
    forall e :: GateAt(net, e, c) ==> Roomy(net, e.source)
  }

  /** Nothing was dropped, or nothing on a cheapest way over a gate for `c` could have been. */
  ghost predicate Clear(net: Net, s: State, c: nat) { s.lost == multiset{} || RoomyWithin(net, c) }

  lemma GateBelow(net: Net, e: Link, c: nat, d: nat)
    requires GateAt(net, e, c) && c <= d
    ensures GateAt(net, e, d)
  {
    var p :| IsWalkTo(net, p, e.source) && Cost(p) <= c - e.fee;
    assert Cost(p) <= d - e.fee;
  }

  lemma ClearBelow(net: Net, s: State, c: nat, d: nat)
    requires Clear(net, s, d) && c <= d
    ensures Clear(net, s, c)
  {
    forall e | GateAt(net, e, c) ensures GateAt(net, e, d) { GateBelow(net, e, c, d); }
  }

  lemma GateFor(net: Net, e: Link, p: seq<Hop>, c: nat)
    requires IsGate(net, e) && IsWalkTo(net, p, e.source) && Cost(p) + e.fee <= c
    ensures GateAt(net, e, c)
  {
    assert Cost(p) <= c - e.fee;
  }

  // ---------- a cheapest way to every node ----------

  lemma {:induction false} CheapestExists(net: Net, u: NodeId, p: seq<Hop>)
    requires IsWalkTo(net, p, u)
    ensures exists x :: IsCheapestTo(net, x, u)
    decreases Cost(p)
  {
    if q :| IsWalkTo(net, q, u) && Cost(q) < Cost(p) {
      CheapestExists(net, u, q);
    } else {
      assert IsCheapestTo(net, Entry(Cost(p), u, p), u);
    }
  }

  /** The settled entry where it is a cheapest one. */
  ghost function BestTo(net: Net, s: State, u: NodeId): (x: Entry)
    requires Reachable(net, u)
    ensures IsCheapestTo(net, x, u)
    ensures u in s.settled && IsCheapestTo(net, s.settled[u], u) ==> x == s.settled[u]
  {
    if u in s.settled && IsCheapestTo(net, s.settled[u], u) then s.settled[u]
    else
      var p :| IsWalkTo(net, p, u);
      CheapestExists(net, u, p);
      var x :| IsCheapestTo(net, x, u);
      x
  }

  ghost function BestWays(net: Net, s: State): map<NodeId, Entry> {
    map u | u in {net.source} + (set e | e in net.links :: e.target) && Reachable(net, u) :: BestTo(net, s, u)
  }

  lemma BestWaysAreCheapest(net: Net, s: State)
    ensures AreCheapestWays(net, BestWays(net, s))
  {
    forall u | Reachable(net, u) ensures u in {net.source} + (set e | e in net.links :: e.target) {
      var p :| IsWalkTo(net, p, u);
      if p != [] { assert HopAt(net, p, |p| - 1); }
    }
  }

  // ---------- the run against those ways ----------

  /** What a run knows about any walk to the source of an edge into the destination. */
  lemma {:induction false} GateFollowed(net: Net, s: State, e: Link, p: seq<Hop>)
    requires Inv(net, s) && Clear(net, s, Cost(p) + e.fee)
    requires e in net.links && e.target == net.dest != e.source && IsWalkTo(net, p, e.source)
    ensures SettledFor(s, e.source, Cost(p)) || PendingFor(s, Cost(p))
    decreases Cost(p)
  {
    Follow(net, s, p);
    if s.lost != multiset{} && LongWalkWithin(net, e.source, Cost(p)) {
      var q :| IsLongWalk(net, q, e.source) && Cost(q) <= Cost(p);
      GateFor(net, e, p, Cost(p) + e.fee);
      assert IsSimpleTo(net, q, e.source) && Roomy(net, e.source);
      var r :| IsWalkTo(net, r, e.source) && Cost(r) < Cost(q);
      ClearBelow(net, s, Cost(r) + e.fee, Cost(p) + e.fee);
      GateFollowed(net, s, e, r);
    }
  }

  /** A settled way on to the destination that is clear is a cheapest one. */
  lemma SettledGateIsBest(net: Net, s: State, e: Link)
    requires Inv(net, s) && e in net.links && e.target == net.dest && e.source in s.settled
    requires Clear(net, s, s.settled[e.source].cost + e.fee)
    ensures IsCheapestTo(net, s.settled[e.source], e.source)
  {
    var u, x := e.source, s.settled[e.source];
    assert Good(net, x);
    forall p | IsWalkTo(net, p, u) ensures x.cost <= Cost(p) {
      if Cost(p) < x.cost {
        ClearBelow(net, s, Cost(p) + e.fee, x.cost + e.fee);
        GateFollowed(net, s, e, p);
      }
    }
  }

  /** As far as `y` can tell, the settled ways and the best ways through `e` are the same. */
  ghost predicate AgreeAt(e: Link, best: map<NodeId, Entry>, settled: map<NodeId, Entry>, y: Entry)
    requires e.source in best && e.source in settled
  {
    best[e.source] == settled[e.source] || (Onward(best[e.source], e) != y && Onward(settled[e.source], e) != y)
  }

  lemma WaysAgree(net: Net, s: State, e: Link, y: Entry)
    requires Inv(net, s) && Clear(net, s, y.cost)
    requires e in net.links && e.target == net.dest && e.source in s.settled
    ensures e.source in BestWays(net, s) && AgreeAt(e, BestWays(net, s), s.settled, y)
  {
    var best, x := BestWays(net, s), s.settled[e.source];
    assert Good(net, x);
    BestWaysAreCheapest(net, s);
    if Onward(x, e) == y {
      SettledGateIsBest(net, s, e);
    } else if Onward(best[e.source], e) == y {
      GateFollowed(net, s, e, best[e.source].path);
      assert IsCheapestTo(net, x, e.source);
    }
  }

  /** A candidate through a node not yet settled costs at least something still pending. */
  lemma UnsettledCandidateIsPending(net: Net, s: State, y: Entry)
    requires Inv(net, s) && Clear(net, s, y.cost)
    requires y in Candidates(net, net.links, BestWays(net, s) - s.settled.Keys)
    ensures PendingFor(s, y.cost)
  {
    var rest := BestWays(net, s) - s.settled.Keys;
    CandidateSource(net, net.links, rest, y);
    var e :| e in net.links && e.target == net.dest && e.source in rest && y == Onward(rest[e.source], e);
    BestWaysAreCheapest(net, s);
    GateFollowed(net, s, e, rest[e.source].path);
    var z :| z in s.heap && z.cost <= rest[e.source].cost;
    assert z.cost <= y.cost;
  }

  lemma {:induction false} CandidatesSplit(
      net: Net, links: seq<Link>, best: map<NodeId, Entry>, settled: map<NodeId, Entry>, y: Entry)
    requires forall e :: e in links && e.target == net.dest && e.source in settled ==>
               e.source in best && AgreeAt(e, best, settled, y)
    ensures Candidates(net, links, best)[y]
         == Candidates(net, links, settled)[y] + Candidates(net, links, best - settled.Keys)[y]
  {
    if links == [] {
    } else {
      var init, e := links[..|links| - 1], links[|links| - 1];
      CandidatesSplit(net, init, best, settled, y);
      CandidateSplits(net, e, best, settled, y);
    }
  }

  lemma CandidateSplits(net: Net, e: Link, best: map<NodeId, Entry>, settled: map<NodeId, Entry>, y: Entry)
    requires e.target == net.dest && e.source in settled ==> e.source in best && AgreeAt(e, best, settled, y)
    ensures CandidateOf(net, e, best)[y]
         == CandidateOf(net, e, settled)[y] + CandidateOf(net, e, best - settled.Keys)[y]
  {
  }

  lemma CandidateNode(net: Net, links: seq<Link>, best: map<NodeId, Entry>, y: Entry)
    requires y in Candidates(net, links, best)
    ensures y.node == net.dest
  {
    CandidateSource(net, links, best, y);
  }

  /** The edge over which an entry came to the destination, from a settled node. */
  lemma LastGate(net: Net, s: State, y: Entry) returns (e: Link)
    requires Inv(net, s) && Traced(net, s.settled, y) && y.node == net.dest
    ensures IsGate(net, e) && e.source in s.settled && s.settled[e.source].path == y.path[..|y.path| - 1]
    ensures |y.path| > 0 && s.settled[e.source].cost + e.fee == y.cost
  {
    var n := |y.path| - 1;
    assert TracedAt(net, s.settled, y, n) && HopAt(net, y.path, n);
    e :| e in net.links && e.source == NodeAt(net, y.path, n) && HopOf(e) == y.path[n];
    assert Good(net, s.settled[e.source]);
  }

  lemma ClearIsNotLost(net: Net, s: State, y: Entry)
    requires Inv(net, s) && Clear(net, s, y.cost) && y.node == net.dest
    ensures y !in s.lost
  {
    if y in s.lost {
      var e := LastGate(net, s, y);
      var x := s.settled[e.source];
      SettledGateIsBest(net, s, e);
      assert Good(net, x);
      GateFor(net, e, x.path, y.cost);
      CheapestLeavesRoom(net, e, x, y.cost);
    }
  }

  lemma CheapestLeavesRoom(net: Net, e: Link, x: Entry, c: nat)
    requires RoomyWithin(net, c) && GateAt(net, e, c)
    requires IsCheapestTo(net, x, e.source) && IsSimple(net, x.path)
    ensures |x.path| < MAX_HOPS
  {
    assert Roomy(net, e.source) && IsSimpleTo(net, x.path, e.source);
    assert !SomeCheaperTo(net, e.source, Cost(x.path));
  }

  /** Found or pending: without loss there is no third place for a candidate through a settled node. */
  lemma LedgerWithoutLoss(net: Net, s: State, y: Entry)
    requires Inv(net, s) && Clear(net, s, y.cost)
    ensures multiset(s.found)[y] <= Candidates(net, net.links, s.settled)[y]
    ensures Candidates(net, net.links, s.settled)[y] <= multiset(s.found)[y] + s.heap[y]
  {
    if y.node == net.dest {
      ClearIsNotLost(net, s, y);
    } else {
      if y in Candidates(net, net.links, s.settled) { CandidateNode(net, net.links, s.settled, y); }
      assert y !in s.found;
    }
  }

  /** Where a candidate that is not a route yet is waiting. */
  lemma OthersArePending(net: Net, s: State, y: Entry)
    requires Inv(net, s) && Clear(net, s, y.cost)
    ensures var all := Candidates(net, net.links, BestWays(net, s));
      multiset(s.found)[y] <= all[y] && (multiset(s.found)[y] < all[y] ==> PendingFor(s, y.cost))
  {
    var best := BestWays(net, s);
    forall e | e in net.links && e.target == net.dest && e.source in s.settled
      ensures e.source in best && AgreeAt(e, best, s.settled, y)
    {
      WaysAgree(net, s, e, y);
    }
    CandidatesSplit(net, net.links, best, s.settled, y);
    LedgerWithoutLoss(net, s, y);
    if y in Candidates(net, net.links, best - s.settled.Keys) { UnsettledCandidateIsPending(net, s, y); }
  }

  lemma ExactAt(net: Net, s: State, k: nat, y: Entry)
    requires Inv(net, s) && Clear(net, s, y.cost) && Stopped(s, k) && |s.found| <= k
    ensures CheapestAt(s.found, Candidates(net, net.links, BestWays(net, s)), k, y)
  {
    OthersArePending(net, s, y);
    if PendingFor(s, y.cost) { PendingMeansHeap(s, y.cost); }
  }

  lemma CheapestFrom(routes: seq<Entry>, all: multiset<Entry>, k: nat)
    requires SortedByCost(routes) && |routes| <= k && forall y: Entry :: CheapestAt(routes, all, k, y)
    ensures AreCheapest(routes, all, k)
  {
    assert multiset(routes) <= all by {
      forall y ensures multiset(routes)[y] <= all[y] { assert CheapestAt(routes, all, k, y); }
    }
    forall x, y | x in routes && y in all - multiset(routes) ensures |routes| == k && x.cost <= y.cost {
      assert CheapestAt(routes, all, k, y);
    }
    SplitSize(all, multiset(routes));
    if |routes| < k {
      forall y ensures y !in all - multiset(routes) { assert CheapestAt(routes, all, k, y); }
      assert all - multiset(routes) == multiset{};
    }
  }

  lemma PendingMeansHeap(s: State, c: nat)
    requires PendingFor(s, c)
    ensures |s.heap| > 0
  {
    var z :| z in s.heap && z.cost <= c;
    assert s.heap[z] > 0;
  }

  lemma SplitSize<T>(all: multiset<T>, part: multiset<T>)
    requires part <= all
    ensures |all| == |part| + |all - part|
  {
    assert all == part + (all - part);
  }

  /**
   Up to `bound` the answer is the cheapest candidates: one for each edge from
   the end of a cheapest way into the destination.
   */
  ghost predicate ExactWithin(net: Net, k: nat, bound: nat) {
    exists best ::
      AreCheapestWays(net, best) && AreCheapestWithin(Routes(net, k), Candidates(net, net.links, best), k, bound)
  }

  /**
   The routes are the cheapest candidates up to any fee for which all edges into
   the destination are roomy, or up to any fee if nothing was dropped.
   */
  lemma RoutesAreExact(net: Net, maxRoutes: nat, bound: nat)
    requires net.source != net.dest && Clear(net, Final(net, maxRoutes), bound)
    ensures ExactWithin(net, maxRoutes, bound)
  {
    var s := Final(net, maxRoutes);
    FinalInv(net, maxRoutes);
    FewerRoutesIsAPrefix(net, maxRoutes, maxRoutes);
    BestWaysAreCheapest(net, s);
    forall y: Entry | y.cost <= bound
      ensures CheapestAt(s.found, Candidates(net, net.links, BestWays(net, s)), maxRoutes, y)
    {
      ClearBelow(net, s, y.cost, bound);
      ExactAt(net, s, maxRoutes, y);
    }
  }

  /** Up to `bound` all answers are the cheapest candidates, however many are asked for. */
  ghost predicate IsExactUpTo(net: Net, bound: nat) {
    forall k: nat :: ExactWithin(net, k, bound)
  }

  /** Decided gate by gate: roomy gates are enough. */
  lemma ExactPerGate(net: Net, bound: nat)
    requires net.source != net.dest && RoomyWithin(net, bound)
    ensures IsExactUpTo(net, bound)
  {
    forall k: nat ensures ExactWithin(net, k, bound) { RoutesAreExact(net, k, bound); }
  }

  /** Below the fee of every long walk to the destination all gates are roomy. */
  lemma RoomyBelowLongWalks(net: Net, bound: nat)
    requires !LongWalkWithin(net, net.dest, bound)
    ensures RoomyWithin(net, bound)
  {
    forall e, q | GateAt(net, e, bound) && IsSimpleTo(net, q, e.source) && |q| >= MAX_HOPS
      ensures SomeCheaperTo(net, e.source, Cost(q))
    {
      var p :| IsWalkTo(net, p, e.source) && Cost(p) <= bound - e.fee;
      if Cost(q) <= Cost(p) { GoesOn(net, e, q, bound); }
    }
  }

  lemma GoesOn(net: Net, e: Link, q: seq<Hop>, bound: nat)
    requires IsGate(net, e) && IsSimpleTo(net, q, e.source) && |q| >= MAX_HOPS && Cost(q) + e.fee <= bound
    ensures LongWalkWithin(net, net.dest, bound)
  {
    assert IsHop(net, End(net, q), HopOf(e));
    AppendHop(net, q, HopOf(e));
    AppendNodes(net, q, HopOf(e));
    assert IsLongWalk(net, q + [HopOf(e)], net.dest);
  }

  lemma WithinMeansCheapest(routes: seq<Entry>, all: multiset<Entry>, k: nat, bound: nat)
    requires AreCheapestWithin(routes, all, k, bound)
    requires |routes| == k && forall x :: x in routes ==> x.cost <= bound
    ensures AreCheapest(routes, all, k)
  {
    forall y: Entry ensures CheapestAt(routes, all, k, y) {
      if y.cost > bound { assert y !in routes && y !in multiset(routes); }
    }
    CheapestFrom(routes, all, k);
  }

  /** A full answer that stays below the bound is the cheapest candidates outright. */
  lemma AnswerBelowIsExact(net: Net, maxRoutes: nat, bound: nat)
    requires ExactWithin(net, maxRoutes, bound)
    requires |Routes(net, maxRoutes)| == maxRoutes && forall x :: x in Routes(net, maxRoutes) ==> x.cost <= bound
    ensures ExactFor(net, maxRoutes)
  {
    var best :| AreCheapestWays(net, best)
                && AreCheapestWithin(Routes(net, maxRoutes), Candidates(net, net.links, best), maxRoutes, bound);
    WithinMeansCheapest(Routes(net, maxRoutes), Candidates(net, net.links, best), maxRoutes, bound);
  }

  /** Over how many edges the destination can be reached for at most `c`. */
  ghost function GatesWithin(net: Net, links: seq<Link>, c: nat): nat {
    if links == [] then 0
    else GatesWithin(net, links[..|links| - 1], c) + (if GateAt(net, links[|links| - 1], c) then 1 else 0)
  }

  /** Each such edge gives a candidate of at most `c`. */
  lemma {:induction false} GatesAreCandidates(net: Net, links: seq<Link>, best: map<NodeId, Entry>, c: nat)
      returns (part: multiset<Entry>)
    requires AreCheapestWays(net, best)
    ensures part <= Candidates(net, links, best) && |part| == GatesWithin(net, links, c)
    ensures forall y :: y in part ==> y.cost <= c
  {
    if links == [] {
      part := multiset{};
    } else {
      var init, e := links[..|links| - 1], links[|links| - 1];
      part := GatesAreCandidates(net, init, best, c);
      if GateAt(net, e, c) {
        GateCandidate(net, e, best, c);
        part := part + multiset{Onward(best[e.source], e)};
      }
    }
  }

  lemma GateCandidate(net: Net, e: Link, best: map<NodeId, Entry>, c: nat)
    requires AreCheapestWays(net, best) && GateAt(net, e, c)
    ensures e.source in best && best[e.source].cost + e.fee <= c
  {
    var p :| IsWalkTo(net, p, e.source) && Cost(p) <= c - e.fee;
    assert IsCheapestTo(net, best[e.source], e.source);
  }

  /** With `k` candidates within the bound, `k` routes are returned and none is above it. */
  lemma EnoughWithin(routes: seq<Entry>, all: multiset<Entry>, k: nat, bound: nat, part: multiset<Entry>)
    requires AreCheapestWithin(routes, all, k, bound)
    requires part <= all && |part| >= k && forall y :: y in part ==> y.cost <= bound
    ensures |routes| == k && forall x :: x in routes ==> x.cost <= bound
  {
    if y :| y in part && multiset(routes)[y] < part[y] {
      assert CheapestAt(routes, all, k, y);
    } else {
      assert part <= multiset(routes);
      SplitSize(multiset(routes), part);
      assert multiset(routes) == part + (multiset(routes) - part);
      assert forall x :: x in routes ==> x in part;
    }
  }

  /**
   Where the destination can be reached over `k` edges for at most `bound`, and
   all such edges are roomy, `k` routes are the cheapest candidates outright.
   */
  lemma FullAnswerIsExact(net: Net, maxRoutes: nat, bound: nat)
    requires net.source != net.dest && RoomyWithin(net, bound) && GatesWithin(net, net.links, bound) >= maxRoutes
    ensures ExactFor(net, maxRoutes)
  {
    RoutesAreExact(net, maxRoutes, bound);
    var best :| AreCheapestWays(net, best)
                && AreCheapestWithin(Routes(net, maxRoutes), Candidates(net, net.links, best), maxRoutes, bound);
    var part := GatesAreCandidates(net, net.links, best, bound);
    EnoughWithin(Routes(net, maxRoutes), Candidates(net, net.links, best), maxRoutes, bound, part);
    AnswerBelowIsExact(net, maxRoutes, bound);
  }

  ghost predicate AllRoomy(net: Net) { forall c: nat :: RoomyWithin(net, c) }

  lemma NoLongWalkAllRoomy(net: Net)
    requires !SomeLongWalk(net, net.dest)
    ensures AllRoomy(net)
  {
    forall c: nat ensures RoomyWithin(net, c) { RoomyBelowLongWalks(net, c); }
  }

  /** Where nothing was dropped, or all gates are roomy, there is no bound. */
  lemma ExactWithoutLoss(net: Net, maxRoutes: nat)
    requires net.source != net.dest
    requires Final(net, maxRoutes).lost == multiset{} || AllRoomy(net)
    ensures ExactFor(net, maxRoutes)
  {
    var s := Final(net, maxRoutes);
    FinalInv(net, maxRoutes);
    FewerRoutesIsAPrefix(net, maxRoutes, maxRoutes);
    BestWaysAreCheapest(net, s);
    forall y: Entry ensures CheapestAt(s.found, Candidates(net, net.links, BestWays(net, s)), maxRoutes, y) {
      ExactAt(net, s, maxRoutes, y);
    }
    CheapestFrom(s.found, Candidates(net, net.links, BestWays(net, s)), maxRoutes);
  }

  // ---------- exactness of one query, both ways ----------

  ghost predicate IsCheapestSimpleTo(net: Net, p: seq<Hop>, u: NodeId) {
    IsSimpleTo(net, p, u) && !SomeCheaperTo(net, u, Cost(p))
  }

  /** Cheapest simple walks to `u` that leave a hop for the destination and that leave none both exist. */
  ghost predicate GateTies(net: Net, u: NodeId) {
    && (exists p :: IsCheapestSimpleTo(net, p, u) && |p| < MAX_HOPS)
    && (exists q :: IsCheapestSimpleTo(net, q, u) && |q| >= MAX_HOPS)
  }

  ghost predicate NoGateTies(net: Net, c: nat) {
    forall e :: GateAt(net, e, c) ==> !GateTies(net, e.source)
  }

  /** A candidate that is returned went to its gate along a simple walk that leaves a hop. */
  lemma ReturnedHasRoom(net: Net, k: nat, e: Link, best: map<NodeId, Entry>)
    requires AreCheapestWays(net, best) && e.source in best && Onward(best[e.source], e) in Routes(net, k)
    ensures IsCheapestSimpleTo(net, best[e.source].path, e.source) && |best[e.source].path| < MAX_HOPS
  {
    var x, y := best[e.source], Onward(best[e.source], e);
    RoutesAreSound(net, k);
    assert IsRoute(net, y);
    assert IsCheapestTo(net, x, e.source);
    assert y.path[..|x.path|] == x.path;
    PrefixIsWalk(net, y.path, |x.path|);
  }

  /** An exact answer to a request for plenty returns the candidate over every gate within the bound. */
  lemma PlentyReturnsAll(net: Net, bound: nat, e: Link) returns (best: map<NodeId, Entry>)
    requires net.source != net.dest && ExactWithin(net, Plenty(net), bound) && GateAt(net, e, bound)
    ensures AreCheapestWays(net, best) && e.source in best
    ensures Onward(best[e.source], e) in Routes(net, Plenty(net))
  {
    var k := Plenty(net);
    best :| AreCheapestWays(net, best)
            && AreCheapestWithin(Routes(net, k), Candidates(net, net.links, best), k, bound);
    GateCandidate(net, e, best, bound);
    var y := Onward(best[e.source], e);
    CandidateSource(net, net.links, best, y);
    PlentyExhausts(net);
    assert CheapestAt(Routes(net, k), Candidates(net, net.links, best), k, y);
    assert y in multiset(Routes(net, k));
  }

  lemma ExactMeansRoomy(net: Net, bound: nat, e: Link)
    requires net.source != net.dest && ExactWithin(net, Plenty(net), bound)
    requires GateAt(net, e, bound) && !GateTies(net, e.source)
    ensures Roomy(net, e.source)
  {
    var best := PlentyReturnsAll(net, bound, e);
    ReturnedHasRoom(net, Plenty(net), e, best);
    forall q | IsSimpleTo(net, q, e.source) && |q| >= MAX_HOPS ensures SomeCheaperTo(net, e.source, Cost(q)) {
      assert IsCheapestSimpleTo(net, q, e.source) || SomeCheaperTo(net, e.source, Cost(q));
    }
  }

  /**
   For one query at its fees: unless roomy and over-long cheapest ways tie at a
   gate, the answers of all sizes are exact up to `bound` exactly when all gates
   within it are roomy.
   */
  lemma ExactUpToIff(net: Net, bound: nat)
    requires net.source != net.dest && NoGateTies(net, bound)
    ensures IsExactUpTo(net, bound) <==> RoomyWithin(net, bound)
  {
    if RoomyWithin(net, bound) { ExactPerGate(net, bound); }
    if IsExactUpTo(net, bound) {
      assert ExactWithin(net, Plenty(net), bound);
      forall e | GateAt(net, e, bound) ensures Roomy(net, e.source) { ExactMeansRoomy(net, bound, e); }
    }
  }

  lemma CheapestIsAt(routes: seq<Entry>, all: multiset<Entry>, k: nat, y: Entry)
    requires AreCheapest(routes, all, k)
    ensures CheapestAt(routes, all, k, y)
  {
    if multiset(routes)[y] < all[y] {
      SplitSize(all, multiset(routes));
      assert y in all - multiset(routes);
      assert (all - multiset(routes))[y] > 0;
    }
  }

  lemma ExactMeansWithin(net: Net, k: nat, bound: nat)
    requires ExactFor(net, k)
    ensures ExactWithin(net, k, bound)
  {
    var best :| AreCheapestWays(net, best) && AreCheapest(Routes(net, k), Candidates(net, net.links, best), k);
    forall y: Entry ensures CheapestAt(Routes(net, k), Candidates(net, net.links, best), k, y) {
      CheapestIsAt(Routes(net, k), Candidates(net, net.links, best), k, y);
    }
  }

  /** The same without a bound: all answers are exact exactly when all gates are roomy. */
  lemma ExactIff(net: Net)
    requires net.source != net.dest && forall c: nat :: NoGateTies(net, c)
    ensures IsExact(net) <==> AllRoomy(net)
  {
    if AllRoomy(net) {
      forall k: nat ensures ExactFor(net, k) { ExactWithoutLoss(net, k); }
    }
    if IsExact(net) {
      forall c: nat ensures RoomyWithin(net, c) {
        forall k: nat ensures ExactWithin(net, k, c) { assert ExactFor(net, k); ExactMeansWithin(net, k, c); }
        ExactUpToIff(net, c);
      }
    }
  }

  // ---------- exactness, decided by the channels alone ----------

  /** The routes are the cheapest candidates, however many are asked for. */
  ghost predicate IsExact(net: Net) {
    forall k: nat :: ExactFor(net, k)
  }

  ghost predicate ExactFor(net: Net, k: nat) {
    exists best :: AreCheapestWays(net, best) && AreCheapest(Routes(net, k), Candidates(net, net.links, best), k)
  }

  /** The cheapest candidate is a cheapest walk to the destination. */
  lemma ExactMeansOptimal(net: Net)
    requires net.source != net.dest && ExactFor(net, 1)
    ensures FirstIsOptimal(net)
  {
    var best :| AreCheapestWays(net, best) && AreCheapest(Routes(net, 1), Candidates(net, net.links, best), 1);
    var all, routes := Candidates(net, net.links, best), Routes(net, 1);
    forall p | IsWalkToDest(net, p) ensures FirstIsNoDearer(net, 1, p) {
      var q := StopAtDest(net, p);
      var y := CandidateFor(net, best, q);
      OneCheapest(routes, all, 1, y);
    }
  }

  /** Every walk to the destination is matched by a candidate that costs no more. */
  lemma CandidateFor(net: Net, best: map<NodeId, Entry>, q: seq<Hop>) returns (y: Entry)
    requires net.source != net.dest && AreCheapestWays(net, best) && IsWalkTo(net, q, net.dest)
    ensures y in Candidates(net, net.links, best) && y.cost <= Cost(q)
  {
    var n := |q| - 1;
    assert HopAt(net, q, n);
    var e :| e in net.links && e.source == NodeAt(net, q, n) && HopOf(e) == q[n];
    PrefixIsWalk(net, q, n);
    assert IsWalkTo(net, q[..n], e.source);
    y := Onward(best[e.source], e);
    CandidateSource(net, net.links, best, y);
  }

  /**
   One route, for one query at its fees: unless short and long walks tie, it is
   the cheapest candidate exactly when every long walk is dearer than some other.
   */
  lemma ExactOneIff(net: Net)
    requires net.source != net.dest && !LengthsTie(net)
    ensures ExactFor(net, 1) <==> LongWalksAreDearer(net)
  {
    if ExactFor(net, 1) { ExactMeansOptimal(net); }
    OptimalIff(net);
    if LongWalksAreDearer(net) { DearerMeansExact(net); }
  }

  lemma FirstBelowIsExact(net: Net, c: nat)
    requires net.source != net.dest && !LongWalkWithin(net, net.dest, c)
    requires Routes(net, 1) != [] && Routes(net, 1)[0].cost <= c
    ensures ExactFor(net, 1)
  {
    RoomyBelowLongWalks(net, c);
    RoutesAreExact(net, 1, c);
    FewerRoutesIsAPrefix(net, 1, 1);
    AnswerBelowIsExact(net, 1, c);
  }

  lemma DearerMeansExact(net: Net)
    requires net.source != net.dest && LongWalksAreDearer(net)
    ensures ExactFor(net, 1)
  {
    if p :| IsWalkToDest(net, p) {
      DearerMeansOptimal(net);
      OptimalMeansShort(net, p);
      var c :| IsShortWalk(net, c) && IsCheapestWalk(net, c);
      DearerThanCheapest(net, c);
      assert FirstIsNoDearer(net, 1, c);
      FirstBelowIsExact(net, Cost(c));
    } else {
      forall q ensures !IsLongWalk(net, q, net.dest) { assert !IsWalkToDest(net, q); }
      NoLongWalkAllRoomy(net);
      ExactWithoutLoss(net, 1);
    }
  }

  /**
   For every fee the channels could charge the routes are exact, just when no
   simple path to the destination has more than six hops.
   */
  lemma ExactForAllFeesIff(edges: seq<Edge>, amount: u64, source: NodeId, dest: NodeId)
    requires source != dest
    ensures ShortTrails(edges, source, dest) <==>
            forall other :: Repriced(edges, other) ==> IsExact(NetFor(other, amount, source, dest))
  {
    if ShortTrails(edges, source, dest) {
      forall other, k: nat | Repriced(edges, other) ensures ExactFor(NetFor(other, amount, source, dest), k) {
        RepricingKeepsTrails(edges, other, source, dest);
        ShortTrailsSuffice(other, amount, source, dest);
        NoLongWalkAllRoomy(NetFor(other, amount, source, dest));
        ExactWithoutLoss(NetFor(other, amount, source, dest), k);
      }
    } else {
      OptimalForAllFeesIff(edges, amount, source, dest);
      var other :| Repriced(edges, other) && !FirstIsOptimal(NetFor(other, amount, source, dest));
      if IsExact(NetFor(other, amount, source, dest)) {
        assert ExactFor(NetFor(other, amount, source, dest), 1);
        ExactMeansOptimal(NetFor(other, amount, source, dest));
      }
    }
  }
}
