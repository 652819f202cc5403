/**
 The first route against every walk. A run is followed along an arbitrary walk
 to the destination: either a route at most as dear is returned, or the hop cap
 has dropped the beginning of a simple walk of more than six hops that is itself
 at most as dear.
 */
module RouteOptimality {
  import opened RouteGraph
  import opened RouteSearch
  import opened RouteWalks
  import opened RouteInvariants
  import opened RouteSoundness

  /** A simple walk longer than the hop cap. */
  ghost predicate IsLongWalk(net: Net, q: seq<Hop>, t: NodeId) {
    IsWalkTo(net, q, t) && IsSimple(net, q) && |q| > MAX_HOPS
  }

  ghost predicate SomeLongWalk(net: Net, t: NodeId) { exists q :: IsLongWalk(net, q, t) }

  /** Some long walk to `t` costs at most `c`. */
  ghost predicate LongWalkWithin(net: Net, t: NodeId, c: nat) {
    exists q :: IsLongWalk(net, q, t) && Cost(q) <= c
  }

  /** The run has settled `t` for at most `c`. */
  ghost predicate SettledFor(s: State, t: NodeId, c: nat) { t in s.settled && s.settled[t].cost <= c }

  /** Some entry costing at most `c` is still pending. */
  ghost predicate PendingFor(s: State, c: nat) { exists y :: y in s.heap && y.cost <= c }

  ghost predicate FoundFor(s: State, c: nat) { exists i :: 0 <= i < |s.found| && s.found[i].cost <= c }

  /** How far a run has followed a walk to `t` of fee `c`. */
  ghost predicate Followed(net: Net, s: State, t: NodeId, c: nat) {
    || SettledFor(s, t, c)
    || PendingFor(s, c)
    || (t == net.dest && FoundFor(s, c))
    || (s.lost != multiset{} && LongWalkWithin(net, t, c))
  }

  /** No node after the `i`th is settled by the time the walk gets there. */
  ghost predicate LastInTime(net: Net, s: State, p: seq<Hop>, i: nat) {
    forall j :: i < j <= |p| ==> !SettledFor(s, NodeAt(net, p, j), Cost(p[..j]))
  }

  lemma CostPrefix(p: seq<Hop>, i: nat, j: nat)
    requires i <= j <= |p|
    ensures Cost(p[..i]) <= Cost(p[..j]) <= Cost(p)
  {
    CostSplit(p, j);
    CostSplit(p[..j], i);
    assert p[..j][..i] == p[..i];
  }

  lemma SettledOnTheWay(net: Net, s: State, x: Entry, a: nat)
    requires Sound(net, s) && Traced(net, s.settled, x) && a < |x.path|
    ensures SettledFor(s, NodeAt(net, x.path, a), x.cost)
  {
    assert TracedAt(net, s.settled, x, a);
    assert Good(net, s.settled[NodeAt(net, x.path, a)]);
    CostPrefix(x.path, a, |x.path|);
  }

  /** A traced path never meets the rest of a walk whose later nodes are settled only for more. */
  lemma JoinIsSimple(net: Net, s: State, x: Entry, p: seq<Hop>, i: nat)
    requires Sound(net, s) && Traced(net, s.settled, x) && IsSimple(net, p) && i <= |p|
    requires x.node == NodeAt(net, p, i) && x.cost <= Cost(p[..i])
    requires LastInTime(net, s, p, i)
    ensures IsSimple(net, x.path + p[i..])
  {
    forall a, j | 0 <= a < |x.path| && i < j <= |p| ensures NodeAt(net, x.path, a) != NodeAt(net, p, j) {
      SettledOnTheWay(net, s, x, a);
      CostPrefix(p, i, j);
      assert !SettledFor(s, NodeAt(net, p, j), Cost(p[..j]));
    }
    SpliceSimple(net, x.path, p, i);
  }

  lemma JoinIsLong(net: Net, s: State, x: Entry, p: seq<Hop>, i: nat)
    requires Sound(net, s) && Traced(net, s.settled, x) && |x.path| >= MAX_HOPS
    requires IsWalkTo(net, p, End(net, p)) && IsSimple(net, p) && i < |p|
    requires x.node == NodeAt(net, p, i) && x.cost <= Cost(p[..i])
    requires LastInTime(net, s, p, i)
    ensures IsLongWalk(net, x.path + p[i..], End(net, p))
  {
    JoinIsSimple(net, s, x, p, i);
    Splice(net, x.path, p, i);
    SpliceAvoids(net, x.path, p, i);
  }

  /** The long walk behind a dropped entry is no dearer than the walk that was followed. */
  lemma LostMeansLongWalk(net: Net, s: State, x: Entry, p: seq<Hop>, i: nat)
    requires Sound(net, s) && Traced(net, s.settled, x) && |x.path| >= MAX_HOPS
    requires IsWalkTo(net, p, End(net, p)) && IsSimple(net, p) && i < |p|
    requires x.node == NodeAt(net, p, i) && x.cost <= Cost(p[..i])
    requires LastInTime(net, s, p, i)
    ensures LongWalkWithin(net, End(net, p), Cost(p))
  {
    JoinIsLong(net, s, x, p, i);
    SpliceCost(x.path, p, i);
    assert Cost(x.path + p[i..]) <= Cost(p);
  }

  /** Follow a simple walk from its furthest node settled in time. */
  lemma {:induction false} FollowFrom(net: Net, s: State, p: seq<Hop>, i: nat)
    requires Inv(net, s) && i <= |p| && IsWalkTo(net, p, End(net, p)) && IsSimple(net, p)
    requires SettledFor(s, NodeAt(net, p, i), Cost(p[..i]))
    ensures Followed(net, s, End(net, p), Cost(p))
    decreases |p| - i
  {
    if j :| i < j <= |p| && SettledFor(s, NodeAt(net, p, j), Cost(p[..j])) {
      FollowFrom(net, s, p, j);
    } else if i == |p| {
      assert p[..i] == p;
    } else {
      FollowStep(net, s, p, i);
    }
  }

  /** The entry one hop beyond a node settled in time costs no more than the walk so far. */
  lemma NextEntry(net: Net, s: State, p: seq<Hop>, i: nat) returns (x: Entry, y: Entry)
    requires Inv(net, s) && i < |p| && IsWalk(net, p)
    requires SettledFor(s, NodeAt(net, p, i), Cost(p[..i]))
    ensures Traced(net, s.settled, x) && x.node == NodeAt(net, p, i) && x.cost <= Cost(p[..i])
    ensures |y.path| == |x.path| + 1 && Accounted(net, s, y)
    ensures y.node == NodeAt(net, p, i + 1) && y.cost <= Cost(p[..i + 1]) <= Cost(p)
  {
    assert HopAt(net, p, i);
    var e :| e in net.links && e.source == NodeAt(net, p, i) && HopOf(e) == p[i];
    x := s.settled[e.source];
    y := Extend(x, e);
    assert Traced(net, s.settled, x);
    ExtendCost(net, x, e);
    assert p[..i + 1][..i] == p[..i];
    CostPrefix(p, i + 1, |p|);
  }

  lemma FollowStep(net: Net, s: State, p: seq<Hop>, i: nat)
    requires Inv(net, s) && i < |p| && IsWalkTo(net, p, End(net, p)) && IsSimple(net, p)
    requires SettledFor(s, NodeAt(net, p, i), Cost(p[..i]))
    requires LastInTime(net, s, p, i)
    ensures Followed(net, s, End(net, p), Cost(p))
  {
    var x, y := NextEntry(net, s, p, i);
    assert !SettledFor(s, NodeAt(net, p, i + 1), Cost(p[..i + 1]));
    if y in s.lost {
      LostMeansLongWalk(net, s, x, p, i);
    } else if y.node == net.dest && y in s.found {
      EndOfAvoiding(net, p, i + 1);
      assert FoundFor(s, Cost(p));
    } else {
      assert PendingFor(s, Cost(p));
    }
  }

  lemma EndOfAvoiding(net: Net, p: seq<Hop>, k: nat)
    requires Avoids(net, p) && k <= |p| && NodeAt(net, p, k) == net.dest
    ensures End(net, p) == net.dest
  {
  }

  /** Every walk not passing through the destination is followed, simple or not. */
  lemma Follow(net: Net, s: State, p: seq<Hop>)
    requires Inv(net, s) && IsWalkTo(net, p, End(net, p))
    ensures Followed(net, s, End(net, p), Cost(p))
  {
    var q := Shorten(net, p);
    if Root(net) in s.heap {
      assert PendingFor(s, Cost(p));
    } else {
      var x := s.settled[net.source];
      assert NodeAt(net, x.path, 0) == NodeAt(net, x.path, |x.path|);
      assert SettledFor(s, NodeAt(net, q, 0), Cost(q[..0]));
      FollowFrom(net, s, q, 0);
    }
  }

  ghost predicate IsWalkToDest(net: Net, p: seq<Hop>) { IsWalk(net, p) && End(net, p) == net.dest }

  /** The first route exists and is no dearer than `p`. */
  ghost predicate FirstIsNoDearer(net: Net, maxRoutes: nat, p: seq<Hop>) {
    Routes(net, maxRoutes) != [] && Routes(net, maxRoutes)[0].cost <= Cost(p)
  }

  /**
   For any walk to the destination, the first route is no dearer, or else an
   entry was dropped and some simple walk of more than six hops to the
   destination is no dearer.
   */
  lemma FirstRouteOrLongWalk(net: Net, maxRoutes: nat, p: seq<Hop>)
    requires net.source != net.dest && maxRoutes >= 1 && IsWalkToDest(net, p)
    ensures || FirstIsNoDearer(net, maxRoutes, p)
            || (Final(net, maxRoutes).lost != multiset{} && LongWalkWithin(net, net.dest, Cost(p)))
  {
    FinalInv(net, maxRoutes);
    var q := StopAtDest(net, p);
    Follow(net, Final(net, maxRoutes), q);
    if FoundFor(Final(net, maxRoutes), Cost(q)) || PendingFor(Final(net, maxRoutes), Cost(q)) {
      CheapestComesFirst(net, Final(net, maxRoutes), maxRoutes, Cost(q));
    }
  }

  /** In a stopped run, whatever was found or is still pending is no cheaper than the first route. */
  lemma CheapestComesFirst(net: Net, s: State, maxRoutes: nat, c: nat)
    requires Inv(net, s) && Stopped(s, maxRoutes) && maxRoutes >= 1
    requires FoundFor(s, c) || PendingFor(s, c)
    ensures s.found != [] && s.found[0].cost <= c
  {
    if y :| y in s.heap && y.cost <= c {
      assert s.heap[y] > 0 && s.found != [];
      assert s.found[0].cost <= y.cost;
    } else {
      var i :| 0 <= i < |s.found| && s.found[i].cost <= c;
      assert s.found[0].cost <= s.found[i].cost;
    }
  }

  /** Whatever the hop cap drops, no channel straight to the destination beats the first route. */
  lemma DirectIsNoDearer(net: Net, maxRoutes: nat, e: Link)
    requires net.source != net.dest && maxRoutes >= 1
    requires e in net.links && e.source == net.source && e.target == net.dest
    ensures FirstIsNoDearer(net, maxRoutes, [HopOf(e)])
  {
    var s := Final(net, maxRoutes);
    FinalInv(net, maxRoutes);
    assert [HopOf(e)] == [] + [HopOf(e)];
    AppendNodes(net, [], HopOf(e));
    if Root(net) in s.heap {
      assert PendingFor(s, e.fee);
    } else {
      DirectIsKept(net, s, e);
    }
    CheapestComesFirst(net, s, maxRoutes, e.fee);
  }

  lemma DirectIsKept(net: Net, s: State, e: Link)
    requires Inv(net, s) && net.source in s.settled
    requires e in net.links && e.source == net.source && e.target == net.dest
    ensures FoundFor(s, e.fee) || PendingFor(s, e.fee)
  {
    var x := s.settled[net.source];
    assert NodeAt(net, x.path, 0) == NodeAt(net, x.path, |x.path|);
    var y := Extend(x, e);
    ExtendCost(net, x, e);
    assert Accounted(net, s, y) && y.cost == e.fee && |y.path| == 1;
    if y in s.found {
      var i :| 0 <= i < |s.found| && s.found[i] == y;
    } else {
      assert y in s.heap;
    }
  }

  // ---------- when the first route is a cheapest walk ----------

  /** Every simple walk of more than six hops to the destination is dearer than some walk there. */
  ghost predicate LongWalksAreDearer(net: Net) {
    forall q :: IsLongWalk(net, q, net.dest) ==> SomeCheaper(net, Cost(q))
  }

  ghost predicate SomeCheaper(net: Net, c: nat) { exists p :: IsWalkToDest(net, p) && Cost(p) < c }

  /** While nothing has been dropped, or where long walks are dearer, the first route is a cheapest walk. */
  lemma {:induction false} FirstRouteIsOptimal(net: Net, maxRoutes: nat, p: seq<Hop>)
    requires net.source != net.dest && maxRoutes >= 1 && IsWalkToDest(net, p)
    requires Final(net, maxRoutes).lost == multiset{} || LongWalksAreDearer(net)
    ensures FirstIsNoDearer(net, maxRoutes, p)
    decreases Cost(p)
  {
    FirstRouteOrLongWalk(net, maxRoutes, p);
    if !FirstIsNoDearer(net, maxRoutes, p) {
      var q :| IsLongWalk(net, q, net.dest) && Cost(q) <= Cost(p);
      assert SomeCheaper(net, Cost(q));
      var c :| IsWalkToDest(net, c) && Cost(c) < Cost(q);
      FirstRouteIsOptimal(net, maxRoutes, c);
    }
  }

  /** The first route is a cheapest walk to the destination, and is missing only if there is none. */
  ghost predicate FirstIsOptimal(net: Net) {
    forall p :: IsWalkToDest(net, p) ==> FirstIsNoDearer(net, 1, p)
  }

  ghost predicate IsCheapestWalk(net: Net, p: seq<Hop>) { IsWalkToDest(net, p) && !SomeCheaper(net, Cost(p)) }

  /** A simple walk within the hop cap. */
  ghost predicate IsShortWalk(net: Net, q: seq<Hop>) {
    IsWalkTo(net, q, net.dest) && IsSimple(net, q) && |q| <= MAX_HOPS
  }

  lemma FirstRouteIsShort(net: Net, maxRoutes: nat)
    requires Routes(net, maxRoutes) != []
    ensures var r := Routes(net, maxRoutes)[0];
      IsShortWalk(net, r.path) && IsWalkToDest(net, r.path) && r.cost == Cost(r.path)
  {
    RoutesAreSound(net, maxRoutes);
    assert IsRoute(net, Routes(net, maxRoutes)[0]);
  }

  /** An optimal first route is itself a cheapest walk of at most six hops. */
  lemma OptimalMeansShort(net: Net, p: seq<Hop>)
    requires FirstIsOptimal(net) && IsWalkToDest(net, p)
    ensures exists c :: IsShortWalk(net, c) && IsCheapestWalk(net, c)
  {
    assert FirstIsNoDearer(net, 1, p);
    FirstRouteIsShort(net, 1);
    var r := Routes(net, 1)[0];
    forall q | IsWalkToDest(net, q) ensures r.cost <= Cost(q) { assert FirstIsNoDearer(net, 1, q); }
    assert IsCheapestWalk(net, r.path);
  }

  /** Cheapest simple walks of at most six hops and of more than six both exist. */
  ghost predicate LengthsTie(net: Net) {
    && (exists c :: IsShortWalk(net, c) && IsCheapestWalk(net, c))
    && (exists q :: IsLongWalk(net, q, net.dest) && IsCheapestWalk(net, q))
  }

  lemma DearerMeansOptimal(net: Net)
    requires net.source != net.dest && LongWalksAreDearer(net)
    ensures FirstIsOptimal(net)
  {
    forall p | IsWalkToDest(net, p) ensures FirstIsNoDearer(net, 1, p) { FirstRouteIsOptimal(net, 1, p); }
  }

  /**
   For one query at its fees: unless short and long walks tie for the least fee,
   the first route is optimal exactly when every long walk is dearer than some
   other walk.
   */
  lemma OptimalIff(net: Net)
    requires net.source != net.dest && !LengthsTie(net)
    ensures FirstIsOptimal(net) <==> LongWalksAreDearer(net)
  {
    if LongWalksAreDearer(net) {
      DearerMeansOptimal(net);
    } else if FirstIsOptimal(net) {
      var q :| IsLongWalk(net, q, net.dest) && !SomeCheaper(net, Cost(q));
      assert IsCheapestWalk(net, q);
      OptimalMeansShort(net, q);
    }
  }

  /** The same against any one cheapest walk: every long walk costs more than it. */
  lemma DearerThanCheapest(net: Net, c: seq<Hop>)
    requires IsCheapestWalk(net, c)
    ensures LongWalksAreDearer(net) <==> !LongWalkWithin(net, net.dest, Cost(c))
  {
    if LongWalksAreDearer(net) {
      forall q | IsLongWalk(net, q, net.dest) ensures Cost(c) < Cost(q) {
        assert SomeCheaper(net, Cost(q));
        var p :| IsWalkToDest(net, p) && Cost(p) < Cost(q);
      }
    } else {
      var q :| IsLongWalk(net, q, net.dest) && !SomeCheaper(net, Cost(q));
      assert IsWalkToDest(net, c) && Cost(q) <= Cost(c);
    }
  }
}
