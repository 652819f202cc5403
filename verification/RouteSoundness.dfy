/** What every returned route is, whatever the graph and however many are asked for. */
module RouteSoundness {
  import opened Numbers
  import opened RouteGraph
  import opened RouteSearch
  import opened RouteWalks
  import opened RouteInvariants

  /** A simple walk of one to six admitted hops to the destination, at the exact sum of its fees. */
  ghost predicate IsRoute(net: Net, x: Entry) {
    && IsWalkTo(net, x.path, net.dest) && IsSimple(net, x.path)
    && 1 <= |x.path| <= MAX_HOPS && x.cost == Cost(x.path)
  }

  lemma RoutesEndAtDest(net: Net, maxRoutes: nat, x: Entry)
    requires x in Routes(net, maxRoutes)
    ensures IsRoute(net, x) && x.node == net.dest
  {
    FinalInv(net, maxRoutes);
    assert Good(net, x);
  }

  lemma RoutesAreSound(net: Net, maxRoutes: nat)
    ensures forall x :: x in Routes(net, maxRoutes) ==> IsRoute(net, x)
    ensures SortedByCost(Routes(net, maxRoutes)) && |Routes(net, maxRoutes)| <= maxRoutes
  {
    FewerRoutesIsAPrefix(net, maxRoutes, maxRoutes);
    if net.source != net.dest {
      FinalInv(net, maxRoutes);
      forall x | x in Routes(net, maxRoutes) ensures IsRoute(net, x) { RoutesEndAtDest(net, maxRoutes, x); }
    }
  }

  /** What a node was expanded from is a simple walk of at most six hops, and none was the destination. */
  lemma ExpansionsAreSound(net: Net, maxRoutes: nat, u: NodeId)
    requires net.source != net.dest
    ensures var s := Final(net, maxRoutes);
      u in s.settled ==> u != net.dest && Good(net, s.settled[u]) && s.settled[u].node == u
                         && |s.settled[u].path| <= MAX_HOPS
  {
    FinalInv(net, maxRoutes);
  }

  lemma StepKeepsSettled(net: Net, s: State, u: NodeId)
    requires |s.heap| > 0 && u in s.settled
    ensures u in Step(net, s).settled && Step(net, s).settled[u] == s.settled[u]
  {
  }

  /** Once expanded, a node is never expanded again: what it was expanded from stays as it is. */
  lemma ExpandedOnce(net: Net, states: seq<State>, i: nat, j: nat, u: NodeId)
    requires IsRun(net, states) && i < j < |states| && u in states[i].settled
    ensures u in states[j].settled && states[j].settled[u] == states[i].settled[u]
  {
    for k := i to j
      invariant u in states[k].settled && states[k].settled[u] == states[i].settled[u]
    {
      assert StepsAt(net, states, k);
      StepKeepsSettled(net, states[k], u);
    }
  }

  // ---------- sums ----------

  function ExactTimeLock(path: seq<Hop>): nat {
    if path == [] then 0 else ExactTimeLock(path[..|path| - 1]) + path[|path| - 1].cltv
  }

  /** The u32 sum over the hops, as an unchecked build computes it. */
  function TimeLock(path: seq<Hop>): u32 {
    if path == [] then 0 else (TimeLock(path[..|path| - 1]) + path[|path| - 1].cltv) % TWO_32
  }

  lemma {:induction false} TimeLockIsExact(path: seq<Hop>)
    requires |path| <= MAX_HOPS
    ensures TimeLock(path) == ExactTimeLock(path) <= |path| * 0xFFFF
  {
    if path == [] {
    } else {
      TimeLockIsExact(path[..|path| - 1]);
    }
  }

  /** Neither sum a route reports has wrapped. */
  lemma RouteSumsAreExact(net: Net, maxRoutes: nat, x: Entry)
    requires x in Routes(net, maxRoutes)
    ensures x.cost == Cost(x.path) <= MAX_HOPS * MAX_FEE < TWO_64
    ensures TimeLock(x.path) == ExactTimeLock(x.path) <= MAX_HOPS * 0xFFFF
  {
    RoutesAreSound(net, maxRoutes);
    CostBound(net, x.path);
    TimeLockIsExact(x.path);
    assert |x.path| * MAX_FEE <= MAX_HOPS * MAX_FEE;
  }

  // ---------- every state of every run ----------

  /** No entry ever pending has more than seven hops or a cost that wrapped. */
  lemma PendingSumsAreExact(net: Net, states: seq<State>, i: nat, x: Entry)
    requires net.source != net.dest && IsRun(net, states) && i < |states| && x in states[i].heap
    ensures |x.path| <= MAX_HOPS + 1 && x.cost == Cost(x.path) <= (MAX_HOPS + 1) * MAX_FEE < TWO_64
  {
    RunStatesInv(net, states, i);
    PendingIsExact(net, states[i], x);
  }

  lemma PendingIsExact(net: Net, s: State, x: Entry)
    requires Inv(net, s) && x in s.heap
    ensures |x.path| <= MAX_HOPS + 1 && x.cost == Cost(x.path) <= (MAX_HOPS + 1) * MAX_FEE
  {
    assert Good(net, x);
    CostBound(net, x.path);
    assert |x.path| * MAX_FEE <= (MAX_HOPS + 1) * MAX_FEE;
  }

  // ---------- no route twice ----------

  /** A way to reach each node it knows that ends at that node. */
  ghost predicate EndsRight(net: Net, best: map<NodeId, Entry>) {
    forall u :: u in best ==> End(net, best[u].path) == u
  }

  lemma {:induction false} CandidateSource(net: Net, links: seq<Link>, best: map<NodeId, Entry>, y: Entry)
    ensures y in Candidates(net, links, best) <==>
            exists e :: e in links && e.target == net.dest && e.source in best && y == Onward(best[e.source], e)
  {
    if links == [] {
    } else {
      var init, last := links[..|links| - 1], links[|links| - 1];
      CandidateSource(net, init, best, y);
      assert forall e :: e in links <==> e in init || e == last;
    }
  }

  /** A candidate tells which node it came through. */
  lemma OnwardInjective(net: Net, best: map<NodeId, Entry>, e: Link, f: Link)
    requires EndsRight(net, best) && e.source in best && f.source in best
    requires Onward(best[e.source], e).path == Onward(best[f.source], f).path
    ensures e == f
  {
    var p, q := best[e.source].path, best[f.source].path;
    assert (p + [HopOf(e)])[|p|] == HopOf(e) && (q + [HopOf(f)])[|q|] == HopOf(f);
    assert (p + [HopOf(e)])[..|p|] == p && (q + [HopOf(f)])[..|q|] == q;
  }

  ghost predicate Parallel(e: Link, f: Link, dest: NodeId) {
    e.target == f.target == dest && e.source == f.source && e.source != dest && e.scid == f.scid
  }

  /** No two links lead from the same node into the destination over the same channel. */
  ghost predicate ParallelFree(links: seq<Link>, dest: NodeId) {
    forall i, j :: 0 <= i < j < |links| ==> !Parallel(links[i], links[j], dest)
  }

  lemma EarlierIsNotParallel(links: seq<Link>, dest: NodeId, e: Link)
    requires links != [] && ParallelFree(links, dest) && e in links[..|links| - 1]
    ensures !Parallel(e, links[|links| - 1], dest)
  {
    var i :| 0 <= i < |links| - 1 && links[i] == e;
  }

  lemma {:induction false} CandidatesAreOnce(net: Net, links: seq<Link>, best: map<NodeId, Entry>, y: Entry)
    requires EndsRight(net, best) && net.dest !in best && ParallelFree(links, net.dest)
    ensures Candidates(net, links, best)[y] <= 1
  {
    if links == [] {
    } else {
      var init, last := links[..|links| - 1], links[|links| - 1];
      CandidatesAreOnce(net, init, best, y);
      CandidateSource(net, init, best, y);
      if y in Candidates(net, init, best) && last.target == net.dest && last.source in best
         && y == Onward(best[last.source], last) {
        var e :| e in init && e.target == net.dest && e.source in best && y == Onward(best[e.source], e);
        OnwardInjective(net, best, e, last);
        EarlierIsNotParallel(links, net.dest, e);
      }
    }
  }

  lemma TwiceCountsTwo<T>(xs: seq<T>, i: nat, j: nat)
    requires i < j < |xs| && xs[i] == xs[j]
    ensures multiset(xs)[xs[i]] >= 2
  {
    var a, b := xs[..j], xs[j..];
    assert xs == a + b;
    assert a[i] == xs[i] && b[0] == xs[i];
    assert xs[i] in a && xs[i] in b;
  }

  lemma FoundOnce(net: Net, s: State, y: Entry)
    requires Inv(net, s) && ParallelFree(net.links, net.dest) && y.node == net.dest
    ensures multiset(s.found)[y] <= 1
  {
    forall u | u in s.settled ensures End(net, s.settled[u].path) == u {
      assert Good(net, s.settled[u]);
    }
    CandidatesAreOnce(net, net.links, s.settled, y);
  }

  lemma RoutesAreDistinct(net: Net, maxRoutes: nat, i: nat, j: nat)
    requires ParallelFree(net.links, net.dest) && i < j < |Routes(net, maxRoutes)|
    ensures Routes(net, maxRoutes)[i].path != Routes(net, maxRoutes)[j].path
  {
    FinalInv(net, maxRoutes);
    RoutesAreSound(net, maxRoutes);
    var found := Routes(net, maxRoutes);
    assert IsRoute(net, found[i]) && IsRoute(net, found[j]);
    if found[i].path == found[j].path {
      RoutesEndAtDest(net, maxRoutes, found[i]);
      RoutesEndAtDest(net, maxRoutes, found[j]);
      TwiceCountsTwo(found, i, j);
      FoundOnce(net, Final(net, maxRoutes), found[i]);
      assert false;
    }
  }

  ghost predicate NoRepeats<T>(xs: seq<T>) {
    forall i, j :: 0 <= i < j < |xs| ==> xs[i] != xs[j]
  }

  /** Listing each channel once is enough, even if a channel joins a node to itself. */
  lemma {:induction false} ListedOnceIsParallelFree(
      scids: seq<u64>, channels: map<u64, Channel>, amount: u64, dest: NodeId)
    requires NoRepeats(scids)
    ensures ParallelFree(Priced(amount, AdmittedEdges(scids, channels, amount)), dest)
  {
    if scids == [] {
    } else {
      var init, last := scids[..|scids| - 1], scids[|scids| - 1];
      ListedOnceIsParallelFree(init, channels, amount, dest);
      if last in channels {
        var a, b := AdmittedEdges(init, channels, amount), ChannelEdges(last, channels[last], amount);
        var links := Priced(amount, a + b);
        assert AdmittedEdges(scids, channels, amount) == a + b;
        forall i, j | 0 <= i < j < |links| ensures !Parallel(links[i], links[j], dest) {
          if j < |a| {
            assert links[i] == Priced(amount, a)[i] && links[j] == Priced(amount, a)[j];
          } else {
            assert links[j].scid == last;
            if i < |a| {
              EdgesAreDirections(init, channels, amount, a[i]);
              assert a[i].scid in init;
            }
          }
        }
      } else {
        assert AdmittedEdges(scids, channels, amount) == AdmittedEdges(init, channels, amount);
      }
    }
  }
}
