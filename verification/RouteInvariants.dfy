/** What every step of the search keeps, and hence what every run ends with. */
module RouteInvariants {
  import opened Numbers
  import opened RouteGraph
  import opened RouteSearch
  import opened RouteWalks

  // ---------- entries describe simple walks ----------

  /** The entry's path is a simple walk to its node that the entry's cost sums exactly. */
  ghost predicate Good(net: Net, x: Entry) {
    && IsWalkTo(net, x.path, x.node) && IsSimple(net, x.path)
    && |x.path| <= MAX_HOPS + 1 && x.cost == Cost(x.path)
  }

  /** Every node on the way was settled along exactly this path. */
  ghost predicate Traced(net: Net, settled: map<NodeId, Entry>, x: Entry) {
    && Good(net, x)
    && forall k :: 0 <= k < |x.path| ==> TracedAt(net, settled, x, k)
  }

  ghost predicate TracedAt(net: Net, settled: map<NodeId, Entry>, x: Entry, k: nat)
    requires k < |x.path|
  {
    NodeAt(net, x.path, k) in settled && settled[NodeAt(net, x.path, k)].path == x.path[..k]
  }

  ghost predicate Sound(net: Net, s: State) {
    && net.dest !in s.settled
    && (forall u :: u in s.settled ==>
          s.settled[u].node == u && |s.settled[u].path| <= MAX_HOPS && Traced(net, s.settled, s.settled[u]))
    && (forall x :: x in s.heap ==> Traced(net, s.settled, x))
    && (forall x :: x in s.found ==> Traced(net, s.settled, x) && x.node == net.dest && |x.path| <= MAX_HOPS)
    && (forall x :: x in s.lost ==> Traced(net, s.settled, x) && |x.path| > MAX_HOPS)
  }

  lemma {:induction false} PushesAreExtensions(
      links: seq<Link>, x: Entry, visited: set<NodeId>, y: Entry)
    ensures y in Pushes(links, x, visited) <==>
            exists e :: e in links && e.source == x.node && e.target !in visited && y == Extend(x, e)
  {
    if links == [] {
    } else {
      var init, last := links[..|links| - 1], links[|links| - 1];
      PushesAreExtensions(init, x, visited, y);
      assert forall e :: e in links <==> e in init || e == last;
    }
  }

  lemma NoWrap(cost: nat, fee: Fee, hops: nat)
    requires cost <= hops * MAX_FEE && hops <= MAX_HOPS
    ensures Wrap64(cost + fee) == cost + fee
  {
    assert hops * MAX_FEE <= 6 * MAX_FEE;
  }

  /** Adding a hop to a good entry of at most six does not wrap its cost. */
  lemma ExtendCost(net: Net, x: Entry, e: Link)
    requires Good(net, x) && |x.path| <= MAX_HOPS
    ensures Extend(x, e).cost == x.cost + e.fee
  {
    CostBound(net, x.path);
    NoWrap(x.cost, e.fee, |x.path|);
  }

  lemma ExtendGood(net: Net, x: Entry, e: Link)
    requires Good(net, x) && |x.path| <= MAX_HOPS && x.node != net.dest
    requires e in net.links && e.source == x.node
    requires forall k :: 0 <= k <= |x.path| ==> NodeAt(net, x.path, k) != e.target
    ensures Good(net, Extend(x, e))
  {
    assert IsHop(net, x.node, HopOf(e));
    AppendHop(net, x.path, HopOf(e));
    AppendNodes(net, x.path, HopOf(e));
    ExtendCost(net, x, e);
  }

  lemma ExtendTraced(net: Net, settled: map<NodeId, Entry>, x: Entry, e: Link)
    requires Traced(net, settled, x) && |x.path| <= MAX_HOPS
    requires x.node in settled && settled[x.node] == x && x.node != net.dest
    requires e in net.links && e.source == x.node && e.target !in settled
    ensures Traced(net, settled, Extend(x, e))
  {
    forall k | 0 <= k <= |x.path| ensures NodeAt(net, x.path, k) in settled {
      if k < |x.path| { assert TracedAt(net, settled, x, k); }
    }
    ExtendGood(net, x, e);
    var p, q, n := x.path, Extend(x, e).path, |x.path|;
    AppendNodes(net, p, HopOf(e));
    forall k | 0 <= k <= n ensures TracedAt(net, settled, Extend(x, e), k) {
      assert q[..k] == p[..k];
      if k == n { assert p[..n] == p; } else { assert TracedAt(net, settled, x, k); }
    }
  }

  lemma TracedGrows(net: Net, settled: map<NodeId, Entry>, x: Entry, n: NodeId, y: Entry)
    requires Traced(net, settled, x) && n !in settled
    ensures Traced(net, settled[n := y], x)
  {
    var grown := settled[n := y];
    forall k | 0 <= k < |x.path| ensures TracedAt(net, grown, x, k) {
      assert TracedAt(net, settled, x, k);
    }
  }

  lemma PushTraced(net: Net, settled: map<NodeId, Entry>, x: Entry, y: Entry)
    requires Traced(net, settled, x) && |x.path| <= MAX_HOPS && x.node != net.dest
    requires x.node in settled && settled[x.node] == x && y in Pushes(net.links, x, settled.Keys)
    ensures Traced(net, settled, y)
  {
    PushesAreExtensions(net.links, x, settled.Keys, y);
    var e :| e in net.links && e.source == x.node && e.target !in settled.Keys && y == Extend(x, e);
    ExtendTraced(net, settled, x, e);
  }

  lemma ExpansionSound(net: Net, s: State, x: Entry, t: State)
    requires Sound(net, s) && x in s.heap && |x.path| <= MAX_HOPS && x.node != net.dest && x.node !in s.settled
    requires t.settled == s.settled[x.node := x] && t.found == s.found && t.lost == s.lost
    requires t.heap == s.heap - multiset{x} + Pushes(net.links, x, t.settled.Keys)
    ensures Sound(net, t)
  {
    forall y | Traced(net, s.settled, y) ensures Traced(net, t.settled, y) {
      TracedGrows(net, s.settled, y, x.node, x);
    }
    forall y | y in t.heap ensures Traced(net, t.settled, y) {
      if y !in s.heap { PushTraced(net, t.settled, x, y); }
    }
  }

  lemma StepSound(net: Net, s: State)
    requires |s.heap| > 0 && Sound(net, s)
    ensures Sound(net, Step(net, s))
  {
    var x := Least(s.heap);
    if |x.path| <= MAX_HOPS && x.node != net.dest && x.node !in s.settled {
      ExpansionSound(net, s, x, Step(net, s));
    }
  }

  // ---------- entries leave the heap in fee order ----------

  ghost predicate SortedByCost(routes: seq<Entry>) {
    forall i, j :: 0 <= i < j < |routes| ==> routes[i].cost <= routes[j].cost
  }

  ghost predicate Ordered(s: State) {
    && SortedByCost(s.found)
    && (forall i, y :: 0 <= i < |s.found| && y in s.heap ==> s.found[i].cost <= y.cost)
    && (forall u, y :: u in s.settled && y in s.heap ==> s.settled[u].cost <= y.cost)
  }

  lemma PushedCosts(net: Net, links: seq<Link>, x: Entry, visited: set<NodeId>)
    requires Good(net, x) && |x.path| <= MAX_HOPS
    ensures forall y :: y in Pushes(links, x, visited) ==> x.cost <= y.cost
  {
    forall y | y in Pushes(links, x, visited) ensures x.cost <= y.cost {
      PushesAreExtensions(links, x, visited, y);
      var e :| e in links && e.source == x.node && e.target !in visited && y == Extend(x, e);
      ExtendCost(net, x, e);
    }
  }

  /** Nothing a step leaves in the heap is cheaper than what it took out. */
  lemma StepHeapCosts(net: Net, s: State)
    requires |s.heap| > 0 && Good(net, Least(s.heap))
    ensures forall y :: y in Step(net, s).heap ==> Least(s.heap).cost <= y.cost
  {
    var x := Least(s.heap);
    if |x.path| <= MAX_HOPS {
      PushedCosts(net, net.links, x, s.settled[x.node := x].Keys);
    }
  }

  lemma StepFoundCosts(net: Net, s: State)
    requires |s.heap| > 0 && Ordered(s)
    ensures SortedByCost(Step(net, s).found)
    ensures forall i :: 0 <= i < |Step(net, s).found| ==> Step(net, s).found[i].cost <= Least(s.heap).cost
  {
    assert Step(net, s).found == s.found || Step(net, s).found == s.found + [Least(s.heap)];
  }

  lemma StepOrdered(net: Net, s: State)
    requires |s.heap| > 0 && Ordered(s)
    requires forall y :: y in Step(net, s).heap ==> Least(s.heap).cost <= y.cost
    ensures Ordered(Step(net, s))
  {
    StepFoundCosts(net, s);
    var x, t := Least(s.heap), Step(net, s);
    assert forall u :: u in t.settled ==> t.settled[u].cost <= x.cost;
  }

  // ---------- no edge out of a settled node is forgotten ----------

  /** Where the entry for one edge out of a settled node has gone. */
  ghost predicate Accounted(net: Net, s: State, y: Entry) {
    || y in s.heap
    || y in s.lost
    || (y.node == net.dest && y in s.found)
    || (y.node in s.settled && s.settled[y.node].cost <= y.cost)
  }

  ghost predicate RootPresent(net: Net, s: State) { Root(net) in s.heap || net.source in s.settled }

  ghost predicate Covered(net: Net, s: State) {
    && RootPresent(net, s)
    && forall e :: e in net.links && e.source in s.settled ==> Accounted(net, s, Extend(s.settled[e.source], e))
  }

  lemma StepCovered(net: Net, s: State)
    requires |s.heap| > 0 && Good(net, Least(s.heap)) && Ordered(s) && Covered(net, s)
    requires net.source != net.dest
    ensures Covered(net, Step(net, s))
  {
    var t := Step(net, s);
    StepRoot(net, s);
    forall e | e in net.links && e.source in t.settled ensures Accounted(net, t, Extend(t.settled[e.source], e)) {
      if e.source in s.settled {
        StepAccounts(net, s, Extend(s.settled[e.source], e));
      } else {
        NewlyAccounted(net, s, e);
      }
    }
  }

  lemma StepRoot(net: Net, s: State)
    requires |s.heap| > 0 && net.source != net.dest && RootPresent(net, s)
    ensures RootPresent(net, Step(net, s))
  {
    if Least(s.heap) != Root(net) && Root(net) in s.heap { assert Root(net) in Step(net, s).heap; }
  }

  lemma NewlyAccounted(net: Net, s: State, e: Link)
    requires |s.heap| > 0 && Good(net, Least(s.heap)) && Ordered(s)
    requires var x := Least(s.heap);
      |x.path| <= MAX_HOPS && x.node != net.dest && x.node !in s.settled && e in net.links && e.source == x.node
    ensures Accounted(net, Step(net, s), Extend(Least(s.heap), e))
  {
    var x := Least(s.heap);
    ExtendCost(net, x, e);
    PushesAreExtensions(net.links, x, s.settled[x.node := x].Keys, Extend(x, e));
  }

  lemma StepAccounts(net: Net, s: State, y: Entry)
    requires |s.heap| > 0 && Ordered(s) && Accounted(net, s, y)
    ensures Accounted(net, Step(net, s), y)
  {
    var x, t := Least(s.heap), Step(net, s);
    if y in s.heap && y != x { assert y in t.heap; }
  }

  // ---------- the routes and the pending entries at the destination, counted ----------

  /** `x` with one more hop, its cost summed without wrapping. */
  function Onward(x: Entry, e: Link): Entry {
    Entry(x.cost + e.fee, e.target, x.path + [HopOf(e)])
  }

  /**
   The entry for every edge into the destination, each reached the way `best`
   reaches the edge's source.
   */
  function Candidates(net: Net, links: seq<Link>, best: map<NodeId, Entry>): multiset<Entry> {
    if links == [] then multiset{}
    else
      Candidates(net, links[..|links| - 1], best) + CandidateOf(net, links[|links| - 1], best)
  }

  function CandidateOf(net: Net, e: Link, best: map<NodeId, Entry>): multiset<Entry> {
    if e.target == net.dest && e.source in best then multiset{Onward(best[e.source], e)} else multiset{}
  }

  /** Each candidate through a settled node is exactly once found, pending or lost. */
  ghost predicate Ledger(net: Net, s: State) {
    forall y: Entry :: y.node == net.dest ==>
      multiset(s.found)[y] + s.heap[y] + s.lost[y] == Candidates(net, net.links, s.settled)[y]
  }

  lemma ExtendIsOnward(net: Net, x: Entry)
    requires Good(net, x) && |x.path| <= MAX_HOPS
    ensures forall e: Link :: Extend(x, e) == Onward(x, e)
  {
    forall e: Link ensures Extend(x, e) == Onward(x, e) { ExtendCost(net, x, e); }
  }

  lemma SettlingAddsOne(net: Net, e: Link, settled: map<NodeId, Entry>, x: Entry, visited: set<NodeId>, y: Entry)
    requires x.node !in settled && net.dest !in visited && y.node == net.dest && Extend(x, e) == Onward(x, e)
    ensures CandidateOf(net, e, settled[x.node := x])[y] == CandidateOf(net, e, settled)[y] + PushOf(e, x, visited)[y]
  {
  }

  lemma {:induction false} SettlingAddsCandidates(
      net: Net, links: seq<Link>, settled: map<NodeId, Entry>, x: Entry, visited: set<NodeId>, y: Entry)
    requires x.node !in settled && net.dest !in visited && y.node == net.dest
    requires forall e: Link :: Extend(x, e) == Onward(x, e)
    ensures Candidates(net, links, settled[x.node := x])[y]
         == Candidates(net, links, settled)[y] + Pushes(links, x, visited)[y]
  {
    if links == [] {
    } else {
      SettlingAddsCandidates(net, links[..|links| - 1], settled, x, visited, y);
      SettlingAddsOne(net, links[|links| - 1], settled, x, visited, y);
    }
  }

  lemma StepLedgerAt(net: Net, s: State, y: Entry)
    requires |s.heap| > 0 && Good(net, Least(s.heap)) && net.dest !in s.settled && y.node == net.dest
    requires multiset(s.found)[y] + s.heap[y] + s.lost[y] == Candidates(net, net.links, s.settled)[y]
    ensures var t := Step(net, s);
      multiset(t.found)[y] + t.heap[y] + t.lost[y] == Candidates(net, net.links, t.settled)[y]
  {
    var x, t := Least(s.heap), Step(net, s);
    if |x.path| <= MAX_HOPS && x.node != net.dest && x.node !in s.settled {
      ExtendIsOnward(net, x);
      SettlingAddsCandidates(net, net.links, s.settled, x, t.settled.Keys, y);
    }
  }

  lemma StepLedger(net: Net, s: State)
    requires |s.heap| > 0 && Good(net, Least(s.heap)) && net.dest !in s.settled && Ledger(net, s)
    ensures Ledger(net, Step(net, s))
  {
    forall y: Entry | y.node == net.dest
      ensures var t := Step(net, s);
        multiset(t.found)[y] + t.heap[y] + t.lost[y] == Candidates(net, net.links, t.settled)[y]
    {
      StepLedgerAt(net, s, y);
    }
  }

  // ---------- all of it, over a run ----------

  ghost predicate Inv(net: Net, s: State) {
    && net.source != net.dest
    && Sound(net, s) && Ordered(s) && Covered(net, s) && Ledger(net, s)
  }

  lemma {:induction false} NothingSettledNoCandidates(net: Net, links: seq<Link>)
    ensures Candidates(net, links, map[]) == multiset{}
  {
    if links == [] {
    } else {
      NothingSettledNoCandidates(net, links[..|links| - 1]);
    }
  }

  lemma StartInv(net: Net)
    requires net.source != net.dest
    ensures Inv(net, Start(net))
  {
    NothingSettledNoCandidates(net, net.links);
    assert Good(net, Root(net));
  }

  lemma StepInv(net: Net, s: State)
    requires |s.heap| > 0 && Inv(net, s)
    ensures Inv(net, Step(net, s))
  {
    StepSound(net, s);
    assert Good(net, Least(s.heap));
    StepHeapCosts(net, s);
    StepOrdered(net, s);
    StepCovered(net, s);
    StepLedger(net, s);
  }

  lemma {:induction false} RunInv(net: Net, s: State, maxRoutes: nat)
    requires Inv(net, s)
    ensures Inv(net, Run(net, s, maxRoutes))
    decreases Work(net, s)
  {
    if !Stopped(s, maxRoutes) {
      StepInv(net, s);
      StepWorks(net, s);
      RunInv(net, Step(net, s), maxRoutes);
    }
  }

  lemma FinalInv(net: Net, maxRoutes: nat)
    requires net.source != net.dest
    ensures Inv(net, Final(net, maxRoutes)) && Stopped(Final(net, maxRoutes), maxRoutes)
  {
    StartInv(net);
    RunInv(net, Start(net), maxRoutes);
    RunWork(net, Start(net), maxRoutes);
  }

  ghost predicate StepsAt(net: Net, states: seq<State>, i: nat)
    requires i + 1 < |states|
  {
    |states[i].heap| > 0 && states[i + 1] == Step(net, states[i])
  }

  /** The states a query passes through, whatever number of routes stops it. */
  ghost predicate IsRun(net: Net, states: seq<State>) {
    && |states| > 0 && states[0] == Start(net)
    && forall i :: 0 <= i < |states| - 1 ==> StepsAt(net, states, i)
  }

  lemma NextStateInv(net: Net, s: State, t: State)
    requires Inv(net, s) && |s.heap| > 0 && t == Step(net, s)
    ensures Inv(net, t)
  {
    StepInv(net, s);
  }

  lemma FirstStateInv(net: Net, s: State)
    requires net.source != net.dest && s == Start(net)
    ensures Inv(net, s)
  {
    StartInv(net);
  }

  lemma RunStatesInv(net: Net, states: seq<State>, i: nat)
    requires net.source != net.dest && IsRun(net, states) && i < |states|
    ensures Inv(net, states[i])
  {
    FirstStateInv(net, states[0]);
    for k := 0 to i
      invariant Inv(net, states[k])
    {
      assert StepsAt(net, states, k);
      NextStateInv(net, states[k], states[k + 1]);
    }
  }
}
