/**
 What every answer is, hop cap included: a tree of ways grown greedily to at
 most six hops, and one candidate for each edge from a node within five hops of
 us into the destination, the cheapest first.
 */
module RouteTree {
  import opened Numbers
  import opened RouteGraph
  import opened RouteSearch
  import opened RouteWalks
  import opened RouteInvariants
  import opened RouteSoundness
  import opened RouteOptimality

  // ---------- the tree, in terms of the graph alone ----------

  /**
   The end of `e` is in the tree, no dearer than by way of `e`; and where `e`
   is not free, no later in the order of entries.
   */
  ghost predicate NoBetterBy(tree: map<NodeId, Entry>, e: Link)
    requires e.source in tree
  {
    && e.target in tree && tree[e.target].cost <= tree[e.source].cost + e.fee
    && (e.fee > 0 ==> Leq(tree[e.target], Onward(tree[e.source], e)))
  }

  /**
   Simple ways of at most six hops, each extending another of them, to all nodes
   but the destination that are one hop from a node within five.
   */
  ghost predicate IsCappedTree(net: Net, tree: map<NodeId, Entry>) {
    && net.source in tree && net.dest !in tree
    && (forall u :: u in tree ==>
          tree[u].node == u && |tree[u].path| <= MAX_HOPS && Traced(net, tree, tree[u]))
    && (forall e :: e in net.links && e.source in Near(tree) && e.target != net.dest ==> NoBetterBy(tree, e))
  }

  /** The part of the tree that a route can still leave for the destination. */
  ghost function Near(tree: map<NodeId, Entry>): (near: map<NodeId, Entry>)
    ensures forall u :: u in near <==> u in tree && |tree[u].path| < MAX_HOPS
    ensures forall u :: u in near ==> near[u] == tree[u]
  {
    map u | u in tree && |tree[u].path| < MAX_HOPS :: tree[u]
  }

  /** The way to any node of the tree but ours goes one hop beyond another. */
  lemma Parent(net: Net, tree: map<NodeId, Entry>, u: NodeId) returns (e: Link)
    requires IsCappedTree(net, tree) && u in tree && u != net.source
    ensures e in net.links && e.target == u && e.source in Near(tree)
    ensures tree[u] == Onward(tree[e.source], e)
  {
    var x, n := tree[u], |tree[u].path| - 1;
    assert TracedAt(net, tree, x, n) && HopAt(net, x.path, n);
    e :| e in net.links && e.source == NodeAt(net, x.path, n) && HopOf(e) == x.path[n];
    assert x.path == x.path[..n] + [x.path[n]];
    assert Traced(net, tree, tree[e.source]);
    CostSplit(x.path, n);
  }

  lemma OursIsEmpty(net: Net, tree: map<NodeId, Entry>)
    requires IsCappedTree(net, tree)
    ensures tree[net.source] == Root(net)
  {
    var x := tree[net.source];
    assert NodeAt(net, x.path, 0) == NodeAt(net, x.path, |x.path|);
  }

  // ---------- the order in which equally dear entries are popped ----------

  lemma LessCostLeq(x: Entry, y: Entry)
    requires x.cost < y.cost
    ensures Leq(x, y)
  {
    assert Key(x)[0] == x.cost && Key(y)[0] == y.cost;
  }

  /** What `e` offered, if it is not free, came no earlier than what was settled. */
  ghost predicate InOrderBy(settled: map<NodeId, Entry>, e: Link)
    requires e.source in settled && e.target in settled
  {
    |settled[e.source].path| < MAX_HOPS && e.fee > 0 ==> Leq(settled[e.target], Onward(settled[e.source], e))
  }

  ghost predicate SettledInOrder(net: Net, settled: map<NodeId, Entry>) {
    forall e :: e in net.links && e.source in settled && e.target in settled ==> InOrderBy(settled, e)
  }

  /** When a node is settled, all that nearer nodes offered is still pending. */
  lemma NewTargetInOrder(net: Net, s: State, e: Link)
    requires Inv(net, s) && |s.heap| > 0 && e in net.links && e.source in s.settled
    requires e.target == Least(s.heap).node && e.target !in s.settled && e.target != net.dest
    requires |s.settled[e.source].path| < MAX_HOPS
    ensures Leq(Least(s.heap), Onward(s.settled[e.source], e))
  {
    var x := s.settled[e.source];
    assert Good(net, x);
    ExtendCost(net, x, e);
    assert Accounted(net, s, Extend(x, e));
    UnsettledIsPending(net, s, Extend(x, e));
  }

  lemma UnsettledIsPending(net: Net, s: State, y: Entry)
    requires Sound(net, s) && Accounted(net, s, y)
    requires |y.path| <= MAX_HOPS && y.node != net.dest && y.node !in s.settled
    ensures y in s.heap
  {
  }

  lemma NewSourceInOrder(s: State, e: Link)
    requires Ordered(s) && |s.heap| > 0 && e.fee > 0
    requires e.target in s.settled
    ensures Leq(s.settled[e.target], Onward(Least(s.heap), e))
  {
    LessCostLeq(s.settled[e.target], Onward(Least(s.heap), e));
  }

  lemma NewInOrder(net: Net, s: State, e: Link, settled: map<NodeId, Entry>)
    requires Inv(net, s) && |s.heap| > 0 && e in net.links && net.dest !in settled
    requires settled == s.settled[Least(s.heap).node := Least(s.heap)] && Least(s.heap).node !in s.settled
    requires e.source in settled && e.target in settled && (e.source !in s.settled || e.target !in s.settled)
    ensures InOrderBy(settled, e)
  {
    var x := Least(s.heap);
    if |settled[e.source].path| < MAX_HOPS && e.fee > 0 {
      if e.source in s.settled {
        NewTargetInOrder(net, s, e);
      } else if e.target in s.settled {
        NewSourceInOrder(s, e);
      } else {
        LessCostLeq(x, Onward(x, e));
      }
    }
  }

  lemma GrowsInOrder(net: Net, s: State, settled: map<NodeId, Entry>)
    requires Inv(net, s) && |s.heap| > 0 && SettledInOrder(net, s.settled) && net.dest !in settled
    requires settled == s.settled[Least(s.heap).node := Least(s.heap)] && Least(s.heap).node !in s.settled
    ensures SettledInOrder(net, settled)
  {
    forall e | e in net.links && e.source in settled && e.target in settled ensures InOrderBy(settled, e) {
      if e.source in s.settled && e.target in s.settled {
        OldInOrder(s, e, settled);
      } else {
        NewInOrder(net, s, e, settled);
      }
    }
  }

  lemma OldInOrder(s: State, e: Link, settled: map<NodeId, Entry>)
    requires |s.heap| > 0 && e.source in s.settled && e.target in s.settled && InOrderBy(s.settled, e)
    requires settled == s.settled[Least(s.heap).node := Least(s.heap)] && Least(s.heap).node !in s.settled
    ensures InOrderBy(settled, e)
  {
  }

  lemma StepInOrder(net: Net, s: State)
    requires Inv(net, s) && |s.heap| > 0 && SettledInOrder(net, s.settled)
    ensures SettledInOrder(net, Step(net, s).settled)
  {
    var x := Least(s.heap);
    if |x.path| <= MAX_HOPS && x.node != net.dest && x.node !in s.settled {
      GrowsInOrder(net, s, s.settled[x.node := x]);
    }
  }

  lemma {:induction false} RunInOrder(net: Net, s: State, maxRoutes: nat)
    requires Inv(net, s) && SettledInOrder(net, s.settled)
    ensures SettledInOrder(net, Run(net, s, maxRoutes).settled)
    decreases Work(net, s)
  {
    if Stopped(s, maxRoutes) {
    } else {
      StepInv(net, s);
      StepInOrder(net, s);
      StepWorks(net, s);
      RunInOrder(net, Step(net, s), maxRoutes);
    }
  }

  // ---------- a run that is not stopped ----------

  /** More routes than any query has. */
  function Plenty(net: Net): nat { |net.links| + 2 }

  /** Asked for more routes than there can be, a query runs until nothing is pending. */
  lemma PlentyExhausts(net: Net)
    requires net.source != net.dest
    ensures var s := Final(net, Plenty(net));
      Inv(net, s) && SettledInOrder(net, s.settled) && s.heap == multiset{} && |s.found| < Plenty(net)
  {
    StartInv(net);
    FinalInv(net, Plenty(net));
    RunInOrder(net, Start(net), Plenty(net));
    WorkBound(net, Plenty(net));
  }

  /** The tree such a run ends with. */
  ghost function Explored(net: Net): map<NodeId, Entry> { Final(net, Plenty(net)).settled }

  lemma ExploredIsCapped(net: Net)
    requires net.source != net.dest
    ensures IsCappedTree(net, Explored(net))
  {
    var s, tree := Final(net, Plenty(net)), Explored(net);
    PlentyExhausts(net);
    forall e | e in net.links && e.source in Near(tree) && e.target != net.dest ensures NoBetterBy(tree, e) {
      assert Good(net, tree[e.source]);
      ExtendCost(net, tree[e.source], e);
      assert Accounted(net, s, Extend(tree[e.source], e));
      assert InOrderBy(tree, e);
    }
  }

  lemma NearCandidate(net: Net, e: Link, tree: map<NodeId, Entry>, y: Entry)
    ensures CandidateOf(net, e, Near(tree))[y] == if |y.path| <= MAX_HOPS then CandidateOf(net, e, tree)[y] else 0
  {
  }

  lemma {:induction false} NearCandidates(net: Net, links: seq<Link>, tree: map<NodeId, Entry>, y: Entry)
    ensures Candidates(net, links, Near(tree))[y] == if |y.path| <= MAX_HOPS then Candidates(net, links, tree)[y] else 0
  {
    if links == [] {
    } else {
      NearCandidates(net, links[..|links| - 1], tree, y);
      NearCandidate(net, links[|links| - 1], tree, y);
    }
  }

  /** Every candidate within the cap is found, and nothing else. */
  lemma AllAreFound(net: Net)
    requires net.source != net.dest
    ensures multiset(Final(net, Plenty(net)).found) == Candidates(net, net.links, Near(Explored(net)))
  {
    var s, all := Final(net, Plenty(net)), Candidates(net, net.links, Near(Explored(net)));
    PlentyExhausts(net);
    forall y ensures multiset(s.found)[y] == all[y] {
      NearCandidates(net, net.links, s.settled, y);
      if y.node == net.dest {
        assert y in s.found ==> |y.path| <= MAX_HOPS;
        assert y in s.lost ==> |y.path| > MAX_HOPS;
      } else {
        CandidateSource(net, net.links, s.settled, y);
        assert y !in s.found;
      }
    }
  }

  /** Any query returns the beginning of what that run finds. */
  lemma RoutesAreTaken(net: Net, k: nat)
    requires net.source != net.dest
    ensures var full := Final(net, Plenty(net)).found;
      Routes(net, k) <= full && |Routes(net, k)| == Min(k, |full|)
  {
    PlentyExhausts(net);
    var m := Plenty(net);
    if k <= m {
      RunPrefix(net, Start(net), k, m);
      RunWork(net, Start(net), k);
      RunGoesOn(net, Final(net, k), k, m);
    } else {
      RunPrefix(net, Start(net), m, k);
      RunGoesOn(net, Final(net, m), m, k);
    }
  }

  /** A run with nothing pending stays as it is, and any other keeps what it has found. */
  lemma RunGoesOn(net: Net, s: State, k: nat, m: nat)
    requires Stopped(s, k) && |s.found| <= k <= m
    ensures |s.found| < k ==> Run(net, s, m) == s
    ensures |s.heap| == 0 ==> Run(net, s, m) == s
    ensures s.found <= Run(net, s, m).found
  {
    RunPrefix(net, s, m, m);
  }

  /** The `k` cheapest of `all`, in order of cost. */
  ghost predicate AreCheapest(routes: seq<Entry>, all: multiset<Entry>, k: nat) {
    && SortedByCost(routes) && multiset(routes) <= all && |routes| == Min(k, |all|)
    && forall x, y :: x in routes && y in all - multiset(routes) ==> x.cost <= y.cost
  }

  lemma PrefixIsCheapest(routes: seq<Entry>, full: seq<Entry>, k: nat)
    requires SortedByCost(full) && routes <= full && |routes| == Min(k, |full|)
    ensures AreCheapest(routes, multiset(full), k)
  {
    Remainder(routes, full);
    forall x, y | x in routes && y in full[|routes|..] ensures x.cost <= y.cost {
      var i :| 0 <= i < |routes| && routes[i] == x;
      RestIsDearer(full, |routes|, i, y);
    }
  }

  lemma Remainder<T>(part: seq<T>, full: seq<T>)
    requires part <= full
    ensures multiset(part) <= multiset(full) && multiset(full) - multiset(part) == multiset(full[|part|..])
  {
    assert full == part + full[|part|..];
  }

  lemma RestIsDearer(full: seq<Entry>, n: nat, i: nat, y: Entry)
    requires SortedByCost(full) && i < n <= |full| && y in full[n..]
    ensures full[i].cost <= y.cost
  {
    var j :| 0 <= j < |full[n..]| && full[n..][j] == y;
    assert full[n + j] == y;
  }

  lemma ExploredAnswers(net: Net, k: nat)
    requires net.source != net.dest
    ensures AreCheapest(Routes(net, k), Candidates(net, net.links, Near(Explored(net))), k)
  {
    PlentyExhausts(net);
    RoutesAreTaken(net, k);
    AllAreFound(net);
    PrefixIsCheapest(Routes(net, k), Final(net, Plenty(net)).found, k);
  }

  /** The answers to all queries between two nodes are the cheapest candidates of `tree`. */
  ghost predicate AnswersComeFrom(net: Net, tree: map<NodeId, Entry>) {
    forall k: nat :: AreCheapest(Routes(net, k), Candidates(net, net.links, Near(tree)), k)
  }

  /** In any graph, ties and dropped entries or not, the answers come from one capped tree. */
  lemma SomeTreeAnswers(net: Net)
    requires net.source != net.dest
    ensures exists tree :: IsCappedTree(net, tree) && AnswersComeFrom(net, tree)
  {
    ExploredIsCapped(net);
    forall k: nat ensures AreCheapest(Routes(net, k), Candidates(net, net.links, Near(Explored(net))), k) {
      ExploredAnswers(net, k);
    }
    assert AnswersComeFrom(net, Explored(net));
  }

  // ---------- there is only one such tree ----------

  /** A simple walk within the cap that stops short of the destination. */
  ghost predicate IsSimpleWay(net: Net, p: seq<Hop>) {
    IsWalk(net, p) && IsSimple(net, p) && |p| <= MAX_HOPS && forall k :: 0 <= k <= |p| ==> NodeAt(net, p, k) != net.dest
  }

  /** No way that ends in a free hop costs just what another way to the same node does. */
  ghost predicate NoFreeTies(net: Net) {
    forall p, q :: IsSimpleWay(net, p) && IsSimpleWay(net, q) && End(net, p) == End(net, q) && Cost(p) == Cost(q) ==>
      EqualOrPaid(p, q)
  }

  ghost predicate EqualOrPaid(p: seq<Hop>, q: seq<Hop>) { p == q || q == [] || q[|q| - 1].fee > 0 }

  /** Where every hop costs something there are none. */
  lemma PaidHopsSuffice(net: Net)
    requires forall e :: e in net.links ==> e.fee > 0
    ensures NoFreeTies(net)
  {
    forall p, q | IsSimpleWay(net, p) && IsSimpleWay(net, q) ensures EqualOrPaid(p, q) {
      if q != [] { assert HopAt(net, q, |q| - 1); }
    }
  }

  lemma TreeWay(net: Net, tree: map<NodeId, Entry>, u: NodeId)
    requires IsCappedTree(net, tree) && u in tree
    ensures IsSimpleWay(net, tree[u].path) && End(net, tree[u].path) == u && tree[u].cost == Cost(tree[u].path)
  {
    assert Good(net, tree[u]);
  }

  /** Two ways of one tree's parent and fee, seen from another tree that has the parent. */
  lemma TreesTie(net: Net, a: map<NodeId, Entry>, b: map<NodeId, Entry>, u: NodeId)
    requires IsCappedTree(net, a) && IsCappedTree(net, b) && NoFreeTies(net)
    requires u in a && u in b && a[u].cost == b[u].cost && a[u] != b[u]
    ensures a[u].path != [] && a[u].path[|a[u].path| - 1].fee > 0
  {
    TreeWay(net, a, u);
    TreeWay(net, b, u);
    assert EqualOrPaid(b[u].path, a[u].path);
    if a[u].path == [] { OursIsEmpty(net, b); }
  }

  lemma {:induction false} TreesAgreeAt(net: Net, a: map<NodeId, Entry>, b: map<NodeId, Entry>, u: NodeId)
    requires IsCappedTree(net, a) && IsCappedTree(net, b) && NoFreeTies(net) && u in a
    ensures u in b && a[u] == b[u]
    decreases a[u].cost, |a[u].path|
  {
    if u == net.source {
      OursIsEmpty(net, a);
      OursIsEmpty(net, b);
    } else {
      var e := Parent(net, a, u);
      TreesAgreeAt(net, a, b, e.source);
      assert NoBetterBy(b, e);
      if b[u].cost < a[u].cost {
        TreesAgreeAt(net, b, a, u);
      } else if a[u] != b[u] {
        TreesTie(net, a, b, u);
        TreesTie(net, b, a, u);
        var f := Parent(net, b, u);
        TreesAgreeAt(net, b, a, f.source);
        assert NoBetterBy(a, f);
        LeqAntisymmetric(a[u], b[u]);
      }
    }
  }

  lemma TreesAgree(net: Net, a: map<NodeId, Entry>, b: map<NodeId, Entry>)
    requires IsCappedTree(net, a) && IsCappedTree(net, b) && NoFreeTies(net)
    ensures a == b
  {
    forall u | u in a ensures u in b && a[u] == b[u] { TreesAgreeAt(net, a, b, u); }
    forall u | u in b ensures u in a { TreesAgreeAt(net, b, a, u); }
  }

  /** So any capped tree, however come by, gives all the answers. */
  lemma EveryTreeAnswers(net: Net, tree: map<NodeId, Entry>)
    requires net.source != net.dest && NoFreeTies(net) && IsCappedTree(net, tree)
    ensures AnswersComeFrom(net, tree)
  {
    SomeTreeAnswers(net);
    var t :| IsCappedTree(net, t) && AnswersComeFrom(net, t);
    TreesAgree(net, t, tree);
  }

  /** An edge into the destination from within five hops gives a candidate of at most `c`. */
  ghost predicate GateWithin(net: Net, tree: map<NodeId, Entry>, c: nat) {
    exists e :: e in net.links && e.target == net.dest && e.source in Near(tree) && tree[e.source].cost + e.fee <= c
  }

  lemma OneCheapest(routes: seq<Entry>, all: multiset<Entry>, k: nat, y: Entry)
    requires AreCheapest(routes, all, k) && k >= 1 && y in all
    ensures routes != [] && routes[0].cost <= y.cost
  {
    assert all[y] > 0 && |all| >= 1;
    assert routes[0] in routes;
    if y in routes {
      var i :| 0 <= i < |routes| && routes[i] == y;
    } else {
      assert y in all - multiset(routes);
    }
  }

  lemma FirstIffGate(net: Net, tree: map<NodeId, Entry>, maxRoutes: nat, p: seq<Hop>)
    requires AnswersComeFrom(net, tree) && maxRoutes >= 1
    ensures FirstIsNoDearer(net, maxRoutes, p) <==> GateWithin(net, tree, Cost(p))
  {
    var routes, all := Routes(net, maxRoutes), Candidates(net, net.links, Near(tree));
    assert AreCheapest(routes, all, maxRoutes);
    if GateWithin(net, tree, Cost(p)) {
      var e :| e in net.links && e.target == net.dest && e.source in Near(tree)
               && tree[e.source].cost + e.fee <= Cost(p);
      CandidateSource(net, net.links, Near(tree), Onward(tree[e.source], e));
      OneCheapest(routes, all, maxRoutes, Onward(tree[e.source], e));
    }
    if FirstIsNoDearer(net, maxRoutes, p) {
      assert routes[0] in multiset(routes);
      CandidateSource(net, net.links, Near(tree), routes[0]);
    }
  }

  /**
   For one query at its fees, short and long walks tied or not: the first route
   is optimal exactly when no walk is cheaper than all candidates of the tree.
   */
  lemma OptimalIffGates(net: Net, tree: map<NodeId, Entry>)
    requires net.source != net.dest && NoFreeTies(net) && IsCappedTree(net, tree)
    ensures FirstIsOptimal(net) <==> forall p :: IsWalkToDest(net, p) ==> GateWithin(net, tree, Cost(p))
  {
    EveryTreeAnswers(net, tree);
    forall p ensures FirstIsNoDearer(net, 1, p) <==> GateWithin(net, tree, Cost(p)) {
      FirstIffGate(net, tree, 1, p);
    }
  }

  // ---------- when nothing is found ----------

  ghost predicate HasGate(net: Net, tree: map<NodeId, Entry>) {
    exists e :: e in net.links && e.target == net.dest && e.source in Near(tree)
  }

  /** Some capped tree has no edge into the destination from within five hops. */
  ghost predicate IsBlocked(net: Net) {
    exists tree :: IsCappedTree(net, tree) && !HasGate(net, tree)
  }

  lemma GateIsCandidate(net: Net, tree: map<NodeId, Entry>)
    ensures HasGate(net, tree) <==> |Candidates(net, net.links, Near(tree))| > 0
  {
    var all := Candidates(net, net.links, Near(tree));
    if e :| e in net.links && e.target == net.dest && e.source in Near(tree) {
      CandidateSource(net, net.links, Near(tree), Onward(tree[e.source], e));
      assert all[Onward(tree[e.source], e)] > 0;
    }
    if y :| y in all { CandidateSource(net, net.links, Near(tree), y); }
  }

  /** A tree whose candidates are the answers has a gate just when there is an answer. */
  lemma GateMeansAnswer(net: Net, tree: map<NodeId, Entry>, maxRoutes: nat)
    requires AnswersComeFrom(net, tree) && maxRoutes >= 1
    ensures Routes(net, maxRoutes) != [] <==> HasGate(net, tree)
  {
    GateIsCandidate(net, tree);
    assert AreCheapest(Routes(net, maxRoutes), Candidates(net, net.links, Near(tree)), maxRoutes);
  }

  lemma EmptyMeansBlocked(net: Net, maxRoutes: nat)
    requires net.source != net.dest && maxRoutes >= 1 && Routes(net, maxRoutes) == []
    ensures IsBlocked(net)
  {
    SomeTreeAnswers(net);
    var tree :| IsCappedTree(net, tree) && AnswersComeFrom(net, tree);
    GateMeansAnswer(net, tree, maxRoutes);
  }

  /**
   For one query at its fees: it comes back empty exactly when a capped tree has
   no edge into the destination from within five hops.
   */
  lemma EmptyIffBlocked(net: Net, maxRoutes: nat)
    requires net.source != net.dest && maxRoutes >= 1 && NoFreeTies(net)
    ensures Routes(net, maxRoutes) == [] <==> IsBlocked(net)
  {
    if Routes(net, maxRoutes) == [] { EmptyMeansBlocked(net, maxRoutes); }
    if tree :| IsCappedTree(net, tree) && !HasGate(net, tree) {
      EveryTreeAnswers(net, tree);
      GateMeansAnswer(net, tree, maxRoutes);
    }
  }

  /** A query comes back empty exactly when the destination cannot be reached, unless it is blocked. */
  lemma EmptyIffUnreachable(net: Net, maxRoutes: nat)
    requires net.source != net.dest && maxRoutes >= 1
    requires Final(net, maxRoutes).lost == multiset{} || LongWalksAreDearer(net) || !IsBlocked(net)
    ensures Routes(net, maxRoutes) == [] <==> !exists p :: IsWalkToDest(net, p)
  {
    if p :| IsWalkToDest(net, p) {
      if IsBlocked(net) {
        FirstRouteIsOptimal(net, maxRoutes, p);
      } else if Routes(net, maxRoutes) == [] {
        EmptyMeansBlocked(net, maxRoutes);
      }
    }
    if Routes(net, maxRoutes) != [] { FirstRouteIsShort(net, maxRoutes); }
  }
}
