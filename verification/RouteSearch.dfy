/**
 The search of `find_routes` as a state machine: one step pops the least heap
 entry and drops it as over-long, returns it as a route, skips it as visited,
 or expands its node. `Run` repeats the step until the heap is empty or enough
 routes are found.
 */
module RouteSearch {
  import opened Numbers
  import opened Options
  import opened RouteGraph

  /** The longest path an expanded or returned entry may have. */
  const MAX_HOPS: nat := 6

  /** The largest fee one hop can be charged: u32 base plus a u64 product over a million. */
  const MAX_FEE: nat := 0xFFFF_FFFF + 18_446_744_073_709

  datatype Hop = Hop(node: NodeId, scid: u64, fee: Fee, cltv: u16)

  datatype Entry = Entry(cost: nat, node: NodeId, path: seq<Hop>)

  type Fee = x: int | 0 <= x <= MAX_FEE

  /** An admitted edge at the fee it costs for the amount asked. */
  datatype Link = Link(source: NodeId, target: NodeId, scid: u64, fee: Fee, cltv: u16)

  /** One query over the fee graph. */
  datatype Net = Net(links: seq<Link>, source: NodeId, dest: NodeId)

  /**
   `settled` maps each visited node to the entry it was expanded from, and
   `lost` collects the entries dropped by the hop cap; the code keeps only the
   keys of the first and nothing of the second.
   */
  datatype State = State(
    heap: multiset<Entry>, settled: map<NodeId, Entry>, found: seq<Entry>, lost: multiset<Entry>, pops: nat)

  // ---------- fees ----------

  function HopFee(amount: u64, baseMsat: u32, ppm: u32): Fee {
    baseMsat + Wrap64(amount * ppm) / 1_000_000
  }

  /**
   The fee is the one of BOLT #7, section "HTLC Fees", exactly while the
   product fits in 64 bits.
   */
  lemma FeeIsExactIff(amount: u64, baseMsat: u32, ppm: u32)
    ensures HopFee(amount, baseMsat, ppm) == baseMsat + amount * ppm / 1_000_000 <==> amount * ppm < TWO_64
  {
    var p := amount * ppm;
    if p < TWO_64 {
      assert Wrap64(p) == p;
    } else {
      assert p % TWO_64 == p - TWO_64 * (p / TWO_64);
      assert p / TWO_64 >= 1;
      assert Wrap64(p) <= p - TWO_64;
      assert Wrap64(p) / 1_000_000 < p / 1_000_000;
    }
  }

  function Price(amount: u64, e: Edge): Link {
    Link(e.source, e.target, e.scid, HopFee(amount, e.baseMsat, e.ppm), e.cltv)
  }

  function Priced(amount: u64, edges: seq<Edge>): seq<Link> {
    seq(|edges|, i requires 0 <= i < |edges| => Price(amount, edges[i]))
  }

  /**
   A channel that charges 16 millionths admits 2^60 millisatoshis, fewer than
   there can be, and is priced at nothing.
   */
  lemma FeeWraps(a: NodeId, b: NodeId)
    ensures var amount := TWO_64 / 16;
      var edges := AdmittedEdges([7], map[7 := Channel(a, b, Some(Policy(0, 16, 0, 0, amount, true)), None)], amount);
      && |edges| == 1 && edges[0].ppm == 16 && Priced(amount, edges)[0].fee == 0
      && amount * 16 / 1_000_000 == 18_446_744_073_709 && amount < 21_000_000 * 100_000_000 * 1_000
  {
    var amount := TWO_64 / 16;
    var c := Channel(a, b, Some(Policy(0, 16, 0, 0, amount, true)), None);
    assert [7][..0] == [] && AdmittedEdges([], map[7 := c], amount) == [];
    assert ChannelEdges(7, c, amount) == [Edge(a, b, 7, 0, 16, 0)];
    assert AdmittedEdges([7], map[7 := c], amount) == [Edge(a, b, 7, 0, 16, 0)];
    assert Wrap64(amount * 16) == 0;
  }

  // ---------- heap entries ----------

  function HopOf(e: Link): Hop { Hop(e.target, e.scid, e.fee, e.cltv) }

  /** The entry pushed when `x` is expanded along `e`. */
  function Extend(x: Entry, e: Link): Entry {
    Entry(Wrap64(x.cost + e.fee), e.target, x.path + [HopOf(e)])
  }

  /** Everything pushed when `x` is expanded: one entry per link into an unvisited node. */
  function Pushes(links: seq<Link>, x: Entry, visited: set<NodeId>): multiset<Entry> {
    if links == [] then multiset{}
    else
      Pushes(links[..|links| - 1], x, visited) + PushOf(links[|links| - 1], x, visited)
  }

  function PushOf(e: Link, x: Entry, visited: set<NodeId>): multiset<Entry> {
    if e.source == x.node && e.target !in visited then multiset{Extend(x, e)} else multiset{}
  }

  // ---------- the heap order ----------

  predicate LexLeq(a: seq<int>, b: seq<int>) {
    a == [] || (b != [] && (a[0] < b[0] || (a[0] == b[0] && LexLeq(a[1..], b[1..]))))
  }

  function FlatPath(p: seq<Hop>): seq<int> {
    if p == [] then [] else p[0].node.key + [p[0].scid, p[0].fee, p[0].cltv] + FlatPath(p[1..])
  }

  /** Entries compare by cost, then node, then path; every part but the last has a fixed width. */
  function Key(x: Entry): seq<int> { [x.cost] + x.node.key + FlatPath(x.path) }

  predicate Leq(x: Entry, y: Entry) { LexLeq(Key(x), Key(y)) }

  lemma {:induction false} LexTotal(a: seq<int>, b: seq<int>)
    ensures LexLeq(a, b) || LexLeq(b, a)
  {
    if a == [] || b == [] {
    } else {
      LexTotal(a[1..], b[1..]);
    }
  }

  lemma {:induction false} LexAntisymmetric(a: seq<int>, b: seq<int>)
    requires LexLeq(a, b) && LexLeq(b, a)
    ensures a == b
  {
    if a == [] || b == [] {
    } else {
      LexAntisymmetric(a[1..], b[1..]);
      assert a == [a[0]] + a[1..] && b == [b[0]] + b[1..];
    }
  }

  lemma {:induction false} LexTransitive(a: seq<int>, b: seq<int>, c: seq<int>)
    requires LexLeq(a, b) && LexLeq(b, c)
    ensures LexLeq(a, c)
  {
    if a == [] || a[0] < b[0] || b[0] < c[0] {
    } else {
      LexTransitive(a[1..], b[1..], c[1..]);
    }
  }

  lemma {:induction false} FlatPathInjective(p: seq<Hop>, q: seq<Hop>)
    requires FlatPath(p) == FlatPath(q)
    ensures p == q
  {
    if p == [] || q == [] {
    } else {
      var f, g := FlatPath(p), FlatPath(q);
      assert f[..33] == p[0].node.key && g[..33] == q[0].node.key;
      assert f[33..36] == [p[0].scid, p[0].fee, p[0].cltv];
      assert g[33..36] == [q[0].scid, q[0].fee, q[0].cltv];
      assert f[33] == p[0].scid && f[34] == p[0].fee && f[35] == p[0].cltv;
      assert g[33] == q[0].scid && g[34] == q[0].fee && g[35] == q[0].cltv;
      assert f[36..] == FlatPath(p[1..]) && g[36..] == FlatPath(q[1..]);
      FlatPathInjective(p[1..], q[1..]);
      assert p == [p[0]] + p[1..] && q == [q[0]] + q[1..];
    }
  }

  lemma LeqAntisymmetric(x: Entry, y: Entry)
    requires Leq(x, y) && Leq(y, x)
    ensures x == y
  {
    LexAntisymmetric(Key(x), Key(y));
    var k, l := Key(x), Key(y);
    assert k[0] == x.cost && l[0] == y.cost;
    assert k[1..34] == x.node.key && l[1..34] == y.node.key;
    assert k[34..] == FlatPath(x.path) && l[34..] == FlatPath(y.path);
    FlatPathInjective(x.path, y.path);
  }

  lemma LeqCost(x: Entry, y: Entry)
    requires Leq(x, y)
    ensures x.cost <= y.cost
  {
    assert Key(x)[0] == x.cost && Key(y)[0] == y.cost;
  }

  predicate IsLeast(x: Entry, heap: multiset<Entry>) {
    x in heap && forall y {:trigger Leq(x, y)} :: y in heap ==> Leq(x, y)
  }

  lemma {:induction false} LeastExists(heap: multiset<Entry>)
    requires |heap| > 0
    ensures exists x :: IsLeast(x, heap)
    decreases |heap|
  {
    var y :| y in heap;
    var rest := heap - multiset{y};
    LexTotal(Key(y), Key(y));
    assert heap == rest + multiset{y};
    if rest == multiset{} {
      assert IsLeast(y, heap);
    } else {
      LeastExists(rest);
      var z :| IsLeast(z, rest);
      LexTotal(Key(y), Key(z));
      var x := if Leq(y, z) then y else z;
      forall w | w in heap ensures Leq(x, w) {
        if w != y {
          assert w in rest && Leq(z, w);
          if Leq(y, z) { LexTransitive(Key(y), Key(z), Key(w)); }
        }
      }
      assert IsLeast(x, heap);
    }
  }

  ghost function Least(heap: multiset<Entry>): (x: Entry)
    requires |heap| > 0
    ensures IsLeast(x, heap)
    ensures forall y :: y in heap ==> x.cost <= y.cost
  {
    LeastExists(heap);
    var x :| IsLeast(x, heap);
    assert forall y :: y in heap ==> x.cost <= y.cost by {
      forall y | y in heap ensures x.cost <= y.cost { assert Leq(x, y); LeqCost(x, y); }
    }
    x
  }

  lemma LeastIsUnique(x: Entry, heap: multiset<Entry>)
    requires IsLeast(x, heap)
    ensures |heap| > 0 && x == Least(heap)
  {
    assert heap[x] > 0;
    LeqAntisymmetric(x, Least(heap));
  }

  // ---------- the steps ----------

  function Root(net: Net): Entry { Entry(0, net.source, []) }

  function Start(net: Net): State { State(multiset{Root(net)}, map[], [], multiset{}, 0) }

  ghost function Step(net: Net, s: State): State
    requires |s.heap| > 0
  {
    var x := Least(s.heap);
    var rest := s.(heap := s.heap - multiset{x}, pops := s.pops + 1);
    if |x.path| > MAX_HOPS then
      rest.(lost := s.lost + multiset{x})
    else if x.node == net.dest then
      rest.(found := s.found + [x])
    else if x.node in s.settled then
      rest
    else
      var settled := s.settled[x.node := x];
      rest.(settled := settled, heap := rest.heap + Pushes(net.links, x, settled.Keys))
  }

  /** How many links still leave unvisited nodes. */
  function Unexplored(links: seq<Link>, visited: set<NodeId>): nat {
    if links == [] then 0
    else Unexplored(links[..|links| - 1], visited) + (if links[|links| - 1].source in visited then 0 else 1)
  }

  /** The pops a state can still cause. */
  function Work(net: Net, s: State): nat { |s.heap| + Unexplored(net.links, s.settled.Keys) }

  lemma {:induction false} ExpansionIsPaidFor(links: seq<Link>, x: Entry, visited: set<NodeId>)
    requires x.node !in visited
    ensures |Pushes(links, x, visited + {x.node})| + Unexplored(links, visited + {x.node})
         <= Unexplored(links, visited)
  {
    if links == [] {
    } else {
      ExpansionIsPaidFor(links[..|links| - 1], x, visited);
    }
  }

  lemma StepWorks(net: Net, s: State)
    requires |s.heap| > 0
    ensures Work(net, Step(net, s)) < Work(net, s)
    ensures Step(net, s).pops == s.pops + 1
  {
    var x := Least(s.heap);
    if x.node !in s.settled {
      ExpansionIsPaidFor(net.links, x, s.settled.Keys);
      assert s.settled[x.node := x].Keys == s.settled.Keys + {x.node};
    }
  }

  predicate Stopped(s: State, maxRoutes: nat) { |s.heap| == 0 || |s.found| >= maxRoutes }

  ghost function Run(net: Net, s: State, maxRoutes: nat): State
    decreases Work(net, s)
  {
    if Stopped(s, maxRoutes) then s
    else
      StepWorks(net, s);
      Run(net, Step(net, s), maxRoutes)
  }

  /** The state in which a query ends. */
  ghost function Final(net: Net, maxRoutes: nat): State { Run(net, Start(net), maxRoutes) }

  ghost function Routes(net: Net, maxRoutes: nat): seq<Entry> {
    if net.source == net.dest then [] else Final(net, maxRoutes).found
  }

  lemma {:induction false} RunWork(net: Net, s: State, maxRoutes: nat)
    ensures var t := Run(net, s, maxRoutes);
      && Stopped(t, maxRoutes) && t.pops + Work(net, t) <= s.pops + Work(net, s)
      && |t.found| + s.pops <= |s.found| + t.pops
    decreases Work(net, s)
  {
    if !Stopped(s, maxRoutes) {
      StepWorks(net, s);
      RunWork(net, Step(net, s), maxRoutes);
    }
  }

  lemma {:induction false} UnexploredBound(links: seq<Link>, visited: set<NodeId>)
    ensures Unexplored(links, visited) <= |links|
  {
    if links == [] {
    } else {
      UnexploredBound(links[..|links| - 1], visited);
    }
  }

  /**
   What a query pops and what it leaves behind are together at most one more
   than the admitted edges, so it pops no more than that even counting the
   entry it takes out before noticing that enough routes are found.
   */
  lemma WorkBound(net: Net, maxRoutes: nat)
    ensures Stopped(Final(net, maxRoutes), maxRoutes)
    ensures Final(net, maxRoutes).pops + |Final(net, maxRoutes).heap| <= 1 + |net.links|
    ensures |Final(net, maxRoutes).found| <= Final(net, maxRoutes).pops
  {
    RunWork(net, Start(net), maxRoutes);
    UnexploredBound(net.links, {});
    assert Start(net).settled.Keys == {};
  }

  /** Asking for fewer routes returns a prefix of what asking for more returns. */
  lemma {:induction false} RunPrefix(net: Net, s: State, k: nat, m: nat)
    requires |s.found| <= k <= m
    ensures Run(net, Run(net, s, k), m) == Run(net, s, m)
    ensures |Run(net, s, k).found| <= k
    ensures s.found <= Run(net, s, k).found
    decreases Work(net, s)
  {
    if !Stopped(s, k) {
      StepWorks(net, s);
      RunPrefix(net, Step(net, s), k, m);
    }
  }

  lemma FewerRoutesIsAPrefix(net: Net, k: nat, m: nat)
    requires k <= m
    ensures |Routes(net, k)| <= k && Routes(net, k) <= Routes(net, m)
  {
    RunPrefix(net, Start(net), k, m);
    RunPrefix(net, Start(net), m, m);
    RunPrefix(net, Run(net, Start(net), k), m, m);
  }
}
