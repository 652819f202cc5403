/** The balance conversion and the saturating statistics of the gossip graph. */
module NodeTotals {
  import opened Numbers
  import opened Options
  import opened Sums

  // ---------- balance ----------

  datatype Balance = Balance(totalMsat: u64, lightningMsat: u64, onchainMsat: u64)

  datatype BalanceOverflow = BalanceOverflow(sats: u64)

  function CheckedMul1000(x: u64): Option<u64> { if x * 1_000 < TWO_64 then Some(x * 1_000) else None }

  function CheckedAdd(x: u64, y: u64): Option<u64> { if x + y < TWO_64 then Some(x + y) else None }

  /** The last error adds the satoshis unchecked. */
  function GetBalance(onchainSats: u64, lightningSats: u64): Result<Balance, BalanceOverflow> {
    var onchain, lightning := CheckedMul1000(onchainSats), CheckedMul1000(lightningSats);
    if onchain.None? then Err(BalanceOverflow(onchainSats))
    else if lightning.None? then Err(BalanceOverflow(lightningSats))
    else
      var total := CheckedAdd(onchain.value, lightning.value);
      if total.None? then Err(BalanceOverflow(Wrap64(onchainSats + lightningSats)))
      else Ok(Balance(total.value, lightning.value, onchain.value))
  }

  /**
   The conversion succeeds exactly when the sum fits in millisatoshis; then its
   parts add up and the wallet's division returns the original satoshis. The sum
   in the last error does not wrap.
   */
  lemma BalanceIsExact(onchainSats: u64, lightningSats: u64)
    ensures var r := GetBalance(onchainSats, lightningSats);
      && (r.Ok? <==> (onchainSats + lightningSats) * 1_000 < TWO_64)
      && (r.Ok? ==> r.value.totalMsat == r.value.lightningMsat + r.value.onchainMsat
                    && r.value.onchainMsat == onchainSats * 1_000 && r.value.lightningMsat == lightningSats * 1_000
                    && r.value.onchainMsat / 1_000 == onchainSats)
      && (r.Err? ==> var sats := r.error.sats;
                     || (sats == onchainSats && onchainSats * 1_000 >= TWO_64)
                     || (sats == lightningSats && lightningSats * 1_000 >= TWO_64 > onchainSats * 1_000)
                     || (sats == onchainSats + lightningSats && sats * 1_000 >= TWO_64
                         && onchainSats * 1_000 < TWO_64 && lightningSats * 1_000 < TWO_64))
  {
  }

  // ---------- graph statistics ----------

  datatype Stats = Stats(numNodes: nat, numChannels: nat, totalCapacity: u64, avgChannelSize: u64, maxChannelSize: u64)

  /** A listed channel that is missing or has no known capacity counts as zero. */
  function CapacityOf(scid: u64, capacities: map<u64, Option<u64>>): u64 {
    if scid in capacities then UnwrapOr(capacities[scid], 0) else 0
  }

  function SumOf(scids: seq<u64>, capacities: map<u64, Option<u64>>): nat {
    if scids == [] then 0
    else SumOf(scids[..|scids| - 1], capacities) + CapacityOf(scids[|scids| - 1], capacities)
  }

  predicate IsMaximum(m: u64, scids: seq<u64>, capacities: map<u64, Option<u64>>) {
    && (forall s :: s in scids ==> CapacityOf(s, capacities) <= m)
    && (m == 0 || exists s :: s in scids && CapacityOf(s, capacities) == m)
  }

  method GetNetworkStats(numNodes: nat, scids: seq<u64>, capacities: map<u64, Option<u64>>) returns (r: Stats)
    ensures r.numNodes == numNodes && r.numChannels == |scids|
    ensures r.totalCapacity == Min(SumOf(scids, capacities), MAX_U64)
    ensures r.avgChannelSize == if scids == [] then 0 else r.totalCapacity / |scids|
    ensures IsMaximum(r.maxChannelSize, scids, capacities)
    ensures forall s :: s in scids && s in capacities && capacities[s].Some? ==>
              capacities[s].value <= r.maxChannelSize
    ensures r.maxChannelSize != 0 ==>
              exists s :: s in scids && s in capacities && capacities[s] == Some(r.maxChannelSize)
  {
    var total: u64, largest: u64 := 0, 0;
    for i := 0 to |scids|
      invariant total == Min(SumOf(scids[..i], capacities), MAX_U64)
      invariant IsMaximum(largest, scids[..i], capacities)
    {
      assert scids[..i + 1][..i] == scids[..i] && scids[..i + 1] == scids[..i] + [scids[i]];
      if scids[i] in capacities {
        var cap := UnwrapOr(capacities[scids[i]], 0);
        total := SaturatingAdd(total, cap);
        if cap > largest { largest := cap; }
      }
    }
    assert scids[..|scids|] == scids;
    AverageFits(total, |scids|);
    r := Stats(numNodes, |scids|, total, if |scids| > 0 then total / |scids| else 0, largest);
  }

  /** What a listed channel adds: its capacity, if the lookup finds the channel and the channel has one. */
  lemma SumAdds(scids: seq<u64>, s: u64, capacities: map<u64, Option<u64>>)
    ensures SumOf([], capacities) == 0
    ensures SumOf(scids + [s], capacities) == SumOf(scids, capacities)
         + if s in capacities && capacities[s].Some? then capacities[s].value else 0
  {
    assert (scids + [s])[..|scids|] == scids;
  }

  lemma AverageFits(total: u64, n: nat)
    ensures n > 0 ==> 0 <= total / n <= total
  {
    if n > 0 {
      TimesKeepsOrder(total, 1, n);
      DivBound(total, n, total);
    }
  }

  /** What the method returns. */
  ghost predicate AreStats(r: Stats, scids: seq<u64>, capacities: map<u64, Option<u64>>) {
    && r.numChannels == |scids|
    && r.totalCapacity == Min(SumOf(scids, capacities), MAX_U64)
    && r.avgChannelSize == (if scids == [] then 0 else r.totalCapacity / |scids|)
    && IsMaximum(r.maxChannelSize, scids, capacities)
  }

  lemma {:induction false} SumBounds(scids: seq<u64>, capacities: map<u64, Option<u64>>, m: u64)
    requires forall s :: s in scids ==> CapacityOf(s, capacities) <= m
    ensures SumOf(scids, capacities) <= |scids| * m
  {
    if scids == [] {
    } else {
      var init, last := scids[..|scids| - 1], scids[|scids| - 1];
      assert scids == init + [last];
      SumBounds(init, capacities, m);
      TermAdded(SumOf(init, capacities), CapacityOf(last, capacities), |init|, m);
    }
  }

  lemma {:induction false} SumCoversEach(scids: seq<u64>, capacities: map<u64, Option<u64>>, s: u64)
    requires s in scids
    ensures CapacityOf(s, capacities) <= SumOf(scids, capacities)
  {
    var init, last := scids[..|scids| - 1], scids[|scids| - 1];
    assert scids == init + [last];
    if s in init { SumCoversEach(init, capacities, s); }
  }

  lemma TimesKeepsOrder(n: nat, x: nat, y: nat)
    requires x <= y
    ensures n * x <= n * y
  {
  }

  lemma DivBound(a: nat, n: nat, m: nat)
    requires n > 0 && a <= n * m
    ensures a / n <= m
  {
    if a / n > m { TimesKeepsOrder(n, m + 1, a / n); }
  }

  /** Average, largest and total are ordered, saturated or not. */
  lemma StatsAreConsistent(r: Stats, scids: seq<u64>, capacities: map<u64, Option<u64>>)
    requires AreStats(r, scids, capacities)
    ensures r.avgChannelSize <= r.maxChannelSize <= r.totalCapacity
  {
    SumBounds(scids, capacities, r.maxChannelSize);
    if r.maxChannelSize > 0 {
      var s :| s in scids && CapacityOf(s, capacities) == r.maxChannelSize;
      SumCoversEach(scids, capacities, s);
    }
    if scids != [] { DivBound(r.totalCapacity, |scids|, r.maxChannelSize); }
  }

  ghost function Units(capacities: map<u64, Option<u64>>): u64 -> multiset<()> {
    (s: u64) => multiset{}[() := CapacityOf(s, capacities)]
  }

  lemma {:induction false} SumIsCount(scids: seq<u64>, capacities: map<u64, Option<u64>>)
    ensures SumOf(scids, capacities) == |Total(Units(capacities), scids)|
  {
    if scids == [] {
    } else {
      SumIsCount(scids[..|scids| - 1], capacities);
    }
  }

  /** The statistics do not depend on the order in which the graph lists its channels. */
  lemma StatsIgnoreOrder(r: Stats, scids: seq<u64>, t: Stats, other: seq<u64>, capacities: map<u64, Option<u64>>)
    requires AreStats(r, scids, capacities) && AreStats(t, other, capacities) && multiset(scids) == multiset(other)
    ensures r.(numNodes := t.numNodes) == t
  {
    TotalIgnoresOrder(Units(capacities), scids, other);
    SumIsCount(scids, capacities);
    SumIsCount(other, capacities);
    SameSize(scids, other);
    forall s: u64 ensures s in scids <==> s in other {
      assert s in multiset(scids) <==> s in multiset(other);
    }
    assert r.maxChannelSize == t.maxChannelSize;
  }
}
