/** The store of on-chain addresses handed out, with the transactions seen on each. */
module AddressStore {
  import opened Numbers

  datatype AddressTransaction = AddressTransaction(txid: string, amountSats: u64, timestamp: u64)

  datatype AddressRecord = AddressRecord(address: string, transactions: seq<AddressTransaction>)

  datatype Op = Register(address: string) | Record(address: string, tx: AddressTransaction)

  type Addresses = map<string, AddressRecord>

  function Apply(m: Addresses, op: Op): Addresses {
    match op
    case Register(a) => if a in m then m else m[a := AddressRecord(a, [])]
    case Record(a, tx) => if a in m then m[a := m[a].(transactions := m[a].transactions + [tx])] else m
  }

  class Store {
    var addresses: Addresses

    constructor ()
      ensures addresses == map[]
    {
      addresses := map[];
    }

    method RegisterAddress(address: string)
      modifies this
      ensures addresses == Apply(old(addresses), Register(address))
      ensures address in old(addresses) ==> addresses == old(addresses)
      ensures address !in old(addresses) ==> addresses == old(addresses)[address := AddressRecord(address, [])]
    {
      if address !in addresses { addresses := addresses[address := AddressRecord(address, [])]; }
    }

    method RecordTransaction(address: string, tx: AddressTransaction)
      modifies this
      ensures addresses == Apply(old(addresses), Record(address, tx))
      ensures address !in old(addresses) ==> addresses == old(addresses)
      ensures address in old(addresses) ==>
                var r := old(addresses)[address];
                addresses == old(addresses)[address := AddressRecord(r.address, r.transactions + [tx])]
    {
      if address in addresses {
        var r := addresses[address];
        addresses := addresses[address := r.(transactions := r.transactions + [tx])];
      }
    }
  }

  function Replay(log: seq<Op>): Addresses {
    if log == [] then map[] else Apply(Replay(log[..|log| - 1]), log[|log| - 1])
  }

  /** The operations after the first registration of the address. */
  function SinceFirst(log: seq<Op>, a: string): seq<Op> {
    if log == [] then [] else if log[0] == Register(a) then log[1..] else SinceFirst(log[1..], a)
  }

  function Recorded(ops: seq<Op>, a: string): seq<AddressTransaction> {
    if ops == [] then []
    else
      var op := ops[|ops| - 1];
      Recorded(ops[..|ops| - 1], a) + (if op.Record? && op.address == a then [op.tx] else [])
  }

  lemma {:induction false} SinceFirstAppend(log: seq<Op>, op: Op, a: string)
    ensures SinceFirst(log + [op], a)
         == if Register(a) in log then SinceFirst(log, a) + [op] else []
  {
    if log == [] {
    } else {
      assert (log + [op])[1..] == log[1..] + [op];
      assert log == [log[0]] + log[1..];
      SinceFirstAppend(log[1..], op, a);
    }
  }

  lemma ApplyTracks(m: Addresses, since: seq<Op>, op: Op, a: string)
    ensures a in Apply(m, op) <==> a in m || op == Register(a)
    ensures a !in m && a in Apply(m, op) ==> Apply(m, op)[a] == AddressRecord(a, [])
    ensures a in m && m[a] == AddressRecord(a, Recorded(since, a)) ==>
              Apply(m, op)[a] == AddressRecord(a, Recorded(since + [op], a))
  {
    assert (since + [op])[..|since|] == since;
  }

  /**
   After any operations an address is known exactly if it was ever registered,
   and its transactions are those recorded since the first registration, in
   order: registering again erases nothing, and recording too early keeps nothing.
   */
  lemma {:induction false} StoreMatchesLog(log: seq<Op>, a: string)
    ensures a in Replay(log) <==> Register(a) in log
    ensures a in Replay(log) ==> Replay(log)[a] == AddressRecord(a, Recorded(SinceFirst(log, a), a))
  {
    if log == [] {
    } else {
      var init, op := log[..|log| - 1], log[|log| - 1];
      StoreMatchesLog(init, a);
      SinceFirstAppend(init, op, a);
      assert log == init + [op];
      ApplyTracks(Replay(init), SinceFirst(init, a), op, a);
    }
  }
}
