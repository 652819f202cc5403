/** The store of BOLT12 offers, and what it remembers of the operations on it. */
module OfferStore {
  import opened Numbers
  import opened Options

  datatype OfferRecord = OfferRecord(
    offer: string, description: string, amountMsat: u64, active: bool,
    numPayments: u64, totalReceived: u64, offerId: Hash32)

  datatype Op =
    | Insert(offer: string, description: string, amountMsat: u64, offerId: Hash32)
    | Disable(offer: string)
    | Pay(offer: string, amountMsat: u64)

  type Offers = map<string, OfferRecord>

  /** The counters are plain u64 additions. */
  function Apply(offers: Offers, op: Op): Offers {
    match op
    case Insert(o, description, amount, id) => offers[o := OfferRecord(o, description, amount, true, 0, 0, id)]
    case Disable(o) => if o in offers then offers[o := offers[o].(active := false)] else offers
    case Pay(o, amount) =>
      if o !in offers then offers
      else
        var r := offers[o];
        offers[o := r.(numPayments := Wrap64(r.numPayments + 1), totalReceived := Wrap64(r.totalReceived + amount))]
  }

  class Store {
    var offers: Offers

    constructor ()
      ensures offers == map[]
    {
      offers := map[];
    }

    method InsertOffer(offer: string, description: string, amountMsat: u64, offerId: Hash32)
      modifies this
      ensures offers == Apply(old(offers), Insert(offer, description, amountMsat, offerId))
      ensures offers == old(offers)[offer := OfferRecord(offer, description, amountMsat, true, 0, 0, offerId)]
    {
      offers := offers[offer := OfferRecord(offer, description, amountMsat, true, 0, 0, offerId)];
    }

    /** Any record with the id will do: the map is searched in no particular order. */
    method FindByOfferId(id: Hash32) returns (key: Option<string>)
      ensures key.Some? ==> HasId(offers, key.value, id)
      ensures key.None? ==> forall k :: !HasId(offers, k, id)
    {
      key := None;
      var rest := offers.Keys;
      while rest != {}
        invariant rest <= offers.Keys
        invariant forall k :: k in offers.Keys - rest ==> !HasId(offers, k, id)
        decreases |rest|
      {
        var k :| k in rest;
        if offers[k].offerId == id { return Some(k); }
        rest := rest - {k};
      }
    }

    method DisableOffer(offer: string) returns (known: bool)
      modifies this
      ensures offers == Apply(old(offers), Disable(offer))
      ensures known <==> offer in old(offers)
      ensures offers.Keys == old(offers).Keys
      ensures forall k :: k in offers ==>
                offers[k] == if k == offer then old(offers)[k].(active := false) else old(offers)[k]
    {
      known := offer in offers;
      if known { offers := offers[offer := offers[offer].(active := false)]; }
    }

    method RecordPayment(offer: string, amountMsat: u64)
      modifies this
      ensures offers == Apply(old(offers), Pay(offer, amountMsat))
      ensures offers.Keys == old(offers).Keys
      ensures forall k :: k in offers && k != offer ==> offers[k] == old(offers)[k]
      ensures offer in offers ==>
                && offers[offer].numPayments == (old(offers)[offer].numPayments + 1) % 0x1_0000_0000_0000_0000
                && offers[offer].totalReceived
                   == (old(offers)[offer].totalReceived + amountMsat) % 0x1_0000_0000_0000_0000
    {
      if offer in offers {
        var r := offers[offer];
        var n, total := Wrap64(r.numPayments + 1), Wrap64(r.totalReceived + amountMsat);
        offers := offers[offer := r.(numPayments := n, totalReceived := total)];
      }
    }

    /** The wallet's `disable_offer`; an id that is not 32 bytes of hexadecimal is `None`. */
    method DisableById(id: Option<Hash32>) returns (answer: DisableAnswer, ghost picked: string)
      modifies this
      ensures answer == BadRequest <==> id.None?
      ensures answer == NotFound <==>
              id.Some? && forall k :: k in old(offers) ==> old(offers)[k].offerId != id.value
      ensures answer == Disabled <==>
              id.Some? && exists k :: k in old(offers) && old(offers)[k].offerId == id.value
      ensures answer == BadRequest ==> offers == old(offers)
      ensures answer == NotFound ==> offers == old(offers)
      ensures answer == Disabled ==>
                && id.Some? && picked in old(offers) && old(offers)[picked].offerId == id.value
                && offers == old(offers)[picked := old(offers)[picked].(active := false)]
    {
      picked := "";
      if id.None? { return BadRequest, picked; }
      var key := FindByOfferId(id.value);
      if key.None? {
        forall k | k in offers ensures offers[k].offerId != id.value { assert !HasId(offers, k, id.value); }
        return NotFound, picked;
      }
      picked := key.value;
      var known := DisableOffer(key.value);
      answer := Disabled;
    }
  }

  datatype DisableAnswer = Disabled | BadRequest | NotFound

  predicate HasId(offers: Offers, k: string, id: Hash32) { k in offers && offers[k].offerId == id }

  // ---------- what the operations so far say of one offer ----------

  function Replay(log: seq<Op>): Offers {
    if log == [] then map[] else Apply(Replay(log[..|log| - 1]), log[|log| - 1])
  }

  predicate Inserts(op: Op, k: string) { op.Insert? && op.offer == k }

  /** The latest insertion of the offer. */
  function LastInsert(log: seq<Op>, k: string): Option<Op> {
    if log == [] then None
    else if Inserts(log[|log| - 1], k) then Some(log[|log| - 1])
    else LastInsert(log[..|log| - 1], k)
  }

  /** Everything done since then. */
  function Since(log: seq<Op>, k: string): seq<Op> {
    if log == [] || Inserts(log[|log| - 1], k) then []
    else Since(log[..|log| - 1], k) + [log[|log| - 1]]
  }

  function Count(ops: seq<Op>, k: string): nat {
    if ops == [] then 0
    else
      var op := ops[|ops| - 1];
      Count(ops[..|ops| - 1], k) + (if op.Pay? && op.offer == k then 1 else 0)
  }

  function Sum(ops: seq<Op>, k: string): nat {
    if ops == [] then 0
    else
      var op := ops[|ops| - 1];
      Sum(ops[..|ops| - 1], k) + (if op.Pay? && op.offer == k then op.amountMsat else 0)
  }

  /** The record the operations call for. */
  function Expected(log: seq<Op>, k: string): OfferRecord
    requires LastInsert(log, k).Some?
  {
    InsertFound(log, k);
    RecordOf(k, LastInsert(log, k).value, Since(log, k))
  }

  function RecordOf(k: string, i: Op, since: seq<Op>): OfferRecord
    requires i.Insert?
  {
    OfferRecord(k, i.description, i.amountMsat, Disable(k) !in since,
                Wrap64(Count(since, k)), Wrap64(Sum(since, k)), i.offerId)
  }

  lemma {:induction false} InsertFound(log: seq<Op>, k: string)
    ensures LastInsert(log, k).Some? ==> LastInsert(log, k).value in log && Inserts(LastInsert(log, k).value, k)
  {
    if log == [] {
    } else {
      InsertFound(log[..|log| - 1], k);
    }
  }

  /**
   After any operations an offer is known exactly if it was ever inserted, and
   then its record has the last inserted terms, is active exactly if it was not
   disabled since, and counts exactly the payments since, modulo 2^64.
   */
  lemma {:induction false} StoreMatchesLog(log: seq<Op>, k: string)
    ensures k in Replay(log) <==> LastInsert(log, k).Some?
    ensures k in Replay(log) ==> Replay(log)[k] == Expected(log, k)
  {
    if log == [] {
    } else {
      var init, op := log[..|log| - 1], log[|log| - 1];
      StoreMatchesLog(init, k);
      if !Inserts(op, k) {
        assert Since(log, k) == Since(init, k) + [op];
        InsertFound(init, k);
        if k in Replay(init) { ApplyTracks(Replay(init), LastInsert(init, k).value, Since(init, k), op, k); }
      }
    }
  }

  lemma WrapSum(a: nat, b: nat)
    ensures Wrap64(Wrap64(a) + b) == Wrap64(a + b)
  {
    var q := a / TWO_64;
    assert a == q * TWO_64 + Wrap64(a);
    assert a + b == q * TWO_64 + (Wrap64(a) + b);
  }

  lemma TailsGrow(since: seq<Op>, op: Op, k: string)
    ensures Count(since + [op], k) == Count(since, k) + (if op.Pay? && op.offer == k then 1 else 0)
    ensures Sum(since + [op], k) == Sum(since, k) + (if op.Pay? && op.offer == k then op.amountMsat else 0)
  {
    assert (since + [op])[..|since|] == since;
  }

  lemma ApplyTracks(offers: Offers, i: Op, since: seq<Op>, op: Op, k: string)
    requires i.Insert? && !Inserts(op, k) && k in offers && offers[k] == RecordOf(k, i, since)
    ensures k in Apply(offers, op) && Apply(offers, op)[k] == RecordOf(k, i, since + [op])
  {
    TailsGrow(since, op, k);
    if op.Pay? && op.offer == k {
      WrapSum(Count(since, k), 1);
      WrapSum(Sum(since, k), op.amountMsat);
    }
  }

  // ---------- disabling by id ----------

  /** No active record has the id. */
  predicate NoneActive(offers: Offers, id: Hash32) {
    forall k :: k in offers && offers[k].offerId == id ==> !offers[k].active
  }

  /** Neither of two offers sharing the id is active. */
  predicate NoSharing(offers: Offers, id: Hash32) {
    forall j, k :: j in offers && k in offers && j != k && offers[j].offerId == id == offers[k].offerId ==>
      !offers[j].active
  }

  /**
   Whichever record with the id is picked, disabling it leaves no active record
   with that id, exactly when no two offers share the id with one of them active.
   */
  lemma DisableByIdIff(offers: Offers, id: Hash32)
    ensures (forall k :: HasId(offers, k, id) ==> NoneActive(Apply(offers, Disable(k)), id)) <==> NoSharing(offers, id)
  {
    if forall k :: HasId(offers, k, id) ==> NoneActive(Apply(offers, Disable(k)), id) {
      forall j, k | j in offers && k in offers && j != k && offers[j].offerId == id == offers[k].offerId
        ensures !offers[j].active
      {
        assert HasId(offers, k, id);
        assert Apply(offers, Disable(k))[j] == offers[j];
      }
    }
  }

  /**
   Offers whose text cannot be read are all stored under the all-zero id. With
   two of them, disabling either leaves the other active.
   */
  lemma SharedIdStaysActive()
    ensures var id := seq(32, _ => 0);
      var offers := Replay([Insert("a", "", 0, id), Insert("b", "", 0, id)]);
      && HasId(offers, "a", id) && HasId(offers, "b", id) && !NoSharing(offers, id)
      && !NoneActive(Apply(offers, Disable("a")), id)
      && !NoneActive(Apply(offers, Disable("b")), id)
  {
    var id: Hash32 := seq(32, _ => 0);
    var a, b := Insert("a", "", 0, id), Insert("b", "", 0, id);
    var offers := Replay([a, b]);
    assert [a, b][..1] == [a];
    assert Replay([a]) == Apply(map[], a);
    assert offers["a"].active && offers["b"].active;
    assert Apply(offers, Disable("a"))["b"] == offers["b"];
    assert Apply(offers, Disable("b"))["a"] == offers["a"];
  }

  /** The inserted offers never share an id. */
  predicate DistinctIds(log: seq<Op>) {
    forall a, b :: a in log && b in log && a.Insert? && b.Insert? && a.offerId == b.offerId ==> a.offer == b.offer
  }

  /** Then one call by id is enough after any operations, and a second changes nothing. */
  lemma DisableByIdSuffices(log: seq<Op>, id: Hash32, k: string)
    requires DistinctIds(log) && HasId(Replay(log), k, id)
    ensures NoneActive(Apply(Replay(log), Disable(k)), id)
    ensures Apply(Apply(Replay(log), Disable(k)), Disable(k)) == Apply(Replay(log), Disable(k))
  {
    var offers := Replay(log);
    forall j | j in offers && offers[j].offerId == id ensures j == k {
      StoreMatchesLog(log, j);
      StoreMatchesLog(log, k);
      InsertFound(log, j);
      InsertFound(log, k);
    }
  }
}
