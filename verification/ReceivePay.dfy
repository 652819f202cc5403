/**
 `receive` builds a BIP 321 URI from what the node can issue, and `pay` picks an
 instruction from one. Printing and parsing belong to the `bip321` crate: a URI
 is taken here as the value that survives them.
 */
module ReceivePay {
  import opened Numbers
  import opened Options
  import OfferStore
  import AddressStore

  datatype MethodEntry = MethodEntry(name: string, expiry: Option<u64>, addressType: Option<string>)

  datatype Request = Request(amount: Option<u64>, description: Option<string>, methods: Option<seq<MethodEntry>>)

  datatype Uri = Uri(amountSat: Option<u64>, lightning: seq<string>, lno: seq<string>, address: Option<string>)

  /** What the node answers for the entry at each position; `None` is a failure. */
  datatype Node = Node(
    invoice: nat -> Option<string>,
    offer: nat -> Option<(string, Option<Hash32>)>,
    address: nat -> Option<(string, bool)>)

  datatype ReceiveError = NothingGenerated

  const ZERO_ID: Hash32 := seq(32, _ => 0)

  const DEFAULT_METHODS: seq<MethodEntry> :=
    [MethodEntry("bolt11", None, None), MethodEntry("bolt12", None, None), MethodEntry("onchain", None, None)]

  function Wanted(req: Request): seq<MethodEntry> { UnwrapOr(req.methods, DEFAULT_METHODS) }

  /** `make_invoice`: no zero amounts, no expiry beyond u32, and then the node's answer. */
  function MakeInvoice(amount: u64, expiry: Option<u64>, answer: Option<string>): Option<string> {
    if amount == 0 || (expiry.Some? && expiry.value >= TWO_32) then None else answer
  }

  // ---------- the loop over the wanted methods ----------

  datatype Progress = Progress(uri: Uri, any: bool, offers: OfferStore.Offers, addresses: AddressStore.Addresses)

  function OfferDescription(req: Request): string { UnwrapOr(req.description, "bip321 offer") }

  /** One round of the loop: serve the wanted method `entry`, or skip it. */
  function Round(req: Request, node: Node, i: nat, entry: MethodEntry, s: Progress): Progress {
    if entry.name == "bolt11" then
      if req.amount.None? then s
      else
        var inv := MakeInvoice(req.amount.value, entry.expiry, node.invoice(i));
        if inv.None? then s else s.(uri := s.uri.(lightning := s.uri.lightning + [inv.value]), any := true)
    else if entry.name == "bolt12" then
      var made := node.offer(i);
      if made.None? then s
      else
        var (offer, id) := made.value;
        var op := OfferStore.Insert(offer, OfferDescription(req), UnwrapOr(req.amount, 0), UnwrapOr(id, ZERO_ID));
        s.(uri := s.uri.(lno := s.uri.lno + [offer]), any := true, offers := OfferStore.Apply(s.offers, op))
    else if entry.name == "onchain" then
      if entry.addressType.Some? && entry.addressType.value != "p2tr" then s
      else
        var made := node.address(i);
        if made.None? then s
        else
          var (addr, parses) := made.value;
          var t := s.(addresses := AddressStore.Apply(s.addresses, AddressStore.Register(addr)));
          if parses then t.(uri := s.uri.(address := Some(addr)), any := true) else t
    else s
  }

  function Begin(req: Request, offers: OfferStore.Offers, addresses: AddressStore.Addresses): Progress {
    var sats := if req.amount.Some? then Some(req.amount.value / 1_000) else None;
    Progress(Uri(sats, [], [], None), false, offers, addresses)
  }

  /** Where the loop is after these entries. */
  function Progressed(req: Request, node: Node, entries: seq<MethodEntry>, s: Progress): Progress {
    var n := |entries| - 1;
    if entries == [] then s else Round(req, node, n, entries[n], Progressed(req, node, entries[..n], s))
  }

  function Received(req: Request, node: Node, s: Progress): Progress {
    Progressed(req, node, Wanted(req), s)
  }

  function ReceiveAnswer(s: Progress): Result<Uri, ReceiveError> { if s.any then Ok(s.uri) else Err(NothingGenerated) }

  method Receive(req: Request, node: Node, offers: OfferStore.Store, addresses: AddressStore.Store)
      returns (r: Result<Uri, ReceiveError>)
    modifies offers, addresses
    ensures var t := Received(req, node, Begin(req, old(offers.offers), old(addresses.addresses)));
      r == ReceiveAnswer(t) && offers.offers == t.offers && addresses.addresses == t.addresses
    ensures r.Ok? ==> CarriesIssued(req, node, Wanted(req), r.value)
    ensures r.Ok? <==> AnyIssued(req, node, Wanted(req))
    ensures StoresOffers(req, node, Wanted(req), old(offers.offers), offers.offers)
    ensures RegistersAddresses(node, Wanted(req), old(addresses.addresses), addresses.addresses)
  {
    ghost var start := Begin(req, offers.offers, addresses.addresses);
    var uri := Uri(if req.amount.Some? then Some(req.amount.value / 1_000) else None, [], [], None);
    var wanted := Wanted(req);
    var any := false;
    for i := 0 to |wanted|
      invariant Progress(uri, any, offers.offers, addresses.addresses) == Progressed(req, node, wanted[..i], start)
    {
      var entry := wanted[i];
      assert wanted[..i + 1][..i] == wanted[..i];
      if entry.name == "bolt11" {
        if req.amount.None? { continue; }
        var inv := MakeInvoice(req.amount.value, entry.expiry, node.invoice(i));
        if inv.Some? {
          uri := uri.(lightning := uri.lightning + [inv.value]);
          any := true;
        }
      } else if entry.name == "bolt12" {
        var made := node.offer(i);
        if made.Some? {
          var offer, id := made.value.0, UnwrapOr(made.value.1, ZERO_ID);
          offers.InsertOffer(offer, OfferDescription(req), UnwrapOr(req.amount, 0), id);
          uri := uri.(lno := uri.lno + [offer]);
          any := true;
        }
      } else if entry.name == "onchain" {
        if entry.addressType.Some? && entry.addressType.value != "p2tr" { continue; }
        var made := node.address(i);
        if made.Some? {
          addresses.RegisterAddress(made.value.0);
          if made.value.1 {
            uri := uri.(address := Some(made.value.0));
            any := true;
          }
        }
      }
    }
    assert wanted[..|wanted|] == wanted;
    AnswerServes(req, node, wanted, start);
    r := if any then Ok(uri) else Err(NothingGenerated);
  }

  // ---------- what `receive` has to do ----------

  /** The invoice the node issues for entry `i`: BOLT11, with an amount, and an expiry that fits if given. */
  predicate GetsInvoice(req: Request, node: Node, i: nat, e: MethodEntry) {
    && e.name == "bolt11" && req.amount.Some? && req.amount.value != 0
    && (e.expiry.Some? ==> e.expiry.value <= 0xFFFF_FFFF) && node.invoice(i).Some?
  }

  predicate GetsOffer(node: Node, i: nat, e: MethodEntry) { e.name == "bolt12" && node.offer(i).Some? }

  /** An address is generated, whether it parses or not. */
  predicate GetsAddress(node: Node, i: nat, e: MethodEntry) {
    e.name == "onchain" && (e.addressType == None || e.addressType == Some("p2tr")) && node.address(i).Some?
  }

  function InvoiceTexts(req: Request, node: Node, entries: seq<MethodEntry>): seq<string> {
    var n := |entries| - 1;
    if entries == [] then []
    else InvoiceTexts(req, node, entries[..n])
         + (if GetsInvoice(req, node, n, entries[n]) then [node.invoice(n).value] else [])
  }

  function OfferTexts(node: Node, entries: seq<MethodEntry>): seq<string> {
    var n := |entries| - 1;
    if entries == [] then []
    else OfferTexts(node, entries[..n]) + (if GetsOffer(node, n, entries[n]) then [node.offer(n).value.0] else [])
  }

  /** Entry `i` is the last to get an address that parses. */
  ghost predicate IsLastAddress(node: Node, entries: seq<MethodEntry>, i: nat) {
    && i < |entries| && GetsAddress(node, i, entries[i]) && node.address(i).value.1
    && forall j :: i < j < |entries| && GetsAddress(node, j, entries[j]) ==> !node.address(j).value.1
  }

  /** Entry `i` is the last to get the offer with this text. */
  ghost predicate IsLastOffer(node: Node, entries: seq<MethodEntry>, i: nat, text: string) {
    && i < |entries| && GetsOffer(node, i, entries[i]) && node.offer(i).value.0 == text
    && forall j :: i < j < |entries| && GetsOffer(node, j, entries[j]) ==> node.offer(j).value.0 != text
  }

  /** The instructions are those issued, in the order of their entries; of addresses the last that parses. */
  ghost predicate CarriesIssued(req: Request, node: Node, entries: seq<MethodEntry>, u: Uri) {
    && u.lightning == InvoiceTexts(req, node, entries) && u.lno == OfferTexts(node, entries)
    && (forall i: nat :: IsLastAddress(node, entries, i) ==> u.address == Some(node.address(i).value.0))
    && (u.address.Some? ==> exists i: nat :: IsLastAddress(node, entries, i))
    && u.amountSat == (if req.amount.Some? then Some(req.amount.value / 1_000) else None)
  }

  /** Each offer issued is stored fresh under the request's terms, and no other record changes. */
  ghost predicate StoresOffers(req: Request, node: Node, entries: seq<MethodEntry>,
                               before: OfferStore.Offers, after: OfferStore.Offers)
  {
    forall k :: StoresOffer(req, node, entries, before, after, k)
  }

  ghost predicate StoresOffer(req: Request, node: Node, entries: seq<MethodEntry>,
                              before: OfferStore.Offers, after: OfferStore.Offers, k: string)
  {
    && (forall i: nat :: IsLastOffer(node, entries, i, k) ==> k in after && after[k] == OfferMade(req, node, i, k))
    && ((forall i: nat :: !IsLastOffer(node, entries, i, k)) ==>
          (k in after <==> k in before) && (k in after ==> after[k] == before[k]))
  }

  function OfferMade(req: Request, node: Node, i: nat, text: string): OfferStore.OfferRecord
    requires node.offer(i).Some?
  {
    OfferStore.OfferRecord(
      text, if req.description.Some? then req.description.value else "bip321 offer",
      if req.amount.Some? then req.amount.value else 0, true, 0, 0,
      if node.offer(i).value.1.Some? then node.offer(i).value.1.value else seq(32, _ => 0))
  }

  ghost predicate Generated(node: Node, entries: seq<MethodEntry>, a: string) {
    exists i :: 0 <= i < |entries| && GetsAddress(node, i, entries[i]) && node.address(i).value.0 == a
  }

  /** Each address generated is registered, new ones without transactions, and no other record changes. */
  ghost predicate RegistersAddresses(node: Node, entries: seq<MethodEntry>,
                                     before: AddressStore.Addresses, after: AddressStore.Addresses)
  {
    forall a :: RegistersAddress(node, entries, before, after, a)
  }

  ghost predicate RegistersAddress(node: Node, entries: seq<MethodEntry>,
                                   before: AddressStore.Addresses, after: AddressStore.Addresses, a: string)
  {
    && (a in after <==> a in before || Generated(node, entries, a))
    && (a in before ==> after[a] == before[a])
    && (a in after && a !in before ==> after[a] == AddressStore.AddressRecord(a, []))
  }

  /** All of it, for the loop over these entries from `s` to `t`. */
  ghost predicate IsServed(req: Request, node: Node, entries: seq<MethodEntry>, s: Progress, t: Progress) {
    && CarriesIssued(req, node, entries, t.uri)
    && StoresOffers(req, node, entries, s.offers, t.offers)
    && RegistersAddresses(node, entries, s.addresses, t.addresses)
    && (t.any <==> t.uri.lightning != [] || t.uri.lno != [] || t.uri.address.Some?)
  }

  lemma InitAgrees(entries: seq<MethodEntry>)
    requires entries != []
    ensures forall i :: 0 <= i < |entries| - 1 ==> entries[..|entries| - 1][i] == entries[i]
  {
  }

  lemma RoundCarries(req: Request, node: Node, entries: seq<MethodEntry>, s: Progress)
    requires entries != [] && CarriesIssued(req, node, entries[..|entries| - 1], s.uri)
    ensures var n := |entries| - 1;
      CarriesIssued(req, node, entries, Round(req, node, n, entries[n], s).uri)
  {
    var n := |entries| - 1;
    var init, u := entries[..n], Round(req, node, n, entries[n], s).uri;
    InitAgrees(entries);
    if GetsAddress(node, n, entries[n]) && node.address(n).value.1 {
      assert IsLastAddress(node, entries, n);
    } else {
      forall i: nat ensures IsLastAddress(node, entries, i) <==> IsLastAddress(node, init, i) {
        LastAddressStays(node, entries, i);
      }
    }
  }

  lemma LastAddressStays(node: Node, entries: seq<MethodEntry>, i: nat)
    requires entries != []
    requires var n := |entries| - 1; GetsAddress(node, n, entries[n]) ==> !node.address(n).value.1
    ensures IsLastAddress(node, entries, i) <==> IsLastAddress(node, entries[..|entries| - 1], i)
  {
    InitAgrees(entries);
  }

  lemma LastOfferStays(node: Node, entries: seq<MethodEntry>, i: nat, text: string)
    requires entries != []
    requires var n := |entries| - 1; GetsOffer(node, n, entries[n]) ==> node.offer(n).value.0 != text
    ensures IsLastOffer(node, entries, i, text) <==> IsLastOffer(node, entries[..|entries| - 1], i, text)
  {
    InitAgrees(entries);
  }

  lemma RoundStores(req: Request, node: Node, entries: seq<MethodEntry>, before: OfferStore.Offers, s: Progress)
    requires entries != [] && StoresOffers(req, node, entries[..|entries| - 1], before, s.offers)
    ensures var n := |entries| - 1;
      StoresOffers(req, node, entries, before, Round(req, node, n, entries[n], s).offers)
  {
    var n := |entries| - 1;
    var after := Round(req, node, n, entries[n], s).offers;
    forall k ensures StoresOffer(req, node, entries, before, after, k) {
      assert StoresOffer(req, node, entries[..n], before, s.offers, k);
      RoundStoresAt(req, node, entries, before, s, k);
    }
  }

  lemma RoundStoresAt(req: Request, node: Node, entries: seq<MethodEntry>, before: OfferStore.Offers, s: Progress,
                      k: string)
    requires entries != [] && StoresOffer(req, node, entries[..|entries| - 1], before, s.offers, k)
    ensures var n := |entries| - 1;
      StoresOffer(req, node, entries, before, Round(req, node, n, entries[n], s).offers, k)
  {
    var n := |entries| - 1;
    if GetsOffer(node, n, entries[n]) && node.offer(n).value.0 == k {
      assert IsLastOffer(node, entries, n, k);
    } else {
      forall i: nat ensures IsLastOffer(node, entries, i, k) <==> IsLastOffer(node, entries[..n], i, k) {
        LastOfferStays(node, entries, i, k);
      }
    }
  }

  lemma RoundRegisters(req: Request, node: Node, entries: seq<MethodEntry>, before: AddressStore.Addresses, s: Progress)
    requires entries != [] && RegistersAddresses(node, entries[..|entries| - 1], before, s.addresses)
    ensures var n := |entries| - 1;
      RegistersAddresses(node, entries, before, Round(req, node, n, entries[n], s).addresses)
  {
    var n := |entries| - 1;
    var after := Round(req, node, n, entries[n], s).addresses;
    forall a ensures RegistersAddress(node, entries, before, after, a) {
      assert RegistersAddress(node, entries[..n], before, s.addresses, a);
      GeneratedOne(node, entries, a);
    }
  }

  lemma GeneratedOne(node: Node, entries: seq<MethodEntry>, a: string)
    requires entries != []
    ensures var n := |entries| - 1;
      Generated(node, entries, a) <==>
      Generated(node, entries[..n], a) || (GetsAddress(node, n, entries[n]) && node.address(n).value.0 == a)
  {
    InitAgrees(entries);
  }

  lemma {:induction false} LoopServes(req: Request, node: Node, entries: seq<MethodEntry>, s: Progress)
    requires s == Begin(req, s.offers, s.addresses)
    ensures IsServed(req, node, entries, s, Progressed(req, node, entries, s))
  {
    if entries == [] {
    } else {
      var n := |entries| - 1;
      LoopServes(req, node, entries[..n], s);
      var t := Progressed(req, node, entries[..n], s);
      RoundCarries(req, node, entries, t);
      RoundStores(req, node, entries, s.offers, t);
      RoundRegisters(req, node, entries, s.addresses, t);
    }
  }

  /** Some entry gets an instruction. */
  ghost predicate AnyIssued(req: Request, node: Node, entries: seq<MethodEntry>) {
    || InvoiceTexts(req, node, entries) != [] || OfferTexts(node, entries) != []
    || exists i: nat :: IsLastAddress(node, entries, i)
  }

  lemma AnswerServes(req: Request, node: Node, entries: seq<MethodEntry>, s: Progress)
    requires s == Begin(req, s.offers, s.addresses)
    ensures var t := Progressed(req, node, entries, s);
      && CarriesIssued(req, node, entries, t.uri) && (t.any <==> AnyIssued(req, node, entries))
      && StoresOffers(req, node, entries, s.offers, t.offers)
      && RegistersAddresses(node, entries, s.addresses, t.addresses)
  {
    LoopServes(req, node, entries, s);
  }

  /** Without methods the three of this node are wanted, each without expiry or address type. */
  lemma WantedReads(req: Request)
    ensures req.methods.Some? ==> Wanted(req) == req.methods.value
    ensures req.methods.None? ==>
              && |Wanted(req)| == 3
              && Wanted(req)[0].name == "bolt11" && Wanted(req)[1].name == "bolt12" && Wanted(req)[2].name == "onchain"
              && forall i :: 0 <= i < 3 ==> Wanted(req)[i].expiry == None && Wanted(req)[i].addressType == None
  {
  }

  // ---------- what a received URI carries ----------

  predicate HasInstruction(u: Uri) { u.lightning != [] || u.lno != [] || u.address.Some? }

  /** The URI promises nothing the stores do not know. */
  ghost predicate Backed(s: Progress) {
    && (s.any <==> HasInstruction(s.uri))
    && (forall o :: o in s.uri.lno ==> o in s.offers && s.offers[o].active && s.offers[o].offer == o)
    && (s.uri.address.Some? ==> s.uri.address.value in s.addresses)
  }

  lemma RoundKeepsBacked(req: Request, node: Node, i: nat, entry: MethodEntry, s: Progress)
    requires Backed(s)
    ensures Backed(Round(req, node, i, entry, s)) && Round(req, node, i, entry, s).uri.amountSat == s.uri.amountSat
  {
  }

  lemma {:induction false} LoopKeepsBacked(req: Request, node: Node, entries: seq<MethodEntry>, s: Progress)
    requires Backed(s)
    ensures var t := Progressed(req, node, entries, s); Backed(t) && t.uri.amountSat == s.uri.amountSat
  {
    if entries == [] {
    } else {
      var n := |entries| - 1;
      LoopKeepsBacked(req, node, entries[..n], s);
      RoundKeepsBacked(req, node, n, entries[n], Progressed(req, node, entries[..n], s));
    }
  }

  /**
   A URI is answered only with an instruction in it; every offer in it is active
   in the store, its address is registered, and its amount is the request's in
   whole satoshis.
   */
  lemma ReceivedIsBacked(req: Request, node: Node, offers: OfferStore.Offers, addresses: AddressStore.Addresses)
    ensures var t := Received(req, node, Begin(req, offers, addresses));
      && Backed(t)
      && (ReceiveAnswer(t).Ok? <==> HasInstruction(t.uri))
      && (req.amount.Some? ==> t.uri.amountSat == Some(req.amount.value / 1_000))
      && (req.amount.None? ==> t.uri.amountSat == None)
  {
    LoopKeepsBacked(req, node, Wanted(req), Begin(req, offers, addresses));
  }

  /** The entry at position `i` yields an instruction. */
  predicate Yields(req: Request, node: Node, i: nat, e: MethodEntry) {
    || (e.name == "bolt11" && req.amount.Some? && req.amount.value > 0
        && (e.expiry.Some? ==> e.expiry.value < TWO_32) && node.invoice(i).Some?)
    || (e.name == "bolt12" && node.offer(i).Some?)
    || (e.name == "onchain" && (e.addressType.Some? ==> e.addressType.value == "p2tr")
        && node.address(i).Some? && node.address(i).value.1)
  }

  lemma {:induction false} AnyIff(req: Request, node: Node, entries: seq<MethodEntry>, s: Progress)
    ensures Progressed(req, node, entries, s).any <==>
            s.any || exists i :: 0 <= i < |entries| && Yields(req, node, i, entries[i])
  {
    if entries == [] {
    } else {
      var n := |entries| - 1;
      AnyIff(req, node, entries[..n], s);
      var before, after := Progressed(req, node, entries[..n], s), Progressed(req, node, entries, s);
      assert after.any <==> before.any || Yields(req, node, n, entries[n]);
      assert forall i :: 0 <= i < n ==> entries[..n][i] == entries[i];
    }
  }

  /** `receive` succeeds exactly when some wanted method can be served; the others are skipped. */
  lemma ReceiveSucceedsIff(req: Request, node: Node, offers: OfferStore.Offers, addresses: AddressStore.Addresses)
    ensures ReceiveAnswer(Received(req, node, Begin(req, offers, addresses))).Ok? <==>
            exists i :: 0 <= i < |Wanted(req)| && Yields(req, node, i, Wanted(req)[i])
  {
    AnyIff(req, node, Wanted(req), Begin(req, offers, addresses));
  }

  /** Entry `i` is one for this method, and the node issued this text for it. */
  predicate Gave(req: Request, node: Node, i: nat, e: MethodEntry, name: string, text: string) {
    && e.name == name && Yields(req, node, i, e)
    && (name == "bolt11" ==> node.invoice(i) == Some(text))
    && (name == "bolt12" ==> node.offer(i).value.0 == text)
    && (name == "onchain" ==> node.address(i).value.0 == text)
  }

  ghost predicate SomeGave(req: Request, node: Node, entries: seq<MethodEntry>, name: string, text: string) {
    exists i :: 0 <= i < |entries| && Gave(req, node, i, entries[i], name, text)
  }

  /** Each instruction is one the node issued for a wanted entry of its method. */
  ghost predicate Issued(req: Request, node: Node, entries: seq<MethodEntry>, u: Uri) {
    && (forall v :: v in u.lightning ==> SomeGave(req, node, entries, "bolt11", v))
    && (forall o :: o in u.lno ==> SomeGave(req, node, entries, "bolt12", o))
    && (u.address.Some? ==> SomeGave(req, node, entries, "onchain", u.address.value))
  }

  lemma GaveGrows(req: Request, node: Node, entries: seq<MethodEntry>, e: MethodEntry, name: string, text: string)
    requires SomeGave(req, node, entries, name, text)
    ensures SomeGave(req, node, entries + [e], name, text)
  {
    var i :| 0 <= i < |entries| && Gave(req, node, i, entries[i], name, text);
    assert (entries + [e])[i] == entries[i];
  }

  lemma IssuedGrows(req: Request, node: Node, entries: seq<MethodEntry>, e: MethodEntry, u: Uri)
    requires Issued(req, node, entries, u)
    ensures Issued(req, node, entries + [e], u)
  {
    forall v | v in u.lightning ensures SomeGave(req, node, entries + [e], "bolt11", v) {
      GaveGrows(req, node, entries, e, "bolt11", v);
    }
    forall o | o in u.lno ensures SomeGave(req, node, entries + [e], "bolt12", o) {
      GaveGrows(req, node, entries, e, "bolt12", o);
    }
    if u.address.Some? { GaveGrows(req, node, entries, e, "onchain", u.address.value); }
  }

  /** One round of the loop puts in only what the node issued for its entry. */
  lemma RoundIssues(req: Request, node: Node, entries: seq<MethodEntry>, e: MethodEntry, s: Progress)
    requires Issued(req, node, entries, s.uri)
    ensures Issued(req, node, entries + [e], Round(req, node, |entries|, e, s).uri)
  {
    IssuedGrows(req, node, entries, e, s.uri);
    assert (entries + [e])[|entries|] == e;
    forall name, text | Gave(req, node, |entries|, e, name, text)
      ensures SomeGave(req, node, entries + [e], name, text)
    {
    }
  }

  lemma {:induction false} LoopIssues(req: Request, node: Node, entries: seq<MethodEntry>, s: Progress)
    requires s.uri.lightning == s.uri.lno == [] && s.uri.address == None
    ensures Issued(req, node, entries, Progressed(req, node, entries, s).uri)
  {
    if entries == [] {
    } else {
      var n := |entries| - 1;
      LoopIssues(req, node, entries[..n], s);
      assert entries == entries[..n] + [entries[n]];
      RoundIssues(req, node, entries[..n], entries[n], Progressed(req, node, entries[..n], s));
    }
  }

  /** A URI carries nothing the node did not issue for this request. */
  lemma ReceivedIsIssued(req: Request, node: Node, offers: OfferStore.Offers, addresses: AddressStore.Addresses)
    ensures Issued(req, node, Wanted(req), Received(req, node, Begin(req, offers, addresses)).uri)
  {
    LoopIssues(req, node, Wanted(req), Begin(req, offers, addresses));
  }

  // ---------- paying it ----------

  datatype PayChoice =
    | PayInvoice(invoice: string, amountMsat: Option<u64>)
    | PayOffer(offer: string, amountMsat: Option<u64>)
    | PayOnchain(address: string, amountSat: u64)
    | AmountNeeded
    | UnsupportedPaymentInstruction

  function AmountAsked(u: Uri, caller: Option<u64>): Option<u64> {
    if caller.Some? then caller
    else if u.amountSat.Some? then Some(Wrap64(u.amountSat.value * 1_000))
    else None
  }

  /** Which instruction `pay` takes: lightning first, then an offer, then the address. */
  function Pay(u: Uri, caller: Option<u64>): PayChoice {
    var amount := AmountAsked(u, caller);
    if u.lightning != [] then PayInvoice(u.lightning[0], amount)
    else if u.lno != [] then PayOffer(u.lno[0], amount)
    else if u.address.Some? then
      if amount.None? then AmountNeeded else PayOnchain(u.address.value, amount.value / 1_000)
    else UnsupportedPaymentInstruction
  }

  /**
   Which instruction `pay` takes from any URI, and for how much: the caller's
   amount if given, else the URI's in millisatoshis, and on-chain that in satoshis.
   */
  lemma PayReads(u: Uri, caller: Option<u64>)
    ensures var p := Pay(u, caller);
      var fromUri := if u.amountSat.Some? then Some(u.amountSat.value * 1_000 % 0x1_0000_0000_0000_0000) else None;
      var amount := if caller.Some? then caller else fromUri;
      && (u.lightning != [] ==> p == PayInvoice(u.lightning[0], amount))
      && (u.lightning == [] && u.lno != [] ==> p == PayOffer(u.lno[0], amount))
      && (u.lightning == u.lno == [] && u.address.Some? && amount.Some? ==>
            p == PayOnchain(u.address.value, amount.value / 1_000))
      && (u.lightning == u.lno == [] && u.address.Some? && amount.None? ==> p == AmountNeeded)
      && (u.lightning == u.lno == [] && u.address.None? ==> p == UnsupportedPaymentInstruction)
  {
  }

  /** A received URI paid without an amount of one's own: what is sent is the request in whole satoshis. */
  lemma PaySendsRequested(req: Request, node: Node, offers: OfferStore.Offers, addresses: AddressStore.Addresses)
    requires req.amount.Some?
    requires ReceiveAnswer(Received(req, node, Begin(req, offers, addresses))).Ok?
    ensures var p := Pay(Received(req, node, Begin(req, offers, addresses)).uri, None);
      var a := req.amount.value;
      && (p.PayOnchain? ==> p.amountSat == a / 1_000)
      && (p.PayInvoice? || p.PayOffer? ==> p.amountMsat == Some(a - a % 1_000))
      && (p.PayInvoice? || p.PayOffer? || p.PayOnchain?)
  {
    ReceivedIsBacked(req, node, offers, addresses);
    PayReads(Received(req, node, Begin(req, offers, addresses)).uri, None);
  }

  /** `pay` never refuses a received URI as unsupported, and pays only offers that are active. */
  lemma PayTakesReceived(req: Request, node: Node, offers: OfferStore.Offers, addresses: AddressStore.Addresses,
                         caller: Option<u64>)
    requires ReceiveAnswer(Received(req, node, Begin(req, offers, addresses))).Ok?
    ensures var t := Received(req, node, Begin(req, offers, addresses));
      var p := Pay(t.uri, caller);
      && p != UnsupportedPaymentInstruction
      && (p.PayInvoice? <==> t.uri.lightning != []) && (p.PayInvoice? ==> p.invoice == t.uri.lightning[0])
      && (p == AmountNeeded <==> caller.None? && req.amount.None? && t.uri.lightning == t.uri.lno == [])
      && (p.PayOffer? ==> p.offer in t.offers && t.offers[p.offer].active)
      && (p.PayOnchain? ==> p.address in t.addresses && t.uri.lightning == t.uri.lno == [])
  {
    ReceivedIsBacked(req, node, offers, addresses);
  }

  /**
   Without an amount of its own, `pay` asks for the requested amount less its
   fraction of a satoshi, and the conversion back does not overflow; so the
   amount survives exactly when it was whole satoshis.
   */
  lemma AmountSurvivesIff(req: Request, node: Node, offers: OfferStore.Offers, addresses: AddressStore.Addresses)
    requires req.amount.Some?
    ensures var a := req.amount.value;
      var asked := AmountAsked(Received(req, node, Begin(req, offers, addresses)).uri, None);
      && asked == Some(a - a % 1_000) && (a / 1_000) * 1_000 < TWO_64
      && (asked == Some(a) <==> a % 1_000 == 0)
  {
    ReceivedIsBacked(req, node, offers, addresses);
  }
}
