/** `list_payments_filtered`: a filter, a stable sort, newest first, and a page of the result. */
module PaymentListing {
  import opened Numbers
  import opened Options
  import opened Paging

  datatype Direction = Inbound | Outbound
  datatype Status = Pending | Succeeded | Failed
  datatype Method = ByBolt11 | ByBolt12 | ByKeysend

  datatype Kind =
    | Onchain
    | Bolt11(preimage: Option<Hash32>)
    | Bolt11Jit(preimage: Option<Hash32>)
    | Bolt12Offer(preimage: Option<Hash32>)
    | Bolt12Refund(preimage: Option<Hash32>)
    | Spontaneous(preimage: Option<Hash32>)

  datatype Payment = Payment(id: Hash32, kind: Kind, amountMsat: Option<u64>, feePaidMsat: Option<u64>,
                             direction: Direction, status: Status, updatedAt: u64)

  datatype Query = Query(from: Option<u64>, until: Option<u64>, limit: Option<u64>, offset: Option<u64>,
                         unpaid: Option<bool>, direction: Option<Direction>, paidBy: Option<Method>)

  // ---------- the filter ----------

  predicate IsPaidBy(m: Method, k: Kind) {
    match (m, k)
    case (ByBolt11, Bolt11(_)) => true
    case (ByBolt11, Bolt11Jit(_)) => true
    case (ByBolt12, Bolt12Offer(_)) => true
    case (ByBolt12, Bolt12Refund(_)) => true
    case (ByKeysend, Spontaneous(_)) => true
    case _ => false
  }

  /** The payment meets every filter supplied; only pending payments count as unpaid. */
  predicate Passes(q: Query, p: Payment) {
    && (q.from.Some? ==> q.from.value <= p.updatedAt)
    && (q.until.Some? ==> p.updatedAt <= q.until.value)
    && (q.direction.Some? ==> p.direction == q.direction.value)
    && (q.paidBy.Some? ==> IsPaidBy(q.paidBy.value, p.kind))
    && (q.unpaid != Some(true) ==> p.status != Pending)
  }

  /** A payment is kept exactly when each filter supplied admits it, and unpaid ones only if asked for. */
  method Keep(q: Query, p: Payment) returns (keep: bool)
    ensures keep == Passes(q, p)
    ensures keep <==>
      && (q.from.Some? ==> q.from.value <= p.updatedAt)
      && (q.until.Some? ==> p.updatedAt <= q.until.value)
      && (q.direction.Some? ==> p.direction == q.direction.value)
      && (q.paidBy == Some(ByBolt11) ==> p.kind.Bolt11? || p.kind.Bolt11Jit?)
      && (q.paidBy == Some(ByBolt12) ==> p.kind.Bolt12Offer? || p.kind.Bolt12Refund?)
      && (q.paidBy == Some(ByKeysend) ==> p.kind.Spontaneous?)
      && (q.unpaid == Some(true) || p.status == Succeeded || p.status == Failed)
  {
    if q.from.Some? && p.updatedAt < q.from.value { return false; }
    if q.until.Some? && p.updatedAt > q.until.value { return false; }
    if q.direction.Some? && p.direction != q.direction.value { return false; }
    if q.paidBy.Some? && !IsPaidBy(q.paidBy.value, p.kind) { return false; }
    var includeUnpaid := UnwrapOr(q.unpaid, false);
    if !includeUnpaid && p.status == Pending { return false; }
    return true;
  }

  function Passing(q: Query, store: seq<Payment>): seq<Payment> { Filter((p: Payment) => Passes(q, p), store) }

  // ---------- the stable sort ----------

  predicate NewestFirst(xs: seq<Payment>) {
    forall i, j :: 0 <= i < j < |xs| ==> xs[i].updatedAt >= xs[j].updatedAt
  }

  /** The payments of one moment, in list order. */
  function At(t: u64, xs: seq<Payment>): seq<Payment> { Filter((p: Payment) => p.updatedAt == t, xs) }

  /** What a stable sort, newest first, must return. */
  ghost predicate IsStableSort(ys: seq<Payment>, xs: seq<Payment>) {
    NewestFirst(ys) && forall t: u64 :: At(t, ys) == At(t, xs)
  }

  /** `x` placed after everything at least as new. */
  function Insert(ys: seq<Payment>, x: Payment): seq<Payment> {
    if ys == [] || ys[|ys| - 1].updatedAt >= x.updatedAt then ys + [x]
    else Insert(ys[..|ys| - 1], x) + [ys[|ys| - 1]]
  }

  function Sorted(xs: seq<Payment>): seq<Payment> {
    if xs == [] then [] else Insert(Sorted(xs[..|xs| - 1]), xs[|xs| - 1])
  }

  lemma AtOne(t: u64, ys: seq<Payment>, x: Payment)
    ensures At(t, ys + [x]) == At(t, ys) + (if x.updatedAt == t then [x] else [])
  {
    assert (ys + [x])[..|ys|] == ys;
  }

  lemma {:induction false} AtNewer(t: u64, ys: seq<Payment>)
    requires forall y :: y in ys ==> y.updatedAt != t
    ensures At(t, ys) == []
  {
    if ys == [] {
    } else {
      AtNewer(t, ys[..|ys| - 1]);
    }
  }

  lemma Swap(a: seq<Payment>, b: seq<Payment>, c: seq<Payment>)
    requires b == [] || c == []
    ensures a + c + b == a + b + c
  {
    assert a + [] == a;
  }

  lemma {:induction false} InsertAt(ys: seq<Payment>, x: Payment, t: u64)
    requires NewestFirst(ys)
    ensures At(t, Insert(ys, x)) == At(t, ys) + (if x.updatedAt == t then [x] else [])
  {
    if ys == [] || ys[|ys| - 1].updatedAt >= x.updatedAt {
      AtOne(t, ys, x);
    } else {
      var init, last := ys[..|ys| - 1], ys[|ys| - 1];
      InsertAt(init, x, t);
      AtOne(t, Insert(init, x), last);
      assert At(t, ys) == At(t, init) + (if last.updatedAt == t then [last] else []);
      Swap(At(t, init), if last.updatedAt == t then [last] else [], if x.updatedAt == t then [x] else []);
    }
  }

  lemma {:induction false} InsertAdds(ys: seq<Payment>, x: Payment)
    ensures multiset(Insert(ys, x)) == multiset(ys) + multiset{x}
  {
    if ys == [] || ys[|ys| - 1].updatedAt >= x.updatedAt {
    } else {
      InsertAdds(ys[..|ys| - 1], x);
      assert ys == ys[..|ys| - 1] + [ys[|ys| - 1]];
    }
  }

  lemma {:induction false} InsertOrders(ys: seq<Payment>, x: Payment)
    requires NewestFirst(ys)
    ensures NewestFirst(Insert(ys, x))
  {
    if ys == [] || ys[|ys| - 1].updatedAt >= x.updatedAt {
    } else {
      var init, last := ys[..|ys| - 1], ys[|ys| - 1];
      InsertOrders(init, x);
      InsertAdds(init, x);
      forall i | 0 <= i < |Insert(init, x)| ensures Insert(init, x)[i].updatedAt >= last.updatedAt {
        assert Insert(init, x)[i] in multiset(Insert(init, x));
        assert Insert(init, x)[i] in init || Insert(init, x)[i] == x;
      }
    }
  }

  lemma {:induction false} SortedKeepsAll(xs: seq<Payment>)
    ensures multiset(Sorted(xs)) == multiset(xs)
  {
    if xs == [] {
    } else {
      SortedKeepsAll(xs[..|xs| - 1]);
      InsertAdds(Sorted(xs[..|xs| - 1]), xs[|xs| - 1]);
      assert xs == xs[..|xs| - 1] + [xs[|xs| - 1]];
    }
  }

  lemma {:induction false} SortedIsStable(xs: seq<Payment>)
    ensures IsStableSort(Sorted(xs), xs)
  {
    if xs == [] {
    } else {
      var init, last := xs[..|xs| - 1], xs[|xs| - 1];
      SortedIsStable(init);
      InsertOrders(Sorted(init), last);
      assert xs == init + [last];
      forall t: u64 ensures At(t, Sorted(xs)) == At(t, xs) {
        InsertAt(Sorted(init), last, t);
        AtOne(t, init, last);
      }
    }
  }

  /** There is only one stable sort: which algorithm computes it makes no difference. */
  lemma {:induction false} StableSortIsUnique(ys: seq<Payment>, zs: seq<Payment>)
    requires NewestFirst(ys) && NewestFirst(zs) && forall t: u64 :: At(t, ys) == At(t, zs)
    ensures ys == zs
    decreases |ys| + |zs|
  {
    if ys == [] && zs == [] {
    } else if ys == [] {
      LastIsOldest(zs, ys);
    } else {
      var y := ys[|ys| - 1];
      LastIsOldest(ys, zs);
      var z := zs[|zs| - 1];
      LastIsOldest(zs, ys);
      var a, b := ys[..|ys| - 1], zs[..|zs| - 1];
      assert ys == a + [y] && zs == b + [z];
      AtOne(y.updatedAt, a, y);
      AtOne(y.updatedAt, b, z);
      LastOf(At(y.updatedAt, a), y, At(y.updatedAt, b), z);
      forall t: u64 ensures At(t, a) == At(t, b) {
        AtOne(t, a, y);
        AtOne(t, b, z);
        assert At(t, ys) == At(t, zs);
        if t != y.updatedAt { assert At(t, a) + [] == At(t, a) && At(t, b) + [] == At(t, b); }
      }
      StableSortIsUnique(a, b);
    }
  }

  lemma LastOf(a: seq<Payment>, y: Payment, b: seq<Payment>, z: Payment)
    requires a + [y] == b + [z]
    ensures y == z && a == b
  {
    assert (a + [y])[|a|] == y && (b + [z])[|b|] == z;
    assert (a + [y])[..|a|] == a && (b + [z])[..|b|] == b;
  }

  /** The last moment of one list is at least as old as that of any list with the same moments. */
  lemma LastIsOldest(ys: seq<Payment>, zs: seq<Payment>)
    requires ys != [] && NewestFirst(zs) && forall t: u64 :: At(t, ys) == At(t, zs)
    ensures zs != [] && zs[|zs| - 1].updatedAt <= ys[|ys| - 1].updatedAt
  {
    var t := ys[|ys| - 1].updatedAt;
    assert At(t, ys) != [];
    assert At(t, ys) == At(t, zs);
    if forall z :: z in zs ==> z.updatedAt != t { AtNewer(t, zs); }
  }

  // ---------- the listing ----------

  /** The whole list a query pages through. */
  function Unpaged(q: Query, store: seq<Payment>): seq<Payment> { Sorted(Passing(q, store)) }

  function Listing(q: Query, store: seq<Payment>): seq<Payment> {
    Cut(Unpaged(q, store), q.offset, q.limit)
  }

  /** The vector's sort, by contract. */
  method SortNewestFirst(xs: seq<Payment>) returns (ys: seq<Payment>)
    ensures IsStableSort(ys, xs)
  {
    ys := [];
    for i := 0 to |xs|
      invariant ys == Sorted(xs[..i])
    {
      assert xs[..i + 1][..i] == xs[..i];
      ys := Insert(ys, xs[i]);
    }
    assert xs[..|xs|] == xs;
    SortedIsStable(xs);
  }

  method ListPaymentsFiltered(store: seq<Payment>, q: Query) returns (page: seq<Payment>)
    ensures page == Listing(q, store)
  {
    var payments: seq<Payment> := [];
    for i := 0 to |store|
      invariant payments == Passing(q, store[..i])
    {
      assert store[..i + 1][..i] == store[..i];
      var keep := Keep(q, store[i]);
      if keep { payments := payments + [store[i]]; }
    }
    assert store[..|store|] == store;
    page := SortNewestFirst(payments);
    SortedIsStable(payments);
    StableSortIsUnique(page, Sorted(payments));
    var offset := UnwrapOr(q.offset, 0);
    if offset > 0 { page := Skip(page, offset); }
    if q.limit.Some? { page := Take(page, q.limit.value); }
  }

  /**
   The unpaged list holds each stored payment that passes every filter, as often
   as it is stored, and nothing else; newest first, with ties in store order.
   */
  lemma UnpagedIsExact(q: Query, store: seq<Payment>)
    ensures forall p :: multiset(Unpaged(q, store))[p] == if Passes(q, p) then multiset(store)[p] else 0
    ensures IsStableSort(Unpaged(q, store), Passing(q, store))
  {
    SortedIsStable(Passing(q, store));
    SortedKeepsAll(Passing(q, store));
    forall p ensures multiset(Unpaged(q, store))[p] == if Passes(q, p) then multiset(store)[p] else 0 {
      FilterCounts((x: Payment) => Passes(q, x), store, p);
    }
  }

  /** A page without offset and limit holds each stored payment that the filters admit, as often as it is stored. */
  lemma ListedExactly(q: Query, store: seq<Payment>, p: Payment)
    ensures multiset(Listing(q.(limit := None, offset := None), store))[p] ==
      if
        && (q.from.Some? ==> q.from.value <= p.updatedAt)
        && (q.until.Some? ==> p.updatedAt <= q.until.value)
        && (q.direction.Some? ==> p.direction == q.direction.value)
        && (q.paidBy == Some(ByBolt11) ==> p.kind.Bolt11? || p.kind.Bolt11Jit?)
        && (q.paidBy == Some(ByBolt12) ==> p.kind.Bolt12Offer? || p.kind.Bolt12Refund?)
        && (q.paidBy == Some(ByKeysend) ==> p.kind.Spontaneous?)
        && (q.unpaid == Some(true) || p.status == Succeeded || p.status == Failed)
      then multiset(store)[p] else 0
  {
    var r := q.(limit := None, offset := None);
    SortedKeepsAll(Passing(r, store));
    FilterCounts((x: Payment) => Passes(r, x), store, p);
    PassesReads(q, p);
    assert Passes(r, p) == Passes(q, p);
  }

  lemma PassesReads(q: Query, p: Payment)
    ensures Passes(q, p) <==>
      && (q.from.Some? ==> q.from.value <= p.updatedAt)
      && (q.until.Some? ==> p.updatedAt <= q.until.value)
      && (q.direction.Some? ==> p.direction == q.direction.value)
      && (q.paidBy == Some(ByBolt11) ==> p.kind.Bolt11? || p.kind.Bolt11Jit?)
      && (q.paidBy == Some(ByBolt12) ==> p.kind.Bolt12Offer? || p.kind.Bolt12Refund?)
      && (q.paidBy == Some(ByKeysend) ==> p.kind.Spontaneous?)
      && (q.unpaid == Some(true) || p.status == Succeeded || p.status == Failed)
  {
  }

  /** `page` is the slice of `all` from an offset on, as long as a limit allows. */
  ghost predicate IsSlice(page: seq<Payment>, all: seq<Payment>, offset: Option<u64>, limit: Option<u64>) {
    var from: nat := if offset.Some? then offset.value else 0;
    var rest := if from < |all| then |all| - from else 0;
    && |page| == (if limit.Some? && limit.value < rest then limit.value else rest)
    && forall i :: 0 <= i < |page| ==> page[i] == all[from + i]
  }

  /** The listing of a query, from its whole list. */
  function Cut(all: seq<Payment>, offset: Option<u64>, limit: Option<u64>): (page: seq<Payment>)
    ensures IsSlice(page, all, offset, limit)
  {
    var rest := Skip(all, UnwrapOr(offset, 0));
    if limit.Some? then Take(rest, limit.value) else rest
  }

  lemma SliceIsNewestFirst(page: seq<Payment>, all: seq<Payment>, offset: Option<u64>, limit: Option<u64>)
    requires IsSlice(page, all, offset, limit) && NewestFirst(all)
    ensures forall i, j :: 0 <= i < j < |page| ==> page[i].updatedAt >= page[j].updatedAt
  {
  }

  /** Any page is a slice of the one without offset and limit, and newest first. */
  lemma ListingIsSlice(q: Query, store: seq<Payment>)
    ensures var all, page := Listing(q.(limit := None, offset := None), store), Listing(q, store);
      && IsSlice(page, all, q.offset, q.limit)
      && (forall i, j :: 0 <= i < j < |page| ==> page[i].updatedAt >= page[j].updatedAt)
  {
    var r := q.(limit := None, offset := None);
    SamePassing(q, r, store);
    UnlimitedIsUnpaged(r, store);
    SortedIsStable(Passing(q, store));
    SliceIsNewestFirst(Listing(q, store), Unpaged(q, store), q.offset, q.limit);
  }

  lemma UnlimitedIsUnpaged(q: Query, store: seq<Payment>)
    requires q.limit == q.offset == None
    ensures Listing(q, store) == Unpaged(q, store)
  {
  }

  /** The query for one page of a given size. */
  function PageQuery(q: Query, size: u64, offset: u64): Query { q.(limit := Some(size), offset := Some(offset)) }

  /** Reading page after page at offsets 0, L, 2L, ... returns the unpaged list, without loss or repeat. */
  lemma PagesConcatenate(q: Query, store: seq<Payment>, size: u64, count: nat)
    requires Offset(count, size) < TWO_64 && |Unpaged(q, store)| <= Offset(count, size)
    ensures Flatten(ListedPages(q, store, size, count)) == Unpaged(q, store)
  {
    ListedPagesArePages(q, store, size, count);
    PagesTile(Unpaged(q, store), size, count);
  }

  function ListedPages(q: Query, store: seq<Payment>, size: u64, count: nat): seq<seq<Payment>>
    requires Offset(count, size) < TWO_64
  {
    if count == 0 then []
    else
      ListedPages(q, store, size, count - 1) + [Listing(PageQuery(q, size, Offset(count - 1, size)), store)]
  }

  lemma {:induction false} ListedPagesArePages(q: Query, store: seq<Payment>, size: u64, count: nat)
    requires Offset(count, size) < TWO_64
    ensures ListedPages(q, store, size, count) == Pages(Unpaged(q, store), size, count)
  {
    if count == 0 {
    } else {
      ListedPagesArePages(q, store, size, count - 1);
      SamePassing(PageQuery(q, size, Offset(count - 1, size)), q, store);
    }
  }

  lemma {:induction false} SamePassing(q: Query, r: Query, store: seq<Payment>)
    requires q.(limit := r.limit, offset := r.offset) == r
    ensures Passing(q, store) == Passing(r, store)
  {
    if store == [] {
    } else {
      SamePassing(q, r, store[..|store| - 1]);
    }
  }

  // ---------- invoices ----------

  datatype InvoiceState = InvoicePending | InvoiceSettled | InvoiceExpired

  datatype Transaction = Transaction(direction: Direction, state: Status, preimage: Option<Hash32>, amount: u64,
                                     feesPaid: u64, createdAt: u64, expiresAt: Option<u64>, settledAt: Option<u64>)

  datatype Invoice = Invoice(amount: u64, preimage: Option<Hash32>, settledAt: Option<u64>,
                             state: InvoiceState, createdAt: u64, expiresAt: u64)

  function ToTransaction(p: Payment): Transaction {
    Transaction(p.direction, p.status, if p.kind.Onchain? then None else p.kind.preimage,
                UnwrapOr(p.amountMsat, 0), UnwrapOr(p.feePaidMsat, 0), p.updatedAt, None,
                if p.status == Succeeded then Some(p.updatedAt) else None)
  }

  /** A transaction repeats its payment; absent amounts read as zero, and only a succeeded one is settled. */
  lemma TransactionReads(p: Payment)
    ensures var t := ToTransaction(p);
      && t.direction == p.direction && t.state == p.status && t.createdAt == p.updatedAt && t.expiresAt == None
      && t.preimage == (if p.kind.Onchain? then None else p.kind.preimage)
      && (p.amountMsat.Some? ==> t.amount == p.amountMsat.value) && (p.amountMsat.None? ==> t.amount == 0)
      && (p.feePaidMsat.Some? ==> t.feesPaid == p.feePaidMsat.value) && (p.feePaidMsat.None? ==> t.feesPaid == 0)
      && (t.settledAt == Some(p.updatedAt) <==> p.status == Succeeded)
      && (t.settledAt == None <==> p.status != Succeeded)
  {
  }

  function ToInvoice(t: Transaction, now: u64): Invoice {
    var state :=
      if t.state == Succeeded then InvoiceSettled
      else if t.expiresAt.Some? && t.expiresAt.value < now then InvoiceExpired
      else InvoicePending;
    Invoice(t.amount, if state == InvoiceSettled then t.preimage else None,
            if state == InvoiceSettled then t.settledAt else None, state, t.createdAt, UnwrapOr(t.expiresAt, 0))
  }

  function Invoices(page: seq<Payment>, now: u64): seq<Invoice> {
    seq(|page|, i requires 0 <= i < |page| => ToInvoice(ToTransaction(page[i]), now))
  }

  /** The query of `list_invoices`: incoming payments, pending ones included. */
  function InvoiceQuery(from: Option<u64>, until: Option<u64>, limit: Option<u64>, offset: Option<u64>): Query {
    Query(from, until, limit, offset, Some(true), Some(Inbound), None)
  }

  predicate InState(want: Option<InvoiceState>, i: Invoice) { want.None? || i.state == want.value }

  function StateIs(want: Option<InvoiceState>): Invoice -> bool { (i: Invoice) => InState(want, i) }

  /** `list_invoices` on the page its query returned: the state filter comes last. */
  function InvoicesOn(page: seq<Payment>, want: Option<InvoiceState>, now: u64): seq<Invoice> {
    Filter(StateIs(want), Invoices(page, now))
  }

  /** What `list_invoices` answers on each of several pages. */
  function InvoicePages(pages: seq<seq<Payment>>, want: Option<InvoiceState>, now: u64): seq<seq<Invoice>> {
    if pages == [] then []
    else InvoicePages(pages[..|pages| - 1], want, now) + [InvoicesOn(pages[|pages| - 1], want, now)]
  }

  lemma {:induction false} InvoicePagesFlatten(pages: seq<seq<Payment>>, want: Option<InvoiceState>, now: u64)
    ensures Flatten(InvoicePages(pages, want, now)) == Filter(StateIs(want), Invoices(Flatten(pages), now))
  {
    if pages == [] {
    } else {
      var init, last := pages[..|pages| - 1], pages[|pages| - 1];
      InvoicePagesFlatten(init, want, now);
      FlattenAppend(InvoicePages(init, want, now), InvoicesOn(last, want, now));
      InvoicesConcat(Flatten(init), last, now);
      FilterConcat(StateIs(want), Invoices(Flatten(init), now), Invoices(last, now));
    }
  }

  lemma InvoicesConcat(a: seq<Payment>, b: seq<Payment>, now: u64)
    ensures Invoices(a + b, now) == Invoices(a, now) + Invoices(b, now)
  {
  }

  /**
   Pages of a filtered invoice list may be short, but page after page they are
   the whole list's invoices in that state, without loss or repeat.
   */
  lemma InvoicePagesConcatenate(
      store: seq<Payment>, q: Query, want: Option<InvoiceState>, now: u64, size: u64, count: nat)
    requires Offset(count, size) < TWO_64 && |Unpaged(q, store)| <= Offset(count, size)
    ensures Flatten(InvoicePages(ListedPages(q, store, size, count), want, now))
         == Filter(StateIs(want), Invoices(Unpaged(q, store), now))
  {
    InvoicePagesFlatten(ListedPages(q, store, size, count), want, now);
    PagesConcatenate(q, store, size, count);
  }

  /** Behind the invoices of a window is every incoming payment in it, whatever its status, and no other. */
  lemma InvoicesAreIncoming(store: seq<Payment>, from: Option<u64>, until: Option<u64>, p: Payment)
    ensures multiset(Unpaged(InvoiceQuery(from, until, None, None), store))[p]
         == if p.direction == Inbound && (from.Some? ==> from.value <= p.updatedAt)
               && (until.Some? ==> p.updatedAt <= until.value)
            then multiset(store)[p] else 0
  {
    UnpagedIsExact(InvoiceQuery(from, until, None, None), store);
  }

  /** `list_invoices`: incoming payments of all states, each as an invoice, and of those the state asked for. */
  method ListInvoices(store: seq<Payment>, from: Option<u64>, until: Option<u64>, limit: Option<u64>,
                      offset: Option<u64>, want: Option<InvoiceState>, now: u64)
      returns (invoices: seq<Invoice>)
    ensures invoices ==
      InvoicesOn(Listing(Query(from, until, limit, offset, Some(true), Some(Inbound), None), store), want, now)
  {
    var page := ListPaymentsFiltered(store, InvoiceQuery(from, until, limit, offset));
    invoices := InvoicesOn(page, want, now);
  }

  /** Of a page's invoices the answer keeps those in the state asked for, as often as they occur. */
  lemma InvoicesInState(page: seq<Payment>, want: Option<InvoiceState>, now: u64, i: Invoice)
    ensures multiset(InvoicesOn(page, want, now))[i]
         == if want.None? || want == Some(i.state) then multiset(Invoices(page, now))[i] else 0
  {
    FilterCounts(StateIs(want), Invoices(page, now), i);
  }

  /** What an invoice record can say: settled exactly if the payment succeeded, never expired. */
  lemma InvoiceStates(store: seq<Payment>, q: Query, want: Option<InvoiceState>, now: u64, k: nat)
    requires k < |Listing(q, store)|
    ensures var p, i := Listing(q, store)[k], Invoices(Listing(q, store), now)[k];
      && i.state != InvoiceExpired && i.createdAt == p.updatedAt && i.expiresAt == 0
      && (i.state == InvoiceSettled <==> p.status == Succeeded)
      && i.amount == (if p.amountMsat.Some? then p.amountMsat.value else 0)
      && i.settledAt == (if p.status == Succeeded then Some(p.updatedAt) else None)
      && i.preimage == (if p.status == Succeeded && !p.kind.Onchain? then p.kind.preimage else None)
  {
  }
}
