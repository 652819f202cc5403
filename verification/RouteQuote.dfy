/** `quote_payment`: the first route of a query for one, or the answer that there is none. */
module RouteQuote {
  import opened Options
  import opened Numbers
  import opened RouteGraph
  import opened RouteTree
  import opened RouteTopology
  import opened RouteAnswer
  import opened RouteFinder

  /** What the invoice says; one that cannot be read is `None`. */
  datatype Invoice = Invoice(payee: NodeId, amount: Option<u64>)

  datatype Quote = Quote(amount: u64, feeMsat: u64, cltvExpiryDelta: u32, routeFound: bool)

  datatype QuoteError = UnreadableInvoice | NoAmount

  // ---------- what a quote has to be ----------

  function DeltaSum(es: seq<Edge>): nat { if es == [] then 0 else es[0].cltv + DeltaSum(es[1..]) }

  /** A simple path of one to six channels at the quoted fee and time lock. */
  ghost predicate IsQuoted(graph: Graph, source: NodeId, payee: NodeId, quote: Quote) {
    exists es :: IsSimplePath(graph, quote.amount, es, source, payee) && 1 <= |es| <= 6
                 && PathFee(quote.amount, es) == quote.feeMsat && DeltaSum(es) == quote.cltvExpiryDelta
  }

  /** The payee is quoted whenever it can be reached, and at the least fee. */
  ghost predicate IsRight(graph: Graph, source: NodeId, payee: NodeId, quote: Quote) {
    forall es :: IsPath(graph, quote.amount, es, source, payee) ==>
      quote.routeFound && quote.feeMsat <= PathFee(quote.amount, es)
  }

  /** No path is cheaper unless a simple one of more than six channels is cheap enough to hide it. */
  ghost predicate IsBestBut(graph: Graph, source: NodeId, payee: NodeId, quote: Quote) {
    forall es :: IsPath(graph, quote.amount, es, source, payee) ==>
      || (quote.routeFound && quote.feeMsat <= PathFee(quote.amount, es))
      || LongPathWithin(graph, source, payee, quote.amount, PathFee(quote.amount, es))
  }

  ghost predicate IsFairQuote(graph: Graph, source: NodeId, payee: NodeId, quote: Quote) {
    && (if quote.routeFound then IsQuoted(graph, source, payee, quote)
        else quote.feeMsat == 0 && quote.cltvExpiryDelta == 0)
    && (source == payee ==> !quote.routeFound)
    && (source != payee ==> IsBestBut(graph, source, payee, quote))
  }

  // ---------- the quote from the answer ----------

  function FromFirst(found: seq<FoundRoute>, amount: u64): Quote {
    if found == [] then Quote(amount, 0, 0, false)
    else Quote(amount, found[0].totalFee, found[0].totalTimeLock, true)
  }

  lemma {:induction false} DeltasShow(hops: seq<RouteHop>, amount: u64, es: seq<Edge>)
    requires ShowHops(hops, amount, es)
    ensures ExpirySum(hops) == DeltaSum(es)
  {
    if es == [] {
    } else {
      assert ShowsHop(hops[0], amount, es[0]);
      forall k | 0 <= k < |es| - 1 ensures ShowsHop(hops[1..][k], amount, es[1..][k]) {
        assert ShowsHop(hops[k + 1], amount, es[k + 1]);
      }
      DeltasShow(hops[1..], amount, es[1..]);
    }
  }

  /** Any answer that is shown and best makes a fair quote. */
  lemma FirstIsFair(graph: Graph, source: NodeId, payee: NodeId, amount: u64, found: seq<FoundRoute>)
    requires AreShown(graph, source, payee, amount, found) && (source == payee ==> found == [])
    requires source != payee ==> FirstIsBest(graph, source, payee, amount, found)
    ensures IsFairQuote(graph, source, payee, FromFirst(found, amount))
  {
    if found != [] {
      assert IsShown(graph, source, payee, amount, found[0]);
      var es :| IsSimplePath(graph, amount, es, source, payee) && 1 <= |es| <= 6 && Shows(found[0], amount, es);
      DeltasShow(found[0].hops, amount, es);
    }
    if source != payee {
      forall es | IsPath(graph, amount, es, source, payee)
        ensures (found != [] && found[0].totalFee <= PathFee(amount, es))
                || LongPathWithin(graph, source, payee, amount, PathFee(amount, es))
      {
        assert FirstCostsAtMost(found, PathFee(amount, es))
               || LongPathWithin(graph, source, payee, amount, PathFee(amount, es));
      }
    }
  }

  lemma RightMeansLeast(graph: Graph, source: NodeId, payee: NodeId, amount: u64, found: seq<FoundRoute>)
    ensures IsRight(graph, source, payee, FromFirst(found, amount)) <==>
            FirstIsLeast(graph, source, payee, amount, found)
  {
    if FirstIsLeast(graph, source, payee, amount, found) {
      forall es | IsPath(graph, amount, es, source, payee)
        ensures found != [] && found[0].totalFee <= PathFee(amount, es)
      {
        assert FirstCostsAtMost(found, PathFee(amount, es));
      }
    }
  }

  /**
   Where long paths are dearer a quote decides reachability and names the least
   fee; elsewhere it fails at one or the other, unless short and long paths tie.
   Reachability alone it decides unless the query is blocked.
   */
  lemma QuoteDecides(graph: Graph, source: NodeId, payee: NodeId, amount: u64)
    requires source != payee
    ensures var quote := FromFirst(Answer(graph, source, Some(payee), amount, 1), amount);
      var net := NetFor(AdmittedEdges(graph.scids, graph.channels, amount), amount, source, payee);
      && (LongPathsAreDearer(graph, source, payee, amount) ==> IsRight(graph, source, payee, quote))
      && (!PathsTie(graph, source, payee, amount) ==>
            (IsRight(graph, source, payee, quote) <==> LongPathsAreDearer(graph, source, payee, amount)))
      && (!quote.routeFound ==> IsBlocked(net))
      && (NoFreeTies(net) ==> (quote.routeFound <==> !IsBlocked(net)))
  {
    var net := NetOf(graph, source, payee, amount);
    var found := Answer(graph, source, Some(payee), amount, 1);
    AnswerIsLeastIff(graph, source, payee, amount);
    RightMeansLeast(graph, source, payee, amount, found);
    if found == [] { EmptyMeansBlocked(net, 1); }
    if NoFreeTies(net) { EmptyIffBlocked(net, 1); }
  }

  method QuotePayment(graph: Graph, source: NodeId, invoice: Option<Invoice>, amount: Option<u64>)
      returns (r: Result<Quote, QuoteError>)
    ensures invoice.None? ==> r == Err(UnreadableInvoice)
    ensures invoice.Some? && amount.None? && invoice.value.amount.None? ==> r == Err(NoAmount)
    ensures invoice.Some? && amount.None? && invoice.value.amount.Some? ==>
              r.Ok? && r.value.amount == invoice.value.amount.value
    ensures invoice.Some? && amount.Some? ==> r.Ok? && r.value.amount == amount.value
    ensures r.Ok? ==> IsFairQuote(graph, source, invoice.value.payee, r.value)
    ensures r.Ok? ==>
              r.value == FromFirst(Answer(graph, source, Some(invoice.value.payee), r.value.amount, 1), r.value.amount)
  {
    if invoice.None? { return Err(UnreadableInvoice); }
    var asked := if amount.Some? then amount else invoice.value.amount;
    if asked.None? { return Err(NoAmount); }
    var found := FindRoutes(graph, source, Some(invoice.value.payee), asked.value, 1);
    FirstIsFair(graph, source, invoice.value.payee, asked.value, found);
    if found == [] { return Ok(Quote(asked.value, 0, 0, false)); }
    r := Ok(Quote(asked.value, found[0].totalFee, found[0].totalTimeLock, true));
  }
}
