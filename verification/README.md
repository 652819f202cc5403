# Verification of the node's route finder, payment views and stores

This project models the parts of the Lightning node that decide something: the
route finder, the payment listing, the wait for a payment's outcome, the event
pump, the stores, the short-channel-id and hexadecimal codecs, the BIP 321
`receive`/`pay` pair, and the balance and graph totals. Every statement is for
all graphs, stores, traces and runs.

`dafny verify dfyconfig.toml` checks the whole project.

## How the model is built

- **Route finder.** `RouteSearch` gives the search as a state machine over
  (heap, settled nodes, routes, dropped entries). `RouteFinder.FindRoutes` is
  the imperative code, with its adjacency lists, heap, visited set and result
  vector, and returns exactly what the machine does. The invariants of every
  step are in `RouteInvariants`; what they mean is in `RouteSoundness`,
  `RouteOptimality`, `RouteTree`, `RouteExactness`, `RouteTopology`,
  `RouteBlocking` and `RouteIndependence`. `RouteAnswer` and `RouteQuote` restate
  the main results about the answer as returned: text, totals and paths.
  The binary heap is a multiset that yields its least entry in the order the
  code gives it: cost, then node, then path.
- **What the hop cap costs.** The source calls the search Dijkstra's. The test
  for more than six hops runs before a node is marked visited, so a cheap long
  way to a node can shadow a short dear one: in an eight-node graph a
  destination two hops away is never found (`RouteShadow.TwoHopRouteIsMissed`).
  What comes back in spite of that is a tree of ways, grown greedily to at most
  six hops, and the cheapest edges from its nodes within five hops into the
  destination (`RouteTree.SomeTreeAnswers`). Such a tree is defined by the
  graph alone, and no graph has two of them unless a way that ends in a free hop
  costs just what another way to the same node does (`RouteTree.TreesAgree`). Three questions are then decided
  both for one query at its fees and for every fee the channels could charge:
  - *Is a route found?* At its fees, unless the capped tree has no edge into the
    destination from within five hops (`RouteTree.EmptyIffBlocked`); for all
    fees, unless a tree of trails can shut the finder out
    (`RouteBlocking.FoundForAllFeesIff`).
  - *Is the first one a cheapest walk?* At its fees, exactly when every simple
    walk of more than six hops to the destination is dearer than some other walk
    there (`RouteOptimality.OptimalIff`), short and long cheapest walks apart
    that tie; then it may be or not (`RouteShadow.TieIsFound`,
    `RouteShadow.TieIsMissed`), and the tree decides
    (`RouteTree.OptimalIffGates`). For all fees, exactly when no simple path to
    the destination has more than six hops (`RouteTopology.OptimalForAllFeesIff`);
    a graph of seven nodes always qualifies.
  - *Are all of them the cheapest candidates?* At its fees, up to any fee for
    which the edges into the destination leave a cheapest way to them within five
    hops (`RouteExactness.ExactUpToIff`, ties apart); for all fees, on the same
    condition as the first route (`RouteExactness.ExactForAllFeesIff`).
- **Integers** have the source's widths. Unchecked sums and products wrap, as in
  a release build; `Wrap64` marks each. In the route finder only the product
  `amount * rate` can wrap, and the fee is that of BOLT #7, section "HTLC Fees",
  exactly when it does not. With overflow checks compiled in, the same inputs
  abort instead.
- **Library contracts.** A hash map is a finite map searched in any order; the
  vector sort is any stable sort (there is only one result). The event queue
  keeps its head until it is marked handled. A BIP 321 URI is the value that
  survives printing and parsing.
- **Clocks, randomness and the network** are parameters: traces of polls and
  times, replies of the node, arrivals of events.

Where code and comments differ the code is followed. `set_address` keeps only
the last address while every generated one stays registered. An incoming payment
that failed is listed as a pending invoice, and no invoice is ever listed as
expired, because the record it is made from carries no expiry.

## Model

| member | source | states |
|---|---|---|
| RouteGraph.EdgesAreDirections | src/lightning/ldk_service.rs:1185-1213 | the fee graph holds exactly the channel directions whose htlc bounds admit the amount; `enabled` and capacity play no part |
| RouteGraph.EdgesAreCounted | src/lightning/ldk_service.rs:1185-1213 | each admitted direction is an edge as often as its channel is listed, counting both directions of a channel that joins a node to itself |
| RouteSearch.FeeIsExactIff | src/lightning/ldk_service.rs:1257-1258 | the hop fee is base + amount * rate / 10^6 if and only if the product fits in 64 bits |
| RouteSearch.FeeWraps | src/lightning/ldk_service.rs:1257-1258 | a channel that admits 2^60 millisatoshis at 16 millionths, fewer than all bitcoin, and is priced at nothing |
| RouteSearch.LeqAntisymmetric | src/lightning/ldk_service.rs:1217 | the heap's order tells any two different entries apart |
| RouteOrder.LeqIsTupleOrder | src/lightning/ldk_service.rs:1217-1218 | entries compare as nested tuples: by cost, then the bytes of the node, then hop by hop node, channel, fee and expiry |
| RouteSearch.LeastIsUnique | src/lightning/ldk_service.rs:1224 | a pop has only one possible outcome |
| RouteSearch.WorkBound | src/lightning/ldk_service.rs:1224-1264 | the search ends, after at most one pop more than there are admitted edges |
| RouteSearch.FewerRoutesIsAPrefix | src/lightning/ldk_service.rs:1225-1227 | asking for k routes returns at most k, and the beginning of what asking for more returns |
| RouteInvariants.StepInv | src/lightning/ldk_service.rs:1224-1264 | one pop keeps all entries simple walks at their exact fee, the pops in fee order, every edge out of an expanded node accounted for, and every candidate route counted once |
| RouteInvariants.RunStatesInv | src/lightning/ldk_service.rs:1222-1264 | that invariant holds in every state of every run |
| RouteSoundness.RoutesAreSound | src/lightning/ldk_service.rs:1231-1248 | every route is a simple walk of one to six admitted hops to the destination at the sum of its fees; routes come in fee order and at most as many as asked for |
| RouteSoundness.ExpansionsAreSound | src/lightning/ldk_service.rs:1249-1251 | what a node is expanded from is a simple walk of at most six hops at its exact fee, and the destination is never expanded |
| RouteSoundness.ExpandedOnce | src/lightning/ldk_service.rs:1249-1251 | along any run a node once expanded stays so, with the entry it was expanded from: no later pop expands it again |
| RouteSoundness.RouteSumsAreExact | src/lightning/ldk_service.rs:1241-1244 | a route's fee and time lock are the exact sums, far below their widths |
| RouteSoundness.PendingSumsAreExact | src/lightning/ldk_service.rs:1259-1261 | no pending entry in any run has more than seven hops or a wrapped cost |
| RouteSoundness.RoutesAreDistinct | src/lightning/ldk_service.rs:1231-1248 | no path is returned twice unless two edges into the destination share source and channel |
| RouteSoundness.ListedOnceIsParallelFree | src/lightning/ldk_service.rs:1185-1213 | listing each channel once rules such edges out |
| RouteOptimality.Follow | src/lightning/ldk_service.rs:1224-1264 | along any walk, a run settles the end in time, still has a cheap enough entry pending, has found a route, or has dropped the start of a simple walk of more than six hops that is no dearer itself |
| RouteOptimality.FirstRouteOrLongWalk | src/lightning/ldk_service.rs:1224-1264 | no walk to the destination is cheaper than the first route, unless something was dropped and a simple path of more than six hops costs no more than that walk |
| RouteOptimality.DirectIsNoDearer | src/lightning/ldk_service.rs:1224-1264 | in any graph whatever, the first route is no dearer than a channel straight to the destination |
| RouteOptimality.FirstRouteIsOptimal | src/lightning/ldk_service.rs:1215-1264 | without a drop, or where each simple path of more than six hops is dearer than some other walk, the first of any number of routes is a cheapest walk |
| RouteOptimality.OptimalMeansShort | src/lightning/ldk_service.rs:1228-1234 | where the first route is optimal some cheapest walk is simple and has at most six hops |
| RouteOptimality.OptimalIff | src/lightning/ldk_service.rs:1215-1264 | for one query at its fees: unless short and long walks tie, the first route is optimal if and only if every simple path of more than six hops is dearer than some other walk |
| RouteOptimality.DearerThanCheapest | src/lightning/ldk_service.rs:1228-1230 | that condition read off any one cheapest walk: no simple path of more than six hops costs as little as it |
| RouteTree.SomeTreeAnswers | src/lightning/ldk_service.rs:1222-1266 | in any graph one capped tree gives the answers to requests of every size: the cheapest of the candidates over its edges into the destination from within five hops |
| RouteTree.TreesAgree | src/lightning/ldk_service.rs:1217-1264 | where no way ending in a free hop ties with another, a graph has only one capped tree, so that the order of equally dear entries is settled by the graph |
| RouteTree.PaidHopsSuffice | src/lightning/ldk_service.rs:1217-1258 | no such tie exists where every hop costs something |
| RouteTree.EveryTreeAnswers | src/lightning/ldk_service.rs:1222-1266 | then any capped tree, however come by, gives all the answers |
| RouteTree.OptimalIffGates | src/lightning/ldk_service.rs:1222-1266 | for one query at its fees, short and long walks tied or not: the first route is optimal if and only if no walk is cheaper than all candidates of the capped tree |
| RouteTree.EmptyMeansBlocked | src/lightning/ldk_service.rs:1228-1251 | in any graph an empty answer means that a capped tree has no edge into the destination from within five hops |
| RouteTree.EmptyIffBlocked | src/lightning/ldk_service.rs:1228-1251 | for one query at its fees: the answer is empty if and only if the capped tree has no such edge |
| RouteTree.EmptyIffUnreachable | src/lightning/ldk_service.rs:1174-1266 | unless so blocked, or without a drop, or where longer simple paths are dearer, the answer is empty if and only if the destination is unreachable |
| RouteTopology.ShortTrailsSuffice | src/lightning/ldk_service.rs:1228-1230 | if no simple path to the destination has more than six hops there is no long walk to be dearer, and the first route is optimal |
| RouteTopology.LongTrailMisleads | src/lightning/ldk_service.rs:1228-1230 | any longer simple path admits fees for which it is not |
| RouteTopology.OptimalForAllFeesIff | src/lightning/ldk_service.rs:1215-1266 | optimal for every fee the channels could charge if and only if no simple path has more than six hops |
| RouteBlocking.FoundForAllFeesIff | src/lightning/ldk_service.rs:1222-1266 | a route is found for every fee the channels could charge if and only if no tree of trails of at most six hops keeps every edge from within five hops, and not the destination |
| RouteBlocking.BlockingTreeMisleads | src/lightning/ldk_service.rs:1228-1251 | any such tree admits fees for which nothing is found, however many routes are asked for |
| RouteTopology.SevenNodesSuffice | src/lightning/ldk_service.rs:1228-1230 | a graph of at most seven nodes has no such path |
| RouteQuote.QuoteDecides | src/wallet.rs:638-654 | a quote gets both reachability and the least fee right where every simple path of more than six channels is dearer than another; elsewhere, unless short and long paths tie, it gets one of them wrong. Reachability alone it misses only if the query is blocked, and exactly then where no free hops tie |
| RouteQuote.QuotePayment | src/wallet.rs:618-655 | the amount is the caller's, else the invoice's, and without either the call fails; a found quote has the fee and time lock of a simple path of one to six channels, no path being cheaper but for a hidden long one, and a missing one says zero |
| RouteShadow.TwoHopRouteIsMissed | src/lightning/ldk_service.rs:1228-1251 | a graph whose destination is two hops away and is never returned, whether the long way round is cheaper or costs the same |
| RouteShadow.TieIsMissed | src/lightning/ldk_service.rs:1217-1251 | a query in which short and long cheapest walks tie, and nothing is returned |
| RouteShadow.TieIsFound | src/lightning/ldk_service.rs:1217-1251 | one in which they tie, and the first route is optimal |
| RouteExactness.RoutesAreExact | src/lightning/ldk_service.rs:1222-1266 | the routes are, in order, the cheapest of the candidates "cheapest way to u, then one edge into the destination" over all nodes u reachable short of it, up to any fee for which each such u is roomy (all simple walks of six hops or more to it are dearer than another), or up to any fee where nothing was dropped |
| RouteExactness.ExactPerGate | src/lightning/ldk_service.rs:1222-1266 | so, decided gate by gate in the graph, are the answers to requests of every size |
| RouteExactness.ExactUpToIff | src/lightning/ldk_service.rs:1222-1266 | for one query at its fees: unless at some gate ways with a hop to spare and without one tie for the cheapest, answers of all sizes are exact up to a fee if and only if all gates within it are roomy |
| RouteExactness.ExactIff | src/lightning/ldk_service.rs:1222-1266 | the same without a bound on the fee |
| RouteExactness.RoomyBelowLongWalks | src/lightning/ldk_service.rs:1228-1230 | below the fee of every simple path of more than six hops all gates are roomy |
| RouteExactness.FullAnswerIsExact | src/lightning/ldk_service.rs:1222-1266 | where the destination can be reached over k edges for at most some fee, and the gates within it are roomy, the answer to a request for k is the cheapest candidates outright |
| RouteExactness.ExactWithoutLoss | src/lightning/ldk_service.rs:1222-1266 | where nothing was dropped, or all gates are roomy, the answer is the cheapest candidates outright, however many are asked for |
| RouteExactness.ExactOneIff | src/lightning/ldk_service.rs:1222-1266 | for one query at its fees: unless short and long walks tie, one route asked for is the cheapest candidate if and only if every long walk is dearer than some other |
| RouteExactness.ExactForAllFeesIff | src/lightning/ldk_service.rs:1222-1266 | that account is right for every fee and number of routes if and only if no simple path has more than six hops |
| RouteExactness.ExactMeansOptimal | src/lightning/ldk_service.rs:1222-1266 | the cheapest candidate is a cheapest walk |
| RouteIndependence.RoutesIgnoreOrder | src/lightning/ldk_service.rs:1178-1264 | the order in which the graph lists its channels never changes the answer, ties included |
| RouteIndependence.RunIgnoresOrder | src/lightning/ldk_service.rs:1222-1264 | graphs with the same edges, however often permuted, go through the same run from any state |
| RouteFinder.BuildAdjacency | src/lightning/ldk_service.rs:1181-1213 | each node's list is its admitted edges, in listing order |
| RouteFinder.Expand | src/lightning/ldk_service.rs:1252-1263 | one entry is pushed for each admitted edge from the node into an unvisited one |
| RouteFinder.Search | src/lightning/ldk_service.rs:1215-1266 | the loop ends where the state machine does, with the same routes |
| RouteFinder.FindRoutes | src/lightning/ldk_service.rs:1158-1267 | the whole call returns the state machine's routes as text, and nothing for a bad key or our own node; in the graph's own terms each route is a path with its exact totals, the first is compared with any path, and where long paths are dearer it is a cheapest one |
| RouteAnswer.AnswerIsShown | src/lightning/ldk_service.rs:1185-1248 | every answered route names, hop by hop and as text, the directions of a simple path of one to six channels from our node to the destination, each at its fee and expiry; its totals are the sums of those fees and expiries; routes come in fee order, at most as many as asked for |
| RouteAnswer.AnswerIsBest | src/lightning/ldk_service.rs:1215-1266 | no path of admitted directions is cheaper than the first answered route, unless a simple one of more than six channels costs no more than it |
| RouteAnswer.AnswerIsLeastIff | src/lightning/ldk_service.rs:1215-1266 | the one route asked for is a cheapest path where every simple path of more than six channels is dearer than another and, unless short and long paths tie, nowhere else |
| RouteAnswer.AnswerComesFromTree | src/lightning/ldk_service.rs:1222-1266 | as many routes are answered, at the same fees, as the cheapest edges from one capped tree into the destination give, for every number asked for |
| RouteAnswer.HopReadsBack | src/lightning/ldk_service.rs:1232-1240 | the text of a returned hop decodes to its node and channel id, beside its fee and delta |
| RouteAnswer.AnswersAreDistinct | src/lightning/ldk_service.rs:1231-1248 | with each channel listed once no two answered routes read the same |
| Scid.ParseUndoesFormat | src/lightning/ldk_service.rs:1270-1286 | parsing a printed id returns it, for every 64-bit id |
| Scid.FormatUndoesParseIff | src/lightning/ldk_service.rs:1270-1286 | a parsed text prints back unchanged if and only if its three decimals have no sign or leading zero and fit their fields |
| Scid.LeadingZeroIsLost | src/lightning/ldk_service.rs:1270-1286 | a text that parses and prints back without its leading zero |
| Scid.PackKeepsOrder | src/lightning/ldk_service.rs:1285 | ids are ordered as block, transaction and output are |
| Scid.FormatInjective | src/lightning/ldk_service.rs:1270-1275 | different ids print differently |
| Scid.FormatPacked | src/lightning/ldk_service.rs:1270-1275 | block, transaction and output are printed in this order from their 24, 24 and 16 bits |
| Scid.ParseReads | src/lightning/ldk_service.rs:1277-1286 | three decimals of 64 bits parse to the bitwise or of the first shifted by 40, the second by 16, and the third |
| Scid.OthersDoNotParse | src/lightning/ldk_service.rs:1277-1284 | only three parts that each parse do |
| Decimal.ReprintsIff | src/lightning/ldk_service.rs:1282-1284 | digits are what their value prints as if and only if they have no leading zero |
| Decimal.ParseReads | src/lightning/ldk_service.rs:1282-1284 | the value of digits, read if it fits in 64 bits, a '+' before them ignored |
| Decimal.OthersDoNotParse | src/lightning/ldk_service.rs:1282-1284 | nothing else is read |
| Hex.HexString | src/lightning/ldk_service.rs:1323-1330 | the loop writes the two digits of each byte in order |
| Hex.EncodeReads | src/lightning/ldk_service.rs:1323-1330 | byte i is written as its two lower-case digits, the high one first |
| Hex.DigitsRead | src/lightning/ldk_service.rs:1323-1340 | the digits and their values, upper case read alike |
| Hex.DecodeUndoesEncode | src/lightning/ldk_service.rs:1323-1340 | decoding undoes encoding for every byte string |
| Hex.EncodeUndoesDecodeIff | src/lightning/ldk_service.rs:1323-1340 | encoding a decoded text gives its lower case if and only if it has no '+' |
| Hex.PlusIsLost | src/lightning/ldk_service.rs:1323-1340 | a text with a '+' that decodes to a byte printed as two digits |
| Hex.DecodesIff | src/lightning/ldk_service.rs:1332-1340 | which texts decode, pair by pair |
| Hex.Decode32Iff | src/wallet.rs:860-868 | the strict variant accepts exactly what the other decodes to 32 bytes, with the same bytes |
| PaymentListing.Keep | src/lightning/ldk_service.rs:984-1017 | a payment is kept exactly when each filter supplied admits it, kind by kind, and, unless unpaid ones are asked for, it has succeeded or failed |
| PaymentListing.StableSortIsUnique | src/lightning/ldk_service.rs:1021 | two stable newest-first sorts of one list are equal |
| PaymentListing.ListPaymentsFiltered | src/lightning/ldk_service.rs:970-1035 | the call returns the requested slice of the stable sort of the passing payments |
| PaymentListing.ListedExactly | src/lightning/ldk_service.rs:984-1017 | without offset and limit each stored payment that the filters admit is listed as often as it is stored, and no other |
| PaymentListing.ListingIsSlice | src/lightning/ldk_service.rs:1021-1034 | any page is the slice of that list from its offset on, as long as its limit and the list allow, newest first |
| PaymentListing.UnpagedIsExact | src/lightning/ldk_service.rs:980-1021 | the sorted list holds each passing payment as often as the store, and no other, with ties in store order |
| PaymentListing.PagesConcatenate | src/lightning/ldk_service.rs:1023-1034 | pages at offsets 0, L, 2L, ... concatenate to the unpaged list, no payment lost or repeated |
| PaymentListing.InvoicePagesConcatenate | src/wallet.rs:477-509 | although filtered after paging, the pages of an invoice list together are the whole list's invoices in the wanted state |
| PaymentListing.InvoicesAreIncoming | src/wallet.rs:475-485 | behind the invoices of a window are exactly its incoming payments, whatever their status |
| PaymentListing.ListInvoices | src/wallet.rs:467-511 | the call lists incoming payments of every state with the window, limit and offset given, and filters their invoices by state |
| PaymentListing.InvoicesInState | src/wallet.rs:509 | of a page's invoices those in the state asked for are kept, as often as they occur |
| PaymentListing.InvoiceStates | src/wallet.rs:50-77 | an invoice is settled exactly if its payment succeeded, and then shows its preimage and time; it has its payment's amount, or zero, and is never expired |
| PaymentListing.TransactionReads | src/wallet.rs:51-80 | a transaction repeats its payment: direction, state, time, preimage, and amount and fees or zero; settled only if succeeded |
| PaymentWait.TimeoutReads | src/lightning/ldk_service.rs:1106-1110 | the setting counts in seconds, and an absent or unreadable one means ten minutes |
| PaymentWait.WaitForOutboundPayment | src/lightning/ldk_service.rs:1099-1156 | between one and timeout / 100 ms + 2 polls are made; the first outbound record with the id in the last poll decides: failed, succeeded with a preimage, succeeded without one, or, pending or absent there and before, a timeout |
| PaymentWait.VerdictReads | src/lightning/ldk_service.rs:1117-1144 | what one poll decides, by the status and preimage of the first outbound record with the id |
| PaymentWait.ResultIsUnique | src/lightning/ldk_service.rs:1110-1155 | what the polls see and when fixes the answer and the number of polls |
| PaymentWait.PaidMeansPreimage | src/lightning/ldk_service.rs:1120-1141 | success is answered only for a succeeded outbound record, and the text decodes to its preimage |
| PaymentWait.TimesOutIff | src/lightning/ldk_service.rs:1146-1154 | a timeout is answered if and only if in every poll made in time the first outbound record with the id, if any, was pending |
| ForwardingStore.Store.RecordForward | src/state/forwarding_store.rs:20-23 | the entry is appended and nothing else changes |
| ForwardingStore.Store.GetHistory | src/state/forwarding_store.rs:25-50 | the page is cut from the entries in the window, oldest first |
| ForwardingStore.HistoryIsExact | src/state/forwarding_store.rs:25-50 | the whole history of a window holds each entry between its bounds, these included, as often as recorded, and no other |
| ForwardingStore.PagesAreStable | src/state/forwarding_store.rs:20-50 | any page before some recordings is a prefix of it after them |
| ForwardingStore.FullPagesAreFinal | src/state/forwarding_store.rs:46-49 | a full page never changes |
| ForwardingStore.HistoryTiles | src/state/forwarding_store.rs:32-50 | pages of any size tile the window, each entry once and in order |
| EventPump.EntryOf | src/events.rs:157-174 | a logged forward has the event's fee and outgoing amount, or zero for an absent one; its incoming amount is their sum unless that saturates |
| EventPump.Pump.Handle | src/events.rs:157-177 | only a forwarded payment writes the log, one entry |
| EventPump.Pump.Pass | src/service.rs:53-61 | one pass of the loop is one step of the pump: it handles the head of the queue, which goes only if marking succeeds |
| EventPump.Pump.Drive | src/service.rs:52-62 | any interleaving of arrivals and passes is a run of the pump |
| EventPump.RunInv | src/service.rs:52-62 | in every run acknowledged events and queue together are what arrived, in order, and the log is the image of the passes |
| EventPump.AllArrive | src/service.rs:54 | nothing that arrives is dropped |
| EventPump.PassesHandle | src/service.rs:53-61 | every pass with an event waiting handles the first one |
| EventPump.RepeatsOnlyAfterFailure | src/service.rs:56-60 | an event is handled again exactly when the pass before could not mark it; otherwise the next is handled |
| EventPump.LogIsExactIff | src/events.rs:157-174 | the log has one entry for each acknowledged forward and no other if and only if marking never failed on a forward |
| EventPump.ForwardLoggedTwice | src/service.rs:53-61 | any forward that cannot be marked at first is logged twice and acknowledged once |
| EventPump.AcknowledgedAreMarked | src/service.rs:56-60 | what counts as acknowledged is exactly the events of the passes that marked theirs |
| EventPump.NoFailuresNoRepeats | src/service.rs:52-62 | without failures the handled events are the arrivals, without gaps or repeats |
| OfferStore.Store.InsertOffer | src/state/offer_store.rs:21-35 | inserting replaces the record by a fresh active one |
| OfferStore.Store.FindByOfferId | src/state/offer_store.rs:37-42 | some record with the id, and none only if there is none |
| OfferStore.Store.DisableOffer | src/state/offer_store.rs:54-62 | only the flag of a known offer changes; the answer tells whether it was known |
| OfferStore.Store.RecordPayment | src/state/offer_store.rs:64-71 | only the counters of a known offer change |
| OfferStore.Store.DisableById | src/wallet.rs:600-616 | which of the three answers is given, exactly when, and what it changed |
| OfferStore.StoreMatchesLog | src/state/offer_store.rs:21-71 | after any operations a record is active if and only if not disabled since its last insertion, and counts the payments since, modulo 2^64 |
| OfferStore.DisableByIdIff | src/wallet.rs:600-616 | whichever record is picked, none with the id stays active, if and only if no two offers share the id with one of them active |
| OfferStore.SharedIdStaysActive | src/wallet.rs:534-610 | two offers stored under the all-zero id of an unreadable text: disabling either leaves the other active |
| OfferStore.DisableByIdSuffices | src/wallet.rs:610-615 | where ids are not shared one call is enough after any operations, and a second changes nothing |
| AddressStore.Store.RegisterAddress | src/state/address_store.rs:23-29 | a new address is added without transactions; a known one is left as it is |
| AddressStore.Store.RecordTransaction | src/state/address_store.rs:42-51 | a known address gains the transaction; an unknown one gains nothing |
| AddressStore.StoreMatchesLog | src/state/address_store.rs:23-51 | after any operations an address holds exactly the transactions recorded since it was first registered, in order |
| ReceivePay.Receive | src/wallet.rs:719-803 | the URI lists exactly the invoices and offers issued for the wanted entries, in their order, and the last address that parses; each offer is stored fresh under the request's terms, each generated address registered, and nothing else changes; the call fails if and only if no instruction was issued |
| ReceivePay.AnswerServes | src/wallet.rs:738-803 | the same of the loop as a function |
| ReceivePay.WantedReads | src/wallet.rs:731-736 | without methods exactly bolt11, bolt12 and onchain are wanted, each without expiry or address type |
| ReceivePay.ReceivedIsBacked | src/wallet.rs:738-803 | success means an instruction is in the URI; its offers are active, its address is registered, its amount is the request's in whole satoshis |
| ReceivePay.ReceivedIsIssued | src/wallet.rs:738-796 | every instruction in the URI was issued by the node for a wanted entry of that method |
| ReceivePay.ReceiveSucceedsIff | src/wallet.rs:738-802 | it succeeds if and only if some wanted method can be served |
| ReceivePay.PayTakesReceived | src/wallet.rs:675-711 | `pay` never calls a received URI unsupported, pays its first invoice whenever it has one, and lacks an amount only for an address alone with none given on either side |
| ReceivePay.PayReads | src/wallet.rs:666-711 | which instruction `pay` takes from any URI, and the amount it carries: the caller's, else the URI's satoshis times 1000, and on-chain a thousandth of that |
| ReceivePay.PaySendsRequested | src/wallet.rs:666-803 | paying a received URI without an amount of one's own sends the request in whole satoshis, on whichever instruction |
| ReceivePay.AmountSurvivesIff | src/wallet.rs:666-721 | `pay` asks for the requested amount less its fraction of a satoshi without overflow, so for the same amount if and only if it was whole |
| NodeTotals.BalanceIsExact | src/lightning/ldk_service.rs:451-471 | the balance is given if and only if the total fits in millisatoshis; parts add up, division restores the satoshis, and each error names a sum that does not fit |
| NodeTotals.GetNetworkStats | src/lightning/ldk_service.rs:887-915 | the total is the sum, capped at 2^64 - 1, and the maximum is the largest capacity |
| NodeTotals.SumAdds | src/lightning/ldk_service.rs:893-901 | a channel adds its capacity if the lookup finds it and it has one, else nothing |
| NodeTotals.StatsAreConsistent | src/lightning/ldk_service.rs:896-908 | average <= maximum <= total, even when the total is capped |
| NodeTotals.StatsIgnoreOrder | src/lightning/ldk_service.rs:894-902 | the order of the channels does not matter |

## Left out

- LDK, the remote signer, `nostr-ln`, `bip321`, BOLT11 and BOLT12 encodings and Bitcoin itself: their sources are not part of this model; what they answer is a parameter.
- Binary heap, hash map and sort: taken by contract. `RouteFinder.PopLeast` takes the least entry of a multiset, so how a heap finds it is not modelled.
- RouteOptimality.OptimalIff: short and long cheapest walks that tie are left to RouteTree.OptimalIffGates.
- RouteTree.EmptyIffBlocked: where a way that ends in a free hop ties with another, several capped trees may exist and the order of pops among free hops picks one; RouteTree.SomeTreeAnswers and RouteTree.EmptyMeansBlocked hold there too, the converse is not claimed.
- RouteExactness.ExactUpToIff: where ways with and without a hop to spare tie at a gate, only RouteTree.SomeTreeAnswers is stated.
- ReceivePay.Receive: label and message of the URI, and the description checks of invoices, are part of the node's reply.
- EventPump.Pump.Handle: notifications, their delivery and the signer's channel hook; only the forwarding log is modelled.
- OfferStore.Store.RecordPayment: no code of the repository calls it, so in the running node the counters stay at zero; the statement is about the store.
- ReceivePay.Pay: the response record built after sending, with its hash and times, and the failure of the sending itself.
- PaymentWait.WaitForOutboundPayment: the clock is read in milliseconds.
- Hex.Decode: texts are ASCII; the source would stop on a multi-byte character cut in two.
- `list_transactions`: its `total_count` is the length of the page it returns, not of the list paged through.
- `clear` of the offer and address stores, locks and lock poisoning, and record types copied field by field in `src/control.rs`.
- Opening, closing and connecting of channels and peers, configuration and start-up: delegation and input/output only.
