/** The append-only log of forwarded payments and the pages read from it. */
module ForwardingStore {
  import opened Numbers
  import opened Options
  import opened Paging

  datatype ForwardingEntry = ForwardingEntry(
    incomingChannel: string, outgoingChannel: string,
    incomingAmount: u64, outgoingAmount: u64, feeEarned: u64, settledAt: u64)

  predicate InWindow(from: Option<u64>, until: Option<u64>, e: ForwardingEntry) {
    && (from.Some? ==> from.value <= e.settledAt)
    && (until.Some? ==> e.settledAt <= until.value)
  }

  function Windowed(log: seq<ForwardingEntry>, from: Option<u64>, until: Option<u64>): seq<ForwardingEntry> {
    Filter((e: ForwardingEntry) => InWindow(from, until, e), log)
  }

  function History(log: seq<ForwardingEntry>, from: Option<u64>, until: Option<u64>, limit: nat, offset: nat)
    : seq<ForwardingEntry>
  {
    Page(Windowed(log, from, until), offset, limit)
  }

  class Store {
    var entries: seq<ForwardingEntry>

    constructor ()
      ensures entries == []
    {
      entries := [];
    }

    method RecordForward(entry: ForwardingEntry)
      modifies this
      ensures entries == old(entries) + [entry]
    {
      entries := entries + [entry];
    }

    method GetHistory(from: Option<u64>, until: Option<u64>, limit: nat, offset: nat)
        returns (page: seq<ForwardingEntry>)
      ensures page == History(entries, from, until, limit, offset)
      ensures forall i :: 0 <= i < |page| ==> page[i] in entries
      ensures from.Some? ==> forall i :: 0 <= i < |page| ==> from.value <= page[i].settledAt
      ensures until.Some? ==> forall i :: 0 <= i < |page| ==> page[i].settledAt <= until.value
    {
      var kept: seq<ForwardingEntry> := [];
      for i := 0 to |entries|
        invariant kept == Windowed(entries[..i], from, until)
      {
        var e := entries[i];
        assert entries[..i + 1][..i] == entries[..i];
        if from.Some? && e.settledAt < from.value { continue; }
        if until.Some? && e.settledAt > until.value { continue; }
        kept := kept + [e];
      }
      assert entries[..|entries|] == entries;
      page := Take(Skip(kept, offset), limit);
      forall i | 0 <= i < |page| ensures page[i] in entries && InWindow(from, until, page[i]) {
        HistoryIsWindowed(entries, from, until, limit, offset, i);
      }
    }

    method Clear()
      modifies this
      ensures entries == []
    {
      entries := [];
    }
  }

  lemma HistoryIsWindowed(log: seq<ForwardingEntry>, from: Option<u64>, until: Option<u64>, limit: nat, offset: nat,
                          i: nat)
    requires i < |History(log, from, until, limit, offset)|
    ensures var e := History(log, from, until, limit, offset)[i];
      e in log && InWindow(from, until, e)
  {
    var all := Windowed(log, from, until);
    PageIsSlice(all, offset, limit);
    assert all[offset + i] in multiset(all);
    FilterCounts((x: ForwardingEntry) => InWindow(from, until, x), log, all[offset + i]);
  }

  /** The whole history of a window holds each entry in it, bounds included, as often as recorded, and no other. */
  lemma HistoryIsExact(log: seq<ForwardingEntry>, from: Option<u64>, until: Option<u64>, e: ForwardingEntry)
    ensures multiset(Windowed(log, from, until))[e]
         == if (from.Some? ==> from.value <= e.settledAt) && (until.Some? ==> e.settledAt <= until.value)
            then multiset(log)[e] else 0
    ensures History(log, from, until, |log|, 0) == Windowed(log, from, until)
  {
    var keep := (x: ForwardingEntry) => InWindow(from, until, x);
    FilterCounts(keep, log, e);
    FilterShortens(keep, log);
  }

  /** Whatever is recorded later, a page only ever grows at its end. */
  lemma PagesAreStable(log: seq<ForwardingEntry>, later: seq<ForwardingEntry>, from: Option<u64>, until: Option<u64>,
                       limit: nat, offset: nat)
    ensures History(log, from, until, limit, offset) <= History(log + later, from, until, limit, offset)
  {
    FilterConcat((e: ForwardingEntry) => InWindow(from, until, e), log, later);
    PageGrows(Windowed(log, from, until), Windowed(log + later, from, until), offset, limit);
  }

  /** A full page never changes again. */
  lemma FullPagesAreFinal(log: seq<ForwardingEntry>, later: seq<ForwardingEntry>, from: Option<u64>,
                          until: Option<u64>, limit: nat, offset: nat)
    requires |History(log, from, until, limit, offset)| == limit
    ensures History(log + later, from, until, limit, offset) == History(log, from, until, limit, offset)
  {
    PagesAreStable(log, later, from, until, limit, offset);
  }

  function HistoryPages(log: seq<ForwardingEntry>, from: Option<u64>, until: Option<u64>, size: nat, count: nat)
    : seq<seq<ForwardingEntry>>
  {
    if count == 0 then []
    else HistoryPages(log, from, until, size, count - 1) + [History(log, from, until, size, Offset(count - 1, size))]
  }

  /** Pages of any size tile the entries in the window: each once, in the order recorded. */
  lemma HistoryTiles(
      log: seq<ForwardingEntry>, from: Option<u64>, until: Option<u64>, size: nat, count: nat)
    ensures |Windowed(log, from, until)| <= Offset(count, size) ==>
              Flatten(HistoryPages(log, from, until, size, count)) == Windowed(log, from, until)
  {
    HistoryPagesArePages(log, from, until, size, count);
    if |Windowed(log, from, until)| <= Offset(count, size) { PagesTile(Windowed(log, from, until), size, count); }
  }

  lemma {:induction false} HistoryPagesArePages(
      log: seq<ForwardingEntry>, from: Option<u64>, until: Option<u64>, size: nat, count: nat)
    ensures HistoryPages(log, from, until, size, count) == Pages(Windowed(log, from, until), size, count)
  {
    if count == 0 {
    } else {
      HistoryPagesArePages(log, from, until, size, count - 1);
    }
  }
}
