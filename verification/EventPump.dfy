/**
 The event pump: take the head of the node's event queue, handle it, then mark
 it handled, which may fail and leave it at the head. Events arrive at any time.
 */
module EventPump {
  import opened Numbers
  import opened Options
  import opened ForwardingStore

  datatype Event =
    | PaymentForwarded(prevChannel: string, nextChannel: string, feeEarned: Option<u64>, outbound: Option<u64>)
    | Other(tag: nat)

  /** One pass of the loop: the event it handled, the clock, and whether marking it succeeded. */
  datatype Handling = Handling(event: Event, now: u64, marked: bool)

  datatype Action = Arrive(event: Event) | Turn(now: u64, marked: bool)

  /** `arrived` and `handled` are the history of the run; the code keeps neither. */
  datatype State = State(
    queue: seq<Event>, log: seq<ForwardingEntry>, arrived: seq<Event>, handled: seq<Handling>)

  const INITIAL := State([], [], [], [])

  function EntryOf(e: Event, now: u64): (entry: ForwardingEntry)
    requires e.PaymentForwarded?
    ensures entry.feeEarned <= entry.incomingAmount && entry.outgoingAmount <= entry.incomingAmount
    ensures entry.outgoingAmount + entry.feeEarned < TWO_64 ==>
              entry.incomingAmount - entry.feeEarned == entry.outgoingAmount
    ensures entry.outgoingAmount + entry.feeEarned >= TWO_64 ==> entry.incomingAmount == MAX_U64
    ensures entry.feeEarned == if e.feeEarned.Some? then e.feeEarned.value else 0
    ensures entry.outgoingAmount == if e.outbound.Some? then e.outbound.value else 0
    ensures entry.incomingChannel == e.prevChannel && entry.outgoingChannel == e.nextChannel && entry.settledAt == now
  {
    var fee, outgoing := UnwrapOr(e.feeEarned, 0), UnwrapOr(e.outbound, 0);
    ForwardingEntry(e.prevChannel, e.nextChannel, SaturatingAdd(outgoing, fee), outgoing, fee, now)
  }

  /** What handling one event appends to the log. */
  function Logged(e: Event, now: u64): seq<ForwardingEntry> {
    if e.PaymentForwarded? then [EntryOf(e, now)] else []
  }

  function Step(s: State, a: Action): State {
    match a
    case Arrive(e) => s.(queue := s.queue + [e], arrived := s.arrived + [e])
    case Turn(now, marked) =>
      if s.queue == [] then s
      else
        var e := s.queue[0];
        s.(queue := if marked then s.queue[1..] else s.queue,
           log := s.log + Logged(e, now),
           handled := s.handled + [Handling(e, now, marked)])
  }

  function Run(actions: seq<Action>): State {
    if actions == [] then INITIAL else Step(Run(actions[..|actions| - 1]), actions[|actions| - 1])
  }

  // ---------- the loop ----------

  class Pump {
    var queue: seq<Event>
    const store: Store
    ghost var arrived: seq<Event>
    ghost var handled: seq<Handling>

    constructor (store: Store)
      requires store.entries == []
      ensures this.store == store && View() == INITIAL
    {
      queue := [];
      this.store := store;
      arrived, handled := [], [];
    }

    ghost function View(): State
      reads this, store
    {
      State(queue, store.entries, arrived, handled)
    }

    method Enqueue(e: Event)
      modifies this
      ensures View() == Step(old(View()), Arrive(e))
      ensures queue == old(queue) + [e] && store.entries == old(store.entries)
    {
      queue := queue + [e];
      arrived := arrived + [e];
    }

    method Handle(e: Event, now: u64)
      modifies store
      ensures store.entries == old(store.entries) + Logged(e, now)
      ensures e.Other? ==> store.entries == old(store.entries)
      ensures e.PaymentForwarded? ==> |store.entries| == |old(store.entries)| + 1
    {
      match e {
        case PaymentForwarded(prev, next, feeEarned, outbound) =>
          var fee, outgoing := UnwrapOr(feeEarned, 0), UnwrapOr(outbound, 0);
          store.RecordForward(ForwardingEntry(prev, next, SaturatingAdd(outgoing, fee), outgoing, fee, now));
        case Other(_) =>
      }
    }

    /** One pass of the loop, if an event is waiting. */
    method Pass(now: u64, marked: bool)
      modifies this, store
      ensures View() == Step(old(View()), Turn(now, marked))
      ensures old(queue) == [] ==> View() == old(View())
      ensures old(queue) != [] ==> handled == old(handled) + [Handling(old(queue[0]), now, marked)]
                                   && queue == (if marked then old(queue[1..]) else old(queue))
    {
      if queue == [] { return; }
      var e := queue[0];
      Handle(e, now);
      handled := handled + [Handling(e, now, marked)];
      if marked { queue := queue[1..]; }
    }

    method Drive(actions: seq<Action>)
      requires View() == INITIAL
      modifies this, store
      ensures View() == Run(actions)
    {
      for i := 0 to |actions|
        invariant View() == Run(actions[..i])
      {
        assert actions[..i + 1][..i] == actions[..i];
        match actions[i] {
          case Arrive(e) => Enqueue(e);
          case Turn(now, marked) => Pass(now, marked);
        }
      }
      assert actions[..|actions|] == actions;
    }
  }

  // ---------- what every run keeps ----------

  /** The events marked handled, in the order they were. */
  function Acknowledged(hs: seq<Handling>): seq<Event> {
    if hs == [] then []
    else Acknowledged(hs[..|hs| - 1]) + (if hs[|hs| - 1].marked then [hs[|hs| - 1].event] else [])
  }

  /** What a list of handlings appends to the log. */
  function Image(hs: seq<Handling>): seq<ForwardingEntry> {
    if hs == [] then [] else Image(hs[..|hs| - 1]) + Logged(hs[|hs| - 1].event, hs[|hs| - 1].now)
  }

  /** The handling at `i` is of the first event not acknowledged before it. */
  ghost predicate InTurn(s: State, i: nat)
    requires i < |s.handled|
  {
    var k := |Acknowledged(s.handled[..i])|;
    k < |s.arrived| && s.handled[i].event == s.arrived[k]
  }

  ghost predicate Inv(s: State) {
    && s.arrived == Acknowledged(s.handled) + s.queue
    && s.log == Image(s.handled)
    && forall i :: 0 <= i < |s.handled| ==> InTurn(s, i)
  }

  lemma StepInv(s: State, a: Action)
    requires Inv(s)
    ensures Inv(Step(s, a))
  {
    StepLists(s, a);
    var t := Step(s, a);
    forall i | 0 <= i < |t.handled| ensures InTurn(t, i) { StepTurn(s, a, i); }
  }

  lemma StepLists(s: State, a: Action)
    requires s.arrived == Acknowledged(s.handled) + s.queue && s.log == Image(s.handled)
    ensures var t := Step(s, a); t.arrived == Acknowledged(t.handled) + t.queue && t.log == Image(t.handled)
  {
    if a.Turn? && s.queue != [] {
      assert Step(s, a).handled[..|s.handled|] == s.handled;
      assert s.queue == [s.queue[0]] + s.queue[1..];
    }
  }

  lemma StepTurn(s: State, a: Action, i: nat)
    requires s.arrived == Acknowledged(s.handled) + s.queue && i < |Step(s, a).handled|
    requires i < |s.handled| ==> InTurn(s, i)
    ensures InTurn(Step(s, a), i)
  {
    assert Step(s, a).handled[..i] == s.handled[..i];
    if i == |s.handled| { assert s.handled[..i] == s.handled; }
  }

  /**
   In every run the acknowledged events followed by the queue are exactly what
   arrived, in order; each pass handles the first event not yet acknowledged;
   and the log is the image of the passes.
   */
  lemma {:induction false} RunInv(actions: seq<Action>)
    ensures Inv(Run(actions))
  {
    if actions == [] {
    } else {
      RunInv(actions[..|actions| - 1]);
      StepInv(Run(actions[..|actions| - 1]), actions[|actions| - 1]);
    }
  }

  /** The events among the actions, in order. */
  function Arrivals(actions: seq<Action>): seq<Event> {
    if actions == [] then []
    else Arrivals(actions[..|actions| - 1])
         + (if actions[|actions| - 1].Arrive? then [actions[|actions| - 1].event] else [])
  }

  /** Nothing that arrives is dropped, and nothing else is in the queue or handled. */
  lemma {:induction false} AllArrive(actions: seq<Action>)
    ensures Run(actions).arrived == Arrivals(actions)
  {
    if actions == [] {
    } else {
      AllArrive(actions[..|actions| - 1]);
    }
  }

  /** A pass with an event waiting handles it, however often it was handled before. */
  lemma PassesHandle(actions: seq<Action>, now: u64, marked: bool)
    ensures var s, t := Run(actions), Run(actions + [Turn(now, marked)]);
      && (s.queue == [] ==> t == s)
      && (s.queue != [] ==> t.handled == s.handled + [Handling(s.queue[0], now, marked)]
                            && t.queue == if marked then s.queue[1..] else s.queue)
  {
    assert (actions + [Turn(now, marked)])[..|actions|] == actions;
  }

  /** A pass handles an event again exactly when the pass before it could not mark it. */
  lemma RepeatsOnlyAfterFailure(actions: seq<Action>, i: nat)
    requires i + 1 < |Run(actions).handled|
    ensures var s := Run(actions);
      var k := |Acknowledged(s.handled[..i])|;
      && k < |s.arrived| && s.handled[i].event == s.arrived[k]
      && (if s.handled[i].marked then k + 1 < |s.arrived| && s.handled[i + 1].event == s.arrived[k + 1]
          else s.handled[i + 1].event == s.arrived[k])
  {
    RunInv(actions);
    var s := Run(actions);
    assert InTurn(s, i) && InTurn(s, i + 1);
    assert s.handled[..i + 1][..i] == s.handled[..i];
  }

  /** The passes that marked their event. */
  function MarkedOnly(hs: seq<Handling>): seq<Handling> {
    if hs == [] then []
    else MarkedOnly(hs[..|hs| - 1]) + (if hs[|hs| - 1].marked then [hs[|hs| - 1]] else [])
  }

  /** A pass that logged a forward and then could not mark the event. */
  predicate FailedForward(h: Handling) { h.event.PaymentForwarded? && !h.marked }

  lemma SameTail<T>(a: seq<T>, b: seq<T>, c: seq<T>)
    ensures a + c == b + c <==> a == b
  {
    if a + c == b + c {
      assert |a| == |b|;
      assert a == (a + c)[..|a|] && b == (b + c)[..|b|];
    }
  }

  lemma {:induction false} MarkedImage(hs: seq<Handling>)
    ensures |Image(MarkedOnly(hs))| <= |Image(hs)|
    ensures Image(MarkedOnly(hs)) == Image(hs) <==> forall h :: h in hs ==> !FailedForward(h)
    ensures |Image(MarkedOnly(hs))| == |Image(hs)| ==> forall h :: h in hs ==> !FailedForward(h)
  {
    if hs == [] {
    } else {
      var init, last := hs[..|hs| - 1], hs[|hs| - 1];
      MarkedImage(init);
      var m := MarkedOnly(init);
      assert forall h :: h in hs <==> h in init || h == last;
      if last.marked {
        assert (m + [last])[..|m|] == m;
        assert Image(MarkedOnly(hs)) == Image(m) + Logged(last.event, last.now);
        SameTail(Image(m), Image(init), Logged(last.event, last.now));
      } else {
        assert MarkedOnly(hs) == m;
        if !FailedForward(last) { assert Image(init) + [] == Image(init); }
      }
    }
  }

  /**
   The log is the image of the acknowledged passes, one entry for each forward
   acknowledged and nothing else, exactly when marking never failed on a forward.
   */
  lemma LogIsExactIff(actions: seq<Action>)
    ensures var s := Run(actions);
      s.log == Image(MarkedOnly(s.handled)) <==> forall h :: h in s.handled ==> !FailedForward(h)
  {
    RunInv(actions);
    MarkedImage(Run(actions).handled);
  }

  /** Any forward that could not be marked at first is logged twice, though acknowledged once. */
  lemma ForwardLoggedTwice(e: Event, now: u64, later: u64)
    requires e.PaymentForwarded?
    ensures var s := Run([Arrive(e), Turn(now, false), Turn(later, true)]);
      s.log == [EntryOf(e, now), EntryOf(e, later)] && Acknowledged(s.handled) == [e] && s.queue == []
  {
    var a, b, c := Arrive(e), Turn(now, false), Turn(later, true);
    assert [a, b, c][..2] == [a, b] && [a, b][..1] == [a] && [a][..0] == [];
    assert Run([a]) == State([e], [], [e], []);
    assert Run([a, b]) == State([e], [EntryOf(e, now)], [e], [Handling(e, now, false)]);
    RunInv([a, b, c]);
  }

  function EventsOf(hs: seq<Handling>): seq<Event> {
    seq(|hs|, i requires 0 <= i < |hs| => hs[i].event)
  }

  lemma {:induction false} AllMarked(hs: seq<Handling>)
    requires forall h :: h in hs ==> h.marked
    ensures Acknowledged(hs) == EventsOf(hs)
  {
    if hs == [] {
    } else {
      AllMarked(hs[..|hs| - 1]);
      assert EventsOf(hs) == EventsOf(hs[..|hs| - 1]) + [hs[|hs| - 1].event];
    }
  }

  /** The acknowledged events are those of the passes that could mark them. */
  lemma {:induction false} AcknowledgedAreMarked(hs: seq<Handling>)
    ensures Acknowledged(hs) == EventsOf(MarkedOnly(hs))
  {
    if hs == [] {
    } else {
      AcknowledgedAreMarked(hs[..|hs| - 1]);
      var m := MarkedOnly(hs[..|hs| - 1]);
      assert EventsOf(m + [hs[|hs| - 1]]) == EventsOf(m) + [hs[|hs| - 1].event];
    }
  }

  /** Without failures the handled events are the arrivals in order, without gaps or repeats. */
  lemma {:induction false} NoFailuresNoRepeats(actions: seq<Action>)
    requires forall h :: h in Run(actions).handled ==> h.marked
    ensures EventsOf(Run(actions).handled) + Run(actions).queue == Run(actions).arrived
  {
    RunInv(actions);
    AllMarked(Run(actions).handled);
  }
}
