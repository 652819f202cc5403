/**
 `wait_for_outbound_payment` against any environment: what each poll sees and
 how much time has passed after it are traces the loop does not control.
 */
module PaymentWait {
  import opened Numbers
  import opened Options
  import opened PaymentListing
  import Decimal
  import Hex

  /** The answer, with the preimage as hexadecimal text. */
  datatype Outcome = Paid(preimage: string, feesPaid: Option<u64>) | PreimageMissing | MarkedFailed | TimedOut

  /** The poll's view of the payment: the first outbound record with its id. */
  function Find(payments: seq<Payment>, id: Hash32): Option<Payment> {
    if payments == [] then None
    else if payments[0].id == id && payments[0].direction == Outbound then Some(payments[0])
    else Find(payments[1..], id)
  }

  function PreimageOf(k: Kind): Option<Hash32> { if k.Onchain? then None else k.preimage }

  /** What one poll decides, if anything. */
  function Verdict(payments: seq<Payment>, id: Hash32): Option<Outcome> {
    var p := Find(payments, id);
    if p.None? || p.value.status == Pending then None
    else if p.value.status == Failed then Some(MarkedFailed)
    else if PreimageOf(p.value.kind).None? then Some(PreimageMissing)
    else Some(Paid(Hex.Encode(PreimageOf(p.value.kind).value), p.value.feePaidMsat))
  }

  /** The environment variable in seconds, or ten minutes. */
  function TimeoutMillis(setting: Option<string>): nat {
    var secs := if setting.Some? then Decimal.ParseU64(setting.value) else None;
    var wait: nat := UnwrapOr(secs, 600);
    1000 * wait
  }

  /** The setting is read as whole seconds; anything unreadable means ten minutes. */
  lemma TimeoutReads(setting: Option<string>, secs: u64)
    ensures TimeoutMillis(Some(Decimal.Text(secs))) == 1000 * secs
    ensures setting.None? || Decimal.ParseU64(setting.value).None? ==> TimeoutMillis(setting) == 600_000
  {
    Decimal.ParseUndoesText(secs);
  }

  /** The clock after each poll, at least 100 ms later than after the one before. */
  ghost predicate Sleeps(elapsed: nat -> nat) { forall k: nat :: elapsed(k) + 100 <= elapsed(k + 1) }

  /** Poll `k` is made: it is the first, or the one before left time and no verdict. */
  ghost predicate Polled(polls: nat -> seq<Payment>, elapsed: nat -> nat, id: Hash32, timeout: nat, k: nat) {
    k == 0 || (Verdict(polls(k - 1), id) == None && elapsed(k - 1) <= timeout
               && Polled(polls, elapsed, id, timeout, k - 1))
  }

  /** A verdict of the last poll made, or none and no time left. */
  ghost predicate IsResult(polls: nat -> seq<Payment>, elapsed: nat -> nat, id: Hash32, timeout: nat,
                           outcome: Outcome, made: nat)
  {
    && made >= 1 && Polled(polls, elapsed, id, timeout, made - 1)
    && match Verdict(polls(made - 1), id)
       case Some(o) => outcome == o
       case None => outcome == TimedOut && elapsed(made - 1) > timeout
  }

  lemma {:induction false} ElapsedGrows(elapsed: nat -> nat, k: nat)
    requires Sleeps(elapsed)
    ensures 100 * k <= elapsed(k)
  {
    if k == 0 {
    } else {
      ElapsedGrows(elapsed, k - 1);
      assert elapsed(k - 1) + 100 <= elapsed(k - 1 + 1);
    }
  }

  lemma PollsAreBounded(polls: nat -> seq<Payment>, elapsed: nat -> nat, id: Hash32, timeout: nat, k: nat)
    requires Sleeps(elapsed) && Polled(polls, elapsed, id, timeout, k)
    ensures k <= timeout / 100 + 1
  {
    if k > 0 { ElapsedGrows(elapsed, k - 1); }
  }

  // ---------- the answer in terms of the records ----------

  /** The first record of an outbound payment with this id. */
  ghost predicate IsFirst(payments: seq<Payment>, id: Hash32, i: nat) {
    && i < |payments| && payments[i].id == id && payments[i].direction == Outbound
    && forall j :: 0 <= j < i ==> payments[j].id != id || payments[j].direction != Outbound
  }

  /** A poll sees the payment, if at all, as pending. */
  ghost predicate SeesNothing(payments: seq<Payment>, id: Hash32) {
    forall i: nat :: IsFirst(payments, id, i) ==> payments[i].status == Pending
  }

  ghost predicate SeesFailed(payments: seq<Payment>, id: Hash32) {
    exists i: nat :: IsFirst(payments, id, i) && payments[i].status == Failed
  }

  ghost predicate SeesUnproven(payments: seq<Payment>, id: Hash32) {
    exists i: nat :: IsFirst(payments, id, i) && payments[i].status == Succeeded
                     && (payments[i].kind.Onchain? || payments[i].kind.preimage.None?)
  }

  ghost predicate SeesProven(payments: seq<Payment>, id: Hash32) {
    exists i: nat :: IsFirst(payments, id, i) && payments[i].status == Succeeded
                     && !payments[i].kind.Onchain? && payments[i].kind.preimage.Some?
  }

  ghost predicate SeesPaid(payments: seq<Payment>, id: Hash32, preimage: string, fees: Option<u64>) {
    exists i: nat :: IsFirst(payments, id, i) && payments[i].status == Succeeded && payments[i].feePaidMsat == fees
                     && !payments[i].kind.Onchain? && payments[i].kind.preimage.Some?
                     && preimage == Hex.Encode(payments[i].kind.preimage.value)
  }

  /** Which answer the last of `made` polls and the polls in time before it call for. */
  ghost predicate IsAnswer(polls: nat -> seq<Payment>, elapsed: nat -> nat, id: Hash32, timeout: nat,
                           outcome: Outcome, made: nat)
    requires made >= 1
  {
    var last := polls(made - 1);
    && (outcome == MarkedFailed <==> SeesFailed(last, id))
    && (outcome == PreimageMissing <==> SeesUnproven(last, id))
    && (outcome.Paid? <==> SeesProven(last, id))
    && (outcome.Paid? ==> SeesPaid(last, id, outcome.preimage, outcome.feesPaid))
    && (outcome == TimedOut <==> SeesNothing(last, id))
    && (outcome == TimedOut ==> elapsed(made - 1) > timeout)
    && (forall k :: 0 <= k < made - 1 ==> SeesNothing(polls(k), id) && elapsed(k) <= timeout)
  }

  lemma {:induction false} FindIsFirst(payments: seq<Payment>, id: Hash32) returns (i: nat)
    ensures i <= |payments| && (i < |payments| ==> IsFirst(payments, id, i))
    ensures Find(payments, id) == if i < |payments| then Some(payments[i]) else None
    ensures forall j: nat :: IsFirst(payments, id, j) ==> i == j
  {
    if payments == [] {
      i := 0;
    } else if payments[0].id == id && payments[0].direction == Outbound {
      i := 0;
    } else {
      i := FindIsFirst(payments[1..], id);
      i := i + 1;
      forall j: nat | IsFirst(payments, id, j) ensures i == j {
        assert IsFirst(payments[1..], id, j - 1);
      }
    }
  }

  /** What a poll decides, record by record. */
  lemma VerdictReads(payments: seq<Payment>, id: Hash32)
    ensures var v := Verdict(payments, id);
      && (v == None <==> SeesNothing(payments, id))
      && (v == Some(MarkedFailed) <==> SeesFailed(payments, id))
      && (v == Some(PreimageMissing) <==> SeesUnproven(payments, id))
      && (v.Some? && v.value.Paid? <==> SeesProven(payments, id))
      && (v.Some? && v.value.Paid? ==> SeesPaid(payments, id, v.value.preimage, v.value.feesPaid))
      && v != Some(TimedOut)
  {
    var i := FindIsFirst(payments, id);
  }

  method WaitForOutboundPayment(polls: nat -> seq<Payment>, elapsed: nat -> nat, id: Hash32,
                                setting: Option<string>)
      returns (outcome: Outcome, made: nat)
    requires Sleeps(elapsed)
    ensures 1 <= made <= TimeoutMillis(setting) / 100 + 2
    ensures IsResult(polls, elapsed, id, TimeoutMillis(setting), outcome, made)
    ensures IsAnswer(polls, elapsed, id, TimeoutMillis(setting), outcome, made)
  {
    var timeout := TimeoutMillis(setting);
    made := 0;
    while true
      invariant Polled(polls, elapsed, id, timeout, made)
      invariant forall k :: 0 <= k < made ==> SeesNothing(polls(k), id) && elapsed(k) <= timeout
      decreases timeout / 100 + 2 - made
    {
      PollsAreBounded(polls, elapsed, id, timeout, made);
      var payment := Find(polls(made), id);
      VerdictReads(polls(made), id);
      made := made + 1;
      if payment.Some? {
        match payment.value.status {
          case Succeeded =>
            var preimage := PreimageOf(payment.value.kind);
            if preimage.None? { return PreimageMissing, made; }
            var text := Hex.HexString(preimage.value);
            return Paid(text, payment.value.feePaidMsat), made;
          case Failed =>
            return MarkedFailed, made;
          case Pending =>
        }
      }
      if elapsed(made - 1) > timeout { return TimedOut, made; }
      PollsAreBounded(polls, elapsed, id, timeout, made);
    }
  }

  lemma {:induction false} PolledBefore(
      polls: nat -> seq<Payment>, elapsed: nat -> nat, id: Hash32, timeout: nat, j: nat, k: nat)
    requires j < k && Polled(polls, elapsed, id, timeout, k)
    ensures Polled(polls, elapsed, id, timeout, j) && Verdict(polls(j), id) == None && elapsed(j) <= timeout
    decreases k
  {
    if j < k - 1 { PolledBefore(polls, elapsed, id, timeout, j, k - 1); }
  }

  /** The traces fix the answer and the number of polls. */
  lemma ResultIsUnique(polls: nat -> seq<Payment>, elapsed: nat -> nat, id: Hash32, timeout: nat,
                       a: Outcome, m: nat, b: Outcome, n: nat)
    requires IsResult(polls, elapsed, id, timeout, a, m) && IsResult(polls, elapsed, id, timeout, b, n)
    ensures a == b && m == n
  {
    if m < n {
      PolledBefore(polls, elapsed, id, timeout, m - 1, n - 1);
    } else if n < m {
      PolledBefore(polls, elapsed, id, timeout, n - 1, m - 1);
    }
  }

  lemma {:induction false} FoundIsOutbound(payments: seq<Payment>, id: Hash32)
    ensures var p := Find(payments, id);
      if p.Some? then p.value in payments && p.value.id == id && p.value.direction == Outbound
      else forall q :: q in payments ==> q.id != id || q.direction != Outbound
  {
    if payments == [] {
    } else {
      FoundIsOutbound(payments[1..], id);
    }
  }

  /**
   Success is reported exactly with a preimage: some poll lists the payment as
   succeeded, and the text decodes to the preimage recorded with it.
   */
  lemma PaidMeansPreimage(polls: nat -> seq<Payment>, elapsed: nat -> nat, id: Hash32, timeout: nat,
                          outcome: Outcome, made: nat)
    requires IsResult(polls, elapsed, id, timeout, outcome, made) && outcome.Paid?
    ensures exists p :: p in polls(made - 1) && p.id == id && p.direction == Outbound && p.status == Succeeded
                        && p.feePaidMsat == outcome.feesPaid && PreimageOf(p.kind).Some?
                        && Hex.Decode(outcome.preimage) == Ok(PreimageOf(p.kind).value)
  {
    FoundIsOutbound(polls(made - 1), id);
    var p := Find(polls(made - 1), id).value;
    Hex.DecodeUndoesEncode(PreimageOf(p.kind).value);
  }

  /** The wait times out exactly when every poll made while time was left saw the payment pending or absent. */
  lemma TimesOutIff(polls: nat -> seq<Payment>, elapsed: nat -> nat, id: Hash32, timeout: nat,
                    outcome: Outcome, made: nat)
    requires Sleeps(elapsed) && IsResult(polls, elapsed, id, timeout, outcome, made)
    ensures outcome == TimedOut <==>
            forall k: nat :: (k == 0 || elapsed(k - 1) <= timeout) ==> SeesNothing(polls(k), id)
  {
    TimesOutByVerdict(polls, elapsed, id, timeout, outcome, made);
    forall k: nat ensures Verdict(polls(k), id) == None <==> SeesNothing(polls(k), id) {
      VerdictReads(polls(k), id);
    }
  }

  lemma TimesOutByVerdict(polls: nat -> seq<Payment>, elapsed: nat -> nat, id: Hash32, timeout: nat,
                          outcome: Outcome, made: nat)
    requires Sleeps(elapsed) && IsResult(polls, elapsed, id, timeout, outcome, made)
    ensures outcome == TimedOut <==>
            forall k: nat :: (k == 0 || elapsed(k - 1) <= timeout) ==> Verdict(polls(k), id) == None
  {
    var last := made - 1;
    if outcome == TimedOut {
      forall k: nat | (k == 0 || elapsed(k - 1) <= timeout) ensures Verdict(polls(k), id) == None {
        if k < last {
          PolledBefore(polls, elapsed, id, timeout, k, last);
        } else if k > last {
          ElapsedOrder(elapsed, last, k - 1);
        }
      }
    } else {
      if last > 0 { PolledBefore(polls, elapsed, id, timeout, last - 1, last); }
      assert Verdict(polls(last), id) != None;
    }
  }

  lemma {:induction false} ElapsedOrder(elapsed: nat -> nat, j: nat, k: nat)
    requires Sleeps(elapsed) && j <= k
    ensures elapsed(j) <= elapsed(k)
    decreases k
  {
    if j < k {
      ElapsedOrder(elapsed, j, k - 1);
      assert elapsed(k - 1) + 100 <= elapsed(k - 1 + 1);
    }
  }
}
