// How an event is delivered, handled and settled: acknowledged, asked for again after a
// transient failure, or given up on; and the waits in between.
module EventDelivery {
  import opened Wrappers

  const MAX_DELIVERIES := 10

  function Clamp(x: int, low: int, high: int): int
    requires low <= high
  {
    if x < low then low else if x > high then high else x
  }

  function Power2(e: nat): nat { if e == 0 then 1 else 2 * Power2(e - 1) }

  /** `backoff`: seconds to wait after `delivered` attempts. */
  function Backoff(delivered: int): nat {
    var seconds := Power2(Clamp(delivered, 1, 7) - 1);
    if seconds < 60 then seconds else 60
  }

  lemma BackoffValues(n: int)
    ensures Backoff(n) == (if n <= 1 then 1 else if n == 2 then 2 else if n == 3 then 4
                           else if n == 4 then 8 else if n == 5 then 16 else if n == 6 then 32 else 60)
  {
    assert Power2(1) == 2 && Power2(2) == 4 && Power2(3) == 8;
    assert Power2(4) == 16 && Power2(5) == 32 && Power2(6) == 64;
  }

  /** What comes of one delivery; `Silent` is a handler that panics, or an engine that dies in it. */
  datatype Outcome = Refused | Unchecked | Succeeds | Transient | Permanent | Silent

  /** One delivery, and whether the stream hears the acknowledgement it leads to. */
  datatype Delivery = Delivery(outcome: Outcome, heard: bool)

  /**
    An event in the stream. `runEvent`: it starts a run or moves it on to starting, so giving
    up on it fails the run.
   */
  datatype Event = Event(runEvent: bool, delivered: nat, acked: bool, started: nat,
                         succeeded: bool, refused: bool, abandoned: nat, waits: seq<nat>)

  function Fresh(runEvent: bool): Event { Event(runEvent, 0, false, 0, false, false, 0, []) }

  function GiveUp(e: Event, heard: bool): Event {
    e.(acked := heard, abandoned := e.abandoned + (if e.runEvent then 1 else 0))
  }

  /** `handle_message` on the next delivery, to the end of `settle`. */
  function Deliver(e: Event, d: Delivery): Event {
    var e := e.(delivered := e.delivered + 1);
    if e.delivered > MAX_DELIVERIES then GiveUp(e, d.heard)
    else
      match d.outcome
      case Refused => e.(refused := true, acked := d.heard)
      case Unchecked => e
      case Succeeds => e.(started := e.started + 1, succeeded := true, acked := d.heard)
      case Silent => e.(started := e.started + 1)
      case Permanent => GiveUp(e.(started := e.started + 1), d.heard)
      case Transient =>
        if e.delivered < MAX_DELIVERIES
        then e.(started := e.started + 1, waits := e.waits + [Backoff(e.delivered)])
        else GiveUp(e.(started := e.started + 1), d.heard)
  }

  /** The stream delivers the event until it hears that it is done. */
  function DeliverAll(e: Event, deliveries: seq<Delivery>): Event
    decreases |deliveries|
  {
    if e.acked || deliveries == [] then e
    else DeliverAll(Deliver(e, deliveries[0]), deliveries[1..])
  }

  // ---------------------------------------------------------------- the code

  /** A JetStream message in an engine's hands: what it has been told, and what its handling led to. */
  class Message {
    var event: Event

    constructor (event: Event)
      ensures this.event == event
    {
      this.event := event;
    }

    /** `settle`: whether the handler failed and the event is given up on. */
    method Settle(result: Outcome, heard: bool) returns (givenUp: bool)
      requires result.Succeeds? || result.Transient? || result.Permanent?
      modifies this
      ensures givenUp <==> result.Permanent? || (result.Transient? && old(event).delivered >= MAX_DELIVERIES)
      ensures event == if result.Succeeds? then old(event).(succeeded := true, acked := heard)
                       else if givenUp then old(event).(acked := heard)
                       else old(event).(waits := old(event).waits + [Backoff(old(event).delivered)])
    {
      if result.Succeeds? {
        event := event.(succeeded := true, acked := heard);
        return false;
      }
      if result.Transient? && event.delivered < MAX_DELIVERIES {
        var delay := Backoff(event.delivered);
        event := event.(waits := event.waits + [delay]);
        return false;
      }
      event := event.(acked := heard);
      return true;
    }

    /** `handle_message`, with `spawn_run_handler` for an event that starts a run. */
    method Handle(d: Delivery)
      modifies this
      ensures event == Deliver(old(event), d)
    {
      event := event.(delivered := event.delivered + 1);
      if event.delivered > MAX_DELIVERIES {
        event := event.(acked := d.heard);
        Abandon();
        return;
      }
      if d.outcome.Refused? {
        event := event.(refused := true, acked := d.heard);
        return;
      }
      if d.outcome.Unchecked? {
        return;
      }
      event := event.(started := event.started + 1);
      if d.outcome.Silent? {
        return;
      }
      var givenUp := Settle(d.outcome, d.heard);
      if givenUp {
        Abandon();
      }
    }

    /** `abandon_run_event`, which does nothing for other events. */
    method Abandon()
      modifies this
      ensures event == old(event).(abandoned := old(event).abandoned + (if old(event).runEvent then 1 else 0))
    {
      if event.runEvent {
        event := event.(abandoned := event.abandoned + 1);
      }
    }
  }

  /** The stream's loop over one event. */
  method Redeliver(message: Message, deliveries: seq<Delivery>)
    modifies message
    ensures message.event == DeliverAll(old(message.event), deliveries)
  {
    var k := 0;
    while k < |deliveries| && !message.event.acked
      invariant k <= |deliveries|
      invariant DeliverAll(message.event, deliveries[k..]) == DeliverAll(old(message.event), deliveries)
    {
      assert deliveries[k..][0] == deliveries[k] && deliveries[k..][1..] == deliveries[k + 1..];
      message.Handle(deliveries[k]);
      k := k + 1;
    }
  }

  // ---------------------------------------------------------------- over every sequence of deliveries

  predicate AllHeard(deliveries: seq<Delivery>) {
    forall i :: 0 <= i < |deliveries| ==> deliveries[i].heard
  }

  function Sum(xs: seq<nat>): nat {
    if xs == [] then 0 else Sum(xs[..|xs| - 1]) + xs[|xs| - 1]
  }

  /** The waits asked for by the first `n` deliveries, if each of them fails transiently. */
  function WaitsOf(n: nat): nat {
    if n == 0 then 0 else WaitsOf(n - 1) + Backoff(n)
  }

  function AtMostNine(n: nat): nat { if n < 9 then n else 9 }

  lemma SumAppend(xs: seq<nat>, x: nat)
    ensures Sum(xs + [x]) == Sum(xs) + x
  {
    assert (xs + [x])[..|xs + [x]| - 1] == xs;
  }

  lemma NextWait(n: nat)
    requires n < 9
    ensures WaitsOf(AtMostNine(n + 1)) == WaitsOf(AtMostNine(n)) + Backoff(n + 1)
  {
    hide Backoff;
  }

  /** What every delivery keeps, heard or not. */
  predicate Inv(e: Event) {
    && e.started <= e.delivered && e.started <= MAX_DELIVERIES
    && Sum(e.waits) <= WaitsOf(AtMostNine(e.delivered))
  }

  lemma {:induction false} WaitsOfGrows(m: nat, n: nat)
    requires m <= n
    ensures WaitsOf(m) <= WaitsOf(n)
  {
    if m < n { WaitsOfGrows(m, n - 1); }
  }

  lemma DeliverKeepsInv(e: Event, d: Delivery)
    requires Inv(e)
    ensures Inv(Deliver(e, d))
  {
    DeliverWaits(e, d);
    DeliverCounts(e, d);
    hide Deliver, Backoff, Sum, WaitsOf, AtMostNine;
    AtMostNineGrows(e.delivered);
    WaitsOfGrows(AtMostNine(e.delivered), AtMostNine(e.delivered + 1));
    if e.delivered < 9 {
      NextWait(e.delivered);
      SumAppend(e.waits, Backoff(e.delivered + 1));
    }
  }

  /** A delivery adds one wait or none, and none once nine have gone before. */
  lemma DeliverWaits(e: Event, d: Delivery)
    ensures Deliver(e, d).waits == e.waits
            || (e.delivered < 9 && Deliver(e, d).waits == e.waits + [Backoff(e.delivered + 1)])
  {
    hide Backoff;
  }

  lemma DeliverCounts(e: Event, d: Delivery)
    ensures Deliver(e, d).delivered == e.delivered + 1
    ensures Deliver(e, d).started == e.started || (e.delivered < 10 && Deliver(e, d).started == e.started + 1)
  {
    hide Backoff;
  }

  lemma AtMostNineGrows(n: nat)
    ensures AtMostNine(n) <= AtMostNine(n + 1)
  {
  }

  lemma {:induction false} DeliverAllKeepsInv(e: Event, deliveries: seq<Delivery>)
    requires Inv(e)
    ensures Inv(DeliverAll(e, deliveries))
    decreases |deliveries|
  {
    if !e.acked && deliveries != [] {
      DeliverKeepsInv(e, deliveries[0]);
      DeliverAllKeepsInv(Deliver(e, deliveries[0]), deliveries[1..]);
    }
  }

  lemma NineWaits()
    ensures WaitsOf(9) == 243
  {
    forall n: int ensures n <= 9 ==> Backoff(n) <= 60 { BackoffValues(n); }
    BackoffValues(1); BackoffValues(2); BackoffValues(3); BackoffValues(4); BackoffValues(5);
    BackoffValues(6); BackoffValues(7); BackoffValues(8); BackoffValues(9);
    assert WaitsOf(3) == 7;
    assert WaitsOf(6) == 63;
  }

  /**
    Whatever becomes of the deliveries, heard or not, the handler starts at most ten times and
    the back-off waits sum to at most 243 seconds.
   */
  lemma HandlerStartsAtMostTenTimes(runEvent: bool, deliveries: seq<Delivery>)
    ensures DeliverAll(Fresh(runEvent), deliveries).started <= 10
    ensures Sum(DeliverAll(Fresh(runEvent), deliveries).waits) <= 243
  {
    DeliverAllKeepsInv(Fresh(runEvent), deliveries);
    var e := DeliverAll(Fresh(runEvent), deliveries);
    WaitsOfGrows(AtMostNine(e.delivered), 9);
    NineWaits();
  }

  function Transients(n: nat): seq<Delivery> {
    if n == 0 then [] else Transients(n - 1) + [Delivery(Transient, true)]
  }

  lemma OneMoreTransient(e: Event)
    requires !e.acked && e.delivered < 9
    ensures var e' := DeliverAll(e, [Delivery(Transient, true)]);
            e'.delivered == e.delivered + 1 && !e'.acked && Sum(e'.waits) == Sum(e.waits) + Backoff(e.delivered + 1)
  {
    hide Backoff;
    var d := Delivery(Transient, true);
    var e' := Deliver(e, d);
    assert [d][1..] == [];
    assert DeliverAll(e, [d]) == DeliverAll(e', []) == e';
    SumAppend(e.waits, Backoff(e.delivered + 1));
  }

  /** Transient failures in a row wait exactly that long: nine of them, 243 seconds. */
  lemma {:induction false} TransientFailuresWait(runEvent: bool, n: nat)
    requires n <= 9
    ensures var e := DeliverAll(Fresh(runEvent), Transients(n));
            e.delivered == n && !e.acked && Sum(e.waits) == WaitsOf(n)
  {
    hide Backoff, Deliver;
    if n > 0 {
      TransientFailuresWait(runEvent, n - 1);
      DeliverAllConcat(Fresh(runEvent), Transients(n - 1), [Delivery(Transient, true)]);
      OneMoreTransient(DeliverAll(Fresh(runEvent), Transients(n - 1)));
    }
  }

  lemma {:induction false} DeliverAllConcat(e: Event, a: seq<Delivery>, b: seq<Delivery>)
    ensures DeliverAll(e, a + b) == DeliverAll(DeliverAll(e, a), b)
    decreases |a|
  {
    if e.acked {
    } else if a == [] {
      assert a + b == b;
    } else {
      DeliverAllConcat(Deliver(e, a[0]), a[1..], b);
      assert (a + b)[1..] == a[1..] + b;
    }
  }

  /** Where an event can be as long as every acknowledgement is heard. */
  predicate HeardInv(e: Event) {
    && (e.delivered > MAX_DELIVERIES ==> e.acked)
    && (!e.acked ==> !e.succeeded && !e.refused)
    && e.abandoned == if e.acked && e.runEvent && !e.succeeded && !e.refused then 1 else 0
  }

  lemma DeliverKeepsHeardInv(e: Event, d: Delivery)
    requires HeardInv(e) && !e.acked && d.heard
    ensures HeardInv(Deliver(e, d))
    ensures Deliver(e, d).delivered == e.delivered + 1
  {
    hide Backoff;
  }

  lemma {:induction false} HeardDeliveries(e: Event, deliveries: seq<Delivery>)
    requires HeardInv(e) && AllHeard(deliveries)
    ensures HeardInv(DeliverAll(e, deliveries))
    ensures DeliverAll(e, deliveries).acked || DeliverAll(e, deliveries).delivered == e.delivered + |deliveries|
    decreases |deliveries|
  {
    hide HeardInv, Deliver;
    if !e.acked && deliveries != [] {
      DeliverKeepsHeardInv(e, deliveries[0]);
      HeardDeliveries(Deliver(e, deliveries[0]), deliveries[1..]);
    }
  }

  /** If acknowledgements are heard, the event is acknowledged by its eleventh delivery. */
  lemma AckedByTheEleventh(runEvent: bool, deliveries: seq<Delivery>)
    requires AllHeard(deliveries) && |deliveries| >= 11
    ensures DeliverAll(Fresh(runEvent), deliveries).acked
  {
    HeardDeliveries(Fresh(runEvent), deliveries);
  }

  /**
    If acknowledgements are heard, an event is abandoned once if it is a run event that was
    acknowledged without having succeeded or been refused, and otherwise never.
   */
  lemma AbandonedExactlyIfGivenUp(runEvent: bool, deliveries: seq<Delivery>)
    requires AllHeard(deliveries)
    ensures var e := DeliverAll(Fresh(runEvent), deliveries);
            e.abandoned == if e.acked && runEvent && !e.succeeded && !e.refused then 1 else 0
  {
    HeardDeliveries(Fresh(runEvent), deliveries);
    DeliverAllKeepsKind(Fresh(runEvent), deliveries);
  }

  lemma {:induction false} DeliverAllKeepsKind(e: Event, deliveries: seq<Delivery>)
    ensures DeliverAll(e, deliveries).runEvent == e.runEvent
    decreases |deliveries|
  {
    hide Backoff;
    if !e.acked && deliveries != [] {
      assert Deliver(e, deliveries[0]).runEvent == e.runEvent;
      DeliverAllKeepsKind(Deliver(e, deliveries[0]), deliveries[1..]);
    }
  }

  /** Deliveries that settle nothing: not checked, silent, or failed in passing before the tenth. */
  predicate AllWait(deliveries: seq<Delivery>) {
    forall i :: 0 <= i < |deliveries| ==>
      var outcome := deliveries[i].outcome;
      outcome.Unchecked? || outcome.Silent? || (outcome.Transient? && i < 9)
  }

  /** How many of them started the handler. */
  function Starts(deliveries: seq<Delivery>): nat {
    if deliveries == [] then 0
    else Starts(deliveries[..|deliveries| - 1]) + if deliveries[|deliveries| - 1].outcome.Unchecked? then 0 else 1
  }

  lemma {:induction false} WaitingSettlesNothing(runEvent: bool, waiting: seq<Delivery>)
    requires AllWait(waiting) && |waiting| <= 10
    ensures var e := DeliverAll(Fresh(runEvent), waiting);
            !e.acked && e.delivered == |waiting| && e.abandoned == 0 && !e.succeeded && e.runEvent == runEvent
            && e.started == Starts(waiting)
    decreases |waiting|
  {
    hide Backoff;
    if waiting != [] {
      var before, d := waiting[..|waiting| - 1], waiting[|waiting| - 1];
      assert waiting == before + [d] && waiting[|waiting| - 1].outcome == d.outcome;
      WaitingSettlesNothing(runEvent, before);
      DeliverAllConcat(Fresh(runEvent), before, [d]);
      LastDelivery(DeliverAll(Fresh(runEvent), before), d);
    }
  }

  lemma LastDelivery(e: Event, d: Delivery)
    requires !e.acked
    ensures DeliverAll(e, [d]) == Deliver(e, d)
  {
    assert [d][1..] == [];
  }

  lemma {:induction false} DoneStaysDone(e: Event, deliveries: seq<Delivery>)
    requires e.acked
    ensures DeliverAll(e, deliveries) == e
  {
  }

  /**
    The first delivery that settles decides, whatever would come after. A success is no failure of
    the run, nor is a refusal, which does not start the handler; a permanent failure is, and so is
    a delivery past the tenth, whatever it would have come to.
   */
  lemma SettlingDeliveryDecides(runEvent: bool, waiting: seq<Delivery>, d: Delivery, rest: seq<Delivery>)
    requires AllWait(waiting) && d.heard && |waiting| <= 10
    requires |waiting| == 10 || d.outcome.Succeeds? || d.outcome.Refused? || d.outcome.Permanent?
             || (d.outcome.Transient? && |waiting| == 9)
    ensures var e := DeliverAll(Fresh(runEvent), waiting + ([d] + rest));
            e.acked && e.delivered == |waiting| + 1
            && e.succeeded == (|waiting| < 10 && d.outcome.Succeeds?)
            && e.abandoned == (if !runEvent || (|waiting| < 10 && (d.outcome.Succeeds? || d.outcome.Refused?)) then 0
                               else 1)
            && e.started == Starts(waiting) + (if |waiting| == 10 || d.outcome.Refused? then 0 else 1)
  {
    hide Backoff;
    WaitingSettlesNothing(runEvent, waiting);
    DeliverAllConcat(Fresh(runEvent), waiting, [d] + rest);
    var before := DeliverAll(Fresh(runEvent), waiting);
    DeliverAllConcat(before, [d], rest);
    LastDelivery(before, d);
    DoneStaysDone(Deliver(before, d), rest);
  }

  /** An acknowledgement that is not heard brings a handled event back. */
  lemma UnheardSuccessRunsAgain()
    ensures DeliverAll(Fresh(true), [Delivery(Succeeds, false), Delivery(Permanent, true)])
         == Event(true, 2, true, 2, true, false, 1, [])
  {
    var d1, d2 := Delivery(Succeeds, false), Delivery(Permanent, true);
    var e := Deliver(Fresh(true), d1);
    assert [d1, d2][1..] == [d2] && [d2][1..] == [];
    assert DeliverAll(e, [d2]) == DeliverAll(Deliver(e, d2), []);
  }

  // ---------------------------------------------------------------- writes that are tried again

  const PERSIST_FOR := 600

  /** One attempt: how it ended, and when (in seconds). */
  datatype Attempt = Attempt(outcome: Outcome, at: int)

  /** An attempt ends no sooner than the one before it, and the wait after that, allow. */
  predicate Spaced(attempts: nat -> Attempt, start: int, j: nat) {
    if j == 0 then attempts(0).at >= start else attempts(j).at >= attempts(j - 1).at + Backoff(j)
  }

  predicate TriesAgain(a: Attempt, start: int) {
    a.outcome.Transient? && a.at < start + PERSIST_FOR
  }

  lemma {:induction false} TriesTakeTime(attempts: nat -> Attempt, start: int, k: nat)
    requires forall j: nat :: Spaced(attempts, start, j)
    ensures attempts(k).at >= start + WaitsOf(k)
  {
    hide Backoff;
    assert Spaced(attempts, start, k);
    if k > 0 { TriesTakeTime(attempts, start, k - 1); }
  }

  lemma FifteenWaits()
    ensures WaitsOf(15) >= PERSIST_FOR
  {
    NineWaits();
    BackoffValues(10); BackoffValues(11); BackoffValues(12);
    BackoffValues(13); BackoffValues(14); BackoffValues(15);
    assert WaitsOf(12) == 423;
  }

  /**
    `persist`: the result is that of the first attempt not worth another, and it comes after
    at most sixteen tries.
   */
  method Persist(attempts: nat -> Attempt, start: int) returns (tries: nat, result: Outcome)
    requires forall j: nat :: Spaced(attempts, start, j)
    ensures 1 <= tries <= 16 && result == attempts(tries - 1).outcome
    ensures attempts(tries - 1).outcome.Transient? ==> attempts(tries - 1).at >= start + 600
    ensures forall j: nat :: j < tries - 1 ==> attempts(j).outcome.Transient? && attempts(j).at < start + 600
  {
    tries := 1;
    while TriesAgain(attempts(tries - 1), start)
      invariant 1 <= tries <= 16
      invariant forall j: nat :: j < tries - 1 ==> TriesAgain(attempts(j), start)
      decreases 16 - tries
    {
      TriesTakeTime(attempts, start, tries - 1);
      if tries == 16 { FifteenWaits(); }
      tries := tries + 1;
    }
    result := attempts(tries - 1).outcome;
  }
}
