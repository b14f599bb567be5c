/**
  The analytics queue: a bounded channel between many producers and one worker, and the
  flush barrier that goes through the same channel.  The reducer is a parameter.
 */
module AnalyticsQueue {
  import opened Common

  const QUEUE_SIZE := 256

  // `ingest` and `flush` return the new reducer state and the events to send.
  datatype Reducer<!S, !F, !E> = Reducer(init: S, ingest: (S, F) -> (S, seq<E>), flush: S -> (S, seq<E>))

  datatype QueueMessage<F> = Fact(fact: F) | Flush(ticket: nat)

  datatype Worker<F, E> =
    | Idle
    | Received(message: QueueMessage<F>)
    | Sending(events: seq<E>, flushed: Option<nat>)   // the events are being handed on
    | Acknowledging(ticket: nat)

  datatype Queue<S, F, E> = Queue(
    channel: seq<QueueMessage<F>>,
    granted: set<nat>,                   // flush calls that hold a slot and have not yet used it
    waiting: seq<nat>,                   // flush calls waiting for a slot, first come first served
    issued: set<nat>,                    // flush calls ever made
    worker: Worker<F, E>,
    state: S,
    handed: seq<seq<E>>,                 // what was handed on for sending, per message
    acked: set<nat>,                     // flushes acknowledged
    offered: seq<(F, bool)>,             // facts offered by producers, and whether they were taken
    accepted: seq<QueueMessage<F>>,      // everything that entered the channel
    reduced: seq<QueueMessage<F>>)       // everything the reducer has seen

  datatype Step<F> =
    | TrySend(fact: F)
    | CallFlush(ticket: nat)
    | EnqueueFlush(ticket: nat)
    | AbandonSlot(ticket: nat)           // the caller timed out holding a slot
    | AbandonWait(place: nat)            // the caller timed out while waiting for one
    | Receive
    | Reduce
    | HandOn
    | Acknowledge

  function Initial<S, F, E>(r: Reducer<S, F, E>): Queue<S, F, E> {
    Queue([], {}, [], {}, Idle, r.init, [], {}, [], [], [])
  }

  // A slot is taken by a queued message or held for a flush.
  function Taken<S, F, E>(q: Queue<S, F, E>): nat { |q.channel| + |q.granted| }

  // A slot that becomes free goes to the flush that has waited longest.
  function Grant<S, F, E>(q: Queue<S, F, E>): Queue<S, F, E> {
    if q.waiting == [] then q else q.(granted := q.granted + {q.waiting[0]}, waiting := q.waiting[1..])
  }

  predicate Enabled<S, F, E>(q: Queue<S, F, E>, step: Step<F>) {
    match step
    case TrySend(_) => true
    case CallFlush(t) => t !in q.issued
    case EnqueueFlush(t) => t in q.granted
    case AbandonSlot(t) => t in q.granted
    case AbandonWait(i) => i < |q.waiting|
    case Receive => q.worker.Idle? && q.channel != []
    case Reduce => q.worker.Received?
    case HandOn => q.worker.Sending?
    case Acknowledge => q.worker.Acknowledging?
  }

  function ReduceOne<S, F, E>(r: Reducer<S, F, E>, s: S, m: QueueMessage<F>): (S, seq<E>) {
    match m
    case Fact(f) => r.ingest(s, f)
    case Flush(_) => r.flush(s)
  }

  function Next<S, F, E>(r: Reducer<S, F, E>, q: Queue<S, F, E>, step: Step<F>): Queue<S, F, E>
    requires Enabled(q, step)
  {
    match step
    case TrySend(f) =>
      if Taken(q) < QUEUE_SIZE
      then q.(channel := q.channel + [Fact(f)], offered := q.offered + [(f, true)], accepted := q.accepted + [Fact(f)])
      else q.(offered := q.offered + [(f, false)])
    case CallFlush(t) =>
      if Taken(q) < QUEUE_SIZE then q.(granted := q.granted + {t}, issued := q.issued + {t})
      else q.(waiting := q.waiting + [t], issued := q.issued + {t})
    case EnqueueFlush(t) =>
      q.(channel := q.channel + [Flush(t)], granted := q.granted - {t}, accepted := q.accepted + [Flush(t)])
    case AbandonSlot(t) => Grant(q.(granted := q.granted - {t}))
    case AbandonWait(i) => q.(waiting := q.waiting[..i] + q.waiting[i + 1..])
    case Receive => Grant(q.(channel := q.channel[1..], worker := Received(q.channel[0])))
    case Reduce =>
      var (s, events) := ReduceOne(r, q.state, q.worker.message);
      q.(state := s, reduced := q.reduced + [q.worker.message],
         worker := Sending(events, if q.worker.message.Flush? then Some(q.worker.message.ticket) else None))
    case HandOn =>
      q.(handed := q.handed + [q.worker.events],
         worker := if q.worker.flushed.Some? then Acknowledging(q.worker.flushed.value) else Idle)
    case Acknowledge => q.(acked := q.acked + {q.worker.ticket}, worker := Idle)
  }

  // Any schedule of producers, flush callers and worker; a step that is not enabled does nothing.
  function Run<S, F, E>(r: Reducer<S, F, E>, steps: seq<Step<F>>): Queue<S, F, E> {
    if steps == [] then Initial(r) else
      Stepped(r, Run(r, steps[..|steps| - 1]), steps[|steps| - 1])
  }

  function Stepped<S, F, E>(r: Reducer<S, F, E>, q: Queue<S, F, E>, step: Step<F>): Queue<S, F, E> {
    if Enabled(q, step) then Next(r, q, step) else q
  }

  // ------------------------------------------------------------ what a sequential reducer would do

  function StateOf<S, F, E>(r: Reducer<S, F, E>, ms: seq<QueueMessage<F>>): S {
    if ms == [] then r.init else ReduceOne(r, StateOf(r, ms[..|ms| - 1]), ms[|ms| - 1]).0
  }

  // The events produced for each message, in order.
  function EventsOf<S, F, E>(r: Reducer<S, F, E>, ms: seq<QueueMessage<F>>): (out: seq<seq<E>>)
    ensures |out| == |ms|
  {
    if ms == [] then [] else
      EventsOf(r, ms[..|ms| - 1]) + [ReduceOne(r, StateOf(r, ms[..|ms| - 1]), ms[|ms| - 1]).1]
  }

  lemma {:induction false} EventsOfPrefix<S, F, E>(r: Reducer<S, F, E>, ms: seq<QueueMessage<F>>, n: nat)
    requires n <= |ms|
    ensures EventsOf(r, ms)[..n] == EventsOf(r, ms[..n])
  {
    if n < |ms| {
      EventsOfPrefix(r, ms[..|ms| - 1], n);
      assert ms[..|ms| - 1][..n] == ms[..n];
      assert EventsOf(r, ms)[..n] == EventsOf(r, ms[..|ms| - 1])[..n];
    } else {
      assert ms[..n] == ms;
    }
  }

  function FactsIn<F>(ms: seq<QueueMessage<F>>): seq<F> {
    if ms == [] then [] else FactsIn(ms[..|ms| - 1]) + (if ms[|ms| - 1].Fact? then [ms[|ms| - 1].fact] else [])
  }

  function TakenOf<F>(offers: seq<(F, bool)>): seq<F> {
    if offers == [] then [] else
      TakenOf(offers[..|offers| - 1]) + (if offers[|offers| - 1].1 then [offers[|offers| - 1].0] else [])
  }

  // ------------------------------------------------------------ invariant of every schedule

  function InHand<F, E>(w: Worker<F, E>): seq<QueueMessage<F>> {
    if w.Received? then [w.message] else []
  }

  function InFlight<F, E>(w: Worker<F, E>): seq<seq<E>> {
    if w.Sending? then [w.events] else []
  }

  // Every accepted message is reduced, in the worker's hand, or in the channel, in that order.
  ghost predicate Ordered<S, F, E>(q: Queue<S, F, E>) {
    q.accepted == q.reduced + InHand(q.worker) + q.channel
  }

  // The reducer and what was handed on are those of a sequential run over the reduced messages.
  ghost predicate Sequential<S, F, E>(r: Reducer<S, F, E>, q: Queue<S, F, E>) {
    q.state == StateOf(r, q.reduced) && q.handed + InFlight(q.worker) == EventsOf(r, q.reduced)
  }

  // The flush the worker is busy with is the last reduced message; acknowledged ones have been handed on.
  ghost predicate Flushed<S, F, E>(q: Queue<S, F, E>, t: nat) {
    exists i :: 0 <= i < |q.handed| && i < |q.reduced| && q.reduced[i] == Flush(t)
  }

  ghost predicate Barrier<S, F, E>(q: Queue<S, F, E>) {
    && (q.worker.Sending? && q.worker.flushed.Some? ==>
        q.reduced != [] && q.reduced[|q.reduced| - 1] == Flush(q.worker.flushed.value))
    && (q.worker.Acknowledging? ==> Flushed(q, q.worker.ticket))
    && (forall t :: t in q.acked ==> Flushed(q, t))
  }

  ghost predicate Distinct(ts: seq<nat>) { forall i, j :: 0 <= i < j < |ts| ==> ts[i] != ts[j] }

  // No slot is taken twice, and none is free while a flush waits.
  ghost predicate Slots<S, F, E>(q: Queue<S, F, E>) {
    && Taken(q) <= QUEUE_SIZE
    && (q.waiting != [] ==> Taken(q) == QUEUE_SIZE)
    && Distinct(q.waiting)
    && (forall t :: t in q.waiting ==> t !in q.granted && t in q.issued)
    && q.granted <= q.issued
  }

  // A flush enters the channel at most once: its caller no longer holds or awaits a slot.
  ghost predicate EntersOnce<S, F, E>(q: Queue<S, F, E>) {
    && (forall i :: 0 <= i < |q.accepted| && q.accepted[i].Flush? ==>
          var t := q.accepted[i].ticket; t in q.issued && t !in q.granted && t !in q.waiting)
    && (forall i, j :: 0 <= i < j < |q.accepted| && q.accepted[i].Flush? ==> q.accepted[i] != q.accepted[j])
  }

  ghost predicate Invariant<S, F, E>(r: Reducer<S, F, E>, q: Queue<S, F, E>) {
    && Slots(q)
    && EntersOnce(q)
    && Ordered(q)
    && Sequential(r, q)
    && Barrier(q)
    && FactsIn(q.accepted) == TakenOf(q.offered)
  }

  // Granting fills the one slot that became free.
  lemma GrantKeepsSlots<S, F, E>(q: Queue<S, F, E>)
    requires Taken(q) < QUEUE_SIZE && (q.waiting != [] ==> Taken(q) == QUEUE_SIZE - 1)
    requires Distinct(q.waiting) && q.granted <= q.issued
    requires forall t :: t in q.waiting ==> t !in q.granted && t in q.issued
    ensures Slots(Grant(q))
  {
    if q.waiting != [] {
      var q' := Grant(q);
      assert q.waiting[0] in q.waiting;
      forall t | t in q'.waiting ensures t !in q'.granted && t in q'.issued {
        var i :| 0 <= i < |q'.waiting| && q'.waiting[i] == t;
        assert q.waiting[i + 1] == t;
      }
    }
  }

  lemma StepKeepsSlots<S, F, E>(r: Reducer<S, F, E>, q: Queue<S, F, E>, step: Step<F>)
    requires Enabled(q, step) && Slots(q)
    ensures Slots(Next(r, q, step))
  {
    match step {
      case CallFlush(t) => if Taken(q) == QUEUE_SIZE { WaitingExtends(q.waiting, t, q.issued); }
      case Receive => GrantKeepsSlots(q.(channel := q.channel[1..], worker := Received(q.channel[0])));
      case AbandonSlot(t) => GrantKeepsSlots(q.(granted := q.granted - {t}));
      case AbandonWait(i) => WaitingShrinks(q.waiting, i);
      case _ =>
    }
  }

  lemma WaitingExtends(ts: seq<nat>, t: nat, issued: set<nat>)
    requires Distinct(ts) && t !in issued && forall x :: x in ts ==> x in issued
    ensures Distinct(ts + [t]) && forall x :: x in ts + [t] <==> x in ts || x == t
  {
    forall i | 0 <= i < |ts| ensures ts[i] != t { assert ts[i] in ts; }
  }

  lemma WaitingShrinks(ts: seq<nat>, i: nat)
    requires i < |ts| && Distinct(ts)
    ensures var rest := ts[..i] + ts[i + 1..]; Distinct(rest) && forall x :: x in rest ==> x in ts
  {
    var rest := ts[..i] + ts[i + 1..];
    forall k | 0 <= k < |rest| ensures rest[k] == ts[if k < i then k else k + 1] {}
  }

  // Slots may change hands, but only among the flushes that had or awaited one.
  lemma SameAccepted<S, F, E>(q: Queue<S, F, E>, q': Queue<S, F, E>)
    requires EntersOnce(q) && q'.accepted == q.accepted && q.issued <= q'.issued
    requires forall t :: t in q'.granted || t in q'.waiting ==> t in q.granted || t in q.waiting || t !in q.issued
    ensures EntersOnce(q')
  {}

  lemma OneMoreAccepted<S, F, E>(q: Queue<S, F, E>, q': Queue<S, F, E>, m: QueueMessage<F>)
    requires EntersOnce(q) && q'.accepted == q.accepted + [m] && q'.issued == q.issued
    requires q'.granted <= q.granted && q'.waiting == q.waiting
    requires m.Flush? ==>
             m.ticket in q.granted && m.ticket in q.issued && m.ticket !in q'.granted && m.ticket !in q.waiting
    ensures EntersOnce(q')
  {
    forall i | 0 <= i < |q.accepted| ensures q'.accepted[i] == q.accepted[i] {}
  }

  lemma StepEntersOnce<S, F, E>(r: Reducer<S, F, E>, q: Queue<S, F, E>, step: Step<F>)
    requires Enabled(q, step) && Slots(q) && EntersOnce(q)
    ensures EntersOnce(Next(r, q, step))
  {
    var q' := Next(r, q, step);
    match step {
      case TrySend(f) => if Taken(q) < QUEUE_SIZE { OneMoreAccepted(q, q', Fact(f)); } else { SameAccepted(q, q'); }
      case EnqueueFlush(t) => OneMoreAccepted(q, q', Flush(t));
      case AbandonWait(i) =>
        WaitingShrinks(q.waiting, i);
        SameAccepted(q, q');
      case _ => SameAccepted(q, q');
    }
  }

  lemma StepKeepsOrdered<S, F, E>(r: Reducer<S, F, E>, q: Queue<S, F, E>, step: Step<F>)
    requires Enabled(q, step) && Ordered(q)
    ensures Ordered(Next(r, q, step))
  {
    var done := q.reduced + InHand(q.worker);
    match step {
      case Receive => assert q.reduced + [] + q.channel == q.reduced + [q.channel[0]] + q.channel[1..];
      case TrySend(f) => Associative(done, q.channel, [Fact(f)]);
      case EnqueueFlush(t) => Associative(done, q.channel, [Flush(t)]);
      case Reduce => assert q.reduced + [q.worker.message] + [] == q.reduced + [q.worker.message];
      case _ =>
    }
  }

  lemma StepKeepsSequential<S, F, E>(r: Reducer<S, F, E>, q: Queue<S, F, E>, step: Step<F>)
    requires Enabled(q, step) && Sequential(r, q)
    ensures Sequential(r, Next(r, q, step))
  {
    match step {
      case Reduce => ReduceKeepsSequential(r, q);
      case HandOn => HandOnKeepsSequential(r, q);
      case _ => SameReduction(r, q, Next(r, q, step));
    }
  }

  lemma OneMoreReduced<S, F, E>(r: Reducer<S, F, E>, ms: seq<QueueMessage<F>>, m: QueueMessage<F>)
    ensures StateOf(r, ms + [m]) == ReduceOne(r, StateOf(r, ms), m).0
    ensures EventsOf(r, ms + [m]) == EventsOf(r, ms) + [ReduceOne(r, StateOf(r, ms), m).1]
  {
    assert (ms + [m])[..|ms|] == ms;
  }

  lemma SameReduction<S, F, E>(r: Reducer<S, F, E>, q: Queue<S, F, E>, q': Queue<S, F, E>)
    requires Sequential(r, q) && q'.state == q.state && q'.reduced == q.reduced
    requires q'.handed == q.handed && InFlight(q'.worker) == InFlight(q.worker)
    ensures Sequential(r, q')
  {}

  lemma ReduceKeepsSequential<S, F, E>(r: Reducer<S, F, E>, q: Queue<S, F, E>)
    requires Enabled(q, Reduce) && Sequential(r, q)
    ensures Sequential(r, Next(r, q, Reduce))
  {
    OneMoreReduced(r, q.reduced, q.worker.message);
    assert q.handed + [] == q.handed;
  }

  lemma HandOnKeepsSequential<S, F, E>(r: Reducer<S, F, E>, q: Queue<S, F, E>)
    requires Enabled(q, HandOn) && Sequential(r, q)
    ensures Sequential(r, Next(r, q, HandOn))
  {
    var handed := q.handed + [q.worker.events];
    assert handed + [] == handed;
  }

  lemma FlushedStays<S, F, E>(q: Queue<S, F, E>, q': Queue<S, F, E>, t: nat)
    requires Flushed(q, t) && q.reduced <= q'.reduced && q.handed <= q'.handed
    ensures Flushed(q', t)
  {
    var i :| 0 <= i < |q.handed| && i < |q.reduced| && q.reduced[i] == Flush(t);
    assert q'.reduced[i] == Flush(t);
  }

  lemma StepKeepsBarrier<S, F, E>(r: Reducer<S, F, E>, q: Queue<S, F, E>, step: Step<F>)
    requires Enabled(q, step) && Barrier(q) && Sequential(r, q)
    ensures Barrier(Next(r, q, step))
  {
    var q' := Next(r, q, step);
    forall t | Flushed(q, t) ensures Flushed(q', t) { FlushedStays(q, q', t); }
    if step.HandOn? && q.worker.flushed.Some? {
      var i := |q.reduced| - 1;
      assert |q.handed| == i;
      assert q'.reduced[i] == Flush(q'.worker.ticket);
    }
  }

  lemma StepKeepsFacts<S, F, E>(r: Reducer<S, F, E>, q: Queue<S, F, E>, step: Step<F>)
    requires Enabled(q, step) && FactsIn(q.accepted) == TakenOf(q.offered)
    ensures FactsIn(Next(r, q, step).accepted) == TakenOf(Next(r, q, step).offered)
  {
    match step {
      case TrySend(f) =>
        OneMoreFact(q.accepted, Fact(f));
        OneMoreOffer(q.offered, f, Taken(q) < QUEUE_SIZE);
      case EnqueueFlush(t) => OneMoreFact(q.accepted, Flush(t));
      case _ =>
    }
  }

  lemma OneMoreFact<F>(ms: seq<QueueMessage<F>>, m: QueueMessage<F>)
    ensures FactsIn(ms + [m]) == if m.Fact? then FactsIn(ms) + [m.fact] else FactsIn(ms)
  {
    assert (ms + [m])[..|ms|] == ms;
  }

  lemma OneMoreOffer<F>(offers: seq<(F, bool)>, f: F, taken: bool)
    ensures TakenOf(offers + [(f, taken)]) == if taken then TakenOf(offers) + [f] else TakenOf(offers)
  {
    assert (offers + [(f, taken)])[..|offers|] == offers;
  }

  lemma StepKeepsInvariant<S, F, E>(r: Reducer<S, F, E>, q: Queue<S, F, E>, step: Step<F>)
    requires Enabled(q, step) && Invariant(r, q)
    ensures Invariant(r, Next(r, q, step))
  {
    StepKeepsSlots(r, q, step);
    StepEntersOnce(r, q, step);
    StepKeepsOrdered(r, q, step);
    StepKeepsSequential(r, q, step);
    StepKeepsBarrier(r, q, step);
    StepKeepsFacts(r, q, step);
  }

  lemma {:induction false} EveryScheduleKeepsInvariant<S, F, E>(r: Reducer<S, F, E>, steps: seq<Step<F>>)
    ensures Invariant(r, Run(r, steps))
  {
    if steps == [] {
      InitialInvariant(r);
    } else {
      EveryScheduleKeepsInvariant(r, steps[..|steps| - 1]);
      SteppedKeepsInvariant(r, Run(r, steps[..|steps| - 1]), steps[|steps| - 1]);
    }
  }

  lemma InitialInvariant<S, F, E>(r: Reducer<S, F, E>)
    ensures Invariant(r, Initial(r))
  {
    var q := Initial(r);
    assert Slots(q) && EntersOnce(q) && Barrier(q);
    InitialIsSequential(r);
  }

  lemma InitialIsSequential<S, F, E>(r: Reducer<S, F, E>)
    ensures Ordered(Initial(r)) && Sequential(r, Initial(r))
  {}

  lemma SteppedKeepsInvariant<S, F, E>(r: Reducer<S, F, E>, q: Queue<S, F, E>, step: Step<F>)
    requires Invariant(r, q)
    ensures Invariant(r, Stepped(r, q, step))
  {
    if Enabled(q, step) { StepKeepsInvariant(r, q, step); }
  }

  // Under every schedule the channel stays within its bound, and the facts ingested so far
  // are, in order and each once, a prefix of those taken from the producers.
  lemma IngestedInOrder<S, F, E>(r: Reducer<S, F, E>, steps: seq<Step<F>>)
    ensures var q := Run(r, steps);
            && |q.channel| <= 256
            && FactsIn(q.reduced) + FactsIn(InHand(q.worker)) + FactsIn(q.channel) == TakenOf(q.offered)
            && q.state == StateOf(r, q.reduced)
  {
    EveryScheduleKeepsInvariant(r, steps);
    var q := Run(r, steps);
    FactsAppend(q.reduced, InHand(q.worker));
    FactsAppend(q.reduced + InHand(q.worker), q.channel);
  }

  lemma {:induction false} FactsAppend<F>(a: seq<QueueMessage<F>>, b: seq<QueueMessage<F>>)
    ensures FactsIn(a + b) == FactsIn(a) + FactsIn(b)
  {
    if b == [] {
      assert a + b == a;
    } else {
      assert (a + b)[..|a + b| - 1] == a + b[..|b| - 1];
      FactsAppend(a, b[..|b| - 1]);
    }
  }

  // The flush barrier: a flush that is acknowledged entered the channel, at one place; every
  // message that entered before it, and the flush itself, has been reduced in order, and the
  // events of all of them have been handed on for sending.
  lemma FlushBarrier<S, F, E>(r: Reducer<S, F, E>, steps: seq<Step<F>>, t: nat)
    requires t in Run(r, steps).acked
    ensures var q := Run(r, steps);
            && Flush(t) in q.accepted
            && (forall i :: 0 <= i < |q.accepted| && q.accepted[i] == Flush(t) ==> Settled(r, q, i))
            && (forall i, j :: 0 <= i < j < |q.accepted| && q.accepted[i] == Flush(t) ==> q.accepted[j] != Flush(t))
  {
    EveryScheduleKeepsInvariant(r, steps);
    var q := Run(r, steps);
    var k := FlushedIsSettled(r, q, t);
    forall i | 0 <= i < |q.accepted| && q.accepted[i] == Flush(t) ensures i == k { OnePlace(q, t, i, k); }
    NeverAgain(q, t);
  }

  lemma NeverAgain<S, F, E>(q: Queue<S, F, E>, t: nat)
    requires EntersOnce(q)
    ensures forall i, j :: 0 <= i < j < |q.accepted| && q.accepted[i] == Flush(t) ==> q.accepted[j] != Flush(t)
  {}

  lemma OnePlace<S, F, E>(q: Queue<S, F, E>, t: nat, i: nat, j: nat)
    requires EntersOnce(q) && i < |q.accepted| && j < |q.accepted| && q.accepted[i] == q.accepted[j] == Flush(t)
    ensures i == j
  {}

  lemma FlushedIsSettled<S, F, E>(r: Reducer<S, F, E>, q: Queue<S, F, E>, t: nat) returns (k: nat)
    requires Ordered(q) && Sequential(r, q) && Flushed(q, t)
    ensures k < |q.accepted| && q.accepted[k] == Flush(t) && Settled(r, q, k)
  {
    k :| 0 <= k < |q.handed| && k < |q.reduced| && q.reduced[k] == Flush(t);
    HandedIsSettled(r, q, k);
    assert q.reduced[..k + 1][k] == q.accepted[..k + 1][k];
  }

  // Everything up to the i-th accepted message was reduced in order and its events handed on.
  ghost predicate Settled<S, F, E>(r: Reducer<S, F, E>, q: Queue<S, F, E>, i: nat)
    requires i < |q.accepted|
  {
    && i < |q.handed| && i < |q.reduced|
    && q.reduced[..i + 1] == q.accepted[..i + 1]
    && q.handed[..i + 1] == EventsOf(r, q.accepted[..i + 1])
  }

  lemma HandedIsSettled<S, F, E>(r: Reducer<S, F, E>, q: Queue<S, F, E>, i: nat)
    requires Ordered(q) && Sequential(r, q) && i < |q.handed| && i < |q.reduced|
    ensures i < |q.accepted| && Settled(r, q, i)
  {
    PrefixOfThree(q.reduced, InHand(q.worker), q.channel, i + 1);
    EventsOfPrefix(r, q.reduced, i + 1);
    PrefixOfTwo(q.handed, InFlight(q.worker), i + 1);
  }

  lemma PrefixOfTwo<T>(a: seq<T>, b: seq<T>, n: nat)
    requires n <= |a|
    ensures (a + b)[..n] == a[..n]
  {}

  lemma PrefixOfThree<T>(a: seq<T>, b: seq<T>, c: seq<T>, n: nat)
    requires n <= |a|
    ensures (a + b + c)[..n] == a[..n]
  {}

  // In every reachable state a fact is refused, and then leaves the queue alone, exactly when
  // each of the 256 slots holds a message or is held for a flush; while no flush holds one,
  // that is exactly when 256 messages are queued.
  lemma RefusedIffNoSlot<S, F, E>(r: Reducer<S, F, E>, steps: seq<Step<F>>, f: F)
    ensures var q := Run(r, steps);
            var q' := Next(r, q, TrySend(f));
            && (q'.offered == q.offered + [(f, false)] <==> Taken(q) == 256)
            && (Taken(q) == 256 ==> q' == q.(offered := q'.offered))
            && (q.granted == {} ==> (Taken(q) == 256 <==> |q.channel| == 256))
  {
    EveryScheduleKeepsInvariant(r, steps);
    var q := Run(r, steps);
    assert (q.offered + [(f, false)])[|q.offered|] == (f, false) && (q.offered + [(f, true)])[|q.offered|] == (f, true);
  }

  function Sends<F>(f: F, n: nat): seq<Step<F>> { seq(n, i => TrySend(f)) }

  lemma {:induction false} SendsFill<S, F, E>(r: Reducer<S, F, E>, f: F, n: nat)
    requires n <= 256
    ensures var q := Run(r, Sends(f, n));
            |q.channel| == n && q.granted == {} && q.waiting == [] && q.issued == {} && q.worker.Idle?
  {
    if n > 0 {
      assert Sends(f, n)[..n - 1] == Sends(f, n - 1);
      SendsFill(r, f, n - 1);
    }
  }

  lemma RunOneMore<S, F, E>(r: Reducer<S, F, E>, steps: seq<Step<F>>, step: Step<F>)
    ensures var q := Run(r, steps); Run(r, steps + [step]) == Stepped(r, q, step)
  {
    assert (steps + [step])[..|steps|] == steps;
  }

  // A fact can be refused with only 255 messages queued: the slot the worker freed is held for
  // the flush that was waiting.
  lemma RefusedBelowTheBound<S, F, E>(r: Reducer<S, F, E>, f: F)
    ensures var q := Run(r, Sends(f, 256) + [CallFlush(0)] + [Receive]);
            |q.channel| == 255 && Next(r, q, TrySend(f)).offered == q.offered + [(f, false)]
  {
    SendsFill<S, F, E>(r, f, 256);
    RunOneMore(r, Sends(f, 256), CallFlush(0));
    RunOneMore(r, Sends(f, 256) + [CallFlush(0)], Receive);
    assert [0][1..] == [] && {} + {0} == {0};
  }
}
