/**
  A flush is acknowledged: nothing the worker has reduced is left unanswered, and from every
  state the worker alone empties the channel and answers every flush that entered it.
 */
module FlushTheorems {
  import opened Common
  import opened AnalyticsQueue

  // ------------------------------------------------------------ no flush is forgotten

  // Acknowledged, or the worker is on the way to acknowledging it.
  predicate Answering<S, F, E>(q: Queue<S, F, E>, t: nat) {
    || t in q.acked
    || (q.worker.Sending? && q.worker.flushed == Some(t))
    || (q.worker.Acknowledging? && q.worker.ticket == t)
  }

  ghost predicate NoneForgotten<S, F, E>(q: Queue<S, F, E>) {
    forall i :: 0 <= i < |q.reduced| && q.reduced[i].Flush? ==> Answering(q, q.reduced[i].ticket)
  }

  lemma StepForgetsNone<S, F, E>(r: Reducer<S, F, E>, q: Queue<S, F, E>, step: Step<F>)
    requires Enabled(q, step) && NoneForgotten(q)
    ensures NoneForgotten(Next(r, q, step))
  {
    var q' := Next(r, q, step);
    if step.Reduce? {
      assert q'.reduced == q.reduced + [q.worker.message];
      forall i | 0 <= i < |q.reduced| ensures q'.reduced[i] == q.reduced[i] {}
    } else {
      assert q'.reduced == q.reduced;
      forall t | Answering(q, t) ensures Answering(q', t) {}
    }
  }

  // Under every schedule a flush the reducer has seen is acknowledged or being answered; while
  // the worker is idle they are all acknowledged.
  lemma {:induction false} ReducedFlushesAreAnswered<S, F, E>(r: Reducer<S, F, E>, steps: seq<Step<F>>)
    ensures var q := Run(r, steps);
            && NoneForgotten(q)
            && (q.worker.Idle? ==> forall t :: Flush(t) in q.reduced ==> t in q.acked)
  {
    if steps != [] {
      var before, step := Run(r, steps[..|steps| - 1]), steps[|steps| - 1];
      ReducedFlushesAreAnswered(r, steps[..|steps| - 1]);
      if Enabled(before, step) { StepForgetsNone(r, before, step); }
    }
    if Run(r, steps).worker.Idle? { IdleMeansAcked(Run(r, steps)); }
  }

  lemma IdleMeansAcked<S, F, E>(q: Queue<S, F, E>)
    requires NoneForgotten(q) && q.worker.Idle?
    ensures forall t :: Flush(t) in q.reduced ==> t in q.acked
  {
    forall t | Flush(t) in q.reduced ensures t in q.acked {
      var i :| 0 <= i < |q.reduced| && q.reduced[i] == Flush(t);
      assert Answering(q, q.reduced[i].ticket);
    }
  }

  // ------------------------------------------------------------ a flush gets a slot

  // A new flush call takes a free slot at once and can enter the channel with it; without a
  // free slot it waits behind those already waiting, and the next message the worker takes
  // gives its slot to the first of them.
  lemma FlushGetsSlot<S, F, E>(r: Reducer<S, F, E>, steps: seq<Step<F>>, t: nat)
    requires t !in Run(r, steps).issued
    ensures var q, called := Run(r, steps), Run(r, steps + [CallFlush(t)]);
            && (Taken(q) < 256 ==>
                  && called == q.(granted := q.granted + {t}, issued := q.issued + {t})
                  && Run(r, steps + [CallFlush(t)] + [EnqueueFlush(t)]).accepted == q.accepted + [Flush(t)])
            && (Taken(q) >= 256 ==> called == q.(waiting := q.waiting + [t], issued := q.issued + {t}))
  {
    RunOneMore(r, steps, CallFlush(t));
    RunOneMore(r, steps + [CallFlush(t)], EnqueueFlush(t));
  }

  lemma FirstWaitingGetsSlot<S, F, E>(r: Reducer<S, F, E>, steps: seq<Step<F>>)
    requires var q := Run(r, steps); q.worker.Idle? && q.channel != [] && q.waiting != []
    ensures var q, q' := Run(r, steps), Run(r, steps + [Receive]);
            && q'.granted == q.granted + {q.waiting[0]} && q'.waiting == q.waiting[1..]
            && q'.channel == q.channel[1..] && q'.worker == Received(q.channel[0])
  {
    RunOneMore(r, steps, Receive);
  }

  // ------------------------------------------------------------ the worker alone

  predicate IsWorkerStep<F>(s: Step<F>) { s.Receive? || s.Reduce? || s.HandOn? || s.Acknowledge? }

  predicate OnlyWorker<F>(more: seq<Step<F>>) { forall i :: 0 <= i < |more| ==> IsWorkerStep(more[i]) }

  // What worker steps leave alone.
  ghost predicate SameProducers<S, F, E>(q: Queue<S, F, E>, q': Queue<S, F, E>) {
    q'.accepted == q.accepted && q'.offered == q.offered && q'.issued == q.issued
  }

  // The worker finishes what it is doing, and takes nothing new.
  function Finishing<F>(): seq<Step<F>> { [Reduce] + [HandOn] + [Acknowledge] }

  lemma WorkerFinishes<S, F, E>(r: Reducer<S, F, E>, steps: seq<Step<F>>)
    ensures var q, q' := Run(r, steps), Run(r, steps + Finishing());
            && q'.worker.Idle? && q'.channel == q.channel && SameProducers(q, q')
            && q'.granted == q.granted && q'.waiting == q.waiting
  {
    var a := steps + [Reduce];
    var b := a + [HandOn];
    RunOneMore(r, steps, Reduce);
    RunOneMore(r, a, HandOn);
    RunOneMore(r, b, Acknowledge);
    assert b + [Acknowledge] == steps + Finishing();
  }

  // One more message taken out of the channel.
  lemma WorkerTakesOne<S, F, E>(r: Reducer<S, F, E>, steps: seq<Step<F>>)
    requires Run(r, steps).channel != []
    ensures var q, q' := Run(r, steps), Run(r, steps + (Finishing() + [Receive]));
            && q'.channel == q.channel[1..] && SameProducers(q, q')
            && (q.waiting == [] ==> q'.waiting == [] && q'.granted == q.granted)
            && (q.waiting != [] ==> q'.waiting == q.waiting[1..] && q'.granted == q.granted + {q.waiting[0]})
  {
    WorkerFinishes(r, steps);
    RunOneMore(r, steps + Finishing(), Receive);
    Associative(steps, Finishing(), [Receive]);
  }

  // Worker steps alone lead from every state to one with an empty channel and an idle worker.
  lemma {:induction false} WorkerEmptiesChannel<S, F, E>(r: Reducer<S, F, E>, steps: seq<Step<F>>)
    returns (more: seq<Step<F>>)
    ensures OnlyWorker(more)
    ensures var q, q' := Run(r, steps), Run(r, steps + more);
            q'.channel == [] && q'.worker.Idle? && SameProducers(q, q')
    decreases |Run(r, steps).channel|
  {
    if Run(r, steps).channel == [] {
      more := Finishing();
      WorkerFinishes(r, steps);
    } else {
      var one := Finishing() + [Receive];
      WorkerTakesOne(r, steps);
      more := WorkerEmptiesChannel(r, steps + one);
      Associative(steps, one, more);
      more := one + more;
    }
  }

  // There everything accepted so far has been reduced and its events handed on, and every
  // flush that entered the channel is acknowledged.
  lemma WorkerAnswersAll<S, F, E>(r: Reducer<S, F, E>, steps: seq<Step<F>>) returns (more: seq<Step<F>>)
    ensures OnlyWorker(more)
    ensures var accepted, q' := Run(r, steps).accepted, Run(r, steps + more);
            && q'.channel == [] && q'.worker.Idle?
            && q'.accepted == q'.reduced == accepted && q'.handed == EventsOf(r, accepted)
            && forall t :: Flush(t) in accepted ==> t in q'.acked
  {
    more := WorkerEmptiesChannel(r, steps);
    EveryScheduleKeepsInvariant(r, steps + more);
    NothingInFlight(r, Run(r, steps + more));
    ReducedFlushesAreAnswered(r, steps + more);
  }

  lemma NothingInFlight<S, F, E>(r: Reducer<S, F, E>, q: Queue<S, F, E>)
    requires Ordered(q) && Sequential(r, q) && q.worker.Idle? && q.channel == []
    ensures q.accepted == q.reduced && q.handed == EventsOf(r, q.reduced)
  {
    assert q.reduced + [] + [] == q.reduced;
    assert q.handed + [] == q.handed;
  }

  // ------------------------------------------------------------ every flush call completes

  // The call holds a slot, waits for one, or has entered the channel.
  ghost predicate Pending<S, F, E>(q: Queue<S, F, E>, t: nat) {
    t in q.granted || t in q.waiting || Flush(t) in q.accepted
  }

  predicate IsProgress<F>(s: Step<F>) { IsWorkerStep(s) || s.EnqueueFlush? }

  predicate OnlyProgress<F>(more: seq<Step<F>>) { forall i :: 0 <= i < |more| ==> IsProgress(more[i]) }

  ghost predicate KeepsPending<S, F, E>(q: Queue<S, F, E>, q': Queue<S, F, E>) {
    forall t :: Pending(q, t) ==> Pending(q', t)
  }

  lemma HolderEnters<S, F, E>(r: Reducer<S, F, E>, steps: seq<Step<F>>, t: nat)
    requires t in Run(r, steps).granted
    ensures var q, q' := Run(r, steps), Run(r, steps + [EnqueueFlush(t)]);
            && q'.granted == q.granted - {t} && q'.waiting == q.waiting && KeepsPending(q, q')
  {
    var q, q' := Run(r, steps), Run(r, steps + [EnqueueFlush(t)]);
    RunOneMore(r, steps, EnqueueFlush(t));
    assert q'.accepted == q.accepted + [Flush(t)];
    assert forall m :: m in q'.accepted <==> m in q.accepted || m == Flush(t);
  }

  lemma WaiterGetsSlot<S, F, E>(r: Reducer<S, F, E>, steps: seq<Step<F>>)
    requires var q := Run(r, steps); q.granted == {} && q.waiting != []
    ensures var q, q' := Run(r, steps), Run(r, steps + (Finishing() + [Receive]));
            && q'.granted == {q.waiting[0]} && q'.waiting == q.waiting[1..] && KeepsPending(q, q')
  {
    EveryScheduleKeepsInvariant(r, steps);
    WorkerTakesOne(r, steps);
    var q, q' := Run(r, steps), Run(r, steps + (Finishing() + [Receive]));
    assert q.granted + {q.waiting[0]} == {q.waiting[0]};
    assert q.waiting == [q.waiting[0]] + q'.waiting;
    assert forall t :: t in q.waiting ==> t == q.waiting[0] || t in q'.waiting;
  }

  // When those who hold a slot use it, everyone waiting gets one in turn.
  lemma {:induction false} AllEnter<S, F, E>(r: Reducer<S, F, E>, steps: seq<Step<F>>) returns (more: seq<Step<F>>)
    ensures OnlyProgress(more)
    ensures var q, q' := Run(r, steps), Run(r, steps + more);
            q'.granted == {} && q'.waiting == [] && KeepsPending(q, q')
    decreases 2 * |Run(r, steps).waiting| + |Run(r, steps).granted|
  {
    var q := Run(r, steps);
    if q.granted != {} {
      var t :| t in q.granted;
      HolderEnters(r, steps, t);
      more := AllEnter(r, steps + [EnqueueFlush(t)]);
      Associative(steps, [EnqueueFlush(t)], more);
      more := [EnqueueFlush(t)] + more;
    } else if q.waiting != [] {
      var one := Finishing() + [Receive];
      WaiterGetsSlot(r, steps);
      more := AllEnter(r, steps + one);
      Associative(steps, one, more);
      more := one + more;
    } else {
      more := [];
      assert steps + [] == steps;
    }
  }

  // No flush call can be stuck: from every state, worker steps and the entering of flushes that
  // hold a slot acknowledge every call that has not been given up.
  lemma EveryFlushCompletes<S, F, E>(r: Reducer<S, F, E>, steps: seq<Step<F>>) returns (more: seq<Step<F>>)
    ensures OnlyProgress(more)
    ensures var q, q' := Run(r, steps), Run(r, steps + more);
            forall t :: Pending(q, t) ==> t in q'.acked
  {
    var enter := AllEnter(r, steps);
    var drain := WorkerAnswersAll(r, steps + enter);
    Associative(steps, enter, drain);
    more := enter + drain;
  }
}
