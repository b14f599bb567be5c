/**
  Splitting events into requests: events that must travel alone get their own request,
  runs of the others share one.  Which events travel alone is a parameter.
 */
module EventBatches {
  import opened Common

  type Alone<!E> = E -> bool

  function Close<E>(batches: seq<seq<E>>, current: seq<E>): seq<seq<E>> {
    if current != [] then batches + [current] else batches
  }

  // The finished batches and the batch being filled.
  function Fill<E>(alone: Alone<E>, events: seq<E>): (seq<seq<E>>, seq<E>) {
    if events == [] then ([], []) else
      var (batches, current) := Fill(alone, events[..|events| - 1]);
      var e := events[|events| - 1];
      if alone(e) then (Close(batches, current) + [[e]], [])
      else (batches, current + [e])
  }

  function Batches<E>(alone: Alone<E>, events: seq<E>): seq<seq<E>> {
    Close(Fill(alone, events).0, Fill(alone, events).1)
  }

  method TrackEventRequestBatches<E>(alone: Alone<E>, events: seq<E>) returns (batches: seq<seq<E>>)
    ensures batches == Batches(alone, events)
  {
    batches := [];
    var current: seq<E> := [];
    for i := 0 to |events|
      invariant (batches, current) == Fill(alone, events[..i])
    {
      assert events[..i + 1][..i] == events[..i];
      if alone(events[i]) {
        if |current| != 0 {
          batches := batches + [current];
          current := [];
        }
        batches := batches + [[events[i]]];
      } else {
        current := current + [events[i]];
      }
    }
    assert events[..|events|] == events;
    if |current| != 0 { batches := batches + [current]; }
  }

  function Flatten<E>(bs: seq<seq<E>>): seq<E> {
    if bs == [] then [] else Flatten(bs[..|bs| - 1]) + bs[|bs| - 1]
  }

  // A split that isolates what must travel alone.
  ghost predicate Isolates<E>(alone: Alone<E>, bs: seq<seq<E>>) {
    forall i, j :: 0 <= i < |bs| && 0 <= j < |bs[i]| && alone(bs[i][j]) ==> |bs[i]| == 1
  }

  ghost predicate NoneEmpty<E>(bs: seq<seq<E>>) {
    forall i :: 0 <= i < |bs| ==> bs[i] != []
  }

  ghost predicate NoneAlone<E>(alone: Alone<E>, b: seq<E>) {
    forall j :: 0 <= j < |b| ==> !alone(b[j])
  }

  lemma FlattenAppend<E>(bs: seq<seq<E>>, b: seq<E>)
    ensures Flatten(bs + [b]) == Flatten(bs) + b
  {
    assert (bs + [b])[..|bs|] == bs;
  }

  lemma FlattenClose<E>(batches: seq<seq<E>>, current: seq<E>)
    ensures Flatten(Close(batches, current)) == Flatten(batches) + current
  {
    FlattenAppend(batches, current);
  }

  lemma {:induction false} FillFlattens<E>(alone: Alone<E>, events: seq<E>)
    ensures Flatten(Fill(alone, events).0) + Fill(alone, events).1 == events
  {
    if events != [] {
      var n := |events| - 1;
      FillFlattens(alone, events[..n]);
      var (batches, current) := Fill(alone, events[..n]);
      assert events == events[..n] + [events[n]];
      if alone(events[n]) {
        FlattenClose(batches, current);
        FlattenAppend(Close(batches, current), [events[n]]);
      } else {
        Associative(Flatten(batches), current, [events[n]]);
      }
    }
  }

  lemma {:induction false} FillIsolates<E>(alone: Alone<E>, events: seq<E>)
    ensures var (batches, current) := Fill(alone, events);
            NoneEmpty(batches) && Isolates(alone, batches) && NoneAlone(alone, current)
  {
    if events != [] { FillIsolates(alone, events[..|events| - 1]); }
  }

  lemma CloseIsolates<E>(alone: Alone<E>, batches: seq<seq<E>>, current: seq<E>)
    requires NoneEmpty(batches) && Isolates(alone, batches) && NoneAlone(alone, current)
    ensures NoneEmpty(Close(batches, current)) && Isolates(alone, Close(batches, current))
  {
    var bs := Close(batches, current);
    forall i, j | 0 <= i < |bs| && 0 <= j < |bs[i]| && alone(bs[i][j]) ensures |bs[i]| == 1 {
      assert i < |batches| ==> bs[i] == batches[i];
    }
  }

  // The batches hold the events in order, none is empty, and what must travel alone does.
  lemma BatchesAreASplit<E>(alone: Alone<E>, events: seq<E>)
    ensures Flatten(Batches(alone, events)) == events
    ensures NoneEmpty(Batches(alone, events)) && Isolates(alone, Batches(alone, events))
  {
    FillFlattens(alone, events);
    FillIsolates(alone, events);
    var (batches, current) := Fill(alone, events);
    FlattenClose(batches, current);
    CloseIsolates(alone, batches, current);
  }

  // Events that may share a request only lengthen the batch being filled.
  lemma {:induction false} FillShared<E>(alone: Alone<E>, events: seq<E>, b: seq<E>)
    requires NoneAlone(alone, b)
    ensures Fill(alone, events + b) == (Fill(alone, events).0, Fill(alone, events).1 + b)
  {
    if b == [] {
      assert events + b == events && Fill(alone, events).1 + b == Fill(alone, events).1;
    } else {
      var n := |b| - 1;
      FillShared(alone, events, b[..n]);
      assert (events + b)[..|events + b| - 1] == events + b[..n];
      assert (events + b)[|events + b| - 1] == b[n];
      Associative(Fill(alone, events).1, b[..n], [b[n]]);
      assert b == b[..n] + [b[n]];
    }
  }

  // One more batch of any isolating split costs at most one more request.
  lemma BatchCostsOne<E>(alone: Alone<E>, events: seq<E>, b: seq<E>)
    requires NoneAlone(alone, b) || |b| == 1
    ensures |Batches(alone, events + b)| <= |Batches(alone, events)| + 1
  {
    if NoneAlone(alone, b) {
      FillShared(alone, events, b);
    } else {
      assert (events + b)[..|events|] == events;
    }
  }

  // No order-preserving split that isolates the same events uses fewer requests.
  lemma {:induction false} BatchesAreFewest<E>(alone: Alone<E>, bs: seq<seq<E>>)
    requires Isolates(alone, bs)
    ensures |Batches(alone, Flatten(bs))| <= |bs|
  {
    if bs != [] {
      var n := |bs| - 1;
      BatchesAreFewest(alone, bs[..n]);
      assert NoneAlone(alone, bs[n]) || |bs[n]| == 1 by {
        forall j | 0 <= j < |bs[n]| ensures alone(bs[n][j]) ==> |bs[n]| == 1 {}
      }
      BatchCostsOne(alone, Flatten(bs[..n]), bs[n]);
    }
  }
}
