/**
  Nothing is lost in the pump: every consumed message is either returned as the response
  of the request that was waiting for it or kept, in order, in `events`; every server
  request that finds the process alive is answered once; and a notification cannot be missed by asking late.
 */
module PumpTheorems {
  import opened Common
  import opened MessagePump

  function MessagesIn(ds: seq<Delivery>): seq<Message> {
    if ds == [] then [] else
      MessagesIn(ds[..|ds| - 1]) + (if ds[|ds| - 1].Delivered? then [ds[|ds| - 1].message] else [])
  }

  // The answers owed for the server requests among `ms`, in order.
  function Replies(answer: Answer, ms: seq<Message>): seq<Outgoing> {
    if ms == [] then [] else
      Replies(answer, ms[..|ms| - 1]) + (if IsServerRequest(ms[|ms| - 1]) then [ReplyTo(answer, ms[|ms| - 1])] else [])
  }

  function ElicitedBy(ms: seq<Message>): seq<Params> {
    if ms == [] then [] else ElicitedBy(ms[..|ms| - 1]) + Elicited(ms[|ms| - 1])
  }

  predicate IsRequested(d: Delivery) { d.Delivered? && IsServerRequest(d.message) }

  // The process was gone when this server request was to be answered.
  predicate IsUnanswered(d: Delivery) { IsRequested(d) && !d.writable }

  function OwedBy(answer: Answer, d: Delivery): seq<Outgoing> {
    if IsRequested(d) && d.writable then [ReplyTo(answer, d.message)] else []
  }

  // The answers that could be sent for the server requests among `ds`, in order.
  function Owed(answer: Answer, ds: seq<Delivery>): seq<Outgoing> {
    if ds == [] then [] else Owed(answer, ds[..|ds| - 1]) + OwedBy(answer, ds[|ds| - 1])
  }

  lemma {:induction false} OwedAppend(answer: Answer, a: seq<Delivery>, b: seq<Delivery>)
    ensures Owed(answer, a + b) == Owed(answer, a) + Owed(answer, b)
  {
    if b == [] {
      assert a + b == a;
    } else {
      var n := |b| - 1;
      assert (a + b)[..|a + b| - 1] == a + b[..n];
      OwedAppend(answer, a, b[..n]);
    }
  }

  lemma OwedOne(answer: Answer, d: Delivery)
    ensures Owed(answer, [d]) == OwedBy(answer, d)
  {
    assert [d][..0] == [];
  }

  lemma {:induction false} MessagesInAppend(a: seq<Delivery>, b: seq<Delivery>)
    ensures MessagesIn(a + b) == MessagesIn(a) + MessagesIn(b)
  {
    if b == [] {
      assert a + b == a;
    } else {
      var n := |b| - 1;
      assert (a + b)[..|a + b| - 1] == a + b[..n];
      MessagesInAppend(a, b[..n]);
    }
  }

  lemma {:induction false} ElicitedAppend(a: seq<Message>, b: seq<Message>)
    ensures ElicitedBy(a + b) == ElicitedBy(a) + ElicitedBy(b)
  {
    if b == [] {
      assert a + b == a;
    } else {
      var n := |b| - 1;
      assert (a + b)[..|a + b| - 1] == a + b[..n];
      ElicitedAppend(a, b[..n]);
    }
  }

  // ------------------------------------------------------------ one wait

  // From `s` to `t` the deliveries `ds` were taken: `kept` went to the events, and every
  // server request among `ds` that could be answered was.
  ghost predicate Moved(answer: Answer, s: Client, t: Client, kept: seq<Message>, ds: seq<Delivery>) {
    && t.nextId == s.nextId
    && t.events == s.events + kept
    && t.elicitations == s.elicitations + ElicitedBy(kept)
    && t.sent == s.sent + Owed(answer, ds)
  }

  // The first `n` deliveries were taken.
  ghost predicate TookFirst(s: Client, t: Client, n: nat) {
    n <= |s.inbox| && t.inbox == s.inbox[n..]
  }

  // The wait failed for want of an answer iff its last delivery went unanswered; no other did.
  ghost predicate FailsAtLast(ds: seq<Delivery>, out: Outcome) {
    && (out == Raised(Exited) <==> ds != [] && IsUnanswered(ds[|ds| - 1]))
    && forall i :: 0 <= i < |ds| - 1 ==> !IsUnanswered(ds[i])
  }

  // Neither wait ends on this delivery unless its message is the one waited for.
  predicate IsPassed(d: Delivery) { d.Delivered? && (IsServerRequest(d.message) ==> d.writable) }

  function Passed(answer: Answer, s: Client): Client
    requires s.inbox != [] && IsPassed(s.inbox[0])
  {
    var m := s.inbox[0].message;
    if IsServerRequest(m) then Replied(answer, Took(s), m) else Took(s).(events := s.events + [m])
  }

  // Taking one delivery that ends nothing.
  lemma PassedMoves(answer: Answer, s: Client)
    requires s.inbox != [] && IsPassed(s.inbox[0])
    ensures Moved(answer, s, Passed(answer, s), [s.inbox[0].message], [s.inbox[0]])
  {
    var d := s.inbox[0];
    assert ElicitedBy([d.message]) == Elicited(d.message) by { assert [d.message][..0] == []; }
    if !IsElicitation(d.message) { assert Elicited(d.message) == []; }
    OwedOne(answer, d);
  }

  lemma MovedTwice(answer: Answer, s: Client, u: Client, t: Client, a: seq<Message>, b: seq<Message>, ds: seq<Delivery>,
                   es: seq<Delivery>)
    requires Moved(answer, s, u, a, ds) && Moved(answer, u, t, b, es)
    ensures Moved(answer, s, t, a + b, ds + es)
  {
    ElicitedAppend(a, b);
    OwedAppend(answer, ds, es);
    Associative(s.events, a, b);
    Associative(s.elicitations, ElicitedBy(a), ElicitedBy(b));
    Associative(s.sent, Owed(answer, ds), Owed(answer, es));
  }

  lemma FailsLater(d: Delivery, ds: seq<Delivery>, out: Outcome)
    requires !IsUnanswered(d) && FailsAtLast(ds, out)
    ensures FailsAtLast([d] + ds, out)
  {
    var all := [d] + ds;
    forall i | 0 <= i < |all| - 1 ensures !IsUnanswered(all[i]) { if i > 0 { assert all[i] == ds[i - 1]; } }
  }

  lemma TookOneMore(s: Client, s1: Client, t: Client, n: nat)
    requires s.inbox != [] && s1.inbox == s.inbox[1..] && TookFirst(s1, t, n)
    ensures TookFirst(s, t, n + 1)
    ensures s.inbox[..n + 1] == [s.inbox[0]] + s1.inbox[..n]
    ensures MessagesIn(s.inbox[..n + 1]) == MessagesIn([s.inbox[0]]) + MessagesIn(s1.inbox[..n])
  {
    assert s.inbox[..n + 1] == [s.inbox[0]] + s1.inbox[..n];
    MessagesInAppend([s.inbox[0]], s1.inbox[..n]);
  }

  lemma SingleMessage(d: Delivery)
    ensures MessagesIn([d]) == if d.Delivered? then [d.message] else []
  {
    assert [d][..0] == [];
  }

  ghost predicate ResponseOutcome(answer: Answer, s: Client, id: int, n: nat, kept: seq<Message>) {
    var (t, out) := AwaitResponse(answer, s, id);
    ResponseParts(answer, s, t, out, id, n, kept)
  }

  // What both waits have in common: `handed` was taken and not kept.
  ghost predicate Waited(answer: Answer, s: Client, t: Client, out: Outcome, n: nat, kept: seq<Message>,
                         handed: seq<Message>) {
    && TookFirst(s, t, n)
    && Moved(answer, s, t, kept, s.inbox[..n])
    && MessagesIn(s.inbox[..n]) == kept + handed
    && FailsAtLast(s.inbox[..n], out)
  }

  lemma WaitedLonger(answer: Answer, s: Client, t: Client, out: Outcome, n: nat, kept: seq<Message>,
                     handed: seq<Message>)
    requires s.inbox != [] && IsPassed(s.inbox[0]) && Waited(answer, Passed(answer, s), t, out, n, kept, handed)
    ensures Waited(answer, s, t, out, n + 1, [s.inbox[0].message] + kept, handed)
  {
    var d, rest := s.inbox[0], s.inbox[1..][..n];
    TookOneMore(s, Passed(answer, s), t, n);
    SingleMessage(d);
    PassedMoves(answer, s);
    MovedTwice(answer, s, Passed(answer, s), t, [d.message], kept, [d], rest);
    FailsLater(d, rest, out);
    Associative([d.message], kept, handed);
  }

  ghost predicate ResponseParts(answer: Answer, s: Client, t: Client, out: Outcome, id: int, n: nat,
                                kept: seq<Message>) {
    && Waited(answer, s, t, out, n, kept, if out.Returned? then [out.message] else [])
    && (out.Returned? ==> IsResponse(out.message, id))
    && (forall m :: m in kept ==> !IsResponse(m, id))
  }

  lemma NothingMoved(answer: Answer, s: Client, t: Client, ds: seq<Delivery>)
    requires t == s || (s.inbox != [] && t == Took(s))
    requires Owed(answer, ds) == []
    ensures Moved(answer, s, t, [], ds)
  {}

  lemma NotedMoved(answer: Answer, s: Client, d: Delivery)
    requires s.inbox != [] && IsUnanswered(d)
    ensures Moved(answer, s, Noted(Took(s), d.message), [d.message], [d])
  {
    assert ElicitedBy([d.message]) == Elicited(d.message) by { assert [d.message][..0] == []; }
    OwedOne(answer, d);
  }

  lemma NothingTaken(s: Client)
    ensures s.inbox[..0] == [] && MessagesIn(s.inbox[..0]) == []
  {
    assert s.inbox[..0] == [];
  }

  lemma FirstTaken(s: Client)
    requires s.inbox != []
    ensures TookFirst(s, Took(s), 1) && s.inbox[..1] == [s.inbox[0]]
    ensures MessagesIn(s.inbox[..1]) == if s.inbox[0].Delivered? then [s.inbox[0].message] else []
  {
    assert s.inbox[..1] == [s.inbox[0]];
    SingleMessage(s.inbox[0]);
  }

  lemma ResponseEnds(answer: Answer, s: Client, id: int) returns (n: nat, kept: seq<Message>)
    requires s.inbox == [] || !IsPassed(s.inbox[0]) || IsResponse(s.inbox[0].message, id)
    ensures ResponseOutcome(answer, s, id, n, kept)
  {
    n, kept := 0, [];
    if s.inbox == [] {
      NothingTaken(s);
      NothingMoved(answer, s, s, []);
    } else {
      FirstTaken(s);
      n := 1;
      var d := s.inbox[0];
      OwedOne(answer, d);
      if !d.Delivered? || IsResponse(d.message, id) {
        NothingMoved(answer, s, Took(s), [d]);
      } else {
        NotedMoved(answer, s, d);
        kept := [d.message];
      }
    }
  }

  // A request consumes a stretch of the stream, returns its last message if that is its
  // response, and keeps everything else.
  lemma {:induction false} ResponseConserves(answer: Answer, s: Client, id: int) returns (n: nat, kept: seq<Message>)
    ensures ResponseOutcome(answer, s, id, n, kept)
    decreases |s.inbox|
  {
    if s.inbox == [] || !IsPassed(s.inbox[0]) || IsResponse(s.inbox[0].message, id) {
      n, kept := ResponseEnds(answer, s, id);
    } else {
      n, kept := ResponseConserves(answer, Passed(answer, s), id);
      n, kept := ResponseContinues(answer, s, id, n, kept);
    }
  }

  lemma ResponsePasses(answer: Answer, s: Client, id: int)
    requires s.inbox != [] && IsPassed(s.inbox[0]) && !IsResponse(s.inbox[0].message, id)
    ensures AwaitResponse(answer, s, id) == AwaitResponse(answer, Passed(answer, s), id)
  {}

  lemma ResponseContinues(answer: Answer, s: Client, id: int, n1: nat, kept1: seq<Message>)
    returns (n: nat, kept: seq<Message>)
    requires s.inbox != [] && IsPassed(s.inbox[0]) && !IsResponse(s.inbox[0].message, id)
    requires ResponseOutcome(answer, Passed(answer, s), id, n1, kept1)
    ensures ResponseOutcome(answer, s, id, n, kept)
  {
    n, kept := n1 + 1, [s.inbox[0].message] + kept1;
    var (t, out) := AwaitResponse(answer, Passed(answer, s), id);
    ResponsePasses(answer, s, id);
    ResponsePartsContinue(answer, s, t, out, id, n1, kept1);
  }

  lemma ResponsePartsContinue(answer: Answer, s: Client, t: Client, out: Outcome, id: int, n1: nat,
                              kept1: seq<Message>)
    requires s.inbox != [] && IsPassed(s.inbox[0]) && !IsResponse(s.inbox[0].message, id)
    requires ResponseParts(answer, Passed(answer, s), t, out, id, n1, kept1)
    ensures ResponseParts(answer, s, t, out, id, n1 + 1, [s.inbox[0].message] + kept1)
  {
    WaitedLonger(answer, s, t, out, n1, kept1, if out.Returned? then [out.message] else []);
  }

  ghost predicate NotificationOutcome(answer: Answer, s: Client, name: string, wanted: Wanted, n: nat,
                                      kept: seq<Message>) {
    var (t, out) := AwaitNotification(answer, s, name, wanted);
    NotificationParts(answer, s, t, out, name, wanted, n, kept)
  }

  ghost predicate NotificationParts(answer: Answer, s: Client, t: Client, out: Outcome, name: string, wanted: Wanted,
                                    n: nat, kept: seq<Message>) {
    && Waited(answer, s, t, out, n, kept, [])
    && (out.Returned? ==> kept != [] && kept[|kept| - 1] == out.message &&
                          IsMatch(out.message, name, wanted) && !IsServerRequest(out.message))
    && Unmatched(kept, |kept| - (if out.Returned? then 1 else 0), name, wanted)
  }

  // None of the first `k` messages is a match that is not a server request.
  ghost predicate Unmatched(ms: seq<Message>, k: int, name: string, wanted: Wanted)
    requires k <= |ms|
  {
    forall i :: 0 <= i < k ==> IsServerRequest(ms[i]) || !IsMatch(ms[i], name, wanted)
  }

  predicate IsAwaited(d: Delivery, name: string, wanted: Wanted) {
    d.Delivered? && !IsServerRequest(d.message) && IsMatch(d.message, name, wanted)
  }

  lemma NotificationEnds(answer: Answer, s: Client, name: string, wanted: Wanted) returns (n: nat, kept: seq<Message>)
    requires s.inbox == [] || !IsPassed(s.inbox[0]) || IsAwaited(s.inbox[0], name, wanted)
    ensures NotificationOutcome(answer, s, name, wanted, n, kept)
  {
    n, kept := 0, [];
    if s.inbox == [] {
      NothingTaken(s);
      NothingMoved(answer, s, s, []);
    } else {
      FirstTaken(s);
      n := 1;
      var d := s.inbox[0];
      OwedOne(answer, d);
      if !d.Delivered? {
        NothingMoved(answer, s, Took(s), [d]);
      } else {
        kept := [d.message];
        if IsPassed(d) { PassedMoves(answer, s); } else { NotedMoved(answer, s, d); }
      }
    }
  }

  // A wait keeps everything it consumes and returns the first match that is not a server request.
  lemma {:induction false} NotificationConserves(answer: Answer, s: Client, name: string, wanted: Wanted)
    returns (n: nat, kept: seq<Message>)
    ensures NotificationOutcome(answer, s, name, wanted, n, kept)
    decreases |s.inbox|
  {
    if s.inbox == [] || !IsPassed(s.inbox[0]) || IsAwaited(s.inbox[0], name, wanted) {
      n, kept := NotificationEnds(answer, s, name, wanted);
    } else {
      n, kept := NotificationConserves(answer, Passed(answer, s), name, wanted);
      n, kept := NotificationContinues(answer, s, name, wanted, n, kept);
    }
  }

  lemma NotificationPasses(answer: Answer, s: Client, name: string, wanted: Wanted)
    requires s.inbox != [] && IsPassed(s.inbox[0]) && !IsAwaited(s.inbox[0], name, wanted)
    ensures AwaitNotification(answer, s, name, wanted) == AwaitNotification(answer, Passed(answer, s), name, wanted)
  {}

  lemma NotificationContinues(answer: Answer, s: Client, name: string, wanted: Wanted, n1: nat, kept1: seq<Message>)
    returns (n: nat, kept: seq<Message>)
    requires s.inbox != [] && IsPassed(s.inbox[0]) && !IsAwaited(s.inbox[0], name, wanted)
    requires NotificationOutcome(answer, Passed(answer, s), name, wanted, n1, kept1)
    ensures NotificationOutcome(answer, s, name, wanted, n, kept)
  {
    n, kept := n1 + 1, [s.inbox[0].message] + kept1;
    var (t, out) := AwaitNotification(answer, Passed(answer, s), name, wanted);
    NotificationPasses(answer, s, name, wanted);
    NotificationPartsContinue(answer, s, t, out, name, wanted, n1, kept1);
  }

  lemma NotificationPartsContinue(answer: Answer, s: Client, t: Client, out: Outcome, name: string, wanted: Wanted,
                                  n1: nat, kept1: seq<Message>)
    requires s.inbox != [] && IsPassed(s.inbox[0]) && !IsAwaited(s.inbox[0], name, wanted)
    requires NotificationParts(answer, Passed(answer, s), t, out, name, wanted, n1, kept1)
    ensures NotificationParts(answer, s, t, out, name, wanted, n1 + 1, [s.inbox[0].message] + kept1)
  {
    WaitedLonger(answer, s, t, out, n1, kept1, []);
    UnmatchedExtends(s.inbox[0].message, kept1, |kept1| - (if out.Returned? then 1 else 0), name, wanted);
  }

  lemma UnmatchedExtends(m: Message, kept: seq<Message>, k: int, name: string, wanted: Wanted)
    requires k <= |kept| && Unmatched(kept, k, name, wanted) && (IsServerRequest(m) || !IsMatch(m, name, wanted))
    ensures Unmatched([m] + kept, k + 1, name, wanted)
  {
    forall i | 0 <= i < k + 1 ensures IsServerRequest(([m] + kept)[i]) || !IsMatch(([m] + kept)[i], name, wanted) {
      if i > 0 { assert ([m] + kept)[i] == kept[i - 1]; }
    }
  }

  // ------------------------------------------------------------ what a wait ends with

  // The first `k` deliveries go by: none is a failure, an unanswered request or what is waited for.
  ghost predicate AllPass(ds: seq<Delivery>, k: nat, sought: Message -> bool)
    requires k <= |ds|
  {
    forall j :: 0 <= j < k ==> IsPassed(ds[j]) && !sought(ds[j].message)
  }

  // A wait gets no further than here.
  predicate Stops(ds: seq<Delivery>, k: nat, sought: Message -> bool)
    requires k <= |ds|
  {
    k < |ds| ==> !IsPassed(ds[k]) || sought(ds[k].message)
  }

  // A message that is waited for and can be taken as such.
  predicate Found(d: Delivery, sought: Message -> bool) { d.Delivered? && sought(d.message) }

  lemma {:induction false} ResponseAt(answer: Answer, s: Client, id: int, k: nat)
    requires k <= |s.inbox| && AllPass(s.inbox, k, m => IsResponse(m, id))
    ensures k == |s.inbox| ==> AwaitResponse(answer, s, id).1 == Raised(Timeout)
    ensures k < |s.inbox| ==>
              var d, out := s.inbox[k], AwaitResponse(answer, s, id).1;
              && (d == StreamClosed ==> out == Raised(Closed))
              && (d == TimedOut ==> out == Raised(Timeout))
              && (Found(d, m => IsResponse(m, id)) ==> out == Returned(d.message))
              && (IsUnanswered(d) ==> out == Raised(Exited))
    decreases |s.inbox|
  {
    if k > 0 {
      assert IsPassed(s.inbox[0]) && !IsResponse(s.inbox[0].message, id);
      ResponsePasses(answer, s, id);
      var s1 := Passed(answer, s);
      forall j | 0 <= j < k - 1 ensures IsPassed(s1.inbox[j]) && !IsResponse(s1.inbox[j].message, id) {
        assert s1.inbox[j] == s.inbox[j + 1];
      }
      ResponseAt(answer, s1, id, k - 1);
    }
  }

  // A request that could be sent sends itself, under a new id, and then the answers it owes.
  // It returns its response exactly when that arrives before the stream ends, a wait times out
  // or an answer cannot be written; and it says which of these came first.
  lemma RequestReturnsIff(answer: Answer, s: Client, name: string, params: Option<Params>, m: Message)
    ensures var (t, out) := Requested(answer, s, name, params, true);
            && (out == Returned(m) <==>
                  exists k :: 0 <= k < |s.inbox| && s.inbox[k].Delivered? && s.inbox[k].message == m &&
                              m.id == Some(Number(s.nextId)) && m.action == NoMethod &&
                              AllPass(s.inbox, k, r => IsResponse(r, s.nextId)))
            && (out == Raised(Closed) <==>
                  exists k :: 0 <= k < |s.inbox| && s.inbox[k] == StreamClosed &&
                              AllPass(s.inbox, k, r => IsResponse(r, s.nextId)))
            && (out == Raised(Exited) <==>
                  exists k :: 0 <= k < |s.inbox| && IsUnanswered(s.inbox[k]) &&
                              AllPass(s.inbox, k, r => IsResponse(r, s.nextId)))
            && (out == Raised(Timeout) <==>
                  exists k :: 0 <= k <= |s.inbox| && (k < |s.inbox| ==> s.inbox[k] == TimedOut) &&
                              AllPass(s.inbox, k, r => IsResponse(r, s.nextId)))
  {
    var s1 := s.(nextId := s.nextId + 1, sent := s.sent + [Request(s.nextId, name, params)]);
    var sought: Message -> bool := r => IsResponse(r, s.nextId);
    var k := FirstStop(s.inbox, sought);
    ResponseAt(answer, s1, s.nextId, k);
    forall j: nat | j <= |s.inbox| && AllPass(s.inbox, j, sought) && Stops(s.inbox, j, sought)
      ensures j == k
    {
      StopIsFirst(s.inbox, sought, k, j);
    }
  }

  lemma {:induction false} FirstStop(ds: seq<Delivery>, sought: Message -> bool) returns (k: nat)
    ensures k <= |ds| && AllPass(ds, k, sought)
    ensures Stops(ds, k, sought)
  {
    k := 0;
    while k < |ds| && IsPassed(ds[k]) && !sought(ds[k].message)
      invariant k <= |ds| && AllPass(ds, k, sought)
    {
      k := k + 1;
    }
  }

  lemma StopIsFirst(ds: seq<Delivery>, sought: Message -> bool, k: nat, j: nat)
    requires k <= |ds| && AllPass(ds, k, sought) && Stops(ds, k, sought)
    requires j <= |ds| && AllPass(ds, j, sought) && Stops(ds, j, sought)
    ensures j == k
  {
    NotBeyond(ds, sought, k, j);
    NotBeyond(ds, sought, j, k);
  }

  lemma NotBeyond(ds: seq<Delivery>, sought: Message -> bool, k: nat, j: nat)
    requires k <= |ds| && Stops(ds, k, sought) && j <= |ds| && AllPass(ds, j, sought)
    ensures j <= k
  {}

  lemma {:induction false} NotificationAt(answer: Answer, s: Client, name: string, wanted: Wanted, k: nat)
    requires k <= |s.inbox| && AllPass(s.inbox, k, m => !IsServerRequest(m) && IsMatch(m, name, wanted))
    ensures k == |s.inbox| ==> AwaitNotification(answer, s, name, wanted).1 == Raised(Timeout)
    ensures k < |s.inbox| ==>
              var d, out := s.inbox[k], AwaitNotification(answer, s, name, wanted).1;
              && (d == StreamClosed ==> out == Raised(Closed))
              && (d == TimedOut ==> out == Raised(Timeout))
              && (IsAwaited(d, name, wanted) ==> out == Returned(d.message))
              && (IsUnanswered(d) ==> out == Raised(Exited))
    decreases |s.inbox|
  {
    if k > 0 {
      assert IsPassed(s.inbox[0]) && !IsAwaited(s.inbox[0], name, wanted);
      NotificationPasses(answer, s, name, wanted);
      var s1 := Passed(answer, s);
      forall j | 0 <= j < k - 1 ensures IsPassed(s1.inbox[j]) && !IsAwaited(s1.inbox[j], name, wanted) {
        assert s1.inbox[j] == s.inbox[j + 1];
      }
      NotificationAt(answer, s1, name, wanted, k - 1);
    }
  }

  // What a request puts on the wire: itself, with the next id, and then what it owes; nothing
  // at all when the process is gone.
  lemma RequestIsSent(answer: Answer, s: Client, name: string, params: Option<Params>, writable: bool)
    ensures var (t, out) := Requested(answer, s, name, params, writable);
            && t.nextId == s.nextId + 1
            && (!writable ==> t.sent == s.sent && t.events == s.events && t.inbox == s.inbox && out == Raised(Exited))
            && (writable ==> s.sent + [Request(s.nextId, name, params)] <= t.sent)
  {
    if writable {
      var s1 := s.(nextId := s.nextId + 1, sent := s.sent + [Request(s.nextId, name, params)]);
      var n, kept := ResponseConserves(answer, s1, s.nextId);
    }
  }

  // An answer carries its request's id: an elicitation is accepted with the configured content,
  // or the built-in one, for its own parameters; anything else is unsupported by name.
  lemma AnswerMeaning(answer: Answer, id: Id, name: string, params: Typed<Params>)
    ensures var reply := ReplyTo(answer, Message(Some(id), Method(name), params));
            if name != "mcpServer/elicitation/request" then reply == Unsupported(id, name)
            else if answer.None? then reply == Accept(id, "{\"confirmation\":\"confirmed\"}")
            else reply == Accept(id, answer.value(if params.Is? then params.value else Params("{}")))
  {}

  // An elicitation is recorded exactly when it has parameters.
  lemma ElicitationsAreRecorded(ms: seq<Message>, m: Message)
    ensures ElicitedBy(ms + [m]) ==
            if m.id.Some? && m.action == Method("mcpServer/elicitation/request") && m.params.Is?
            then ElicitedBy(ms) + [m.params.value] else ElicitedBy(ms)
  {
    assert (ms + [m])[..|ms|] == ms;
    assert ElicitedBy(ms) + [] == ElicitedBy(ms);
  }

  // ------------------------------------------------------------ any sequence of calls

  datatype Call =
    | CallRequest(name: string, params: Option<Params>, writable: bool)
    | CallWait(name: string, wanted: Wanted, after: int)

  function Do(answer: Answer, s: Client, c: Call): (Client, Outcome) {
    match c
    case CallRequest(name, params, writable) => Requested(answer, s, name, params, writable)
    case CallWait(name, wanted, after) => Awaited(answer, s, name, wanted, after)
  }

  function RunCalls(answer: Answer, s: Client, calls: seq<Call>): (Client, seq<Outcome>) {
    if calls == [] then (s, []) else
      var (t, outs) := RunCalls(answer, s, calls[..|calls| - 1]);
      var (t', out) := Do(answer, t, calls[|calls| - 1]);
      (t', outs + [out])
  }

  // What the call takes out of the stream for its caller.
  function ResponseOf(c: Call, out: Outcome): seq<Message> {
    if c.CallRequest? && out.Returned? then [out.message] else []
  }

  function Responses(calls: seq<Call>, outs: seq<Outcome>): seq<Message>
    requires |calls| == |outs|
  {
    if calls == [] then [] else
      var n := |calls| - 1;
      Responses(calls[..n], outs[..n]) + ResponseOf(calls[n], outs[n])
  }

  // The outgoing messages that answer server requests.
  function AnswersIn(sent: seq<Outgoing>): seq<Outgoing> {
    if sent == [] then [] else
      AnswersIn(sent[..|sent| - 1]) + (if sent[|sent| - 1].Request? then [] else [sent[|sent| - 1]])
  }

  lemma {:induction false} AnswersAppend(a: seq<Outgoing>, b: seq<Outgoing>)
    ensures AnswersIn(a + b) == AnswersIn(a) + AnswersIn(b)
  {
    if b == [] {
      assert a + b == a;
    } else {
      var n := |b| - 1;
      assert (a + b)[..|a + b| - 1] == a + b[..n];
      AnswersAppend(a, b[..n]);
      assert (a + b)[|a + b| - 1] == b[n];
      Associative(AnswersIn(a), AnswersIn(b[..n]), if b[n].Request? then [] else [b[n]]);
    }
  }

  lemma {:induction false} OwedAreAnswers(answer: Answer, ds: seq<Delivery>)
    ensures AnswersIn(Owed(answer, ds)) == Owed(answer, ds)
  {
    if ds != [] {
      var n := |ds| - 1;
      var before := Owed(answer, ds[..n]);
      OwedAreAnswers(answer, ds[..n]);
      AnswersAppend(before, OwedBy(answer, ds[n]));
      if IsRequested(ds[n]) && ds[n].writable {
        var reply := ReplyTo(answer, ds[n].message);
        assert [reply][..0] == [] && AnswersIn([reply]) == [reply];
      }
    }
  }

  // From `s` to `t` a call took `n` deliveries, kept `kept`, handed out `resp`, and answered
  // every server request it took whose answer could be written.
  ghost predicate Conserving(answer: Answer, s: Client, t: Client, n: nat, kept: seq<Message>, resp: seq<Message>) {
    && TookFirst(s, t, n)
    && MessagesIn(s.inbox[..n]) == kept + resp
    && t.events == s.events + kept
    && t.elicitations == s.elicitations + ElicitedBy(kept)
    && AnswersIn(t.sent) == AnswersIn(s.sent) + Owed(answer, s.inbox[..n])
  }

  // A call fails for want of a write exactly when its own request could not be sent or the
  // last delivery it took went unanswered; no other delivery it took did.
  ghost predicate CallOutcome(answer: Answer, s: Client, c: Call, n: nat, kept: seq<Message>) {
    var (t, out) := Do(answer, s, c);
    && Conserving(answer, s, t, n, kept, ResponseOf(c, out))
    && t.nextId == s.nextId + (if c.CallRequest? then 1 else 0)
    && (c.CallRequest? && out.Returned? ==> IsResponse(out.message, s.nextId))
    && if c.CallRequest? && !c.writable then n == 0 && out == Raised(Exited) else FailsAtLast(s.inbox[..n], out)
  }

  lemma MovedAnswers(answer: Answer, s: Client, t: Client, kept: seq<Message>, ds: seq<Delivery>)
    requires Moved(answer, s, t, kept, ds)
    ensures AnswersIn(t.sent) == AnswersIn(s.sent) + Owed(answer, ds)
  {
    AnswersAppend(s.sent, Owed(answer, ds));
    OwedAreAnswers(answer, ds);
  }

  lemma RequestIsNoAnswer(sent: seq<Outgoing>, id: int, name: string, params: Option<Params>)
    ensures AnswersIn(sent + [Request(id, name, params)]) == AnswersIn(sent)
  {
    assert (sent + [Request(id, name, params)])[..|sent|] == sent;
  }

  lemma CallConserves(answer: Answer, s: Client, c: Call) returns (n: nat, kept: seq<Message>)
    ensures CallOutcome(answer, s, c, n, kept)
  {
    n, kept := 0, [];
    NothingTaken(s);
    var (t, out) := Do(answer, s, c);
    match c {
      case CallRequest(name, params, writable) =>
        if writable {
          var s1 := s.(nextId := s.nextId + 1, sent := s.sent + [Request(s.nextId, name, params)]);
          n, kept := ResponseConserves(answer, s1, s.nextId);
          RequestIsNoAnswer(s.sent, s.nextId, name, params);
          MovedAnswers(answer, s1, t, kept, s1.inbox[..n]);
        }
      case CallWait(name, wanted, after) =>
        if FirstMatch(SliceFrom(s.events, after), name, wanted).None? {
          n, kept := NotificationConserves(answer, s, name, wanted);
          MovedAnswers(answer, s, t, kept, s.inbox[..n]);
        }
    }
  }

  // The members of `ms` whose flag is `want`, in order.
  function Picked(ms: seq<Message>, flags: seq<bool>, want: bool): seq<Message>
    requires |ms| == |flags|
  {
    if ms == [] then [] else
      var n := |ms| - 1;
      Picked(ms[..n], flags[..n], want) + (if flags[n] == want then [ms[n]] else [])
  }

  lemma {:induction false} PickedAppend(a: seq<Message>, fa: seq<bool>, b: seq<Message>, fb: seq<bool>, want: bool)
    requires |a| == |fa| && |b| == |fb|
    ensures Picked(a + b, fa + fb, want) == Picked(a, fa, want) + Picked(b, fb, want)
  {
    if b == [] {
      assert a + b == a && fa + fb == fa;
    } else {
      var n := |b| - 1;
      PickedAppend(a, fa, b[..n], fb[..n], want);
      LastPicked(a + b, fa + fb, want);
      LastPicked(b, fb, want);
      assert (a + b)[..|a| + n] == a + b[..n] && (fa + fb)[..|a| + n] == fa + fb[..n];
      Associative(Picked(a, fa, want), Picked(b[..n], fb[..n], want), if fb[n] == want then [b[n]] else []);
    }
  }

  lemma LastPicked(ms: seq<Message>, flags: seq<bool>, want: bool)
    requires |ms| == |flags| && ms != []
    ensures var n := |ms| - 1;
            Picked(ms, flags, want) == Picked(ms[..n], flags[..n], want) + (if flags[n] == want then [ms[n]] else [])
  {}

  lemma {:induction false} PickedConstant(ms: seq<Message>, flags: seq<bool>, flag: bool, want: bool)
    requires |flags| == |ms| && forall i :: 0 <= i < |flags| ==> flags[i] == flag
    ensures Picked(ms, flags, want) == if flag == want then ms else []
  {
    if ms != [] {
      var n := |ms| - 1;
      PickedConstant(ms[..n], flags[..n], flag, want);
    }
  }

  function Fresh(deliveries: seq<Delivery>): Client { Client(1, [], [], [], deliveries) }

  // Of the first `n` deliveries, the flagged messages were handed out and the others are the
  // events; the answers sent are those of the server requests that could be answered.
  ghost predicate Conserved(answer: Answer, deliveries: seq<Delivery>, t: Client, responses: seq<Message>,
                            n: nat, flags: seq<bool>) {
    && TookFirst(Fresh(deliveries), t, n)
    && |flags| == |MessagesIn(deliveries[..n])|
    && t.events == Picked(MessagesIn(deliveries[..n]), flags, false)
    && responses == Picked(MessagesIn(deliveries[..n]), flags, true)
    && t.elicitations == ElicitedBy(t.events)
    && AnswersIn(t.sent) == Owed(answer, deliveries[..n])
  }

  ghost predicate NoneRequested(ms: seq<Message>) { forall m :: m in ms ==> !IsServerRequest(m) }

  ghost predicate RunOutcome(answer: Answer, deliveries: seq<Delivery>, calls: seq<Call>, n: nat, flags: seq<bool>) {
    var (t, outs) := RunCalls(answer, Fresh(deliveries), calls);
    RunState(answer, deliveries, calls, t, outs, n, flags)
  }

  ghost predicate RunState(answer: Answer, deliveries: seq<Delivery>, calls: seq<Call>, t: Client, outs: seq<Outcome>,
                           n: nat, flags: seq<bool>) {
    && |outs| == |calls|
    && Conserved(answer, deliveries, t, Responses(calls, outs), n, flags)
    && NoneRequested(Responses(calls, outs))
  }

  // Over every sequence of calls the consumed stream splits, in order, into the responses
  // handed to their callers and the events; the answers sent are, in order, one with its own
  // id for each consumed server request that found the process alive; and the recorded
  // elicitations are those of the events.
  lemma {:induction false} RunConserves(answer: Answer, deliveries: seq<Delivery>, calls: seq<Call>)
    returns (n: nat, flags: seq<bool>)
    ensures RunOutcome(answer, deliveries, calls, n, flags)
  {
    n, flags := 0, [];
    if calls == [] {
      assert deliveries[..0] == [];
    } else {
      var k := |calls| - 1;
      var n0, flags0 := RunConserves(answer, deliveries, calls[..k]);
      var (t, outs) := RunCalls(answer, Fresh(deliveries), calls[..k]);
      var n1, kept := CallConserves(answer, t, calls[k]);
      OutcomeIsKept(answer, t, calls[k], n1, kept);
      n, flags := RunContinues(answer, deliveries, calls, n0, flags0, n1, kept);
    }
  }

  lemma RunExtends(answer: Answer, s: Client, calls: seq<Call>)
    requires calls != []
    ensures var (t, outs) := RunCalls(answer, s, calls[..|calls| - 1]);
            var (t', out) := Do(answer, t, calls[|calls| - 1]);
            RunCalls(answer, s, calls) == (t', outs + [out])
  {}

  lemma ResponsesExtend(calls: seq<Call>, outs: seq<Outcome>, out: Outcome)
    requires |calls| == |outs| + 1
    ensures Responses(calls, outs + [out]) == Responses(calls[..|outs|], outs) + ResponseOf(calls[|outs|], out)
  {
    assert (outs + [out])[..|outs|] == outs;
  }

  lemma NoneRequestedExtends(a: seq<Message>, b: seq<Message>)
    requires NoneRequested(a) && NoneRequested(b)
    ensures NoneRequested(a + b)
  {}

  ghost predicate CallKept(answer: Answer, s: Client, c: Call, n: nat, kept: seq<Message>) {
    var (t, out) := Do(answer, s, c);
    Conserving(answer, s, t, n, kept, ResponseOf(c, out)) && NoneRequested(ResponseOf(c, out))
  }

  lemma OutcomeIsKept(answer: Answer, s: Client, c: Call, n: nat, kept: seq<Message>)
    requires CallOutcome(answer, s, c, n, kept)
    ensures CallKept(answer, s, c, n, kept)
  {}

  lemma RunContinues(answer: Answer, deliveries: seq<Delivery>, calls: seq<Call>, n0: nat, flags0: seq<bool>, n1: nat,
                     kept: seq<Message>)
    returns (n: nat, flags: seq<bool>)
    requires calls != [] && RunOutcome(answer, deliveries, calls[..|calls| - 1], n0, flags0)
    requires CallKept(answer, RunCalls(answer, Fresh(deliveries), calls[..|calls| - 1]).0, calls[|calls| - 1], n1, kept)
    ensures RunOutcome(answer, deliveries, calls, n, flags)
  {
    var k := |calls| - 1;
    var (t, outs) := RunCalls(answer, Fresh(deliveries), calls[..k]);
    var (t', out) := Do(answer, t, calls[k]);
    n, flags := n0 + n1, flags0 + Segment(kept, ResponseOf(calls[k], out));
    StateContinues(answer, deliveries, calls, t, outs, n0, flags0, t', out, n1, kept);
    RunExtends(answer, Fresh(deliveries), calls);
  }

  lemma StateContinues(answer: Answer, deliveries: seq<Delivery>, calls: seq<Call>, t: Client, outs: seq<Outcome>,
                       n0: nat, flags0: seq<bool>, t': Client, out: Outcome, n1: nat, kept: seq<Message>)
    requires calls != [] && RunState(answer, deliveries, calls[..|calls| - 1], t, outs, n0, flags0)
    requires var resp := ResponseOf(calls[|calls| - 1], out);
             Conserving(answer, t, t', n1, kept, resp) && NoneRequested(resp)
    ensures var resp := ResponseOf(calls[|calls| - 1], out);
            RunState(answer, deliveries, calls, t', outs + [out], n0 + n1, flags0 + Segment(kept, resp))
  {
    var before, resp := Responses(calls[..|outs|], outs), ResponseOf(calls[|outs|], out);
    ConservedContinues(answer, deliveries, t, before, n0, flags0, t', n1, kept, resp);
    ResponsesExtend(calls, outs, out);
    NoneRequestedExtends(before, resp);
  }

  function Segment(kept: seq<Message>, resp: seq<Message>): (f: seq<bool>)
    ensures |f| == |kept| + |resp|
  {
    seq(|kept|, i => false) + seq(|resp|, i => true)
  }

  lemma ConservedContinues(answer: Answer, deliveries: seq<Delivery>, t: Client, responses: seq<Message>, n0: nat,
                           flags0: seq<bool>, t': Client, n1: nat, kept: seq<Message>, resp: seq<Message>)
    requires Conserved(answer, deliveries, t, responses, n0, flags0)
    requires Conserving(answer, t, t', n1, kept, resp)
    ensures Conserved(answer, deliveries, t', responses + resp, n0 + n1, flags0 + Segment(kept, resp))
  {
    StretchesJoin(answer, deliveries, n0, n1);
    PickedSegment(MessagesIn(deliveries[..n0]), flags0, kept, resp, false);
    PickedSegment(MessagesIn(deliveries[..n0]), flags0, kept, resp, true);
    ElicitedAppend(t.events, kept);
  }

  lemma StretchesJoin(answer: Answer, deliveries: seq<Delivery>, n0: nat, n1: nat)
    requires n0 + n1 <= |deliveries|
    ensures MessagesIn(deliveries[..n0 + n1]) == MessagesIn(deliveries[..n0]) + MessagesIn(deliveries[n0..][..n1])
    ensures Owed(answer, deliveries[..n0 + n1]) == Owed(answer, deliveries[..n0]) + Owed(answer, deliveries[n0..][..n1])
    ensures deliveries[n0..][n1..] == deliveries[n0 + n1..]
  {
    Stretches(deliveries, n0, n1);
    OwedAppend(answer, deliveries[..n0], deliveries[n0..][..n1]);
    MessagesInAppend(deliveries[..n0], deliveries[n0..][..n1]);
  }

  lemma PickedParts(kept: seq<Message>, resp: seq<Message>, want: bool)
    ensures Picked(kept + resp, Segment(kept, resp), want) == if want then resp else kept
  {
    PickedAppend(kept, seq(|kept|, i => false), resp, seq(|resp|, i => true), want);
    PickedConstant(kept, seq(|kept|, i => false), false, want);
    PickedConstant(resp, seq(|resp|, i => true), true, want);
    assert [] + resp == resp && kept + [] == kept;
  }

  lemma PickedSegment(ms: seq<Message>, flags: seq<bool>, kept: seq<Message>, resp: seq<Message>, want: bool)
    requires |ms| == |flags|
    ensures Picked(ms + (kept + resp), flags + Segment(kept, resp), want) ==
            Picked(ms, flags, want) + (if want then resp else kept)
  {
    PickedAppend(ms, flags, kept + resp, Segment(kept, resp), want);
    PickedParts(kept, resp, want);
  }

  // ------------------------------------------------------------ which requests are answered

  // Over every sequence of calls a consumed server request is answered exactly when its own
  // delivery found the process alive: the answers are those before it, its own or none, and
  // those after it.
  lemma AnsweredIffWritable(answer: Answer, deliveries: seq<Delivery>, calls: seq<Call>, n: nat, flags: seq<bool>,
                            i: nat)
    requires RunOutcome(answer, deliveries, calls, n, flags) && n <= |deliveries|
    requires i < n && IsRequested(deliveries[i])
    ensures var own := if deliveries[i].writable then [ReplyTo(answer, deliveries[i].message)] else [];
            AnswersIn(RunCalls(answer, Fresh(deliveries), calls).0.sent) ==
            Owed(answer, deliveries[..i]) + own + Owed(answer, deliveries[i + 1..n])
  {
    AnswersOfRun(answer, deliveries, calls, n, flags);
    OwedInPlace(answer, deliveries, n, i);
  }

  lemma OwedInPlace(answer: Answer, deliveries: seq<Delivery>, n: nat, i: nat)
    requires i < n <= |deliveries|
    ensures Owed(answer, deliveries[..n]) ==
            Owed(answer, deliveries[..i]) + OwedBy(answer, deliveries[i]) + Owed(answer, deliveries[i + 1..n])
  {
    OwedAround(answer, deliveries[..n], i);
    assert deliveries[..n][..i] == deliveries[..i] && deliveries[..n][i + 1..] == deliveries[i + 1..n];
  }

  lemma AnswersOfRun(answer: Answer, deliveries: seq<Delivery>, calls: seq<Call>, n: nat, flags: seq<bool>)
    requires RunOutcome(answer, deliveries, calls, n, flags) && n <= |deliveries|
    ensures AnswersIn(RunCalls(answer, Fresh(deliveries), calls).0.sent) == Owed(answer, deliveries[..n])
  {}

  lemma OwedAround(answer: Answer, ds: seq<Delivery>, i: nat)
    requires i < |ds|
    ensures Owed(answer, ds) == Owed(answer, ds[..i]) + OwedBy(answer, ds[i]) + Owed(answer, ds[i + 1..])
  {
    assert ds == (ds[..i] + [ds[i]]) + ds[i + 1..];
    OwedAppend(answer, ds[..i] + [ds[i]], ds[i + 1..]);
    OwedAppend(answer, ds[..i], [ds[i]]);
    OwedOne(answer, ds[i]);
  }

  // So the answers are those of all server requests in the events exactly when every consumed
  // one found the process alive.
  lemma AllAnsweredIff(answer: Answer, deliveries: seq<Delivery>, calls: seq<Call>, n: nat, flags: seq<bool>)
    requires RunOutcome(answer, deliveries, calls, n, flags) && n <= |deliveries|
    ensures var t := RunCalls(answer, Fresh(deliveries), calls).0;
            AnswersIn(t.sent) == Replies(answer, t.events) <==> NoneUnanswered(deliveries[..n])
  {
    PickedReplies(answer, MessagesIn(deliveries[..n]), flags);
    OwedOrMissing(answer, deliveries[..n]);
  }

  // A run in which one is not: the process is gone when the request's answer is due.
  lemma GoneProcessAnswersNothing(answer: Answer, id: Id, name: string, params: Params)
    ensures var m := Message(Some(id), Method(name), Is(params));
            var (t, outs) := RunCalls(answer, Fresh([Delivered(m, false)]), [CallWait("x", p => true, 0)]);
            && outs == [Raised(Exited)] && t.events == [m]
            && AnswersIn(t.sent) == [] && Replies(answer, t.events) == [ReplyTo(answer, m)]
  {
    var m := Message(Some(id), Method(name), Is(params));
    var s, call := Fresh([Delivered(m, false)]), CallWait("x", p => true, 0);
    assert [call][..0] == [] && [m][..0] == [];
    assert s.inbox[0] == Delivered(m, false);
    assert Do(answer, s, call) == (Noted(Took(s), m), Raised(Exited));
    assert RunCalls(answer, s, [call]) == (Noted(Took(s), m), [] + [Raised(Exited)]);
  }

  ghost predicate NoneUnanswered(ds: seq<Delivery>) { forall i :: 0 <= i < |ds| ==> !IsUnanswered(ds[i]) }

  // Taking responses out of a stream takes no server request out.
  lemma {:induction false} PickedReplies(answer: Answer, ms: seq<Message>, flags: seq<bool>)
    requires |ms| == |flags| && NoneRequested(Picked(ms, flags, true))
    ensures Replies(answer, Picked(ms, flags, false)) == Replies(answer, ms)
  {
    if ms != [] {
      var n := |ms| - 1;
      var picked := Picked(ms[..n], flags[..n], true);
      assert forall m :: m in picked ==> m in Picked(ms, flags, true);
      PickedReplies(answer, ms[..n], flags[..n]);
      if flags[n] {
        assert Picked(ms, flags, true) == picked + [ms[n]];
        assert ms[n] in Picked(ms, flags, true);
        assert Picked(ms, flags, false) == Picked(ms[..n], flags[..n], false) + [] ==
               Picked(ms[..n], flags[..n], false);
        assert Replies(answer, ms) == Replies(answer, ms[..n]) + [] == Replies(answer, ms[..n]);
      } else {
        var kept := Picked(ms[..n], flags[..n], false);
        assert (kept + [ms[n]])[..|kept|] == kept;
      }
    }
  }

  lemma {:induction false} OwedOrMissing(answer: Answer, ds: seq<Delivery>)
    ensures NoneUnanswered(ds) ==> Owed(answer, ds) == Replies(answer, MessagesIn(ds))
    ensures if NoneUnanswered(ds) then |Owed(answer, ds)| == |Replies(answer, MessagesIn(ds))|
            else |Owed(answer, ds)| < |Replies(answer, MessagesIn(ds))|
  {
    if ds != [] {
      var n := |ds| - 1;
      OwedOrMissing(answer, ds[..n]);
      NoneUnansweredExtends(ds);
      RepliesExtend(answer, ds);
    }
  }

  lemma NoneUnansweredExtends(ds: seq<Delivery>)
    requires ds != []
    ensures NoneUnanswered(ds) <==> NoneUnanswered(ds[..|ds| - 1]) && !IsUnanswered(ds[|ds| - 1])
  {
    var n := |ds| - 1;
    if NoneUnanswered(ds[..n]) && !IsUnanswered(ds[n]) {
      forall i | 0 <= i < |ds| ensures !IsUnanswered(ds[i]) { if i < n { assert ds[..n][i] == ds[i]; } }
    }
  }

  lemma RepliesExtend(answer: Answer, ds: seq<Delivery>)
    requires ds != []
    ensures var before, last := ds[..|ds| - 1], ds[|ds| - 1];
            Replies(answer, MessagesIn(ds)) ==
            Replies(answer, MessagesIn(before)) + (if IsRequested(last) then [ReplyTo(answer, last.message)] else [])
  {
    var before := MessagesIn(ds[..|ds| - 1]);
    var last := ds[|ds| - 1];
    if last.Delivered? {
      assert (before + [last.message])[..|before|] == before;
    } else {
      assert before + [] == before;
    }
  }

  // ------------------------------------------------------------ asking late misses nothing

  // What a wait can still take from the inbox before it fails.
  function Arrivals(ds: seq<Delivery>): seq<Message> {
    if ds == [] || !ds[0].Delivered? then []
    else [ds[0].message] + if IsServerRequest(ds[0].message) && !ds[0].writable then [] else Arrivals(ds[1..])
  }

  function NonRequests(ms: seq<Message>): seq<Message> {
    if ms == [] then [] else (if IsServerRequest(ms[0]) then [] else [ms[0]]) + NonRequests(ms[1..])
  }

  function AsOutcome(found: Option<Message>, out: Outcome): bool {
    match found
    case Some(m) => out == Returned(m)
    case None => out.Raised?
  }

  lemma {:induction false} FirstMatchAppend(a: seq<Message>, b: seq<Message>, name: string, wanted: Wanted)
    ensures FirstMatch(a + b, name, wanted) ==
            if FirstMatch(a, name, wanted).Some? then FirstMatch(a, name, wanted) else FirstMatch(b, name, wanted)
  {
    if a == [] {
      assert a + b == b;
    } else {
      assert (a + b)[1..] == a[1..] + b;
      FirstMatchAppend(a[1..], b, name, wanted);
    }
  }

  lemma {:induction false} WaitTakesFirst(answer: Answer, s: Client, name: string, wanted: Wanted)
    ensures AsOutcome(FirstMatch(NonRequests(Arrivals(s.inbox)), name, wanted),
                      AwaitNotification(answer, s, name, wanted).1)
    decreases |s.inbox|
  {
    if s.inbox != [] && s.inbox[0].Delivered? {
      var d, rest := s.inbox[0], Arrivals(s.inbox[1..]);
      if IsServerRequest(d.message) {
        if d.writable {
          WaitTakesFirst(answer, Replied(answer, Took(s), d.message), name, wanted);
          assert Arrivals(s.inbox)[1..] == rest;
          assert NonRequests(Arrivals(s.inbox)) == NonRequests(rest);
        } else {
          assert Arrivals(s.inbox) == [d.message];
          assert NonRequests([d.message]) == [] by { assert [d.message][1..] == []; }
        }
      } else {
        var s1 := Took(s).(events := s.events + [d.message]);
        WaitTakesFirst(answer, s1, name, wanted);
        assert Arrivals(s.inbox)[1..] == rest;
        assert NonRequests(Arrivals(s.inbox)) == [d.message] + NonRequests(rest);
        assert ([d.message] + NonRequests(rest))[1..] == NonRequests(rest);
      }
    }
  }

  // A wait returns the first match among the stored events from its index and then the
  // arrivals that are not server requests, and fails exactly when there is none.
  lemma WaitReturnsFirst(answer: Answer, s: Client, name: string, wanted: Wanted, after: int)
    ensures AsOutcome(FirstMatch(SliceFrom(s.events, after) + NonRequests(Arrivals(s.inbox)), name, wanted),
                      Awaited(answer, s, name, wanted, after).1)
  {
    FirstMatchAppend(SliceFrom(s.events, after), NonRequests(Arrivals(s.inbox)), name, wanted);
    WaitTakesFirst(answer, s, name, wanted);
  }

  lemma {:induction false} FirstNonRequest(ms: seq<Message>, name: string, wanted: Wanted)
    ensures FirstMatch(ms, name, wanted).Some? ==>
              IsMatch(FirstMatch(ms, name, wanted).value, name, wanted) &&
              (FirstMatch(NonRequests(ms), name, wanted) == FirstMatch(ms, name, wanted) <==>
               !IsServerRequest(FirstMatch(ms, name, wanted).value))
    ensures FirstMatch(ms, name, wanted).None? ==> FirstMatch(NonRequests(ms), name, wanted).None?
    ensures FirstMatch(NonRequests(ms), name, wanted).Some? ==>
            !IsServerRequest(FirstMatch(NonRequests(ms), name, wanted).value)
  {
    if ms != [] {
      FirstNonRequest(ms[1..], name, wanted);
      if IsServerRequest(ms[0]) {
        assert NonRequests(ms) == NonRequests(ms[1..]);
      } else {
        assert NonRequests(ms)[1..] == NonRequests(ms[1..]);
      }
    }
  }

  // Stored and arriving messages are searched alike exactly when the first match is not an
  // arriving server request: the waiting loop answers those without looking at them.
  lemma WaitIsFirstOverallIff(answer: Answer, s: Client, name: string, wanted: Wanted, after: int)
    ensures AsOutcome(FirstMatch(SliceFrom(s.events, after) + Arrivals(s.inbox), name, wanted),
                      Awaited(answer, s, name, wanted, after).1) <==>
            || FirstMatch(SliceFrom(s.events, after), name, wanted).Some?
            || FirstMatch(Arrivals(s.inbox), name, wanted).None?
            || !IsServerRequest(FirstMatch(Arrivals(s.inbox), name, wanted).value)
  {
    var stored, arriving := SliceFrom(s.events, after), Arrivals(s.inbox);
    WaitReturnsFirst(answer, s, name, wanted, after);
    FirstMatchAppend(stored, arriving, name, wanted);
    FirstMatchAppend(stored, NonRequests(arriving), name, wanted);
    FirstNonRequest(arriving, name, wanted);
  }

  // A server request of the awaited name arrives: it is answered and stored, and the wait
  // times out.  Asked again from the same index, the wait returns it.
  lemma ArrivingRequestIsPassedOver(name: string, id: Id, params: Params)
    ensures var m := Message(Some(id), Method(name), Is(params));
            var s := Client(1, [], [], [], [Delivered(m, true)]);
            var (t, out) := Awaited(None, s, name, p => true, 0);
            && FirstMatch(s.events + Arrivals(s.inbox), name, p => true) == Some(m)
            && out == Raised(Timeout) && t.events == [m] && t.inbox == []
            && Awaited(None, t, name, p => true, 0) == (t, Returned(m))
  {
    var m := Message(Some(id), Method(name), Is(params));
    var s := Client(1, [], [], [], [Delivered(m, true)]);
    var t := Replied(None, Took(s), m);
    assert s.inbox[1..] == [] && Arrivals(s.inbox) == [m];
    assert IsMatch(m, name, p => true);
    assert AwaitNotification(None, s, name, p => true) == AwaitNotification(None, t, name, p => true) ==
           (t, Raised(Timeout));
  }

  lemma {:induction false} EventsOnlyGrow(answer: Answer, s: Client, calls: seq<Call>)
    ensures s.events <= RunCalls(answer, s, calls).0.events
  {
    if calls != [] {
      var k := |calls| - 1;
      EventsOnlyGrow(answer, s, calls[..k]);
      var t := RunCalls(answer, s, calls[..k]).0;
      var n, kept := CallConserves(answer, t, calls[k]);
    }
  }

  // Note the event count, make any calls, then wait from that count: the wait returns the
  // first match among everything kept since, even what an intervening request consumed,
  // and then the later arrivals.
  lemma AskingLateMissesNothing(answer: Answer, s: Client, calls: seq<Call>, name: string, wanted: Wanted)
    ensures var t := RunCalls(answer, s, calls).0;
            && s.events <= t.events
            && AsOutcome(FirstMatch(t.events[|s.events|..] + NonRequests(Arrivals(t.inbox)), name, wanted),
                         Awaited(answer, t, name, wanted, |s.events|).1)
  {
    EventsOnlyGrow(answer, s, calls);
    var t := RunCalls(answer, s, calls).0;
    WaitReturnsFirst(answer, t, name, wanted, |s.events|);
    assert SliceFrom(t.events, |s.events|) == t.events[|s.events|..];
  }
}
