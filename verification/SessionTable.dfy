/**
  The HTTP session table under every interleaving of request threads.

  A POST takes two steps: `Lookup` finds or creates the connection object under the
  session lock, `Handle` later runs the message on that object without the lock.  Other
  threads' steps, including the DELETE of the session, may come in between.
 */
module SessionTable {
  import opened Common
  import opened FixtureServer

  datatype Pending = Pending(obj: nat, msg: Message)
  // `objects` is every connection object ever allocated; `sessions` refers into it.
  datatype Server = Server(objects: seq<Conn>, sessions: map<string, nat>, inFlight: map<nat, Pending>)

  datatype Step =
    | Lookup(thread: nat, header: Option<string>, msg: Message, newId: string)
    | Handle(thread: nat)
    | Delete(header: Option<string>)

  datatype Event =
    | Registered(thread: nat, obj: nat, session: string, msg: Message)   // initialize: a new session
    | Throwaway(thread: nat, obj: nat, msg: Message)                     // discover: a connection nobody can reach
    | Routed(thread: nat, obj: nat, session: string, msg: Message)
    | Refused(header: Option<string>, msg: Message)
    | Answered(thread: nat, obj: nat, msg: Message, plan: Plan)
    | Deleted(header: Option<string>, existed: bool)

  const EMPTY := Server([], map[], map[])

  // A POST body that is not a JSON object is answered before the table is consulted.
  predicate Enabled(s: Server, step: Step) {
    match step
    case Lookup(t, _, m, _) => t !in s.inFlight && m.Object?
    case Handle(t) => t in s.inFlight && s.inFlight[t].obj < |s.objects|
    case Delete(_) => true
  }

  function Next(serve: Serve, s: Server, step: Step): (Server, Event)
    requires Enabled(s, step)
  {
    match step
    case Lookup(t, header, m, newId) =>
      var o := |s.objects|;
      if Names(m, Initialize) then
        (Server(s.objects + [FRESH], s.sessions[newId := o], s.inFlight[t := Pending(o, m)]),
         Registered(t, o, newId, m))
      else if Names(m, Discover) then
        (Server(s.objects + [FRESH], s.sessions, s.inFlight[t := Pending(o, m)]), Throwaway(t, o, m))
      else if header.Some? && header.value in s.sessions then
        (s.(inFlight := s.inFlight[t := Pending(s.sessions[header.value], m)]),
         Routed(t, s.sessions[header.value], header.value, m))
      else (s, Refused(header, m))
    case Handle(t) =>
      var p := s.inFlight[t];
      var (c, plan) := Handled(serve, s.objects[p.obj], p.msg);
      (Server(s.objects[p.obj := c], s.sessions, s.inFlight - {t}), Answered(t, p.obj, p.msg, plan))
    case Delete(header) =>
      var existed := header.Some? && header.value in s.sessions;
      (if existed then s.(sessions := s.sessions - {header.value}) else s, Deleted(header, existed))
  }

  datatype Config = Config(server: Server, log: seq<Event>)

  // Any schedule; a step that is not enabled does nothing.
  function Run(serve: Serve, steps: seq<Step>): Config {
    if steps == [] then Config(EMPTY, []) else
      var c := Run(serve, steps[..|steps| - 1]);
      var step := steps[|steps| - 1];
      if !Enabled(c.server, step) then c else
        var (s, e) := Next(serve, c.server, step);
        Config(s, c.log + [e])
  }

  // ------------------------------------------------------------ what happened to one object

  function MessagesTo(log: seq<Event>, o: nat): seq<Message> {
    if log == [] then [] else
      var e := log[|log| - 1];
      MessagesTo(log[..|log| - 1], o) + if e.Answered? && e.obj == o then [e.msg] else []
  }

  function PlansFrom(log: seq<Event>, o: nat): seq<Plan> {
    if log == [] then [] else
      var e := log[|log| - 1];
      PlansFrom(log[..|log| - 1], o) + if e.Answered? && e.obj == o then [e.plan] else []
  }

  // The object behaves as a connection of its own.
  ghost predicate Independent(serve: Serve, c: Config, o: nat) {
    && (o < |c.server.objects| ==> c.server.objects[o] == StateAfter(serve, MessagesTo(c.log, o)))
    && (o >= |c.server.objects| ==> MessagesTo(c.log, o) == [])
    && PlansFrom(c.log, o) == PlansFor(serve, MessagesTo(c.log, o))
  }

  lemma LogExtends(log: seq<Event>, e: Event, o: nat)
    ensures MessagesTo(log + [e], o) ==
            if e.Answered? && e.obj == o then MessagesTo(log, o) + [e.msg] else MessagesTo(log, o)
    ensures PlansFrom(log + [e], o) ==
            if e.Answered? && e.obj == o then PlansFrom(log, o) + [e.plan] else PlansFrom(log, o)
  {
    assert (log + [e])[..|log|] == log;
  }

  lemma AppendedPlan(serve: Serve, ms: seq<Message>, m: Message)
    ensures StateAfter(serve, ms + [m]) == Handled(serve, StateAfter(serve, ms), m).0
    ensures PlansFor(serve, ms + [m]) == PlansFor(serve, ms) + [Handled(serve, StateAfter(serve, ms), m).1]
  {
    assert (ms + [m])[..|ms|] == ms;
  }

  lemma QuietKeepsIndependent(serve: Serve, c: Config, s: Server, e: Event, o: nat)
    requires Independent(serve, c, o) && !e.Answered?
    requires s.objects == c.server.objects || s.objects == c.server.objects + [FRESH]
    ensures Independent(serve, Config(s, c.log + [e]), o)
  {
    LogExtends(c.log, e, o);
  }

  lemma AnswerKeepsIndependent(serve: Serve, c: Config, t: nat, o: nat)
    requires Enabled(c.server, Handle(t)) && Independent(serve, c, o)
    ensures var (s, e) := Next(serve, c.server, Handle(t)); Independent(serve, Config(s, c.log + [e]), o)
  {
    var (s, e) := Next(serve, c.server, Handle(t));
    LogExtends(c.log, e, o);
    HandleKeepsIndependent(serve, c, c.server.inFlight[t], o);
  }

  lemma StepKeepsIndependent(serve: Serve, c: Config, step: Step, o: nat)
    requires Enabled(c.server, step) && Independent(serve, c, o)
    ensures var (s, e) := Next(serve, c.server, step); Independent(serve, Config(s, c.log + [e]), o)
  {
    if step.Handle? {
      AnswerKeepsIndependent(serve, c, step.thread, o);
    } else {
      var (s, e) := Next(serve, c.server, step);
      QuietKeepsIndependent(serve, c, s, e, o);
    }
  }

  lemma HandleKeepsIndependent(serve: Serve, c: Config, p: Pending, o: nat)
    requires p.obj < |c.server.objects| && Independent(serve, c, o)
    ensures var (conn, plan) := Handled(serve, c.server.objects[p.obj], p.msg);
            var objects := c.server.objects[p.obj := conn];
            var ms := if p.obj == o then MessagesTo(c.log, o) + [p.msg] else MessagesTo(c.log, o);
            && (o < |objects| ==> objects[o] == StateAfter(serve, ms))
            && (o >= |objects| ==> ms == [])
            && (if p.obj == o then PlansFrom(c.log, o) + [plan] else PlansFrom(c.log, o)) == PlansFor(serve, ms)
  {
    if p.obj == o { AppendedPlan(serve, MessagesTo(c.log, o), p.msg); }
  }

  // Under every schedule, what each connection object answered is exactly what a fresh
  // connection answers to the messages that reached it, in the order they reached it.
  lemma {:induction false} ObjectsAreIndependent(serve: Serve, steps: seq<Step>, o: nat)
    ensures Independent(serve, Run(serve, steps), o)
  {
    if steps != [] {
      var before := steps[..|steps| - 1];
      ObjectsAreIndependent(serve, before, o);
      var c := Run(serve, before);
      if Enabled(c.server, steps[|steps| - 1]) { StepKeepsIndependent(serve, c, steps[|steps| - 1], o); }
    }
  }

  // Where the log's i-th event, an answer, stands in its object's own history.
  lemma {:induction false} AnswerInHistory(log: seq<Event>, i: nat)
    requires i < |log| && log[i].Answered?
    ensures var o, j := log[i].obj, |MessagesTo(log[..i], log[i].obj)|;
            && j < |MessagesTo(log, o)| == |PlansFrom(log, o)|
            && MessagesTo(log, o)[..j] == MessagesTo(log[..i], o)
            && MessagesTo(log, o)[j] == log[i].msg && PlansFrom(log, o)[j] == log[i].plan
  {
    var n := |log| - 1;
    var before, o := log[..n], log[i].obj;
    SameLengths(before, o);
    if i < n {
      AnswerInHistory(before, i);
      assert before[..i] == log[..i];
    }
  }

  lemma {:induction false} SameLengths(log: seq<Event>, o: nat)
    ensures |MessagesTo(log, o)| == |PlansFrom(log, o)|
  {
    if log != [] { SameLengths(log[..|log| - 1], o); }
  }

  // Under every schedule no request but initialize gets a result on a connection object
  // unless the handshake was completed on that object before.
  lemma NoResultBeforeItsHandshake(serve: Serve, steps: seq<Step>, i: nat)
    requires i < |Run(serve, steps).log|
    ensures var log := Run(serve, steps).log;
            log[i].Answered? && IsResult(log[i].plan) && !Names(log[i].msg, Initialize) ==>
              Handshaken(MessagesTo(log[..i], log[i].obj))
  {
    var log := Run(serve, steps).log;
    if log[i].Answered? && IsResult(log[i].plan) && !Names(log[i].msg, Initialize) {
      var o := log[i].obj;
      AnswerInHistory(log, i);
      ObjectsAreIndependent(serve, steps, o);
      NoResultBeforeHandshake(serve, MessagesTo(log, o), |MessagesTo(log[..i], o)|);
    }
  }

  // ------------------------------------------------------------ which object a session id means

  predicate Rebinds(e: Event, sid: string) {
    (e.Registered? && e.session == sid) || (e.Deleted? && e.header == Some(sid))
  }

  // The newest registration of `sid` in the log is for `o`, and no DELETE came after it.
  ghost predicate BoundTo(log: seq<Event>, sid: string, o: nat) {
    exists i :: 0 <= i < |log| && log[i].Registered? && log[i].session == sid && log[i].obj == o &&
                forall j :: i < j < |log| ==> !Rebinds(log[j], sid)
  }

  ghost predicate TableIsHistory(c: Config) {
    forall sid, o :: sid in c.server.sessions && c.server.sessions[sid] == o <==> BoundTo(c.log, sid, o)
  }

  lemma BoundExtends(log: seq<Event>, e: Event, sid: string, o: nat)
    ensures BoundTo(log + [e], sid, o) <==>
            if Rebinds(e, sid) then e.Registered? && e.obj == o else BoundTo(log, sid, o)
  {
    var log' := log + [e];
    assert forall i :: 0 <= i < |log| ==> log'[i] == log[i];
    assert log'[|log|] == e;
    if BoundTo(log, sid, o) && !Rebinds(e, sid) {
      var i :| 0 <= i < |log| && log[i].Registered? && log[i].session == sid && log[i].obj == o &&
               forall j :: i < j < |log| ==> !Rebinds(log[j], sid);
      assert log'[i] == log[i];
    }
    if BoundTo(log', sid, o) {
      var i :| 0 <= i < |log'| && log'[i].Registered? && log'[i].session == sid && log'[i].obj == o &&
               forall j :: i < j < |log'| ==> !Rebinds(log'[j], sid);
      if i < |log| {
        assert !Rebinds(log'[|log|], sid);
        assert forall j :: i < j < |log| ==> !Rebinds(log[j], sid) by {
          forall j | i < j < |log| ensures !Rebinds(log[j], sid) { assert !Rebinds(log'[j], sid); }
        }
      }
    }
  }

  lemma StepKeepsTable(serve: Serve, c: Config, step: Step)
    requires Enabled(c.server, step) && TableIsHistory(c)
    ensures var (s, e) := Next(serve, c.server, step); TableIsHistory(Config(s, c.log + [e]))
  {
    var (s, e) := Next(serve, c.server, step);
    forall sid, o ensures sid in s.sessions && s.sessions[sid] == o <==> BoundTo(c.log + [e], sid, o) {
      BoundExtends(c.log, e, sid, o);
      assert sid in c.server.sessions && c.server.sessions[sid] == o <==> BoundTo(c.log, sid, o);
    }
  }

  // Under every schedule the table is the history: a session id means the connection of its
  // newest registration, until a DELETE.
  lemma {:induction false} TableFollowsHistory(serve: Serve, steps: seq<Step>)
    ensures TableIsHistory(Run(serve, steps))
  {
    if steps == [] {
    } else {
      var before := steps[..|steps| - 1];
      TableFollowsHistory(serve, before);
      var c := Run(serve, before);
      if Enabled(c.server, steps[|steps| - 1]) { StepKeepsTable(serve, c, steps[|steps| - 1]); }
    }
  }

  // ------------------------------------------------------------ every event is accounted for

  predicate IsArrival(e: Event) { e.Registered? || e.Throwaway? || e.Routed? }

  predicate Answers(e: Event, t: nat) { e.Answered? && e.thread == t }

  // Thread `t` brought `p` and has not been answered since.
  ghost predicate Waiting(log: seq<Event>, t: nat, p: Pending) {
    exists i :: 0 <= i < |log| && IsArrival(log[i]) && log[i].thread == t && Pending(log[i].obj, log[i].msg) == p &&
                forall j :: i < j < |log| ==> !Answers(log[j], t)
  }

  ghost predicate InFlightIsHistory(c: Config) {
    forall t, p :: t in c.server.inFlight && c.server.inFlight[t] == p <==> Waiting(c.log, t, p)
  }

  lemma WaitingExtends(log: seq<Event>, e: Event, t: nat, p: Pending)
    ensures Waiting(log + [e], t, p) <==>
            || (IsArrival(e) && e.thread == t && Pending(e.obj, e.msg) == p)
            || (!Answers(e, t) && Waiting(log, t, p))
  {
    var log' := log + [e];
    assert forall i :: 0 <= i < |log| ==> log'[i] == log[i];
    assert log'[|log|] == e;
    if Waiting(log, t, p) && !Answers(e, t) {
      var i :| 0 <= i < |log| && IsArrival(log[i]) && log[i].thread == t && Pending(log[i].obj, log[i].msg) == p &&
               forall j :: i < j < |log| ==> !Answers(log[j], t);
      assert log'[i] == log[i];
    }
    if Waiting(log', t, p) {
      var i :| 0 <= i < |log'| && IsArrival(log'[i]) && log'[i].thread == t && Pending(log'[i].obj, log'[i].msg) == p &&
               forall j :: i < j < |log'| ==> !Answers(log'[j], t);
      if i < |log| {
        assert !Answers(log'[|log|], t);
        assert forall j :: i < j < |log| ==> !Answers(log[j], t) by {
          forall j | i < j < |log| ensures !Answers(log[j], t) { assert !Answers(log'[j], t); }
        }
      }
    }
  }

  lemma StepKeepsInFlight(serve: Serve, c: Config, step: Step)
    requires Enabled(c.server, step) && InFlightIsHistory(c)
    ensures var (s, e) := Next(serve, c.server, step); InFlightIsHistory(Config(s, c.log + [e]))
  {
    var (s, e) := Next(serve, c.server, step);
    forall t, p ensures t in s.inFlight && s.inFlight[t] == p <==> Waiting(c.log + [e], t, p) {
      WaitingExtends(c.log, e, t, p);
      assert t in c.server.inFlight && c.server.inFlight[t] == p <==> Waiting(c.log, t, p);
      if t in c.server.inFlight { assert Waiting(c.log, t, c.server.inFlight[t]); }
    }
  }

  // Why an event could happen, from the events before it.
  ghost predicate Justified(before: seq<Event>, e: Event) {
    match e
    case Registered(_, _, _, m) => Names(m, Initialize)
    case Throwaway(_, _, m) => Names(m, Discover)
    case Routed(_, o, sid, m) => !Names(m, Initialize) && !Names(m, Discover) && BoundTo(before, sid, o)
    case Refused(h, m) => !Names(m, Initialize) && !Names(m, Discover) &&
                          (h.Some? ==> forall o :: !BoundTo(before, h.value, o))
    case Answered(t, o, m, _) => Waiting(before, t, Pending(o, m))
    case Deleted(h, existed) => existed <==> h.Some? && exists o :: BoundTo(before, h.value, o)
  }

  lemma StepIsJustified(serve: Serve, c: Config, step: Step)
    requires Enabled(c.server, step) && TableIsHistory(c) && InFlightIsHistory(c)
    ensures Justified(c.log, Next(serve, c.server, step).1)
  {
    match step {
      case Lookup(_, h, _, _) =>
        if h.Some? && h.value in c.server.sessions { assert BoundTo(c.log, h.value, c.server.sessions[h.value]); }
      case Handle(t) => assert Waiting(c.log, t, c.server.inFlight[t]);
      case Delete(h) =>
        if h.Some? && h.value in c.server.sessions { assert BoundTo(c.log, h.value, c.server.sessions[h.value]); }
    }
  }

  ghost predicate AllJustified(log: seq<Event>) {
    forall i :: 0 <= i < |log| ==> Justified(log[..i], log[i])
  }

  lemma JustifiedExtends(log: seq<Event>, e: Event)
    requires AllJustified(log) && Justified(log, e)
    ensures AllJustified(log + [e])
  {
    var log' := log + [e];
    forall i | 0 <= i < |log'| ensures Justified(log'[..i], log'[i]) {
      if i < |log| { assert log'[..i] == log[..i]; } else { assert log'[..i] == log; }
    }
  }

  // Under every schedule a message is answered on the object its session id meant when it
  // arrived, at most once, and is refused only when the id meant nothing.
  lemma {:induction false} EveryEventIsJustified(serve: Serve, steps: seq<Step>)
    ensures InFlightIsHistory(Run(serve, steps)) && AllJustified(Run(serve, steps).log)
  {
    if steps == [] {
    } else {
      var before, step := steps[..|steps| - 1], steps[|steps| - 1];
      EveryEventIsJustified(serve, before);
      TableFollowsHistory(serve, before);
      var c := Run(serve, before);
      if Enabled(c.server, step) {
        StepKeepsInFlight(serve, c, step);
        StepIsJustified(serve, c, step);
        JustifiedExtends(c.log, Next(serve, c.server, step).1);
      }
    }
  }

  // ------------------------------------------------------------ only the creator initializes

  ghost predicate CreatedWith(log: seq<Event>, o: nat, m: Message) {
    exists i :: 0 <= i < |log| && (log[i].Registered? || log[i].Throwaway?) && log[i].obj == o && log[i].msg == m
  }

  lemma CreatedExtends(log: seq<Event>, e: Event, o: nat, m: Message)
    ensures CreatedWith(log + [e], o, m) <==>
            CreatedWith(log, o, m) || ((e.Registered? || e.Throwaway?) && e.obj == o && e.msg == m)
  {
    var log' := log + [e];
    assert forall i :: 0 <= i < |log| ==> log'[i] == log[i];
    assert log'[|log|] == e;
    if CreatedWith(log, o, m) {
      var i :| 0 <= i < |log| && (log[i].Registered? || log[i].Throwaway?) && log[i].obj == o && log[i].msg == m;
      assert log'[i] == log[i];
    }
  }

  ghost predicate CreatedInRange(c: Config) {
    forall o: nat, m :: CreatedWith(c.log, o, m) ==> o < |c.server.objects|
  }

  ghost predicate CreatedOnce(c: Config) {
    forall o: nat, m, m' :: CreatedWith(c.log, o, m) && CreatedWith(c.log, o, m') ==> m == m'
  }

  ghost predicate InFlightCreated(c: Config) {
    forall t :: t in c.server.inFlight && Names(c.server.inFlight[t].msg, Initialize) ==>
                  CreatedWith(c.log, c.server.inFlight[t].obj, c.server.inFlight[t].msg)
  }

  ghost predicate MessagesCreated(c: Config) {
    forall o: nat, m :: m in MessagesTo(c.log, o) && Names(m, Initialize) ==> CreatedWith(c.log, o, m)
  }

  ghost predicate CreationInvariant(c: Config) {
    CreatedInRange(c) && CreatedOnce(c) && InFlightCreated(c) && MessagesCreated(c)
  }

  lemma StepKeepsRange(serve: Serve, c: Config, step: Step)
    requires Enabled(c.server, step) && CreatedInRange(c) && CreatedOnce(c)
    ensures var (s, e) := Next(serve, c.server, step);
            CreatedInRange(Config(s, c.log + [e])) && CreatedOnce(Config(s, c.log + [e]))
  {
    var (s, e) := Next(serve, c.server, step);
    forall o: nat, m ensures CreatedWith(c.log + [e], o, m) ==> o < |s.objects| { CreatedExtends(c.log, e, o, m); }
    forall o: nat, m, m' | CreatedWith(c.log + [e], o, m) && CreatedWith(c.log + [e], o, m') ensures m == m' {
      CreatedExtends(c.log, e, o, m);
      CreatedExtends(c.log, e, o, m');
    }
  }

  lemma StepKeepsInFlightCreated(serve: Serve, c: Config, step: Step)
    requires Enabled(c.server, step) && InFlightCreated(c)
    ensures var (s, e) := Next(serve, c.server, step); InFlightCreated(Config(s, c.log + [e]))
  {
    var (s, e) := Next(serve, c.server, step);
    forall t | t in s.inFlight && Names(s.inFlight[t].msg, Initialize)
      ensures CreatedWith(c.log + [e], s.inFlight[t].obj, s.inFlight[t].msg)
    {
      CreatedExtends(c.log, e, s.inFlight[t].obj, s.inFlight[t].msg);
    }
  }

  lemma StepKeepsMessagesCreated(serve: Serve, c: Config, step: Step)
    requires Enabled(c.server, step) && InFlightCreated(c) && MessagesCreated(c)
    ensures var (s, e) := Next(serve, c.server, step); MessagesCreated(Config(s, c.log + [e]))
  {
    var (s, e) := Next(serve, c.server, step);
    forall o: nat, m | m in MessagesTo(c.log + [e], o) && Names(m, Initialize) ensures CreatedWith(c.log + [e], o, m) {
      CreatedExtends(c.log, e, o, m);
      LogExtends(c.log, e, o);
    }
  }

  lemma StepKeepsCreation(serve: Serve, c: Config, step: Step)
    requires Enabled(c.server, step) && CreationInvariant(c)
    ensures var (s, e) := Next(serve, c.server, step); CreationInvariant(Config(s, c.log + [e]))
  {
    StepKeepsRange(serve, c, step);
    StepKeepsInFlightCreated(serve, c, step);
    StepKeepsMessagesCreated(serve, c, step);
  }

  lemma {:induction false} CreationHolds(serve: Serve, steps: seq<Step>)
    ensures CreationInvariant(Run(serve, steps))
  {
    if steps == [] {
    } else {
      var before := steps[..|steps| - 1];
      CreationHolds(serve, before);
      var c := Run(serve, before);
      if Enabled(c.server, steps[|steps| - 1]) { StepKeepsCreation(serve, c, steps[|steps| - 1]); }
    }
  }

  // A session created by anything but a well-formed initialize request never completes the
  // handshake: a later initialize makes another session.
  lemma OnlyGoodSessionsInitialize(serve: Serve, steps: seq<Step>, o: nat, m: Message)
    requires CreatedWith(Run(serve, steps).log, o, m)
    requires Handshaken(MessagesTo(Run(serve, steps).log, o))
    ensures IsInitialize(m)
    ensures o < |Run(serve, steps).server.objects| && Run(serve, steps).server.objects[o].initialized
  {
    CreationHolds(serve, steps);
    ObjectsAreIndependent(serve, steps, o);
    InitializedByCreator(serve, Run(serve, steps), o, m);
  }

  lemma InitializedByCreator(serve: Serve, c: Config, o: nat, m: Message)
    requires CreationInvariant(c) && Independent(serve, c, o)
    requires CreatedWith(c.log, o, m) && Handshaken(MessagesTo(c.log, o))
    ensures IsInitialize(m)
    ensures o < |c.server.objects| && c.server.objects[o].initialized
  {
    var ms := MessagesTo(c.log, o);
    HandshakeMeaning(serve, ms);
    HandshakenStarts(ms);
    var j :| 0 <= j < |ms| && IsInitialize(ms[j]);
    assert ms[j] in ms && Names(ms[j], Initialize);
    assert CreatedWith(c.log, o, ms[j]);
  }

  // ------------------------------------------------------------ a session is a stdio connection

  function Outputs(plans: seq<Plan>): seq<Output> {
    if plans == [] then [] else Outputs(plans[..|plans| - 1]) + PlanOutput(plans[|plans| - 1])
  }

  lemma AllParsedPrefix(ms: seq<Message>)
    requires ms != []
    ensures AllParsed(ms)[..|ms| - 1] == AllParsed(ms[..|ms| - 1])
    ensures ms[..|ms| - 1] + [ms[|ms| - 1]] == ms
  {}

  lemma OutputsExtend(plans: seq<Plan>, p: Plan)
    ensures Outputs(plans + [p]) == Outputs(plans) + PlanOutput(p)
  {
    assert (plans + [p])[..|plans|] == plans;
  }

  lemma {:induction false} StdioOfMessages(serve: Serve, ms: seq<Message>)
    ensures MessagesOf(AllParsed(ms)) == ms
    ensures StdioOutput(serve, AllParsed(ms)) == Outputs(PlansFor(serve, ms))
  {
    if ms != [] {
      var before, m := ms[..|ms| - 1], ms[|ms| - 1];
      StdioOfMessages(serve, before);
      AllParsedPrefix(ms);
      OutputsExtend(PlansFor(serve, before), Handled(serve, StateAfter(serve, before), m).1);
    }
  }

  // Under every schedule a connection object writes what a stdio server writes when fed the
  // object's messages.
  lemma SessionActsLikeStdio(serve: Serve, steps: seq<Step>, o: nat)
    ensures var log := Run(serve, steps).log;
            Outputs(PlansFrom(log, o)) == StdioOutput(serve, AllParsed(MessagesTo(log, o)))
  {
    ObjectsAreIndependent(serve, steps, o);
    StdioOfMessages(serve, MessagesTo(Run(serve, steps).log, o));
  }
}
