/**
  What a client of the HTTP fixture reads from the body of a reply, and that a session's
  bodies carry what a stdio connection writes.
 */
module HttpBody {
  import opened FixtureServer
  import SessionTable
  import SseCodec

  type Bytes = SseCodec.Bytes
  type Printer = Output -> Bytes

  datatype Body = NoBody | JsonText(text: Bytes) | EventStream(bytes: Bytes)

  function Printed(print_: Printer, outputs: seq<Output>): seq<Bytes> {
    seq(|outputs|, i requires 0 <= i < |outputs| => print_(outputs[i]))
  }

  // Nothing without a response; notifications travel only in an event stream.
  function BodyOf(print_: Printer, profile: SseCodec.Profile, p: Plan): Body {
    if p.response.None? then NoBody
    else if p.forceSse then EventStream(SseCodec.Encode(Printed(print_, PlanOutput(p)), profile))
    else JsonText(print_(Reply(p.response.value)))
  }

  function Data(events: seq<SseCodec.Event>): seq<Bytes> {
    seq(|events|, i requires 0 <= i < |events| => events[i].data)
  }

  // The texts a client reads.
  function Received(b: Body): seq<Bytes> {
    match b
    case NoBody => []
    case JsonText(t) => [t]
    case EventStream(bytes) => Data(SseCodec.ParseStream(bytes))
  }

  // JSON texts hold no raw line end: the serializer escapes control characters.
  ghost predicate PrintsOneLine(print_: Printer) { forall o :: SseCodec.OneLine(print_(o)) }

  // The plan has nothing to say besides its response, or streams.
  predicate Streams(p: Plan) { p.notifications == [] || (p.forceSse && p.response.Some?) }

  // A client reads the plan's notifications and response, in order, exactly when this holds.
  lemma BodyCarriesPlanIff(print_: Printer, profile: SseCodec.Profile, p: Plan)
    requires PrintsOneLine(print_)
    ensures Received(BodyOf(print_, profile, p)) == Printed(print_, PlanOutput(p)) <==> Streams(p)
  {
    var texts := Printed(print_, PlanOutput(p));
    if p.response.Some? && p.forceSse {
      SseCodec.SseRoundTrip(texts, profile);
      assert Data(SseCodec.Messages(texts)) == texts;
    } else if p.notifications == [] {
      assert Notices(p.notifications) == [];
    } else {
      assert |Received(BodyOf(print_, profile, p))| < |texts|;
    }
  }

  function AllReceived(print_: Printer, profile: SseCodec.Profile, plans: seq<Plan>): seq<Bytes> {
    if plans == [] then [] else
      AllReceived(print_, profile, plans[..|plans| - 1]) + Received(BodyOf(print_, profile, plans[|plans| - 1]))
  }

  lemma PrintedAppend(print_: Printer, a: seq<Output>, b: seq<Output>)
    ensures Printed(print_, a + b) == Printed(print_, a) + Printed(print_, b)
  {}

  lemma {:induction false} BodiesCarryPlans(print_: Printer, profile: SseCodec.Profile, plans: seq<Plan>)
    requires PrintsOneLine(print_) && forall i :: 0 <= i < |plans| ==> Streams(plans[i])
    ensures AllReceived(print_, profile, plans) == Printed(print_, SessionTable.Outputs(plans))
  {
    if plans != [] {
      var n := |plans| - 1;
      BodiesCarryPlans(print_, profile, plans[..n]);
      BodyCarriesPlanIff(print_, profile, plans[n]);
      PrintedAppend(print_, SessionTable.Outputs(plans[..n]), PlanOutput(plans[n]));
    }
  }

  // The handlers behind the handshake stream whenever they notify, as those of the fixture do.
  ghost predicate HandlersStream(serve: Serve) {
    forall id, action, params :: Streams(serve(id, action, params))
  }

  lemma HandledStreams(serve: Serve, s: Conn, m: Message)
    requires HandlersStream(serve)
    ensures Streams(Handled(serve, s, m).1)
  {}

  lemma PlansStream(serve: Serve, ms: seq<Message>)
    requires HandlersStream(serve)
    ensures forall i :: 0 <= i < |ms| ==> Streams(PlansFor(serve, ms)[i])
  {
    forall i | 0 <= i < |ms| ensures Streams(PlansFor(serve, ms)[i]) {
      PlanAt(serve, ms, i);
      HandledStreams(serve, StateAfter(serve, ms[..i]), ms[i]);
    }
  }

  // Under every schedule the bodies of a session's replies carry, in order, the texts that a
  // stdio server writes when fed the session's messages.
  lemma SessionBodiesActLikeStdio(print_: Printer, profile: SseCodec.Profile, serve: Serve,
                                  steps: seq<SessionTable.Step>, o: nat)
    requires PrintsOneLine(print_) && HandlersStream(serve)
    ensures var log := SessionTable.Run(serve, steps).log;
            AllReceived(print_, profile, SessionTable.PlansFrom(log, o)) ==
            Printed(print_, StdioOutput(serve, AllParsed(SessionTable.MessagesTo(log, o))))
  {
    var log := SessionTable.Run(serve, steps).log;
    SessionTable.ObjectsAreIndependent(serve, steps, o);
    PlansStream(serve, SessionTable.MessagesTo(log, o));
    BodiesCarryPlans(print_, profile, SessionTable.PlansFrom(log, o));
    SessionTable.SessionActsLikeStdio(serve, steps, o);
  }
}
