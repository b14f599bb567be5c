/**
  The MCP fixture server in a legacy protocol mode: one connection's handshake and the
  stdio loop.  JSON payloads are opaque texts, and the
  handlers behind the handshake (tools, resources, prompts) are a pure function
  `serve` of the request, as in the source, where none of them touches the connection.
 */
module FixtureServer {
  import opened Common

  datatype Json = Json(text: string)
  const NULL := Json("null")

  datatype Method = Initialize | Initialized | Discover | OtherMethod(name: string)
  datatype Params = Params(protocolVersion: Typed<string>, rest: Json)
  datatype Message =
    | NotAnObject
    | Object(jsonrpc2: bool, action: Typed<Method>, id: Option<Json>, params: Typed<Params>)

  datatype Response = Result(id: Json, payload: Json) | Error(id: Json, code: int)
  datatype Plan = Plan(response: Option<Response>, notifications: seq<Json>, httpStatus: int, forceSse: bool)

  type Serve = (Json, Method, Params) -> Plan

  const INVALID_REQUEST := -32600
  const METHOD_NOT_FOUND := -32601
  const INVALID_PARAMS := -32602

  function Refusal(id: Json, code: int, status: int): Plan { Plan(Some(Error(id, code)), [], status, false) }
  const ACCEPTED := Plan(None, [], 202, false)
  const HANDSHAKE := Json("legacy-initialize-result")

  // ------------------------------------------------------------ one connection

  datatype Conn = Conn(initializeSeen: bool, initialized: bool)
  const FRESH := Conn(false, false)

  function IdOrNull(m: Message): Json
    requires m.Object?
  {
    if m.id.Some? then m.id.value else NULL
  }

  function HandleNotification(s: Conn, action: Method): (Conn, Plan) {
    (if action == Initialized && s.initializeSeen then s.(initialized := true) else s, ACCEPTED)
  }

  function HandleLegacy(serve: Serve, s: Conn, id: Json, action: Method, params: Params): (Conn, Plan) {
    if action == Initialize then
      if params.protocolVersion.Wrong? then (s, Refusal(id, INVALID_PARAMS, 200))
      else (s.(initializeSeen := true), Plan(Some(Result(id, HANDSHAKE)), [], 200, false))
    else if action == Discover then (s, Refusal(id, METHOD_NOT_FOUND, 404))
    else if !s.initialized then (s, Refusal(id, INVALID_REQUEST, 200))
    else (s, serve(id, action, params))
  }

  function Handled(serve: Serve, s: Conn, m: Message): (Conn, Plan) {
    if m.NotAnObject? then (s, Refusal(NULL, INVALID_REQUEST, 400))
    else if !m.jsonrpc2 || m.action.Wrong? then (s, Refusal(IdOrNull(m), INVALID_REQUEST, 400))
    else if m.params.Wrong? then
      (s, if m.id.None? then Plan(None, [], 400, false) else Refusal(m.id.value, INVALID_PARAMS, 400))
    else if m.id.None? then HandleNotification(s, m.action.value)
    else HandleLegacy(serve, s, m.id.value, m.action.value, m.params.value)
  }

  // The state after, and the plans for, a list of messages on a fresh connection.
  function StateAfter(serve: Serve, ms: seq<Message>): Conn {
    if ms == [] then FRESH else Handled(serve, StateAfter(serve, ms[..|ms| - 1]), ms[|ms| - 1]).0
  }

  function PlansFor(serve: Serve, ms: seq<Message>): (plans: seq<Plan>)
    ensures |plans| == |ms|
  {
    if ms == [] then []
    else PlansFor(serve, ms[..|ms| - 1]) + [Handled(serve, StateAfter(serve, ms[..|ms| - 1]), ms[|ms| - 1]).1]
  }

  lemma {:induction false} PlanAt(serve: Serve, ms: seq<Message>, i: nat)
    requires i < |ms|
    ensures PlansFor(serve, ms)[i] == Handled(serve, StateAfter(serve, ms[..i]), ms[i]).1
  {
    var n := |ms| - 1;
    if i < n {
      PlanAt(serve, ms[..n], i);
      assert ms[..n][..i] == ms[..i];
    }
  }

  // ------------------------------------------------------------ the handshake

  predicate IsInitialize(m: Message) {
    && m.Object? && m.jsonrpc2 && m.action == Is(Initialize) && m.id.Some?
    && m.params.Is? && m.params.value.protocolVersion.Is?
  }

  predicate IsInitializedNotice(m: Message) {
    m.Object? && m.jsonrpc2 && m.action == Is(Initialized) && m.id.None? && m.params.Is?
  }

  predicate Names(m: Message, action: Method) { m.Object? && m.action == Is(action) }

  ghost predicate Handshaken(ms: seq<Message>) {
    exists j, k :: 0 <= j < k < |ms| && IsInitialize(ms[j]) && IsInitializedNotice(ms[k])
  }

  // A connection is initialized exactly when a valid initialize request was followed by
  // the initialized notification.
  lemma {:induction false} HandshakeMeaning(serve: Serve, ms: seq<Message>)
    ensures StateAfter(serve, ms).initializeSeen <==> exists j :: 0 <= j < |ms| && IsInitialize(ms[j])
    ensures StateAfter(serve, ms).initialized <==> Handshaken(ms)
  {
    if ms != [] {
      var n := |ms| - 1;
      var before := ms[..n];
      HandshakeMeaning(serve, before);
      assert forall i :: 0 <= i < n ==> before[i] == ms[i];
      if Handshaken(before) {
        var j, k :| 0 <= j < k < n && IsInitialize(before[j]) && IsInitializedNotice(before[k]);
        assert IsInitialize(ms[j]) && IsInitializedNotice(ms[k]);
      }
      if IsInitializedNotice(ms[n]) && StateAfter(serve, before).initializeSeen {
        var j :| 0 <= j < n && IsInitialize(before[j]);
        assert IsInitialize(ms[j]);
        assert Handshaken(ms);
      }
    }
  }

  predicate IsResult(p: Plan) { p.response.Some? && p.response.value.Result? }

  lemma ResultNeedsInitialized(serve: Serve, s: Conn, m: Message)
    requires !Names(m, Initialize) && IsResult(Handled(serve, s, m).1)
    ensures s.initialized
  {}

  lemma HandshakenStarts(ms: seq<Message>)
    requires Handshaken(ms)
    ensures exists j :: 0 <= j < |ms| && IsInitialize(ms[j])
  {}

  // Initialized implies initialize was seen, and no other request gets a result before the handshake.
  lemma NoResultBeforeHandshake(serve: Serve, ms: seq<Message>, i: nat)
    requires i < |ms| && !Names(ms[i], Initialize)
    requires IsResult(PlansFor(serve, ms)[i])
    ensures Handshaken(ms[..i])
    ensures StateAfter(serve, ms[..i]).initializeSeen
  {
    PlanAt(serve, ms, i);
    ResultNeedsInitialized(serve, StateAfter(serve, ms[..i]), ms[i]);
    HandshakeMeaning(serve, ms[..i]);
    HandshakenStarts(ms[..i]);
  }

  // After the handshake every well-formed request other than initialize and discover is served.
  lemma ServedAfterHandshake(serve: Serve, ms: seq<Message>, i: nat)
    requires i < |ms| && Handshaken(ms[..i])
    requires ms[i].Object? && ms[i].jsonrpc2 && ms[i].action.Is? && ms[i].id.Some? && ms[i].params.Is?
    requires ms[i].action.value !in {Initialize, Discover}
    ensures PlansFor(serve, ms)[i] == serve(ms[i].id.value, ms[i].action.value, ms[i].params.value)
  {
    PlanAt(serve, ms, i);
    HandshakeMeaning(serve, ms[..i]);
  }

  // ------------------------------------------------------------ what each message is answered

  // A well-formed JSON-RPC message.
  predicate IsCall(m: Message) { m.Object? && m.jsonrpc2 && m.action.Is? && m.params.Is? }

  // A valid initialize request is answered with the handshake result under its own id.
  lemma InitializeIsAnswered(serve: Serve, ms: seq<Message>, i: nat)
    requires i < |ms| && IsInitialize(ms[i])
    ensures PlansFor(serve, ms)[i] == Plan(Some(Result(ms[i].id.value, HANDSHAKE)), [], 200, false)
  {
    PlanAt(serve, ms, i);
    AnsweredAs(serve, StateAfter(serve, ms[..i]), ms[i]);
  }

  lemma AnsweredAs(serve: Serve, s: Conn, m: Message)
    requires IsInitialize(m)
    ensures Handled(serve, s, m).1 == Plan(Some(Result(m.id.value, HANDSHAKE)), [], 200, false)
  {}

  // A notification gets no response, whatever it is.
  lemma NotificationsGetNoResponse(serve: Serve, ms: seq<Message>, i: nat)
    requires i < |ms| && ms[i].Object? && ms[i].jsonrpc2 && ms[i].action.Is? && ms[i].id.None?
    ensures PlansFor(serve, ms)[i] == Plan(None, [], if ms[i].params.Is? then 202 else 400, false)
  {
    PlanAt(serve, ms, i);
  }

  // The refusals: what is no JSON-RPC call, bad parameters, an initialize without a protocol
  // version, discover, and anything else before the handshake.
  lemma RefusalsMeaning(serve: Serve, ms: seq<Message>, i: nat)
    requires i < |ms|
    ensures var m, p := ms[i], PlansFor(serve, ms)[i];
            && (m.NotAnObject? ==> p == Plan(Some(Error(NULL, -32600)), [], 400, false))
            && (m.Object? && (!m.jsonrpc2 || m.action.Wrong?) ==>
                  p == Plan(Some(Error(if m.id.Some? then m.id.value else NULL, -32600)), [], 400, false))
            && (m.Object? && m.jsonrpc2 && m.action.Is? && m.params.Wrong? && m.id.Some? ==>
                  p == Plan(Some(Error(m.id.value, -32602)), [], 400, false))
            && (IsCall(m) && m.id.Some? && m.action.value == Initialize && m.params.value.protocolVersion.Wrong? ==>
                  p == Plan(Some(Error(m.id.value, -32602)), [], 200, false))
            && (IsCall(m) && m.id.Some? && m.action.value == Discover ==>
                  p == Plan(Some(Error(m.id.value, -32601)), [], 404, false))
            && (IsCall(m) && m.id.Some? && m.action.value != Initialize && m.action.value != Discover &&
                !Handshaken(ms[..i]) ==>
                  p == Plan(Some(Error(m.id.value, -32600)), [], 200, false))
  {
    PlanAt(serve, ms, i);
    HandshakeMeaning(serve, ms[..i]);
    RefusedAs(serve, StateAfter(serve, ms[..i]), ms[i]);
  }

  lemma RefusedAs(serve: Serve, s: Conn, m: Message)
    ensures var p := Handled(serve, s, m).1;
            && (m.NotAnObject? ==> p == Plan(Some(Error(NULL, -32600)), [], 400, false))
            && (m.Object? && (!m.jsonrpc2 || m.action.Wrong?) ==>
                  p == Plan(Some(Error(if m.id.Some? then m.id.value else NULL, -32600)), [], 400, false))
            && (m.Object? && m.jsonrpc2 && m.action.Is? && m.params.Wrong? && m.id.Some? ==>
                  p == Plan(Some(Error(m.id.value, -32602)), [], 400, false))
            && (IsCall(m) && m.id.Some? && m.action.value == Initialize && m.params.value.protocolVersion.Wrong? ==>
                  p == Plan(Some(Error(m.id.value, -32602)), [], 200, false))
            && (IsCall(m) && m.id.Some? && m.action.value == Discover ==>
                  p == Plan(Some(Error(m.id.value, -32601)), [], 404, false))
            && (IsCall(m) && m.id.Some? && m.action.value != Initialize && m.action.value != Discover &&
                !s.initialized ==>
                  p == Plan(Some(Error(m.id.value, -32600)), [], 200, false))
  {}

  // The handlers behind the handshake answer under the id they are given.
  ghost predicate AnswersById(serve: Serve) {
    forall id, action, params :: var p := serve(id, action, params); p.response.Some? ==> p.response.value.id == id
  }

  // Every response carries its request's id, or null when there is none.
  lemma ResponsesCarryTheId(serve: Serve, ms: seq<Message>, i: nat)
    requires i < |ms| && AnswersById(serve) && PlansFor(serve, ms)[i].response.Some?
    ensures PlansFor(serve, ms)[i].response.value.id ==
            if ms[i].Object? && ms[i].id.Some? then ms[i].id.value else NULL
  {
    PlanAt(serve, ms, i);
    RespondsById(serve, StateAfter(serve, ms[..i]), ms[i]);
  }

  lemma RespondsById(serve: Serve, s: Conn, m: Message)
    requires AnswersById(serve) && Handled(serve, s, m).1.response.Some?
    ensures Handled(serve, s, m).1.response.value.id == if m.Object? && m.id.Some? then m.id.value else NULL
  {}

  // ------------------------------------------------------------ the running objects

  class ConnectionState {
    var initializeSeen: bool
    var initialized: bool

    constructor ()
      ensures Value() == FRESH
    {
      initializeSeen, initialized := false, false;
    }

    ghost function Value(): Conn
      reads this
    {
      Conn(initializeSeen, initialized)
    }
  }

  class ProtocolServer {
    const serve: Serve

    constructor (serve: Serve)
      ensures this.serve == serve
    {
      this.serve := serve;
    }

    method Handle(m: Message, state: ConnectionState) returns (plan: Plan)
      modifies state
      ensures (state.Value(), plan) == Handled(serve, old(state.Value()), m)
    {
      if m.NotAnObject? { return Refusal(NULL, INVALID_REQUEST, 400); }
      if !m.jsonrpc2 || m.action.Wrong? {
        return Refusal(if m.id.Some? then m.id.value else NULL, INVALID_REQUEST, 400);
      }
      if m.params.Wrong? {
        if m.id.None? { return Plan(None, [], 400, false); }
        return Refusal(m.id.value, INVALID_PARAMS, 400);
      }
      var action := m.action.value;
      if m.id.None? {
        if action == Initialized && state.initializeSeen { state.initialized := true; }
        return ACCEPTED;
      }
      var id := m.id.value;
      if action == Initialize {
        if m.params.value.protocolVersion.Wrong? { return Refusal(id, INVALID_PARAMS, 200); }
        state.initializeSeen := true;
        return Plan(Some(Result(id, HANDSHAKE)), [], 200, false);
      }
      if action == Discover { return Refusal(id, METHOD_NOT_FOUND, 404); }
      if !state.initialized { return Refusal(id, INVALID_REQUEST, 200); }
      return serve(id, action, m.params.value);
    }
  }

  // ------------------------------------------------------------ stdio

  // A line of input that is not JSON, or a message.
  datatype Line = Garbled | Parsed(message: Message)
  datatype Output = ParseError | Notice(notification: Json) | Reply(response: Response)

  function Notices(ns: seq<Json>): seq<Output> {
    seq(|ns|, i requires 0 <= i < |ns| => Notice(ns[i]))
  }

  function PlanOutput(p: Plan): seq<Output> {
    Notices(p.notifications) + (if p.response.Some? then [Reply(p.response.value)] else [])
  }

  function MessagesOf(lines: seq<Line>): seq<Message> {
    if lines == [] then []
    else MessagesOf(lines[..|lines| - 1]) + (if lines[|lines| - 1].Parsed? then [lines[|lines| - 1].message] else [])
  }

  function StdioOutput(serve: Serve, lines: seq<Line>): seq<Output> {
    if lines == [] then [] else
      var before := lines[..|lines| - 1];
      StdioOutput(serve, before) +
      match lines[|lines| - 1]
      case Garbled => [ParseError]
      case Parsed(m) => PlanOutput(Handled(serve, StateAfter(serve, MessagesOf(before)), m).1)
  }

  method WritePlan(plan: Plan) returns (written: seq<Output>)
    ensures written == PlanOutput(plan)
  {
    written := [];
    for k := 0 to |plan.notifications|
      invariant written == Notices(plan.notifications)[..k]
    {
      written := written + [Notice(plan.notifications[k])];
    }
    if plan.response.Some? { written := written + [Reply(plan.response.value)]; }
  }

  lemma LineExtends(serve: Serve, lines: seq<Line>, i: nat)
    requires i < |lines|
    ensures var before, line, all := lines[..i], lines[i], lines[..i + 1];
            && (line.Garbled? ==>
                  && MessagesOf(all) == MessagesOf(before)
                  && StdioOutput(serve, all) == StdioOutput(serve, before) + [ParseError])
            && (line.Parsed? ==>
                  var (state, plan) := Handled(serve, StateAfter(serve, MessagesOf(before)), line.message);
                  && StateAfter(serve, MessagesOf(all)) == state
                  && StdioOutput(serve, all) == StdioOutput(serve, before) + PlanOutput(plan))
  {
    assert lines[..i + 1][..i] == lines[..i];
    var ms := MessagesOf(lines[..i]);
    if lines[i].Parsed? { assert (ms + [lines[i].message])[..|ms|] == ms; } else { assert ms + [] == ms; }
  }

  method RunStdio(fixture: ProtocolServer, lines: seq<Line>) returns (written: seq<Output>)
    ensures written == StdioOutput(fixture.serve, lines)
  {
    var state := new ConnectionState();
    written := [];
    for i := 0 to |lines|
      invariant written == StdioOutput(fixture.serve, lines[..i])
      invariant state.Value() == StateAfter(fixture.serve, MessagesOf(lines[..i]))
      invariant fresh(state)
    {
      LineExtends(fixture.serve, lines, i);
      if lines[i].Garbled? {
        written := written + [ParseError];
        continue;
      }
      var plan := fixture.Handle(lines[i].message, state);
      var output := WritePlan(plan);
      written := written + output;
    }
    assert lines[..|lines|] == lines;
  }

  function AllParsed(ms: seq<Message>): seq<Line> {
    seq(|ms|, i requires 0 <= i < |ms| => Parsed(ms[i]))
  }
}
