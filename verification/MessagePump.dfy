/**
  The app-server client's message pump: requests and notification waits over one queue.

  What the reader thread delivers is an input: a message, the end of the stream, or a
  timeout of the waiting `get`.  Whether the process can still be written to when an
  answer is due is an input as well.
 */
module MessagePump {
  import opened Common

  datatype Id = Number(n: int) | OtherId(text: string)
  datatype MethodField = NoMethod | BadMethod | Method(name: string)
  datatype Params = Params(text: string)
  const NO_PARAMS := Params("{}")

  datatype Message = Message(id: Option<Id>, action: MethodField, params: Typed<Params>)
  datatype Delivery = Delivered(message: Message, writable: bool) | StreamClosed | TimedOut

  datatype Outgoing =
    | Request(requestId: int, action: string, params: Option<Params>)
    | Accept(id: Id, content: string)
    | Unsupported(id: Id, action: string)

  datatype Failure = Timeout | Closed | Exited
  datatype Outcome = Returned(message: Message) | Raised(failure: Failure)

  datatype Client = Client(
    nextId: int, events: seq<Message>, elicitations: seq<Params>, sent: seq<Outgoing>, inbox: seq<Delivery>)

  // The configured answer to an elicitation; None is the built-in confirmation.
  type Answer = Option<Params -> string>
  const CONFIRMED := "{\"confirmation\":\"confirmed\"}"
  const ELICITATION := "mcpServer/elicitation/request"

  predicate IsResponse(m: Message, id: int) { m.id == Some(Number(id)) && m.action == NoMethod }
  predicate IsServerRequest(m: Message) { m.id.Some? && m.action.Method? }
  predicate IsElicitation(m: Message) { IsServerRequest(m) && m.action.name == ELICITATION }

  function ReplyTo(answer: Answer, m: Message): Outgoing
    requires IsServerRequest(m)
  {
    if IsElicitation(m) then
      var p := if m.params.Is? then m.params.value else NO_PARAMS;
      Accept(m.id.value, if answer.Some? then answer.value(p) else CONFIRMED)
    else Unsupported(m.id.value, m.action.name)
  }

  function Elicited(m: Message): seq<Params> {
    if IsElicitation(m) && m.params.Is? then [m.params.value] else []
  }

  function Took(s: Client): Client
    requires s.inbox != []
  {
    s.(inbox := s.inbox[1..])
  }

  // Note a server request; the answer goes out only while the process can be written to.
  function Noted(s: Client, m: Message): Client {
    s.(events := s.events + [m], elicitations := s.elicitations + Elicited(m))
  }

  function Replied(answer: Answer, s: Client, m: Message): Client
    requires IsServerRequest(m)
  {
    Noted(s, m).(sent := s.sent + [ReplyTo(answer, m)])
  }

  // ------------------------------------------------------------ waiting for a response

  function AwaitResponse(answer: Answer, s: Client, id: int): (Client, Outcome)
    decreases |s.inbox|
  {
    if s.inbox == [] then (s, Raised(Timeout)) else
      match s.inbox[0]
      case TimedOut => (Took(s), Raised(Timeout))
      case StreamClosed => (Took(s), Raised(Closed))
      case Delivered(m, writable) =>
        if IsResponse(m, id) then (Took(s), Returned(m))
        else if IsServerRequest(m) then
          if writable then AwaitResponse(answer, Replied(answer, Took(s), m), id)
          else (Noted(Took(s), m), Raised(Exited))
        else AwaitResponse(answer, Took(s).(events := s.events + [m]), id)
  }

  function Requested(answer: Answer, s: Client, name: string, params: Option<Params>, writable: bool)
    : (Client, Outcome)
  {
    var s1 := s.(nextId := s.nextId + 1);
    if !writable then (s1, Raised(Exited))
    else AwaitResponse(answer, s1.(sent := s.sent + [Request(s.nextId, name, params)]), s.nextId)
  }

  // ------------------------------------------------------------ waiting for a notification

  type Wanted = Params -> bool

  predicate IsMatch(m: Message, name: string, wanted: Wanted) {
    m.action == Method(name) && m.params.Is? && wanted(m.params.value)
  }

  function AwaitNotification(answer: Answer, s: Client, name: string, wanted: Wanted): (Client, Outcome)
    decreases |s.inbox|
  {
    if s.inbox == [] then (s, Raised(Timeout)) else
      match s.inbox[0]
      case TimedOut => (Took(s), Raised(Timeout))
      case StreamClosed => (Took(s), Raised(Closed))
      case Delivered(m, writable) =>
        if IsServerRequest(m) then
          if writable then AwaitNotification(answer, Replied(answer, Took(s), m), name, wanted)
          else (Noted(Took(s), m), Raised(Exited))
        else
          var s1 := Took(s).(events := s.events + [m]);
          if IsMatch(m, name, wanted) then (s1, Returned(m)) else AwaitNotification(answer, s1, name, wanted)
  }

  // A list sliced from `k`, with the slicing rules for negative and large indices.
  function SliceFrom<T>(s: seq<T>, k: int): seq<T> {
    if k >= |s| then [] else if k >= 0 then s[k..] else if k >= -|s| then s[|s| + k..] else s
  }

  function FirstMatch(ms: seq<Message>, name: string, wanted: Wanted): Option<Message> {
    if ms == [] then None
    else if IsMatch(ms[0], name, wanted) then Some(ms[0])
    else FirstMatch(ms[1..], name, wanted)
  }

  function Awaited(answer: Answer, s: Client, name: string, wanted: Wanted, after: int): (Client, Outcome) {
    match FirstMatch(SliceFrom(s.events, after), name, wanted)
    case Some(m) => (s, Returned(m))
    case None => AwaitNotification(answer, s, name, wanted)
  }

  // ------------------------------------------------------------ the client object

  class AppServerClient {
    const answer: Answer
    var nextId: int
    var events: seq<Message>
    var elicitationRequests: seq<Params>
    var sent: seq<Outgoing>
    var inbox: seq<Delivery>

    constructor (answer: Answer, deliveries: seq<Delivery>)
      ensures Value() == Client(1, [], [], [], deliveries) && this.answer == answer
    {
      this.answer := answer;
      nextId, events, elicitationRequests, sent, inbox := 1, [], [], [], deliveries;
    }

    ghost function Value(): Client
      reads this
    {
      Client(nextId, events, elicitationRequests, sent, inbox)
    }

    method HandleServerRequest(m: Message, writable: bool) returns (ok: bool)
      requires IsServerRequest(m)
      modifies this
      ensures ok == writable
      ensures Value() == if ok then Replied(answer, old(Value()), m) else Noted(old(Value()), m)
    {
      events := events + [m];
      ok := writable;
      if m.action.name == ELICITATION {
        var params := NO_PARAMS;
        if m.params.Is? {
          params := m.params.value;
          elicitationRequests := elicitationRequests + [params];
        }
        var content := if answer.Some? then answer.value(params) else CONFIRMED;
        if writable { sent := sent + [Accept(m.id.value, content)]; }
        return;
      }
      if writable { sent := sent + [Unsupported(m.id.value, m.action.name)]; }
    }

    method RequestMessage(name: string, params: Option<Params>, writable: bool) returns (out: Outcome)
      modifies this
      ensures (Value(), out) == Requested(answer, old(Value()), name, params, writable)
    {
      var requestId := nextId;
      nextId := nextId + 1;
      if !writable { return Raised(Exited); }
      sent := sent + [Request(requestId, name, params)];
      ghost var start := Value();
      while true
        invariant AwaitResponse(answer, Value(), requestId) == AwaitResponse(answer, start, requestId)
        decreases |inbox|
      {
        if inbox == [] { return Raised(Timeout); }
        var delivery := inbox[0];
        inbox := inbox[1..];
        match delivery {
          case TimedOut => return Raised(Timeout);
          case StreamClosed => return Raised(Closed);
          case Delivered(m, canWrite) =>
            if IsResponse(m, requestId) { return Returned(m); }
            if IsServerRequest(m) {
              var ok := HandleServerRequest(m, canWrite);
              if !ok { return Raised(Exited); }
            } else {
              events := events + [m];
            }
        }
      }
    }

    method WaitForNotification(name: string, wanted: Wanted, after: int) returns (out: Outcome)
      modifies this
      ensures (Value(), out) == Awaited(answer, old(Value()), name, wanted, after)
    {
      var stored := SliceFrom(events, after);
      for i := 0 to |stored|
        invariant FirstMatch(stored, name, wanted) == FirstMatch(stored[i..], name, wanted)
      {
        if IsMatch(stored[i], name, wanted) { return Returned(stored[i]); }
        assert stored[i..][1..] == stored[i + 1..];
      }
      ghost var start := Value();
      while true
        invariant AwaitNotification(answer, Value(), name, wanted) == AwaitNotification(answer, start, name, wanted)
        decreases |inbox|
      {
        if inbox == [] { return Raised(Timeout); }
        var delivery := inbox[0];
        inbox := inbox[1..];
        match delivery {
          case TimedOut => return Raised(Timeout);
          case StreamClosed => return Raised(Closed);
          case Delivered(m, canWrite) =>
            if IsServerRequest(m) {
              var ok := HandleServerRequest(m, canWrite);
              if !ok { return Raised(Exited); }
              continue;
            }
            events := events + [m];
            if IsMatch(m, name, wanted) { return Returned(m); }
        }
      }
    }
  }
}
