/**
  The HTTP handler object: its `sessions` dictionary holds references to connection
  objects that `Handle` updates in place.  Its methods are proved against a function on
  the table's values, and that function against the interleaving model.
 */
module HttpFixture {
  import opened Common
  import opened FixtureServer
  import opened SessionTable

  datatype HttpReply =
    | Planned(plan: Plan, session: Option<string>)
    | NotAJsonObject
    | UnknownSession(id: Json)

  type Table = map<string, Conn>

  function Posted(serve: Serve, table: Table, header: Option<string>, m: Message, newId: string): (Table, HttpReply) {
    if m.NotAnObject? then (table, NotAJsonObject)
    else if Names(m, Initialize) then
      var (c, plan) := Handled(serve, FRESH, m);
      (table[newId := c], Planned(plan, Some(newId)))
    else if Names(m, Discover) then (table, Planned(Handled(serve, FRESH, m).1, None))
    else if header.Some? && header.value in table then
      var (c, plan) := Handled(serve, table[header.value], m);
      (table[header.value := c], Planned(plan, header))
    else (table, UnknownSession(IdOrNull(m)))
  }

  // What a POST does once its connection is found: registered anew, unregistered, or looked up.
  lemma PostedOn(serve: Serve, before: Table, table: Table, header: Option<string>, m: Message, newId: string,
                 session: Option<string>, conn: Conn)
    requires m.Object? && table == if Names(m, Initialize) then before[newId := FRESH] else before
    requires Names(m, Initialize) ==> session == Some(newId) && conn == FRESH
    requires Names(m, Discover) ==> session == None && conn == FRESH
    requires !Names(m, Initialize) && !Names(m, Discover) ==>
               header.Some? && header.value in before && session == header && conn == before[header.value]
    ensures var (c, plan) := Handled(serve, conn, m);
            Posted(serve, before, header, m, newId) ==
            (if session.Some? then table[session.value := c] else table, Planned(plan, session))
  {
    var c := Handled(serve, conn, m).0;
    assert Names(m, Initialize) ==> before[newId := FRESH][newId := c] == before[newId := c];
  }

  class FixtureHttpServer {
    const fixture: ProtocolServer
    var sessions: map<string, ConnectionState>

    constructor (fixture: ProtocolServer)
      ensures Valid() && Values() == map[] && this.fixture == fixture
    {
      this.fixture := fixture;
      sessions := map[];
    }

    // No two session ids share a connection object.
    ghost predicate Valid()
      reads this
    {
      forall a, b :: a in sessions && b in sessions && a != b ==> sessions[a] != sessions[b]
    }

    ghost function Values(): Table
      reads this, sessions.Values
    {
      map sid | sid in sessions :: sessions[sid].Value()
    }

    method LegacyState(header: Option<string>, m: Message, newId: string)
      returns (state: ConnectionState?, session: Option<string>)
      requires Valid() && m.Object?
      modifies this
      ensures Valid()
      ensures Names(m, Initialize) ==>
                state != null && fresh(state) && state.Value() == FRESH && session == Some(newId) &&
                sessions == old(sessions)[newId := state]
      ensures !Names(m, Initialize) ==> sessions == old(sessions)
      ensures Names(m, Discover) ==> state != null && fresh(state) && state.Value() == FRESH && session == None
      ensures !Names(m, Initialize) && !Names(m, Discover) ==>
                if header.Some? && header.value in sessions
                then state == sessions[header.value] && session == header
                else state == null
    {
      if m.action == Is(Initialize) {
        state := new ConnectionState();
        sessions := sessions[newId := state];
        return state, Some(newId);
      }
      if m.action == Is(Discover) {
        state := new ConnectionState();
        return state, None;
      }
      if header.Some? && header.value in sessions { return sessions[header.value], header; }
      return null, None;
    }

    method DoPost(header: Option<string>, m: Message, newId: string) returns (reply: HttpReply)
      requires Valid()
      modifies this, sessions.Values
      ensures Valid()
      ensures (Values(), reply) == Posted(fixture.serve, old(Values()), header, m, newId)
    {
      if m.NotAnObject? { return NotAJsonObject; }
      var state, session := LegacyState(header, m, newId);
      if state == null {
        assert Values() == old(Values());
        return UnknownSession(IdOrNull(m));
      }
      ghost var table, conn := Values(), state.Value();
      assert table == if Names(m, Initialize) then old(Values())[newId := FRESH] else old(Values());
      var plan := Respond(m, state, session);
      reply := Planned(plan, session);
      PostedOn(fixture.serve, old(Values()), table, header, m, newId, session, conn);
    }

    // Run the message on a connection, registered under `session` or under nothing.
    method Respond(m: Message, state: ConnectionState, session: Option<string>) returns (plan: Plan)
      requires Valid()
      requires session.Some? ==> session.value in sessions && sessions[session.value] == state
      requires session.None? ==> state !in sessions.Values
      modifies state
      ensures Values() == if session.Some?
                          then old(Values())[session.value := Handled(fixture.serve, old(state.Value()), m).0]
                          else old(Values())
      ensures plan == Handled(fixture.serve, old(state.Value()), m).1
    {
      plan := fixture.Handle(m, state);
    }

    method DoDelete(header: Option<string>) returns (existed: bool)
      requires Valid()
      modifies this
      ensures Valid()
      ensures existed <==> header.Some? && header.value in old(Values())
      ensures Values() == if existed then old(Values()) - {header.value} else old(Values())
    {
      existed := header.Some? && header.value in sessions;
      if existed { sessions := sessions - {header.value}; }
    }
  }

  // ------------------------------------------------------------ the object refines the interleaving model

  // Session ids refer to allocated objects, no two to the same one.
  ghost predicate SessionsOk(objects: seq<Conn>, sessions: map<string, nat>) {
    && (forall sid :: sid in sessions ==> sessions[sid] < |objects|)
    && (forall a, b :: a in sessions && b in sessions && a != b ==> sessions[a] != sessions[b])
  }

  ghost predicate Wellformed(s: Server) {
    SessionsOk(s.objects, s.sessions) && forall t :: t in s.inFlight ==> s.inFlight[t].obj < |s.objects|
  }

  ghost function View(objects: seq<Conn>, sessions: map<string, nat>): Table
    requires SessionsOk(objects, sessions)
  {
    map sid | sid in sessions :: objects[sessions[sid]]
  }

  lemma StepKeepsWellformed(serve: Serve, s: Server, step: Step)
    requires Wellformed(s) && Enabled(s, step)
    ensures Wellformed(Next(serve, s, step).0)
  {}

  lemma {:induction false} RunsAreWellformed(serve: Serve, steps: seq<Step>)
    ensures Wellformed(Run(serve, steps).server)
  {
    if steps != [] {
      RunsAreWellformed(serve, steps[..|steps| - 1]);
      var c := Run(serve, steps[..|steps| - 1]);
      if Enabled(c.server, steps[|steps| - 1]) { StepKeepsWellformed(serve, c.server, steps[|steps| - 1]); }
    }
  }

  lemma ViewAfterUpdate(objects: seq<Conn>, sessions: map<string, nat>, sid: string, c: Conn)
    requires SessionsOk(objects, sessions) && sid in sessions
    ensures SessionsOk(objects[sessions[sid] := c], sessions)
    ensures View(objects[sessions[sid] := c], sessions) == View(objects, sessions)[sid := c]
  {}

  lemma ViewAfterCreation(objects: seq<Conn>, sessions: map<string, nat>, sid: string, c: Conn)
    requires SessionsOk(objects, sessions)
    ensures SessionsOk(objects + [c], sessions) && SessionsOk(objects + [c], sessions[sid := |objects|])
    ensures View(objects + [c], sessions) == View(objects, sessions)
    ensures View(objects + [c], sessions[sid := |objects|]) == View(objects, sessions)[sid := c]
  {}

  // What the two steps of an uninterrupted POST leave behind: the object the message ran on
  // is replaced, nothing else changes.
  lemma TwoSteps(serve: Serve, s: Server, t: nat, header: Option<string>, m: Message, newId: string)
    requires Wellformed(s) && t !in s.inFlight && m.Object?
    ensures var (s1, e1) := Next(serve, s, Lookup(t, header, m, newId));
            e1.Refused? || (IsArrival(e1) && e1.obj < |s1.objects| && Enabled(s1, Handle(t)) &&
              Next(serve, s1, Handle(t)).0 ==
                Server(s1.objects[e1.obj := Handled(serve, s1.objects[e1.obj], m).0], s1.sessions, s.inFlight) &&
              Next(serve, s1, Handle(t)).1 == Answered(t, e1.obj, m, Handled(serve, s1.objects[e1.obj], m).1))
  {
    var (s1, e1) := Next(serve, s, Lookup(t, header, m, newId));
    if !e1.Refused? {
      assert s1.inFlight == s.inFlight[t := Pending(e1.obj, m)];
      assert s1.inFlight - {t} == s.inFlight;
    }
  }

  lemma ArrivalView(serve: Serve, s: Server, t: nat, header: Option<string>, m: Message, newId: string, c: Conn)
    requires SessionsOk(s.objects, s.sessions) && t !in s.inFlight && m.Object?
    requires !Next(serve, s, Lookup(t, header, m, newId)).1.Refused?
    ensures var (s1, e1) := Next(serve, s, Lookup(t, header, m, newId));
            && e1.obj < |s1.objects|
            && s1.objects[e1.obj] == (if e1.Routed? then View(s.objects, s.sessions)[header.value] else FRESH)
            && SessionsOk(s1.objects[e1.obj := c], s1.sessions)
            && View(s1.objects[e1.obj := c], s1.sessions) ==
               (if e1.Throwaway? then View(s.objects, s.sessions) else View(s.objects, s.sessions)[e1.session := c])
  {
    var (s1, e1) := Next(serve, s, Lookup(t, header, m, newId));
    if e1.Routed? {
      ViewAfterUpdate(s.objects, s.sessions, e1.session, c);
    } else {
      assert s1.objects[e1.obj := c] == s.objects + [c];
      ViewAfterCreation(s.objects, s.sessions, newId, c);
    }
  }

  // A POST that runs without interruption: the two steps of the interleaving model are one
  // call of the handler object, in table and in reply.
  lemma UninterruptedPost(serve: Serve, s: Server, t: nat, header: Option<string>, m: Message, newId: string)
    requires Wellformed(s) && t !in s.inFlight && m.Object?
    ensures var (s1, e1) := Next(serve, s, Lookup(t, header, m, newId));
            var (table, reply) := Posted(serve, View(s.objects, s.sessions), header, m, newId);
            if e1.Refused? then s1 == s && reply.UnknownSession? && table == View(s.objects, s.sessions)
            else
              && Enabled(s1, Handle(t))
              && var (s2, e2) := Next(serve, s1, Handle(t));
                 SessionsOk(s2.objects, s2.sessions) && View(s2.objects, s2.sessions) == table &&
                 s2.inFlight == s.inFlight &&
                 reply.Planned? && e2.Answered? && e2.msg == m && e2.plan == reply.plan
  {
    var (s1, e1) := Next(serve, s, Lookup(t, header, m, newId));
    TwoSteps(serve, s, t, header, m, newId);
    if !e1.Refused? {
      ArrivalView(serve, s, t, header, m, newId, Handled(serve, s1.objects[e1.obj], m).0);
    }
  }

  lemma UninterruptedDelete(serve: Serve, s: Server, header: Option<string>)
    requires Wellformed(s)
    ensures var (s1, e) := Next(serve, s, Delete(header));
            var table := View(s.objects, s.sessions);
            var existed := header.Some? && header.value in table;
            && Wellformed(s1) && e == Deleted(header, existed)
            && View(s1.objects, s1.sessions) == if existed then table - {header.value} else table
  {
    StepKeepsWellformed(serve, s, Delete(header));
  }
}
