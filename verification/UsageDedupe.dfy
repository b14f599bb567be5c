/**
  The bounded duplicate filters for app-used and plugin-used facts: a set of keys that is
  emptied when it is full.
 */
module UsageDedupe {
  import opened Common

  const MAX_KEYS := 4096

  type Key = (string, string)   // turn id, connector or plugin id

  // One call, reduced to what matters: the key, if the fact has one, and whether a full
  // set is emptied even when it has none (the plugin filter looks at the set first).
  datatype Call =
    | AppUsed(turn: string, connector: Option<string>)
    | PluginUsed(turn: string, plugin: Option<string>, remotePlugin: Option<string>)

  function KeyOf(c: Call): Option<Key> {
    match c
    case AppUsed(turn, connector) => if connector.Some? then Some((turn, connector.value)) else None
    case PluginUsed(turn, plugin, remote) =>
      if plugin.Some? then Some((turn, plugin.value))
      else if remote.Some? then Some((turn, remote.value)) else None
  }

  predicate Clears(emitted: set<Key>, c: Call) {
    |emitted| >= MAX_KEYS && (c.PluginUsed? || KeyOf(c).Some?)
  }

  function Answered(emitted: set<Key>, c: Call): (set<Key>, bool) {
    var base := if Clears(emitted, c) then {} else emitted;
    match KeyOf(c)
    case None => (base, true)
    case Some(k) => (base + {k}, k !in base)
  }

  class EmittedKeys {
    var emitted: set<Key>

    constructor ()
      ensures emitted == {}
    {
      emitted := {};
    }

    method Insert(k: Key) returns (added: bool)
      modifies this
      ensures emitted == old(emitted) + {k} && added == (k !in old(emitted))
    {
      added := k !in emitted;
      emitted := emitted + {k};
    }

    method ShouldEnqueueAppUsed(turn: string, connector: Option<string>) returns (enqueue: bool)
      modifies this
      ensures (emitted, enqueue) == Answered(old(emitted), AppUsed(turn, connector))
    {
      if connector.None? { return true; }
      if |emitted| >= MAX_KEYS { emitted := {}; }
      enqueue := Insert((turn, connector.value));
    }

    method ShouldEnqueuePluginUsed(turn: string, plugin: Option<string>, remotePlugin: Option<string>)
      returns (enqueue: bool)
      modifies this
      ensures (emitted, enqueue) == Answered(old(emitted), PluginUsed(turn, plugin, remotePlugin))
    {
      if |emitted| >= MAX_KEYS { emitted := {}; }
      var id := if plugin.Some? then plugin else remotePlugin;
      if id.None? { return true; }
      enqueue := Insert((turn, id.value));
    }
  }

  // ------------------------------------------------------------ any sequence of calls

  datatype Entry = Entry(key: Option<Key>, accepted: bool, cleared: bool)
  datatype Filter = Filter(emitted: set<Key>, log: seq<Entry>)

  function Run(calls: seq<Call>): Filter {
    if calls == [] then Filter({}, []) else
      Called(Run(calls[..|calls| - 1]), calls[|calls| - 1])
  }

  function Called(f: Filter, c: Call): Filter {
    var (emitted, accepted) := Answered(f.emitted, c);
    Filter(emitted, f.log + [Entry(KeyOf(c), accepted, Clears(f.emitted, c))])
  }

  predicate Accepts(e: Entry, k: Key) { e.key == Some(k) && e.accepted }

  // `k` was accepted at some call and the set was not emptied since.
  ghost predicate Recent(log: seq<Entry>, k: Key) {
    exists j :: 0 <= j < |log| && Accepts(log[j], k) && forall l :: j < l < |log| ==> !log[l].cleared
  }

  function KeyedAccepts(log: seq<Entry>): nat {
    if log == [] then 0 else
      KeyedAccepts(log[..|log| - 1]) + if log[|log| - 1].key.Some? && log[|log| - 1].accepted then 1 else 0
  }

  function AcceptsOf(log: seq<Entry>, k: Key): nat {
    if log == [] then 0 else AcceptsOf(log[..|log| - 1], k) + if Accepts(log[|log| - 1], k) then 1 else 0
  }

  function Clearings(log: seq<Entry>): nat {
    if log == [] then 0 else Clearings(log[..|log| - 1]) + if log[|log| - 1].cleared then 1 else 0
  }

  lemma RecentExtends(log: seq<Entry>, e: Entry, k: Key)
    ensures Recent(log + [e], k) <==> Accepts(e, k) || (!e.cleared && Recent(log, k))
  {
    var log' := log + [e];
    assert forall i :: 0 <= i < |log| ==> log'[i] == log[i];
    assert log'[|log|] == e;
    if !e.cleared && Recent(log, k) {
      var j :| 0 <= j < |log| && Accepts(log[j], k) && forall l :: j < l < |log| ==> !log[l].cleared;
      assert Accepts(log'[j], k);
    }
    if Recent(log', k) {
      var j :| 0 <= j < |log'| && Accepts(log'[j], k) && forall l :: j < l < |log'| ==> !log'[l].cleared;
      if j < |log| {
        assert !log'[|log|].cleared;
        assert forall l :: j < l < |log| ==> !log[l].cleared by {
          forall l | j < l < |log| ensures !log[l].cleared { assert !log'[l].cleared; }
        }
      }
    }
  }

  // The set holds exactly the recently accepted keys, and every emptying threw away a full set.
  ghost predicate Accounted(f: Filter) {
    && |f.emitted| <= MAX_KEYS
    && (forall k :: k in f.emitted <==> Recent(f.log, k))
    && KeyedAccepts(f.log) == MAX_KEYS * Clearings(f.log) + |f.emitted|
    && (forall k :: AcceptsOf(f.log, k) <= Clearings(f.log) + if k in f.emitted then 1 else 0)
  }

  lemma CountsExtend(log: seq<Entry>, e: Entry, k: Key)
    ensures KeyedAccepts(log + [e]) == KeyedAccepts(log) + if e.key.Some? && e.accepted then 1 else 0
    ensures AcceptsOf(log + [e], k) == AcceptsOf(log, k) + if Accepts(e, k) then 1 else 0
    ensures Clearings(log + [e]) == Clearings(log) + if e.cleared then 1 else 0
  {
    assert (log + [e])[..|log|] == log;
  }

  lemma CallCounts(emitted: set<Key>, c: Call, clearings: nat, accepts: nat)
    requires |emitted| <= MAX_KEYS && accepts == MAX_KEYS * clearings + |emitted|
    ensures var (emitted', accepted) := Answered(emitted, c);
            && |emitted'| <= MAX_KEYS
            && accepts + (if KeyOf(c).Some? && accepted then 1 else 0) ==
               MAX_KEYS * (clearings + if Clears(emitted, c) then 1 else 0) + |emitted'|
  {
    var base := if Clears(emitted, c) then {} else emitted;
    if KeyOf(c).Some? {
      var k := KeyOf(c).value;
      assert |base| < MAX_KEYS;
      assert |base + {k}| == |base| + if k in base then 0 else 1 by { if k in base { assert base + {k} == base; } }
    }
  }

  lemma CallCountsKey(f: Filter, c: Call, k: Key)
    requires Accounted(f)
    ensures var (emitted, accepted) := Answered(f.emitted, c);
            var log := f.log + [Entry(KeyOf(c), accepted, Clears(f.emitted, c))];
            AcceptsOf(log, k) <= Clearings(log) + if k in emitted then 1 else 0
  {
    var (emitted, accepted) := Answered(f.emitted, c);
    CountsExtend(f.log, Entry(KeyOf(c), accepted, Clears(f.emitted, c)), k);
    assert AcceptsOf(f.log, k) <= Clearings(f.log) + if k in f.emitted then 1 else 0;
  }

  lemma CallKeepsAccounted(f: Filter, c: Call)
    requires Accounted(f)
    ensures var (emitted, accepted) := Answered(f.emitted, c);
            Accounted(Filter(emitted, f.log + [Entry(KeyOf(c), accepted, Clears(f.emitted, c))]))
  {
    var (emitted, accepted) := Answered(f.emitted, c);
    var e := Entry(KeyOf(c), accepted, Clears(f.emitted, c));
    CountsExtend(f.log, e, ("", ""));
    CallCounts(f.emitted, c, Clearings(f.log), KeyedAccepts(f.log));
    forall k ensures k in emitted <==> Recent(f.log + [e], k) {
      RecentExtends(f.log, e, k);
      assert k in f.emitted <==> Recent(f.log, k);
    }
    forall k ensures AcceptsOf(f.log + [e], k) <= Clearings(f.log + [e]) + if k in emitted then 1 else 0 {
      CallCountsKey(f, c, k);
    }
  }

  // The client keeps one set for each kind of fact.  Calls of both kinds, in any order, act on
  // each set as the calls of its own kind do.
  datatype Client = Client(app: Filter, plugin: Filter)

  function RunClient(calls: seq<Call>): Client {
    if calls == [] then Client(Run([]), Run([])) else
      var client := RunClient(calls[..|calls| - 1]);
      var c := calls[|calls| - 1];
      if c.AppUsed? then client.(app := Called(client.app, c)) else client.(plugin := Called(client.plugin, c))
  }

  function OfKind(calls: seq<Call>, app: bool): seq<Call> {
    if calls == [] then [] else
      var c := calls[|calls| - 1];
      OfKind(calls[..|calls| - 1], app) + if c.AppUsed? == app then [c] else []
  }

  lemma RunExtends(calls: seq<Call>, c: Call)
    ensures Run(calls + [c]) == Called(Run(calls), c)
  {
    assert (calls + [c])[..|calls|] == calls;
  }

  lemma {:induction false} SetsAreSeparate(calls: seq<Call>)
    ensures RunClient(calls) == Client(Run(OfKind(calls, true)), Run(OfKind(calls, false)))
  {
    if calls != [] {
      var before, c := calls[..|calls| - 1], calls[|calls| - 1];
      SetsAreSeparate(before);
      RunExtends(OfKind(before, c.AppUsed?), c);
      assert OfKind(calls, !c.AppUsed?) == OfKind(before, !c.AppUsed?);
    }
  }

  // What is remembered: the turn with the connector, or with the plugin, whose own id goes
  // before the remote one; nothing when there is no id.  Two calls of one kind are duplicates
  // exactly when both agree.
  lemma KeyMeaning(turn: string, id: string, plugin: Option<string>, remote: Option<string>)
    ensures KeyOf(AppUsed(turn, Some(id))) == Some((turn, id)) && KeyOf(AppUsed(turn, None)) == None
    ensures KeyOf(PluginUsed(turn, Some(id), remote)) == Some((turn, id))
    ensures KeyOf(PluginUsed(turn, None, Some(id))) == Some((turn, id))
    ensures KeyOf(PluginUsed(turn, None, None)) == None
  {}

  // A second call is refused, unless it empties the set, exactly when it repeats the first.
  lemma RepeatIsRefused(emitted: set<Key>, c: Call, d: Call)
    requires KeyOf(d).Some? && |Answered(emitted, c).0| < 4096 && KeyOf(d).value !in emitted
    ensures !Answered(Answered(emitted, c).0, d).1 <==> KeyOf(c) == KeyOf(d)
  {}

  // A full set is emptied by every plugin call, and by an app call with a connector.
  lemma EmptiedIff(emitted: set<Key>, c: Call)
    ensures Clears(emitted, c) <==> |emitted| >= 4096 && (c.AppUsed? ==> c.connector.Some?)
  {}

  // Under every sequence of calls on one set: it never exceeds its bound ...
  lemma {:induction false} RunsAreAccounted(calls: seq<Call>)
    ensures Accounted(Run(calls))
  {
    if calls != [] {
      RunsAreAccounted(calls[..|calls| - 1]);
      CallKeepsAccounted(Run(calls[..|calls| - 1]), calls[|calls| - 1]);
    }
  }

  // ... a call is refused exactly when it has a key that was accepted since the set was last
  // emptied (the call's own emptying included) ...
  lemma RefusedIffRecent(calls: seq<Call>, c: Call)
    ensures var f := Run(calls);
            !Answered(f.emitted, c).1 <==> KeyOf(c).Some? && !Clears(f.emitted, c) && Recent(f.log, KeyOf(c).value)
  {
    RunsAreAccounted(calls);
  }

  // ... and with `a` keyed acceptances in all, no key was accepted more than ceil(a / 4096) times.
  lemma AcceptedAtMost(calls: seq<Call>, k: Key)
    ensures var log := Run(calls).log; AcceptsOf(log, k) <= (KeyedAccepts(log) + 4095) / 4096
    ensures |Run(calls).emitted| <= 4096
  {
    RunsAreAccounted(calls);
    var f := Run(calls);
    var a, n := KeyedAccepts(f.log), Clearings(f.log);
    if k in f.emitted {
      assert |f.emitted| >= 1 by { assert f.emitted != {}; }
      assert a + 4095 >= 4096 * (n + 1);
    } else {
      assert a + 4095 >= 4096 * n;
    }
  }
}
