/**
  The report reader as it runs: loops that fill a dictionary and an error list.
  Each loop is proved against the functions of `RegressionReport`.
 */
module RegressionReader {
  import opened Common
  import opened RegressionReport

  method TabulateCases(cases: seq<Typed<RawCase>>) returns (table: CaseTable, problems: seq<Problem>)
    ensures table == Table(cases)
    ensures problems == CaseProblems(cases)
  {
    table, problems := map[], [];
    for i := 0 to |cases|
      invariant table == Table(cases[..i])
      invariant problems == CaseProblems(cases[..i])
    {
      var c := cases[i];
      assert cases[..i + 1][..i] == cases[..i];
      if c.Wrong? {
        problems := problems + [MalformedCase];
        continue;
      }
      if c.value.mode.Wrong? { continue; }
      if c.value.transport.Wrong? {
        problems := problems + [MalformedRequiredCase];
        continue;
      }
      var key := (c.value.mode.value, c.value.transport.value);
      if key in table {
        problems := problems + [DuplicateCase(key.0, key.1)];
        continue;
      }
      table := table[key := c.value];
    }
    assert cases[..|cases|] == cases;
  }

  // What one reading adds.
  function Recorded(m: Statuses, reading: Option<(Identity, Status)>): Statuses {
    match reading case None => m case Some((id, s)) => Record(m, id, s)
  }

  function Observes(reading: Option<(Identity, Status)>): set<string> {
    match reading case None => {} case Some((id, s)) => if NamesScenario(id) then {id.scenario} else {}
  }

  lemma CheckRead(acc: Statuses, mode: Mode, transport: Transport, checks: seq<Typed<RawCheck>>, i: nat)
    requires i < |checks|
    ensures var before, after, reading := checks[..i], checks[..i + 1], ReadCheck(mode, transport, checks[i]);
            && ReadChecks(acc, mode, transport, after) == Recorded(ReadChecks(acc, mode, transport, before), reading)
            && CheckProblems(mode, transport, after) ==
               CheckProblems(mode, transport, before) +
               (if reading.None? then [MalformedCheck(mode, transport)] else [])
            && ObservedScenarios(mode, transport, after) ==
               ObservedScenarios(mode, transport, before) + Observes(reading)
  {
    assert checks[..i + 1][..i] == checks[..i];
    ObservedExtends(mode, transport, checks, i);
  }

  method ReadCheckList(mode: Mode, transport: Transport, checks: seq<Typed<RawCheck>>, acc: Statuses)
    returns (identities: Statuses, problems: seq<Problem>, observed: set<string>)
    ensures identities == ReadChecks(acc, mode, transport, checks)
    ensures problems == CheckProblems(mode, transport, checks)
    ensures observed == ObservedScenarios(mode, transport, checks)
  {
    identities, problems, observed := acc, [], {};
    for i := 0 to |checks|
      invariant identities == ReadChecks(acc, mode, transport, checks[..i])
      invariant problems == CheckProblems(mode, transport, checks[..i])
      invariant observed == ObservedScenarios(mode, transport, checks[..i])
    {
      CheckRead(acc, mode, transport, checks, i);
      var reading := ReadCheck(mode, transport, checks[i]);
      if reading.None? {
        problems := problems + [MalformedCheck(mode, transport)];
        continue;
      }
      var (id, s) := reading.value;
      identities := identities[id := StatusesOf(identities, id) + {s}];
      if NamesScenario(id) { observed := observed + {id.scenario}; }
    }
    assert checks[..|checks|] == checks;
  }

  method ReadSlot(catalog: Catalog, table: CaseTable, mode: Mode, transport: Transport, acc: Statuses)
    returns (identities: Statuses, problems: seq<Problem>)
    ensures identities == ReadChecks(acc, mode, transport, SlotChecks(table, mode, transport))
    ensures problems == SlotProblems(catalog, table, mode, transport)
  {
    if (mode, transport) !in table { return acc, [MissingCase(mode, transport)]; }
    var raw := table[(mode, transport)].checks;
    if raw.Wrong? || raw.value == [] { return acc, [NoChecks(mode, transport)]; }
    var observed;
    identities, problems, observed := ReadCheckList(mode, transport, raw.value, acc);
    if transport == OfficialHttp {
      problems := problems + ScenarioProblems(mode, ToSet(catalog.Expected(mode)), observed);
    }
  }

  lemma ObservedExtends(mode: Mode, transport: Transport, checks: seq<Typed<RawCheck>>, i: nat)
    requires i < |checks|
    ensures ObservedScenarios(mode, transport, checks[..i + 1]) ==
            ObservedScenarios(mode, transport, checks[..i]) + Observes(ReadCheck(mode, transport, checks[i]))
  {
    var before, after := checks[..i], checks[..i + 1];
    assert after[..i] == before && after[i] == checks[i];
    forall x
      ensures x in ObservedScenarios(mode, transport, after) <==>
              x in ObservedScenarios(mode, transport, before) || x in Observes(ReadCheck(mode, transport, checks[i]))
    {
      ObservedHas(mode, transport, before, x);
      ObservedHas(mode, transport, after, x);
      SomeExtends(after, c => x in Observes(ReadCheck(mode, transport, c)));
    }
  }

  lemma ObservedHas(mode: Mode, transport: Transport, checks: seq<Typed<RawCheck>>, x: string)
    ensures x in ObservedScenarios(mode, transport, checks) <==>
            exists i :: 0 <= i < |checks| && x in Observes(ReadCheck(mode, transport, checks[i]))
  {}

  method ReadMode(r: Report, catalog: Catalog, table: CaseTable, mode: Mode, acc: Statuses)
    returns (identities: Statuses, problems: seq<Problem>)
    ensures identities == ModeStatuses(acc, table, mode)
    ensures problems == ModeProblems(r, catalog, table, mode)
  {
    identities, problems := acc, CatalogProblems(r, catalog, mode);
    for j := 0 to |TRANSPORTS|
      invariant j == 0 ==> identities == acc
      invariant j == 1 ==> identities == ReadChecks(acc, mode, Stdio, SlotChecks(table, mode, Stdio))
      invariant j == 2 ==> identities == ModeStatuses(acc, table, mode)
      invariant j == 0 ==> problems == CatalogProblems(r, catalog, mode)
      invariant j == 1 ==> problems == CatalogProblems(r, catalog, mode) + SlotProblems(catalog, table, mode, Stdio)
      invariant j == 2 ==> problems == ModeProblems(r, catalog, table, mode)
    {
      var slotProblems;
      identities, slotProblems := ReadSlot(catalog, table, mode, TRANSPORTS[j], identities);
      problems := problems + slotProblems;
    }
  }

  method ReadModes(r: Report, catalog: Catalog, table: CaseTable, modes: seq<Mode>)
    returns (identities: Statuses, problems: seq<Problem>)
    ensures identities == ModesStatuses(table, modes)
    ensures problems == ForModes(modes, FullModes(r, catalog, table))
  {
    identities, problems := map[], [];
    for k := 0 to |modes|
      invariant identities == ModesStatuses(table, modes[..k])
      invariant problems == ForModes(modes[..k], FullModes(r, catalog, table))
    {
      assert modes[..k + 1][..k] == modes[..k];
      var modeProblems;
      identities, modeProblems := ReadMode(r, catalog, table, modes[k], identities);
      problems := problems + modeProblems;
    }
    assert modes[..|modes|] == modes;
  }

  method ReadFull(r: Report, catalog: Catalog) returns (identities: Statuses, problems: seq<Problem>)
    requires r.baselineKind == Full
    ensures identities == ReportStatuses(r)
    ensures problems == ReportProblems(r, catalog)
  {
    identities, problems := ReadFullBody(r, catalog, HeaderProblems(r));
  }

  method ReadFullBody(r: Report, catalog: Catalog, header: seq<Problem>)
    returns (identities: Statuses, problems: seq<Problem>)
    ensures identities == ModesStatuses(Table(CasesOf(r)), MODES)
    ensures problems == header + (if r.cases.Wrong? then [NoCases] else []) + CaseProblems(CasesOf(r)) +
                        ForModes(MODES, FullModes(r, catalog, Table(CasesOf(r))))
  {
    problems := header;
    var cases := [];
    if r.cases.Wrong? { problems := problems + [NoCases]; } else { cases := r.cases.value; }
    var table, caseProblems := TabulateCases(cases);
    var modeProblems;
    identities, modeProblems := ReadModes(r, catalog, table, MODES);
    problems := problems + caseProblems + modeProblems;
  }

  method ReadBucket(s: Status, records: Typed<seq<Typed<RawIdentity>>>, acc: Statuses)
    returns (identities: Statuses, problems: seq<Problem>)
    ensures identities == BucketStatuses(acc, s, records)
    ensures problems == BucketProblems(s, records)
  {
    if records.Wrong? { return acc, [NoBucket(s)]; }
    identities, problems := ReadRecordList(s, records.value, acc);
  }

  lemma {:induction false} SeenIsRecorded(acc: Statuses, s: Status, list: seq<Typed<RawIdentity>>, id: Identity)
    requires id in Seen(list)
    ensures var m := ReadRecords(acc, s, list); id in m && s in m[id]
  {
    var n := |list| - 1;
    SeenExtends(list, n);
    assert list[..n + 1] == list;
    if ReadIdentity(list[n]) != Some(id) { SeenIsRecorded(acc, s, list[..n], id); }
  }

  // What a repeated record would add is there already.
  lemma RecordedAlready(m: Statuses, id: Identity, s: Status)
    requires id in m && s in m[id]
    ensures Record(m, id, s) == m
  {
    assert StatusesOf(m, id) + {s} == StatusesOf(m, id);
  }

  method ReadRecordList(s: Status, list: seq<Typed<RawIdentity>>, acc: Statuses)
    returns (identities: Statuses, problems: seq<Problem>)
    ensures identities == ReadRecords(acc, s, list)
    ensures problems == RecordProblems(s, list)
  {
    identities, problems := acc, [];
    var seen: set<Identity> := {};
    for i := 0 to |list|
      invariant identities == ReadRecords(acc, s, list[..i])
      invariant problems == RecordProblems(s, list[..i])
      invariant seen == Seen(list[..i])
    {
      assert list[..i + 1][..i] == list[..i];
      SeenExtends(list, i);
      var id := ReadIdentity(list[i]);
      if id.None? {
        problems := problems + [MalformedIdentity(s)];
        continue;
      }
      if id.value in seen {
        problems := problems + [DuplicateIdentity(s)];
        SeenIsRecorded(acc, s, list[..i], id.value);
        RecordedAlready(identities, id.value, s);
        continue;
      }
      seen := seen + {id.value};
      identities := identities[id.value := StatusesOf(identities, id.value) + {s}];
    }
    assert list[..|list|] == list;
  }

  lemma SeenExtends(records: seq<Typed<RawIdentity>>, i: nat)
    requires i < |records|
    ensures Seen(records[..i + 1]) ==
            Seen(records[..i]) +
            match ReadIdentity(records[i]) case None => {} case Some(id) => {id}
  {
    var before, after := records[..i], records[..i + 1];
    assert after[i] == records[i];
    forall x | x in Seen(before) ensures x in Seen(after) {
      var j :| 0 <= j < |before| && ReadIdentity(before[j]) == Some(x);
      assert after[j] == before[j];
    }
  }

  method CompactMode(r: Report, catalog: Catalog, ids: set<Identity>, mode: Mode) returns (problems: seq<Problem>)
    ensures problems == CompactModeProblems(r, catalog, ids, mode)
  {
    problems := CatalogProblems(r, catalog, mode);
    for j := 0 to |TRANSPORTS|
      invariant problems == CatalogProblems(r, catalog, mode) +
                            (if j > 0 && !HasCase(ids, mode, Stdio) then [MissingCase(mode, Stdio)] else []) +
                            (if j > 1 && !HasCase(ids, mode, OfficialHttp) then [MissingCase(mode, OfficialHttp)]
                             else [])
    {
      if !HasCase(ids, mode, TRANSPORTS[j]) { problems := problems + [MissingCase(mode, TRANSPORTS[j])]; }
    }
    problems := problems + ScenarioProblems(mode, ToSet(catalog.Expected(mode)), CompactScenarios(ids, mode));
  }

  lemma ForModesExtend(modes: seq<Mode>, k: nat, f: Mode -> seq<Problem>)
    requires k < |modes|
    ensures ForModes(modes[..k + 1], f) == ForModes(modes[..k], f) + f(modes[k])
  {
    assert modes[..k + 1][..k] == modes[..k];
  }

  method ReadCompactModes(r: Report, catalog: Catalog, ids: set<Identity>, modes: seq<Mode>)
    returns (problems: seq<Problem>)
    ensures problems == ForModes(modes, CompactModes(r, catalog, ids))
  {
    problems := [];
    for k := 0 to |modes|
      invariant problems == ForModes(modes[..k], CompactModes(r, catalog, ids))
    {
      ForModesExtend(modes, k, CompactModes(r, catalog, ids));
      var modeProblems := CompactMode(r, catalog, ids, modes[k]);
      problems := problems + modeProblems;
    }
    assert modes[..|modes|] == modes;
  }

  method ReadBuckets(r: Report, catalog: Catalog, buckets: Buckets)
    returns (identities: Statuses, problems: seq<Problem>)
    requires r.compactChecks == Is(buckets)
    ensures identities == CompactStatuses(r)
    ensures problems == CompactBody(r, catalog, buckets)
  {
    var passing, passingProblems := ReadBucket(PASS, buckets.passing, map[]);
    var failingProblems;
    identities, failingProblems := ReadBucket(FAIL, buckets.failing, passing);
    var modeProblems := ReadCompactModes(r, catalog, identities.Keys, MODES);
    problems := passingProblems + failingProblems + modeProblems;
  }

  method ReadCompact(r: Report, catalog: Catalog) returns (identities: Statuses, problems: seq<Problem>)
    requires r.baselineKind == CompactV1
    ensures identities == ReportStatuses(r)
    ensures problems == ReportProblems(r, catalog)
  {
    problems := CompactPreamble(r);
    if r.compactChecks.Wrong? { return map[], problems + [NoCompactChecks]; }
    var body;
    identities, body := ReadBuckets(r, catalog, r.compactChecks.value);
    problems := problems + body;
  }

  // Everything the gate learns from one report.
  method RequiredChecks(r: Report, catalog: Catalog) returns (identities: Statuses, problems: seq<Problem>)
    ensures identities == ReportStatuses(r)
    ensures problems == ReportProblems(r, catalog)
  {
    match r.baselineKind {
      case Full => identities, problems := ReadFull(r, catalog);
      case CompactV1 => identities, problems := ReadCompact(r, catalog);
      case OtherKind => return map[], HeaderProblems(r) + [UnsupportedBaseline];
    }
  }
}
