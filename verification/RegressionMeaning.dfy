/**
  What the reader's result means, stated without its folds: which statuses an
  identity carries, and exactly which reports are read without a problem.
 */
module RegressionMeaning {
  import opened Common
  import opened RegressionReport

  ghost predicate SaidBy(checks: seq<Typed<RawCheck>>, id: Identity, s: Status) {
    exists i :: 0 <= i < |checks| && ReadCheck(id.mode, id.transport, checks[i]) == Some((id, s))
  }

  lemma {:induction false} ReadChecksMeaning(acc: Statuses, mode: Mode, transport: Transport,
                                             checks: seq<Typed<RawCheck>>, id: Identity)
    ensures var m := ReadChecks(acc, mode, transport, checks);
            && (forall s :: s in StatusesOf(m, id) <==>
                  s in StatusesOf(acc, id) || (id.mode == mode && id.transport == transport && SaidBy(checks, id, s)))
            && (id in m <==> id in acc || StatusesOf(m, id) != {})
  {
    if checks != [] {
      var n := |checks| - 1;
      ReadChecksMeaning(acc, mode, transport, checks[..n], id);
      var here := ReadCheck(mode, transport, checks[n]);
      forall s ensures id.mode == mode && id.transport == transport ==>
                         (SaidBy(checks, id, s) <==> SaidBy(checks[..n], id, s) || here == Some((id, s)))
      {
        SaidByExtends(checks, id, s);
      }
      assert here.Some? ==> here.value.0.mode == mode && here.value.0.transport == transport;
    }
  }

  lemma SaidByExtends(checks: seq<Typed<RawCheck>>, id: Identity, s: Status)
    requires checks != []
    ensures var n := |checks| - 1;
            SaidBy(checks, id, s) <==>
            SaidBy(checks[..n], id, s) || ReadCheck(id.mode, id.transport, checks[n]) == Some((id, s))
  {
    SomeExtends(checks, c => ReadCheck(id.mode, id.transport, c) == Some((id, s)));
  }

  ghost predicate SaidByTable(t: CaseTable, id: Identity, s: Status) {
    id.transport in TRANSPORTS && SaidBy(SlotChecks(t, id.mode, id.transport), id, s)
  }

  lemma {:induction false} ModesMeaning(t: CaseTable, modes: seq<Mode>, id: Identity)
    ensures var m := ModesStatuses(t, modes);
            && (forall s :: s in StatusesOf(m, id) <==> id.mode in modes && SaidByTable(t, id, s))
            && (id in m <==> StatusesOf(m, id) != {})
  {
    if modes != [] {
      var mode := modes[|modes| - 1];
      var before := ModesStatuses(t, modes[..|modes| - 1]);
      ModesMeaning(t, modes[..|modes| - 1], id);
      assert modes == modes[..|modes| - 1] + [mode];
      var mid := ReadChecks(before, mode, Stdio, SlotChecks(t, mode, Stdio));
      ReadChecksMeaning(before, mode, Stdio, SlotChecks(t, mode, Stdio), id);
      ReadChecksMeaning(mid, mode, OfficialHttp, SlotChecks(t, mode, OfficialHttp), id);
    }
  }

  // The table holds, for each key, the first required case with that key.
  lemma {:induction false} TableHoldsFirst(cases: seq<Typed<RawCase>>, key: (Mode, Transport))
    ensures key in Table(cases) <==>
            exists i :: 0 <= i < |cases| && IsRequiredCase(cases[i]) && CaseKey(cases[i].value) == key
    ensures key in Table(cases) ==>
            exists i :: 0 <= i < |cases| && IsRequiredCase(cases[i]) && CaseKey(cases[i].value) == key &&
                        Table(cases)[key] == cases[i].value &&
                        forall j :: 0 <= j < i && IsRequiredCase(cases[j]) ==> CaseKey(cases[j].value) != key
  {
    if cases != [] {
      var n := |cases| - 1;
      var before := cases[..n];
      TableHoldsFirst(before, key);
      assert forall i :: 0 <= i < n ==> before[i] == cases[i];
      if key in Table(before) {
        var i :| 0 <= i < |before| && IsRequiredCase(before[i]) && CaseKey(before[i].value) == key &&
                 Table(before)[key] == before[i].value &&
                 forall j :: 0 <= j < i && IsRequiredCase(before[j]) ==> CaseKey(before[j].value) != key;
        assert cases[i] == before[i];
        assert Table(cases)[key] == cases[i].value;
      } else if IsRequiredCase(cases[n]) && CaseKey(cases[n].value) == key {
        assert Table(cases)[key] == cases[n].value;
      }
    }
  }

  // A report stands for the statuses its first case per slot says.
  lemma FullStatusesMeaning(r: Report, id: Identity, s: Status)
    requires r.baselineKind == Full
    ensures s in StatusesOf(ReportStatuses(r), id) <==> SaidByTable(Table(CasesOf(r)), id, s)
    ensures id in ReportStatuses(r) <==> StatusesOf(ReportStatuses(r), id) != {}
  {
    ModesMeaning(Table(CasesOf(r)), MODES, id);
    EveryModeIsRequired();
  }

  lemma {:induction false} ReadRecordsMeaning(acc: Statuses, s: Status, records: seq<Typed<RawIdentity>>, id: Identity)
    ensures var m := ReadRecords(acc, s, records);
            && StatusesOf(m, id) == StatusesOf(acc, id) + (if id in Seen(records) then {s} else {})
            && (id in m <==> id in acc || StatusesOf(m, id) != {})
  {
    if records != [] {
      var n := |records| - 1;
      var before := records[..n];
      ReadRecordsMeaning(acc, s, before, id);
      assert id in Seen(records) <==> id in Seen(before) || ReadIdentity(records[n]) == Some(id) by {
        if id in Seen(before) {
          var i :| 0 <= i < n && ReadIdentity(before[i]) == Some(id);
          assert records[i] == before[i];
        }
        if id in Seen(records) {
          var i :| 0 <= i < |records| && ReadIdentity(records[i]) == Some(id);
          if i < n { assert before[i] == records[i]; }
        }
      }
    }
  }

  function Records(b: Typed<seq<Typed<RawIdentity>>>): seq<Typed<RawIdentity>> {
    if b.Is? then b.value else []
  }

  // A compact baseline stands for PASS on its passing list and FAIL on its failing list.
  lemma CompactStatusesMeaning(r: Report, id: Identity)
    requires r.baselineKind == CompactV1 && r.compactChecks.Is?
    ensures var m := ReportStatuses(r);
            && (PASS in StatusesOf(m, id) <==> id in Seen(Records(r.compactChecks.value.passing)))
            && (FAIL in StatusesOf(m, id) <==> id in Seen(Records(r.compactChecks.value.failing)))
            && SKIP !in StatusesOf(m, id)
            && (id in m <==> StatusesOf(m, id) != {})
  {
    var b := r.compactChecks.value;
    var passing := ReadRecords(map[], PASS, Records(b.passing));
    ReadRecordsMeaning(map[], PASS, Records(b.passing), id);
    ReadRecordsMeaning(passing, FAIL, Records(b.failing), id);
  }

  // ------------------------------------------------------------ well-formed reports

  lemma EveryModeIsRequired()
    ensures forall mode: Mode :: mode in MODES
  {
    forall mode: Mode ensures mode in MODES {
      match mode
      case Shipping => assert MODES[0] == mode;
      case Legacy => assert MODES[1] == mode;
      case Modern => assert MODES[2] == mode;
    }
  }

  ghost predicate HeaderOk(r: Report) {
    && r.schemaVersion == Is(4)
    && r.versionCheck == Is(Is(true))
    && r.modernFeatureEnablement == Is(true)
    && r.official.Is?
    && r.official.value.repository == Is(OFFICIAL_REPOSITORY)
    && r.official.value.gitRef == Is(OFFICIAL_GIT_REF)
    && r.official.value.authenticationIncluded == Is(true)
    && r.official.value.scenarios.Is?
  }

  lemma HeaderProblemsMeaning(r: Report)
    ensures HeaderProblems(r) == [] <==> HeaderOk(r)
  {}

  ghost predicate CasesOk(cases: seq<Typed<RawCase>>) {
    && (forall i :: 0 <= i < |cases| ==> cases[i].Is? && (cases[i].value.mode.Is? ==> cases[i].value.transport.Is?))
    && (forall i, j :: 0 <= i < j < |cases| && IsRequiredCase(cases[i]) && IsRequiredCase(cases[j]) ==>
          CaseKey(cases[i].value) != CaseKey(cases[j].value))
  }

  lemma {:induction false} CaseProblemsMeaning(cases: seq<Typed<RawCase>>)
    ensures CaseProblems(cases) == [] <==> CasesOk(cases)
  {
    if cases != [] {
      CaseProblemsMeaning(cases[..|cases| - 1]);
      CasesOkExtends(cases);
    }
  }

  lemma CasesOkExtends(cases: seq<Typed<RawCase>>)
    requires cases != []
    ensures var before, c := cases[..|cases| - 1], cases[|cases| - 1];
            CasesOk(cases) <==>
            && CasesOk(before) && c.Is? && (c.value.mode.Is? ==> c.value.transport.Is?)
            && (IsRequiredCase(c) ==> CaseKey(c.value) !in Table(before))
  {
    var n := |cases| - 1;
    var before := cases[..n];
    forall i | 0 <= i < n ensures before[i] == cases[i] {}
    if IsRequiredCase(cases[n]) { TableHoldsFirst(before, CaseKey(cases[n].value)); }
  }

  ghost predicate ChecksOk(mode: Mode, transport: Transport, checks: seq<Typed<RawCheck>>) {
    forall i :: 0 <= i < |checks| ==> ReadCheck(mode, transport, checks[i]).Some?
  }

  lemma ChecksOkExtends(mode: Mode, transport: Transport, checks: seq<Typed<RawCheck>>)
    requires checks != []
    ensures var before, last := checks[..|checks| - 1], checks[|checks| - 1];
            ChecksOk(mode, transport, checks) <==>
            ChecksOk(mode, transport, before) && ReadCheck(mode, transport, last).Some?
  {
    AllExtends(checks, c => ReadCheck(mode, transport, c).Some?);
  }

  lemma {:induction false} CheckProblemsMeaning(mode: Mode, transport: Transport, checks: seq<Typed<RawCheck>>)
    ensures CheckProblems(mode, transport, checks) == [] <==> ChecksOk(mode, transport, checks)
  {
    if checks != [] {
      CheckProblemsMeaning(mode, transport, checks[..|checks| - 1]);
      ChecksOkExtends(mode, transport, checks);
      LastProblem(mode, transport, checks);
    }
  }

  lemma LastProblem(mode: Mode, transport: Transport, checks: seq<Typed<RawCheck>>)
    requires checks != []
    ensures var before, last := checks[..|checks| - 1], checks[|checks| - 1];
            CheckProblems(mode, transport, checks) == [] <==>
            CheckProblems(mode, transport, before) == [] && ReadCheck(mode, transport, last).Some?
  {}

  ghost predicate SlotOk(catalog: Catalog, t: CaseTable, mode: Mode, transport: Transport) {
    var checks := SlotChecks(t, mode, transport);
    && checks != []
    && ChecksOk(mode, transport, checks)
    && (transport == OfficialHttp ==>
          ObservedScenarios(mode, transport, checks) == ToSet(catalog.Expected(mode)))
  }

  lemma ScenarioProblemsMeaning(mode: Mode, expected: set<string>, observed: set<string>)
    ensures ScenarioProblems(mode, expected, observed) == [] <==> observed == expected
  {
    if observed - expected == {} && expected - observed == {} {
      assert observed == expected;
    }
  }

  lemma SlotProblemsMeaning(catalog: Catalog, t: CaseTable, mode: Mode, transport: Transport)
    ensures SlotProblems(catalog, t, mode, transport) == [] <==> SlotOk(catalog, t, mode, transport)
  {
    var checks := SlotChecks(t, mode, transport);
    CheckProblemsMeaning(mode, transport, checks);
    ScenarioProblemsMeaning(mode, ToSet(catalog.Expected(mode)), ObservedScenarios(mode, transport, checks));
  }

  ghost predicate ModeOk(r: Report, catalog: Catalog, t: CaseTable, mode: Mode) {
    Selected(r, mode) == Is(catalog.Expected(mode)) &&
    SlotOk(catalog, t, mode, Stdio) && SlotOk(catalog, t, mode, OfficialHttp)
  }

  lemma ModeProblemsMeaning(r: Report, catalog: Catalog, t: CaseTable, mode: Mode)
    ensures ModeProblems(r, catalog, t, mode) == [] <==> ModeOk(r, catalog, t, mode)
  {
    SlotProblemsMeaning(catalog, t, mode, Stdio);
    SlotProblemsMeaning(catalog, t, mode, OfficialHttp);
  }

  lemma {:induction false} ForModesMeaning(modes: seq<Mode>, f: Mode -> seq<Problem>)
    ensures ForModes(modes, f) == [] <==> forall mode :: mode in modes ==> f(mode) == []
  {
    if modes != [] {
      var before, mode := modes[..|modes| - 1], modes[|modes| - 1];
      ForModesMeaning(before, f);
      assert forall x :: x in modes <==> x in before || x == mode by { assert modes == before + [mode]; }
    }
  }

  lemma FullModesMeaning(r: Report, catalog: Catalog, t: CaseTable)
    ensures ForModes(MODES, FullModes(r, catalog, t)) == [] <==> forall mode :: ModeOk(r, catalog, t, mode)
  {
    EveryModeIsRequired();
    ForModesMeaning(MODES, FullModes(r, catalog, t));
    forall mode ensures FullModes(r, catalog, t)(mode) == [] <==> ModeOk(r, catalog, t, mode) {
      ModeProblemsMeaning(r, catalog, t, mode);
    }
  }

  ghost predicate FullOk(r: Report, catalog: Catalog) {
    HeaderOk(r) && r.cases.Is? && CasesOk(r.cases.value) &&
    forall mode :: ModeOk(r, catalog, Table(r.cases.value), mode)
  }

  // A full report is read without a problem exactly when all of this holds.
  lemma FullReportAccepted(r: Report, catalog: Catalog)
    requires r.baselineKind == Full
    ensures ReportProblems(r, catalog) == [] <==> FullOk(r, catalog)
  {
    HeaderProblemsMeaning(r);
    CaseProblemsMeaning(CasesOf(r));
    FullModesMeaning(r, catalog, Table(CasesOf(r)));
  }

  ghost predicate RecordsOk(records: seq<Typed<RawIdentity>>) {
    && (forall i :: 0 <= i < |records| ==> ReadIdentity(records[i]).Some?)
    && (forall i, j :: 0 <= i < j < |records| ==> ReadIdentity(records[i]) != ReadIdentity(records[j]))
  }

  lemma {:induction false} RecordProblemsMeaning(s: Status, records: seq<Typed<RawIdentity>>)
    ensures RecordProblems(s, records) == [] <==> RecordsOk(records)
  {
    if records != [] {
      RecordProblemsMeaning(s, records[..|records| - 1]);
      RecordsOkExtends(records);
    }
  }

  lemma RecordsOkExtends(records: seq<Typed<RawIdentity>>)
    requires records != []
    ensures var before, last := records[..|records| - 1], ReadIdentity(records[|records| - 1]);
            RecordsOk(records) <==> RecordsOk(before) && last.Some? && last.value !in Seen(before)
  {
    var n := |records| - 1;
    var before, last := records[..n], ReadIdentity(records[n]);
    forall i | 0 <= i < n ensures before[i] == records[i] {}
    assert last.Some? ==> (last.value in Seen(before) <==> exists i :: 0 <= i < n && ReadIdentity(before[i]) == last);
  }

  ghost predicate CompactModeOk(r: Report, catalog: Catalog, ids: set<Identity>, mode: Mode) {
    Selected(r, mode) == Is(catalog.Expected(mode)) && HasCase(ids, mode, Stdio) && HasCase(ids, mode, OfficialHttp) &&
    CompactScenarios(ids, mode) == ToSet(catalog.Expected(mode))
  }

  lemma CompactModeProblemsMeaning(r: Report, catalog: Catalog, ids: set<Identity>, mode: Mode)
    ensures CompactModeProblems(r, catalog, ids, mode) == [] <==> CompactModeOk(r, catalog, ids, mode)
  {
    ScenarioProblemsMeaning(mode, ToSet(catalog.Expected(mode)), CompactScenarios(ids, mode));
  }

  lemma CompactModesMeaning(r: Report, catalog: Catalog, ids: set<Identity>)
    ensures ForModes(MODES, CompactModes(r, catalog, ids)) == [] <==>
            forall mode :: CompactModeOk(r, catalog, ids, mode)
  {
    EveryModeIsRequired();
    ForModesMeaning(MODES, CompactModes(r, catalog, ids));
    forall mode ensures CompactModes(r, catalog, ids)(mode) == [] <==> CompactModeOk(r, catalog, ids, mode) {
      CompactModeProblemsMeaning(r, catalog, ids, mode);
    }
  }

  ghost predicate CompactOk(r: Report, catalog: Catalog) {
    && HeaderOk(r)
    && r.requiredModes == Is(MODES)
    && BothTransports(r.transports)
    && r.compactChecks.Is?
    && r.compactChecks.value.passing.Is? && RecordsOk(r.compactChecks.value.passing.value)
    && r.compactChecks.value.failing.Is? && RecordsOk(r.compactChecks.value.failing.value)
    && forall mode :: CompactModeOk(r, catalog, ReportStatuses(r).Keys, mode)
  }

  // A compact baseline is read without a problem exactly when all of this holds.
  lemma CompactReportAccepted(r: Report, catalog: Catalog)
    requires r.baselineKind == CompactV1
    ensures ReportProblems(r, catalog) == [] <==> CompactOk(r, catalog)
  {
    HeaderProblemsMeaning(r);
    if r.compactChecks.Is? {
      RecordProblemsMeaning(PASS, Records(r.compactChecks.value.passing));
      RecordProblemsMeaning(FAIL, Records(r.compactChecks.value.failing));
      CompactModesMeaning(r, catalog, ReportStatuses(r).Keys);
    }
  }

  // ------------------------------------------------------------ what one check or record says

  ghost predicate NullOrNonempty(n: Nullable) { n.Null? || (n.Text? && n.text != []) }

  // A check is read exactly when its fields have the right types, its texts are not empty and
  // its success agrees with its status; and then as the case's mode and transport, its own
  // source and scenario, its id or else its name, and its status, whatever the transport.
  lemma CheckMeaning(mode: Mode, transport: Transport, c: Typed<RawCheck>, id: Identity, s: Status)
    ensures ReadCheck(mode, transport, c) == Some((id, s)) <==>
            && c.Is? && c.value.source.Is? && c.value.name.Is? && c.value.name.value != []
            && NullOrNonempty(c.value.scenario) && NullOrNonempty(c.value.checkId)
            && c.value.status == Is(s) && c.value.success == Is(s != FAIL)
            && id.mode == mode && id.transport == transport && id.source == c.value.source.value
            && (if c.value.scenario.Null? then id.scenario == "" else id.scenario == c.value.scenario.text)
            && (if c.value.checkId.Null? then id.checkId == StableName(c.value.name.value)
                else id.checkId == c.value.checkId.text)
  {}

  // A compact record is read exactly when it names one of the two transports and a check.
  lemma RecordMeaning(r: Typed<RawIdentity>, id: Identity)
    ensures ReadIdentity(r) == Some(id) <==>
            && r == Is(RawIdentity(Is(id.mode), Is(id.transport), Is(id.source), Is(id.scenario), Is(id.checkId)))
            && id.checkId != [] && (id.transport == Stdio || id.transport == OfficialHttp)
  {}
}
