/**
  No failing scenario is hidden: not by the case verdict, not by the report reader,
  not by the gate.  And what the runner builds is always covered, so compacting a
  runner's report never changes a verdict.
 */
module OfficialTheorems {
  import opened Common
  import opened RegressionReport
  import opened RegressionMeaning
  import opened RegressionGate
  import opened RegressionTheorems
  import opened RegressionCompaction
  import opened OfficialCase

  lemma {:induction false} AllScenarioChecksMeaning(rs: seq<ScenarioResult>, c: CheckResult)
    ensures c in AllScenarioChecks(rs) <==> InSomeScenario(rs, c)
  {
    if rs != [] {
      var n := |rs| - 1;
      AllScenarioChecksMeaning(rs[..n], c);
      SomeScenarioExtends(rs, c);
    }
  }

  ghost predicate InSomeScenario(rs: seq<ScenarioResult>, c: CheckResult) {
    exists k :: 0 <= k < |rs| && c in ScenarioChecks(rs[k])
  }

  lemma SomeScenarioExtends(rs: seq<ScenarioResult>, c: CheckResult)
    requires rs != []
    ensures InSomeScenario(rs, c) <==> InSomeScenario(rs[..|rs| - 1], c) || c in ScenarioChecks(rs[|rs| - 1])
  {
    SomeExtends(rs, r => c in ScenarioChecks(r));
  }

  ghost predicate AllSucceed(checks: seq<CheckResult>) {
    forall c :: c in checks ==> c.success
  }

  // A scenario's checks all succeed exactly when the scenario succeeded and every check
  // has a status the runner knows.
  lemma ScenarioChecksSucceed(run: ScenarioRun)
    ensures var r := Judge(run);
            AllSucceed(ScenarioChecks(r)) <==>
            r.success && forall c :: c in r.checks ==> c.status in {Success, Skipped, Info}
  {
    var r := Judge(run);
    var out := OfficialResults(r);
    assert AllSucceed(out) <==> forall c :: c in r.checks ==> c.status in {Success, Skipped, Info} by {
      if AllSucceed(out) {
        forall c | c in r.checks ensures c.status in {Success, Skipped, Info} {
          var i :| 0 <= i < |r.checks| && r.checks[i] == c;
          assert out[i] in out;
        }
      }
    }
    var tail := if UnexplainedFailure(r) then [RunnerCheck(r)] else [];
    assert ScenarioChecks(r) == out + [AdapterCheck(r)] + tail;
    assert AllSucceed(ScenarioChecks(r)) <==> AllSucceed(out) && AdapterCheck(r).success && !UnexplainedFailure(r) by {
      assert AdapterCheck(r) in ScenarioChecks(r);
      assert UnexplainedFailure(r) ==> RunnerCheck(r) in ScenarioChecks(r);
      assert forall c :: c in ScenarioChecks(r) <==> c in out || c == AdapterCheck(r) || c in tail;
    }
  }

  // The assembled case succeeds exactly when some scenario ran, every scenario succeeded,
  // no check has an unknown status and the supplemental checks succeeded.
  lemma CaseSucceedsIff(runs: seq<ScenarioRun>, rs: seq<ScenarioResult>, supplemental: seq<CheckResult>)
    requires |rs| == |runs| && forall k :: 0 <= k < |rs| ==> rs[k] == Judge(runs[k])
    ensures CaseSucceeds(CaseChecks(rs, supplemental)) <==>
            && rs != []
            && (forall k :: 0 <= k < |rs| ==>
                  rs[k].success && forall c :: c in rs[k].checks ==> c.status in {Success, Skipped, Info})
            && AllSucceed(supplemental)
  {
    CaseSucceedsParts(rs, supplemental);
    ScenariosSucceed(rs);
    forall k | 0 <= k < |rs| { ScenarioChecksSucceed(runs[k]); }
  }

  lemma CaseSucceedsParts(rs: seq<ScenarioResult>, supplemental: seq<CheckResult>)
    ensures CaseSucceeds(CaseChecks(rs, supplemental)) <==>
            rs != [] && AllSucceed(AllScenarioChecks(rs)) && AllSucceed(supplemental)
  {
    var all := CaseChecks(rs, supplemental);
    var middle := if rs == [] then [SELECTION_CHECK] else [];
    assert all == AllScenarioChecks(rs) + middle + supplemental;
    assert forall c :: c in all <==> c in AllScenarioChecks(rs) || c in middle || c in supplemental;
    assert SELECTION_CHECK in middle <==> rs == [];
    assert CaseSucceeds(all) <==> all != [] && AllSucceed(all);
    if rs != [] { HasAdapterCheck(rs); }
  }

  lemma HasAdapterCheck(rs: seq<ScenarioResult>)
    requires rs != []
    ensures AdapterCheck(rs[0]) in AllScenarioChecks(rs)
  {
    assert AdapterCheck(rs[0]) in ScenarioChecks(rs[0]);
    AllScenarioChecksMeaning(rs, AdapterCheck(rs[0]));
  }

  lemma ScenariosSucceed(rs: seq<ScenarioResult>)
    ensures AllSucceed(AllScenarioChecks(rs)) <==> forall k :: 0 <= k < |rs| ==> AllSucceed(ScenarioChecks(rs[k]))
  {
    forall c { AllScenarioChecksMeaning(rs, c); }
    if AllSucceed(AllScenarioChecks(rs)) {
      forall k, c | 0 <= k < |rs| && c in ScenarioChecks(rs[k]) ensures c.success { assert InSomeScenario(rs, c); }
    }
  }

  // The converse needs the status condition: an unknown status fails the case although
  // the scenario's own verdict is success.
  lemma UnknownStatusFailsTheCase()
    ensures var r := Judge(ScenarioRun("s", 0, [Is(Entry("a", "a", Some(OtherStatus("ERROR"))))], true));
            r.success && !CaseSucceeds(CaseChecks([r], []))
  {
    var run := ScenarioRun("s", 0, [Is(Entry("a", "a", Some(OtherStatus("ERROR"))))], true);
    assert run.entries[..0] == [];
    assert LoadedChecks(run.entries) == [OfficialCheck("a", "a", OtherStatus("ERROR"))];
    var r := Judge(run);
    assert r.checks[0] in r.checks;
    CaseSucceedsIff([run], [r], []);
  }

  // ------------------------------------------------------------ what each part says

  ghost predicate Readable(entries: seq<Typed<Entry>>, i: int) { 0 <= i < |entries| && entries[i].Is? }

  // A scenario succeeds exactly when the runner returned 0, the adapter succeeded, some check
  // is more than information, and every check has a status that is no failure and no warning.
  lemma JudgeMeaning(run: ScenarioRun)
    ensures var r := Judge(run);
            && r.scenario == run.scenario && r.adapterSuccess == run.adapterSuccess
            && (r.success <==>
                  && run.returnCode == 0 && run.adapterSuccess
                  && (exists i :: Readable(run.entries, i) && run.entries[i].value.status != Some(Info))
                  && (forall i :: Readable(run.entries, i) ==> FineStatus(run.entries[i].value.status)))
  {
    SomeCheckLoads(run.entries);
    NoFailureLoads(run.entries);
  }

  predicate FineStatus(s: Option<CheckStatus>) { s.Some? && s != Some(Failure) && s != Some(Warning) }

  lemma SomeCheckLoads(entries: seq<Typed<Entry>>)
    ensures LoadedChecks(entries) != [] <==> exists i :: Readable(entries, i) && entries[i].value.status != Some(Info)
  {
    if LoadedChecks(entries) != [] {
      var c := LoadedChecks(entries)[0];
      LoadedChecksMeaning(entries, c);
      var i :| 0 <= i < |entries| && entries[i].Is? && ReadEntry(entries[i].value, i + 1) == c;
      assert Readable(entries, i);
    }
    forall i | Readable(entries, i) && entries[i].value.status != Some(Info) ensures LoadedChecks(entries) != [] {
      LoadedChecksMeaning(entries, ReadEntry(entries[i].value, i + 1));
    }
  }

  lemma NoFailureLoads(entries: seq<Typed<Entry>>)
    ensures (!exists c :: c in LoadedChecks(entries) && Failed(c)) <==>
            forall i :: Readable(entries, i) ==> FineStatus(entries[i].value.status)
  {
    forall i | Readable(entries, i) && !FineStatus(entries[i].value.status)
      ensures exists c :: c in LoadedChecks(entries) && Failed(c)
    {
      var c := ReadEntry(entries[i].value, i + 1);
      LoadedChecksMeaning(entries, c);
      assert Failed(c);
    }
    forall c | c in LoadedChecks(entries) && Failed(c)
      ensures exists i :: Readable(entries, i) && !FineStatus(entries[i].value.status)
    {
      LoadedChecksMeaning(entries, c);
      var i :| 0 <= i < |entries| && entries[i].Is? && ReadEntry(entries[i].value, i + 1) == c;
      assert Readable(entries, i);
    }
  }

  // An entry without an id is numbered, one without a name goes by its id, and one without a
  // status failed.
  lemma EntryMeaning(id: string, name: string, status: Option<CheckStatus>, n: nat)
    requires id != "" && name != ""
    ensures ReadEntry(Entry(id, name, status), n) ==
            OfficialCheck(id, name, if status.Some? then status.value else Failure)
    ensures ReadEntry(Entry(id, "", status), n) == ReadEntry(Entry(id, id, status), n)
    ensures ReadEntry(Entry("", name, status), n) == ReadEntry(Entry("unnamed-" + Decimal(n), name, status), n)
  {}

  // What a check is recorded as: success passes, skipped and information are skipped, and
  // everything else, an unknown status too, fails; the name tells repeated names apart.
  lemma ResultMeaning(r: ScenarioResult, i: nat)
    requires i < |r.checks|
    ensures var c, out := r.checks[i], OfficialResults(r)[i];
            && (out.status == PASS <==> c.status == Success)
            && (out.status == SKIP <==> c.status == Skipped || c.status == Info)
            && (out.success <==> c.status == Success || c.status == Skipped || c.status == Info)
            && out.source == Official && out.scenario == Some(r.scenario) && out.checkId == Some(c.checkId)
            && (IsRepeated(r.checks, i) ==>
                  out.name == "official/" + r.scenario + "/" + (c.name + "#" + Decimal(i + 1)))
            && (!IsRepeated(r.checks, i) ==> out.name == "official/" + r.scenario + "/" + c.name)
  {
    RepeatedIff(CheckNames(r.checks), i);
    SameRepeats(r.checks, i);
  }

  lemma SameRepeats(checks: seq<OfficialCheck>, i: nat)
    requires i < |checks|
    ensures IsRepeatedName(CheckNames(checks), i) <==> IsRepeated(checks, i)
  {
    var names := CheckNames(checks);
    if IsRepeated(checks, i) {
      var j :| 0 <= j < |checks| && j != i && checks[j].name == checks[i].name;
      assert names[j] == names[i];
    }
    if IsRepeatedName(names, i) {
      var j :| 0 <= j < |names| && j != i && names[j] == names[i];
      assert checks[j].name == checks[i].name;
    }
  }

  ghost predicate IsRepeated(checks: seq<OfficialCheck>, i: nat)
    requires i < |checks|
  {
    exists j :: 0 <= j < |checks| && j != i && checks[j].name == checks[i].name
  }

  ghost predicate IsRepeatedName(names: seq<string>, i: nat)
    requires i < |names|
  {
    exists j :: 0 <= j < |names| && j != i && names[j] == names[i]
  }

  lemma RepeatedIff(names: seq<string>, i: nat)
    requires i < |names|
    ensures multiset(names)[names[i]] > 1 <==> IsRepeatedName(names, i)
  {
    var before, after := names[..i], names[i + 1..];
    assert names == before + [names[i]] + after;
    if IsRepeatedName(names, i) {
      var j :| 0 <= j < |names| && j != i && names[j] == names[i];
      if j < i { assert before[j] == names[i]; } else { assert after[j - i - 1] == names[i]; }
      assert names[i] in multiset(before) || names[i] in multiset(after);
    }
    if multiset(names)[names[i]] > 1 {
      if names[i] in multiset(before) {
        var j :| 0 <= j < |before| && before[j] == names[i];
        assert names[j] == names[i];
      } else {
        assert names[i] in multiset(after);
        var j :| 0 <= j < |after| && after[j] == names[i];
        assert names[i + 1 + j] == names[i];
      }
    }
  }

  // What the harness adds to a scenario: how the adapter did, and that the runner failed when
  // nothing else says so.
  lemma HarnessChecksMeaning(r: ScenarioResult)
    ensures AdapterCheck(r).name == "harness/" + r.scenario + "/codex-adapter"
    ensures RunnerCheck(r).name == "harness/" + r.scenario + "/official-runner"
    ensures AdapterCheck(r).success == r.adapterSuccess && !RunnerCheck(r).success
    ensures AdapterCheck(r).status == (if r.adapterSuccess then PASS else FAIL) && RunnerCheck(r).status == FAIL
    ensures AdapterCheck(r).scenario == RunnerCheck(r).scenario == Some(r.scenario)
  {}

  // ------------------------------------------------------------ what the gate sees

  function AsText(o: Option<string>): Nullable {
    if o.None? then Null else Text(o.value)
  }

  function AsRaw(c: CheckResult): Typed<RawCheck> {
    Is(RawCheck(Is(c.source), AsText(c.scenario), Is(c.name), AsText(c.checkId), Is(c.status), Is(c.success)))
  }

  function AsRawChecks(cs: seq<CheckResult>): seq<Typed<RawCheck>> {
    seq(|cs|, i requires 0 <= i < |cs| => AsRaw(cs[i]))
  }

  function IdentityOf(mode: Mode, c: CheckResult): Identity {
    Identity(mode, OfficialHttp, c.source, if c.scenario.Some? then c.scenario.value else "",
             if c.checkId.Some? then c.checkId.value else StableName(c.name))
  }

  // A check the runner may write: non-empty names, and a status that agrees with its success.
  predicate WellBuilt(c: CheckResult) {
    && c.name != [] && (c.scenario.Some? ==> c.scenario.value != []) && (c.checkId.Some? ==> c.checkId.value != [])
    && c.success == (c.status != FAIL)
  }

  lemma ReadsBack(mode: Mode, c: CheckResult)
    requires WellBuilt(c)
    ensures ReadCheck(mode, OfficialHttp, AsRaw(c)) == Some((IdentityOf(mode, c), c.status))
  {}

  // The official-http case of `mode` in a full report was assembled from `rs`.
  ghost predicate CarriesCase(r: Report, mode: Mode, rs: seq<ScenarioResult>, supplemental: seq<CheckResult>) {
    r.baselineKind == Full &&
      SlotChecks(Table(CasesOf(r)), mode, OfficialHttp) == AsRawChecks(CaseChecks(rs, supplemental))
  }

  lemma CheckIsSeen(r: Report, mode: Mode, rs: seq<ScenarioResult>, supplemental: seq<CheckResult>, c: CheckResult)
    requires CarriesCase(r, mode, rs, supplemental) && c in CaseChecks(rs, supplemental) && WellBuilt(c)
    ensures c.status in StatusesOf(ReportStatuses(r), IdentityOf(mode, c))
  {
    var all := CaseChecks(rs, supplemental);
    var i :| 0 <= i < |all| && all[i] == c;
    ReadsBack(mode, c);
    var id := IdentityOf(mode, c);
    assert SlotChecks(Table(CasesOf(r)), mode, OfficialHttp)[i] == AsRaw(c);
    assert SaidBy(SlotChecks(Table(CasesOf(r)), mode, OfficialHttp), id, c.status);
    assert TRANSPORTS[1] == OfficialHttp;
    FullStatusesMeaning(r, id, c.status);
  }

  // The check that shows why a scenario failed.
  lemma FailureIsShown(run: ScenarioRun) returns (c: CheckResult)
    requires run.scenario != [] && !Judge(run).success
    ensures c in ScenarioChecks(Judge(run)) && c.status == FAIL && WellBuilt(c) && c.scenario == Some(run.scenario)
    ensures c.source in {Official, Harness}
  {
    var r := Judge(run);
    if !r.adapterSuccess {
      c := AdapterCheck(r);
    } else if UnexplainedFailure(r) {
      c := RunnerCheck(r);
    } else {
      var failing :| failing in r.checks && Failed(failing);
      LoadedChecksMeaning(run.entries, failing);
      var i :| 0 <= i < |r.checks| && r.checks[i] == failing;
      c := OfficialResults(r)[i];
      assert c in OfficialResults(r);
    }
  }

  // Every unsuccessful scenario puts a FAIL of its own scenario into the report, the gate
  // lists it as a known or new failure, and in the shipping mode the gate does not pass.
  lemma FailedScenarioReachesGate(report: Report, baseline: Report, catalog: Catalog, mode: Mode,
                                  runs: seq<ScenarioRun>, rs: seq<ScenarioResult>, supplemental: seq<CheckResult>,
                                  k: nat)
    requires |rs| == |runs| && forall k :: 0 <= k < |rs| ==> rs[k] == Judge(runs[k])
    requires k < |runs| && runs[k].scenario != [] && !rs[k].success
    requires CarriesCase(report, mode, rs, supplemental)
    ensures exists id: Identity ::
              && id.mode == mode && id.scenario == runs[k].scenario && NamesScenario(id)
              && FAIL in StatusesOf(ReportStatuses(report), id)
              && (id in Gate(report, baseline, catalog).knownFailures ||
                  id in Gate(report, baseline, catalog).newFailures)
    ensures mode == Shipping ==> !Gate(report, baseline, catalog).success
  {
    var c := FailureIsShown(runs[k]);
    AllScenarioChecksMeaning(rs, c);
    assert c in CaseChecks(rs, supplemental);
    CheckIsSeen(report, mode, rs, supplemental, c);
    FailureIsListed(report, baseline, catalog, IdentityOf(mode, c));
  }

  // The gate lists every failure of the candidate, and passes with none in the shipping mode.
  lemma FailureIsListed(report: Report, baseline: Report, catalog: Catalog, id: Identity)
    requires FAIL in StatusesOf(ReportStatuses(report), id)
    ensures id in Gate(report, baseline, catalog).knownFailures || id in Gate(report, baseline, catalog).newFailures
    ensures id.mode == Shipping ==> !Gate(report, baseline, catalog).success
  {
    assert id in Known(ReportStatuses(report), ReportStatuses(baseline)) ||
           id in New(ReportStatuses(report), ReportStatuses(baseline));
    GatePassesIff(report, baseline, catalog);
  }

  // ------------------------------------------------------------ runner reports are covered

  // Stdio cases only ever record PASS or FAIL.
  ghost predicate StdioRan(r: Report, mode: Mode) {
    forall c :: c in SlotChecks(Table(CasesOf(r)), mode, Stdio) && c.Is? ==> c.value.status != Is(SKIP)
  }

  ghost predicate FromRunner(r: Report, mode: Mode, rs: seq<ScenarioResult>, supplemental: seq<CheckResult>) {
    && CarriesCase(r, mode, rs, supplemental)
    && (forall k :: 0 <= k < |rs| ==> rs[k].scenario != [])
    && (forall i :: 0 <= i < |supplemental| ==> supplemental[i].source == Supplemental)
    && StdioRan(r, mode)
  }

  ghost predicate ModeBuiltByRunner(r: Report, mode: Mode) {
    exists rs: seq<ScenarioResult>, supplemental: seq<CheckResult> :: FromRunner(r, mode, rs, supplemental)
  }

  ghost predicate BuiltByRunner(r: Report) {
    forall mode: Mode :: ModeBuiltByRunner(r, mode)
  }

  lemma AcceptedSlots(r: Report, catalog: Catalog, mode: Mode)
    requires r.baselineKind == Full && ReportProblems(r, catalog) == []
    ensures SlotOk(catalog, Table(CasesOf(r)), mode, Stdio) && SlotOk(catalog, Table(CasesOf(r)), mode, OfficialHttp)
  {
    FullReportAccepted(r, catalog);
    assert ModeOk(r, catalog, Table(CasesOf(r)), mode);
  }

  lemma StdioCovered(r: Report, catalog: Catalog, mode: Mode)
    requires r.baselineKind == Full && SlotOk(catalog, Table(CasesOf(r)), mode, Stdio) && StdioRan(r, mode)
    ensures exists id :: Ran(ReportStatuses(r), id) && id.mode == mode && id.transport == Stdio
  {
    var checks := SlotChecks(Table(CasesOf(r)), mode, Stdio);
    var (id, s) := ReadCheck(mode, Stdio, checks[0]).value;
    assert checks[0] in checks;
    assert s != SKIP;
    assert TRANSPORTS[0] == Stdio;
    assert SaidBy(checks, id, s);
    FullStatusesMeaning(r, id, s);
    assert Ran(ReportStatuses(r), id);
  }

  lemma AdapterRan(r: Report, mode: Mode, rs: seq<ScenarioResult>, supplemental: seq<CheckResult>, k: nat)
    requires FromRunner(r, mode, rs, supplemental) && k < |rs|
    ensures ScenarioRan(ReportStatuses(r), mode, rs[k].scenario)
    ensures exists id :: Ran(ReportStatuses(r), id) && id.mode == mode && id.transport == OfficialHttp
  {
    var c := AdapterCheck(rs[k]);
    assert c in ScenarioChecks(rs[k]);
    AllScenarioChecksMeaning(rs, c);
    assert c in CaseChecks(rs, supplemental);
    CheckIsSeen(r, mode, rs, supplemental, c);
    var id := IdentityOf(mode, c);
    assert Ran(ReportStatuses(r), id) && NamesScenario(id);
  }

  lemma HttpCovered(r: Report, mode: Mode, rs: seq<ScenarioResult>, supplemental: seq<CheckResult>)
    requires FromRunner(r, mode, rs, supplemental)
    ensures exists id :: Ran(ReportStatuses(r), id) && id.mode == mode && id.transport == OfficialHttp
  {
    if rs != [] {
      AdapterRan(r, mode, rs, supplemental, 0);
    } else {
      assert SELECTION_CHECK in CaseChecks(rs, supplemental);
      CheckIsSeen(r, mode, rs, supplemental, SELECTION_CHECK);
      assert Ran(ReportStatuses(r), IdentityOf(mode, SELECTION_CHECK));
    }
  }

  // A check that names a scenario comes from a result of that scenario.
  lemma NamedScenarioHasResult(mode: Mode, rs: seq<ScenarioResult>, supplemental: seq<CheckResult>, i: nat)
    requires forall j :: 0 <= j < |supplemental| ==> supplemental[j].source == Supplemental
    requires i < |CaseChecks(rs, supplemental)|
    requires CaseChecks(rs, supplemental)[i].source in {Official, Harness}
    ensures CaseChecks(rs, supplemental)[i] == SELECTION_CHECK ||
            exists k :: 0 <= k < |rs| && CaseChecks(rs, supplemental)[i].scenario == Some(rs[k].scenario)
  {
    var c := CaseChecks(rs, supplemental)[i];
    assert c !in supplemental;
    assert c in AllScenarioChecks(rs) || c == SELECTION_CHECK;
    if c in AllScenarioChecks(rs) {
      AllScenarioChecksMeaning(rs, c);
      var k :| 0 <= k < |rs| && c in ScenarioChecks(rs[k]);
      ChecksNameTheirScenario(rs[k], c);
    }
  }

  lemma ChecksNameTheirScenario(r: ScenarioResult, c: CheckResult)
    requires c in ScenarioChecks(r)
    ensures c.scenario == Some(r.scenario)
  {}

  lemma ScenarioCovered(r: Report, catalog: Catalog, mode: Mode, rs: seq<ScenarioResult>,
                        supplemental: seq<CheckResult>, name: string)
    requires SlotOk(catalog, Table(CasesOf(r)), mode, OfficialHttp) && FromRunner(r, mode, rs, supplemental)
    requires name in catalog.Expected(mode)
    ensures ScenarioRan(ReportStatuses(r), mode, name)
  {
    var checks, all := SlotChecks(Table(CasesOf(r)), mode, OfficialHttp), CaseChecks(rs, supplemental);
    assert name in ToSet(catalog.Expected(mode));
    var i := ObservedCheck(mode, checks, name);
    assert checks[i] == AsRaw(all[i]);
    NamedByCheck(mode, all[i], name);
    NamedScenarioHasResult(mode, rs, supplemental, i);
    if all[i] == SELECTION_CHECK {
      SelectionRan(r, mode, rs, supplemental, i, name);
    } else {
      var k :| 0 <= k < |rs| && all[i].scenario == Some(rs[k].scenario);
      AdapterRan(r, mode, rs, supplemental, k);
    }
  }

  lemma NamedByCheck(mode: Mode, c: CheckResult, name: string)
    requires NamedIn(mode, AsRaw(c), name)
    ensures c.source in {Official, Harness} && (c.scenario.Some? ==> c.scenario.value == name)
    ensures c == SELECTION_CHECK ==> name == IdentityOf(mode, c).scenario
  {}

  lemma SelectionRan(r: Report, mode: Mode, rs: seq<ScenarioResult>, supplemental: seq<CheckResult>, i: nat,
                     name: string)
    requires CarriesCase(r, mode, rs, supplemental) && i < |CaseChecks(rs, supplemental)|
    requires CaseChecks(rs, supplemental)[i] == SELECTION_CHECK && name == IdentityOf(mode, SELECTION_CHECK).scenario
    ensures ScenarioRan(ReportStatuses(r), mode, name)
  {
    CheckIsSeen(r, mode, rs, supplemental, SELECTION_CHECK);
    assert Ran(ReportStatuses(r), IdentityOf(mode, SELECTION_CHECK));
  }

  lemma RunnerModeCovered(r: Report, catalog: Catalog, mode: Mode, rs: seq<ScenarioResult>,
                          supplemental: seq<CheckResult>)
    requires FromRunner(r, mode, rs, supplemental)
    requires SlotOk(catalog, Table(CasesOf(r)), mode, Stdio) && SlotOk(catalog, Table(CasesOf(r)), mode, OfficialHttp)
    ensures CoveredMode(ReportStatuses(r), catalog, mode)
  {
    StdioCovered(r, catalog, mode);
    HttpCovered(r, mode, rs, supplemental);
    forall name | name in catalog.Expected(mode) ensures ScenarioRan(ReportStatuses(r), mode, name) {
      ScenarioCovered(r, catalog, mode, rs, supplemental, name);
    }
  }

  // Every accepted report the runner builds is covered ...
  lemma RunnerReportsAreCovered(r: Report, catalog: Catalog)
    requires ReportProblems(r, catalog) == [] && BuiltByRunner(r)
    ensures Covered(ReportStatuses(r), catalog)
  {
    forall mode: Mode ensures CoveredMode(ReportStatuses(r), catalog, mode) {
      assert ModeBuiltByRunner(r, mode);
      var rs: seq<ScenarioResult>, supplemental: seq<CheckResult> :| FromRunner(r, mode, rs, supplemental);
      AcceptedSlots(r, catalog, mode);
      RunnerModeCovered(r, catalog, mode, rs, supplemental);
    }
  }

  // ... so no candidate is judged differently against its compact form.
  lemma RunnerBaselinesCompactSafely(c: Report, b: Report, catalog: Catalog)
    requires Compact(b, catalog).Compacted? && BuiltByRunner(b)
    ensures Gate(c, Compact(b, catalog).baseline, catalog).success == Gate(c, b, catalog).success
  {
    CompactionAccepts(b, catalog);
    GateReflexive(b, catalog);
    RunnerReportsAreCovered(b, catalog);
    CompactionKeepsVerdict(c, b, catalog);
  }

  // ------------------------------------------------------------ a report that is not covered

  function SkippedCheck(source: Source, scenario: Nullable): Typed<RawCheck> {
    Is(RawCheck(Is(source), scenario, Is("skipped"), Null, Is(SKIP), Is(true)))
  }

  function SkippedScenarios(names: seq<string>): seq<Typed<RawCheck>> {
    [SkippedCheck(Supplemental, Null)] +
      seq(|names|, i requires 0 <= i < |names| => SkippedCheck(Official, Text(names[i])))
  }

  function SkippedCases(catalog: Catalog): seq<Typed<RawCase>> {
    seq(6, i requires 0 <= i < 6 =>
      var mode := MODES[i / 2];
      if i % 2 == 0 then Is(RawCase(Is(mode), Is(Stdio), Is([SkippedCheck(Supplemental, Null)])))
      else Is(RawCase(Is(mode), Is(OfficialHttp), Is(SkippedScenarios(catalog.Expected(mode))))))
  }

  // A full report in which everything was skipped.
  function SkippedReport(catalog: Catalog): Report {
    Report(Is(4), Is(Is(true)), Is(true), Is(true),
           Is(OfficialMetadata(Is(OFFICIAL_REPOSITORY), Is(OFFICIAL_GIT_REF), Is(true),
                               Is(map[Shipping := Is(catalog.shipping), Legacy := Is(catalog.legacy),
                                      Modern := Is(catalog.modern)]))),
           Full, Wrong, Wrong, Wrong, Is(SkippedCases(catalog)))
  }

  lemma SkippedSlots(catalog: Catalog, mode: Mode)
    ensures var t := Table(SkippedCases(catalog));
            && SlotChecks(t, mode, Stdio) == [SkippedCheck(Supplemental, Null)]
            && SlotChecks(t, mode, OfficialHttp) == SkippedScenarios(catalog.Expected(mode))
  {
    var cases := SkippedCases(catalog);
    var n := ModeRank(mode);
    assert MODES[n] == mode;
    SkippedSlot(catalog, 2 * n);
    SkippedSlot(catalog, 2 * n + 1);
  }

  lemma SkippedSlot(catalog: Catalog, i: nat)
    requires i < 6
    ensures var key := (MODES[i / 2], if i % 2 == 0 then Stdio else OfficialHttp);
            var t := Table(SkippedCases(catalog));
            key in t && t[key] == SkippedCases(catalog)[i].value
  {
    var cases := SkippedCases(catalog);
    var key := (MODES[i / 2], if i % 2 == 0 then Stdio else OfficialHttp);
    SkippedKeysDiffer(catalog);
    assert IsRequiredCase(cases[i]) && CaseKey(cases[i].value) == key;
    TableHoldsFirst(cases, key);
  }

  lemma SkippedKeysDiffer(catalog: Catalog)
    ensures var cases := SkippedCases(catalog);
            && (forall i :: 0 <= i < 6 ==> IsRequiredCase(cases[i]))
            && forall i, j :: 0 <= i < j < 6 ==> CaseKey(cases[i].value) != CaseKey(cases[j].value)
  {
    var cases := SkippedCases(catalog);
    assert MODES[0] == Shipping && MODES[1] == Legacy && MODES[2] == Modern;
    forall i, j | 0 <= i < j < 6 ensures CaseKey(cases[i].value) != CaseKey(cases[j].value) {
      if i / 2 == j / 2 { assert i % 2 != j % 2; }
    }
  }

  lemma SkippedModeOk(catalog: Catalog, mode: Mode)
    requires "" !in catalog.Expected(mode)
    ensures SlotOk(catalog, Table(SkippedCases(catalog)), mode, Stdio)
    ensures SlotOk(catalog, Table(SkippedCases(catalog)), mode, OfficialHttp)
  {
    SkippedSlots(catalog, mode);
    SkippedReads(mode);
    SkippedChecksOk(mode, catalog.Expected(mode));
    SkippedObserved(mode, catalog.Expected(mode));
  }

  lemma SkippedReads(mode: Mode)
    ensures ReadCheck(mode, Stdio, SkippedCheck(Supplemental, Null)).Some?
    ensures var reading := ReadCheck(mode, OfficialHttp, SkippedCheck(Supplemental, Null));
            reading.Some? && !NamesScenario(reading.value.0)
  {}

  lemma SkippedScenarioReads(mode: Mode, name: string)
    requires name != ""
    ensures NamedIn(mode, SkippedCheck(Official, Text(name)), name)
  {}

  lemma SkippedChecksOk(mode: Mode, names: seq<string>)
    requires "" !in names
    ensures ChecksOk(mode, OfficialHttp, SkippedScenarios(names))
  {
    var checks := SkippedScenarios(names);
    forall i | 0 <= i < |checks| ensures ReadCheck(mode, OfficialHttp, checks[i]).Some? {
      SkippedReads(mode);
      if i > 0 { SkippedScenarioReads(mode, names[i - 1]); }
    }
  }

  lemma SkippedObserved(mode: Mode, names: seq<string>)
    requires "" !in names
    ensures ObservedScenarios(mode, OfficialHttp, SkippedScenarios(names)) == ToSet(names)
  {
    forall x ensures x in ObservedScenarios(mode, OfficialHttp, SkippedScenarios(names)) <==> x in ToSet(names) {
      SkippedObserves(mode, names, x);
    }
  }

  lemma SkippedObserves(mode: Mode, names: seq<string>, x: string)
    requires "" !in names
    ensures x in ObservedScenarios(mode, OfficialHttp, SkippedScenarios(names)) <==> x in names
  {
    if x in names { SkippedObservesName(mode, names, x); }
    if x in ObservedScenarios(mode, OfficialHttp, SkippedScenarios(names)) {
      var i := ObservedCheck(mode, SkippedScenarios(names), x);
      NamedBySkipped(mode, names, i, x);
    }
  }

  lemma SkippedObservesName(mode: Mode, names: seq<string>, x: string)
    requires "" !in names && x in names
    ensures x in ObservedScenarios(mode, OfficialHttp, SkippedScenarios(names))
  {
    var i :| 0 <= i < |names| && names[i] == x;
    assert SkippedScenarios(names)[i + 1] == SkippedCheck(Official, Text(x));
    SkippedScenarioReads(mode, x);
    CheckObserves(mode, SkippedScenarios(names), i + 1, x);
  }

  ghost predicate NamedIn(mode: Mode, c: Typed<RawCheck>, x: string) {
    var reading := ReadCheck(mode, OfficialHttp, c);
    reading.Some? && NamesScenario(reading.value.0) && reading.value.0.scenario == x
  }

  lemma CheckObserves(mode: Mode, checks: seq<Typed<RawCheck>>, i: nat, x: string)
    requires i < |checks| && NamedIn(mode, checks[i], x)
    ensures x in ObservedScenarios(mode, OfficialHttp, checks)
  {}

  lemma NamedBySkipped(mode: Mode, names: seq<string>, i: nat, x: string)
    requires "" !in names && i < |SkippedScenarios(names)| && NamedIn(mode, SkippedScenarios(names)[i], x)
    ensures x in names
  {
    if i == 0 {
      SkippedReads(mode);
    } else {
      assert names[i - 1] in names;
      SkippedScenarioReads(mode, names[i - 1]);
    }
  }

  // A check in which an observed scenario is named.
  lemma ObservedCheck(mode: Mode, checks: seq<Typed<RawCheck>>, x: string) returns (i: nat)
    requires x in ObservedScenarios(mode, OfficialHttp, checks)
    ensures i < |checks| && NamedIn(mode, checks[i], x)
  {
    i :| 0 <= i < |checks| && ReadCheck(mode, OfficialHttp, checks[i]).Some? &&
         NamesScenario(ReadCheck(mode, OfficialHttp, checks[i]).value.0) &&
         ReadCheck(mode, OfficialHttp, checks[i]).value.0.scenario == x;
  }

  lemma OnlySkipped(catalog: Catalog, id: Identity, s: Status)
    requires s in StatusesOf(ReportStatuses(SkippedReport(catalog)), id)
    ensures s == SKIP
  {
    var r := SkippedReport(catalog);
    FullStatusesMeaning(r, id, s);
    SkippedSlots(catalog, id.mode);
  }

  lemma SkippedReportAccepted(catalog: Catalog)
    requires forall mode: Mode :: "" !in catalog.Expected(mode)
    ensures ReportProblems(SkippedReport(catalog), catalog) == []
  {
    var r := SkippedReport(catalog);
    SkippedHeaderOk(catalog);
    SkippedCasesOk(catalog);
    forall mode ensures ModeOk(r, catalog, Table(SkippedCases(catalog)), mode) {
      SkippedModeOk(catalog, mode);
      SkippedSelects(catalog, mode);
    }
    FullReportAccepted(r, catalog);
  }

  lemma SkippedHeaderOk(catalog: Catalog)
    ensures HeaderOk(SkippedReport(catalog))
  {}

  lemma SkippedCasesOk(catalog: Catalog)
    ensures CasesOk(SkippedCases(catalog))
  {
    SkippedKeysDiffer(catalog);
  }

  lemma SkippedSelects(catalog: Catalog, mode: Mode)
    ensures Selected(SkippedReport(catalog), mode) == Is(catalog.Expected(mode))
  {
    match mode case Shipping => case Legacy => case Modern =>
  }

  lemma NothingRan(m: Statuses, catalog: Catalog)
    requires forall id :: !Ran(m, id)
    ensures NoShippingFailure(m) && !Covered(m, catalog)
  {
    forall id ensures FAIL !in StatusesOf(m, id) { assert !Ran(m, id); }
    assert !CoveredMode(m, catalog, Shipping);
  }

  // Without coverage the verdict can change: the all-skipped report passes against itself
  // and not against its own compact form.
  lemma UncoveredVerdictChanges(catalog: Catalog)
    requires forall mode: Mode :: "" !in catalog.Expected(mode)
    ensures var r := SkippedReport(catalog);
            && Compact(r, catalog).Compacted?
            && Gate(r, r, catalog).success
            && !Gate(r, Compact(r, catalog).baseline, catalog).success
  {
    var r := SkippedReport(catalog);
    SkippedReportAccepted(catalog);
    SkippedNeverRan(catalog);
    NothingRan(ReportStatuses(r), catalog);
    SelfVerdict(r, catalog);
  }

  lemma SelfVerdict(r: Report, catalog: Catalog)
    requires ReportProblems(r, catalog) == [] && r.automaticAuthRequired.Is? && NoShippingFailure(ReportStatuses(r))
    requires !Covered(ReportStatuses(r), catalog)
    ensures Compact(r, catalog).Compacted? && Gate(r, r, catalog).success
    ensures !Gate(r, Compact(r, catalog).baseline, catalog).success
  {
    GateReflexive(r, catalog);
    CompactionAccepts(r, catalog);
    CompactionKeepsVerdict(r, r, catalog);
  }

  lemma SkippedNeverRan(catalog: Catalog)
    ensures forall id :: !Ran(ReportStatuses(SkippedReport(catalog)), id)
  {
    var m := ReportStatuses(SkippedReport(catalog));
    forall id ensures !Ran(m, id) {
      if PASS in StatusesOf(m, id) { OnlySkipped(catalog, id, PASS); }
      if FAIL in StatusesOf(m, id) { OnlySkipped(catalog, id, FAIL); }
    }
  }
}
