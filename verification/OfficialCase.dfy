/**
  The official conformance case: scenario verdicts and the check list built from them.
  Process exit codes and the decoded `checks.json` are inputs.
 */
module OfficialCase {
  import opened Common
  import opened RegressionReport

  datatype CheckStatus = Success | Skipped | Info | Failure | Warning | OtherStatus(text: string)

  // One entry of checks.json; an empty text or None stands for a missing or falsy field.
  datatype Entry = Entry(id: string, name: string, status: Option<CheckStatus>)
  datatype OfficialCheck = OfficialCheck(checkId: string, name: string, status: CheckStatus)

  datatype ScenarioRun = ScenarioRun(
    scenario: string, returnCode: int, entries: seq<Typed<Entry>>, adapterSuccess: bool)
  datatype ScenarioResult = ScenarioResult(
    scenario: string, success: bool, checks: seq<OfficialCheck>, adapterSuccess: bool)

  datatype CheckResult = CheckResult(
    name: string, success: bool, status: Status, source: Source,
    scenario: Option<string>, checkId: Option<string>)

  // ------------------------------------------------------------ reading checks.json

  function Decimal(n: nat): (s: string)
    ensures IsDecimal(s)
  {
    if n < 10 then [('0' as int + n) as char] else Decimal(n / 10) + [('0' as int + n % 10) as char]
  }

  function ReadEntry(e: Entry, index: nat): OfficialCheck {
    var checkId := if e.id == "" then "unnamed-" + Decimal(index) else e.id;
    OfficialCheck(checkId, if e.name == "" then checkId else e.name, if e.status.None? then Failure else e.status.value)
  }

  function LoadedChecks(entries: seq<Typed<Entry>>): seq<OfficialCheck> {
    if entries == [] then [] else
      var e := entries[|entries| - 1];
      var before := LoadedChecks(entries[..|entries| - 1]);
      if e.Wrong? || ReadEntry(e.value, |entries|).status == Info then before
      else before + [ReadEntry(e.value, |entries|)]
  }

  method LoadChecks(entries: seq<Typed<Entry>>) returns (checks: seq<OfficialCheck>)
    ensures checks == LoadedChecks(entries)
  {
    checks := [];
    for i := 0 to |entries|
      invariant checks == LoadedChecks(entries[..i])
    {
      assert entries[..i + 1][..i] == entries[..i];
      if entries[i].Wrong? { continue; }
      var check := ReadEntry(entries[i].value, i + 1);
      if check.status == Info { continue; }
      checks := checks + [check];
    }
    assert entries[..|entries|] == entries;
  }

  lemma {:induction false} LoadedChecksMeaning(entries: seq<Typed<Entry>>, c: OfficialCheck)
    ensures c in LoadedChecks(entries) <==>
            && c.status != Info
            && exists i :: 0 <= i < |entries| && entries[i].Is? && ReadEntry(entries[i].value, i + 1) == c
    ensures c in LoadedChecks(entries) ==> c.checkId != [] && c.name != []
  {
    if entries != [] {
      var n := |entries| - 1;
      LoadedChecksMeaning(entries[..n], c);
      EntryExtends(entries, c);
    }
  }

  ghost predicate ReadFrom(entries: seq<Typed<Entry>>, c: OfficialCheck) {
    exists i :: 0 <= i < |entries| && entries[i].Is? && ReadEntry(entries[i].value, i + 1) == c
  }

  lemma EntryExtends(entries: seq<Typed<Entry>>, c: OfficialCheck)
    requires entries != []
    ensures var n := |entries| - 1;
            ReadFrom(entries, c) <==>
            ReadFrom(entries[..n], c) || (entries[n].Is? && ReadEntry(entries[n].value, n + 1) == c)
  {
    var n := |entries| - 1;
    forall i | 0 <= i < n ensures entries[..n][i] == entries[i] {}
    if ReadFrom(entries[..n], c) {
      var i :| 0 <= i < n && entries[..n][i].Is? && ReadEntry(entries[..n][i].value, i + 1) == c;
      assert ReadEntry(entries[i].value, i + 1) == c;
    }
  }

  predicate Failed(c: OfficialCheck) {
    c.status in {Failure, Warning}
  }

  function Judge(run: ScenarioRun): ScenarioResult {
    var checks := LoadedChecks(run.entries);
    ScenarioResult(run.scenario,
                   run.returnCode == 0 && checks != [] && run.adapterSuccess && !exists c :: c in checks && Failed(c),
                   checks, run.adapterSuccess)
  }

  // ------------------------------------------------------------ assembling the case

  function CheckNames(checks: seq<OfficialCheck>): seq<string> {
    seq(|checks|, i requires 0 <= i < |checks| => checks[i].name)
  }

  function OfficialResult(r: ScenarioResult, i: nat, duplicate: bool): CheckResult
    requires i < |r.checks|
  {
    var c := r.checks[i];
    var status := if c.status == Success then PASS else if c.status in {Skipped, Info} then SKIP else FAIL;
    var suffix := if duplicate then c.name + "#" + Decimal(i + 1) else c.name;
    CheckResult("official/" + r.scenario + "/" + suffix, status != FAIL, status, Official, Some(r.scenario),
                Some(c.checkId))
  }

  function OfficialResults(r: ScenarioResult): (out: seq<CheckResult>)
    ensures |out| == |r.checks|
  {
    seq(|r.checks|, i requires 0 <= i < |r.checks| =>
      OfficialResult(r, i, multiset(CheckNames(r.checks))[r.checks[i].name] > 1))
  }

  function AdapterCheck(r: ScenarioResult): CheckResult {
    CheckResult("harness/" + r.scenario + "/codex-adapter", r.adapterSuccess, if r.adapterSuccess then PASS else FAIL,
                Harness, Some(r.scenario), None)
  }

  function RunnerCheck(r: ScenarioResult): CheckResult {
    CheckResult("harness/" + r.scenario + "/official-runner", false, FAIL, Harness, Some(r.scenario), None)
  }

  const SELECTION_CHECK := CheckResult("harness/official-scenario-selection", false, FAIL, Harness, None, None)

  // The runner failed without a failing check or a failing adapter to show for it.
  predicate UnexplainedFailure(r: ScenarioResult) {
    r.adapterSuccess && !r.success && !exists c :: c in r.checks && Failed(c)
  }

  function ScenarioChecks(r: ScenarioResult): seq<CheckResult> {
    OfficialResults(r) + [AdapterCheck(r)] + (if UnexplainedFailure(r) then [RunnerCheck(r)] else [])
  }

  function AllScenarioChecks(rs: seq<ScenarioResult>): seq<CheckResult> {
    if rs == [] then [] else AllScenarioChecks(rs[..|rs| - 1]) + ScenarioChecks(rs[|rs| - 1])
  }

  function CaseChecks(rs: seq<ScenarioResult>, supplemental: seq<CheckResult>): seq<CheckResult> {
    AllScenarioChecks(rs) + (if rs == [] then [SELECTION_CHECK] else []) + supplemental
  }

  predicate CaseSucceeds(checks: seq<CheckResult>) {
    checks != [] && forall i :: 0 <= i < |checks| ==> checks[i].success
  }

  method CountNames(checks: seq<OfficialCheck>) returns (counts: map<string, nat>)
    ensures forall n :: (if n in counts then counts[n] else 0) == multiset(CheckNames(checks))[n]
  {
    counts := map[];
    var names := CheckNames(checks);
    for i := 0 to |checks|
      invariant forall n :: (if n in counts then counts[n] else 0) == multiset(names[..i])[n]
    {
      assert names[..i + 1] == names[..i] + [names[i]];
      var name := checks[i].name;
      counts := counts[name := (if name in counts then counts[name] else 0) + 1];
    }
    assert names[..|names|] == names;
  }

  method AssembleScenario(r: ScenarioResult) returns (checks: seq<CheckResult>)
    ensures checks == ScenarioChecks(r)
  {
    checks := [];
    var counts := CountNames(r.checks);
    for i := 0 to |r.checks|
      invariant checks == OfficialResults(r)[..i]
    {
      assert r.checks[i].name == CheckNames(r.checks)[i];
      assert r.checks[i].name in multiset(CheckNames(r.checks));
      checks := checks + [OfficialResult(r, i, counts[r.checks[i].name] > 1)];
    }
    checks := checks + [AdapterCheck(r)];
    if UnexplainedFailure(r) { checks := checks + [RunnerCheck(r)]; }
  }

  method AssembleCase(rs: seq<ScenarioResult>, supplemental: seq<CheckResult>)
    returns (checks: seq<CheckResult>, success: bool)
    ensures checks == CaseChecks(rs, supplemental)
    ensures success <==> CaseSucceeds(checks)
  {
    checks := [];
    for k := 0 to |rs|
      invariant checks == AllScenarioChecks(rs[..k])
    {
      assert rs[..k + 1][..k] == rs[..k];
      var scenarioChecks := AssembleScenario(rs[k]);
      checks := checks + scenarioChecks;
    }
    assert rs[..|rs|] == rs;
    if rs == [] { checks := checks + [SELECTION_CHECK]; }
    checks := checks + supplemental;
    success := checks != [] && forall i :: 0 <= i < |checks| ==> checks[i].success;
  }
}
