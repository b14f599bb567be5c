/**
  Review reports: a boolean per check, totals that must add up, and a compact
  form that keeps all of it.
 */
module ReviewReport {
  import opened Ordering
  import opened Common
  import opened RegressionReport

  type CaseName = (string, string)   // protocol version, transport
  datatype ReviewId = ReviewId(mode: string, transport: string, checkId: string)

  datatype RawReviewCheck = RawReviewCheck(name: Typed<string>, success: Typed<bool>)
  datatype RawReviewCase = RawReviewCase(
    mode: Typed<string>, transport: Typed<string>, checks: Typed<seq<Typed<RawReviewCheck>>>, success: Typed<bool>)
  datatype RawCaseName = RawCaseName(mode: Typed<string>, transport: Typed<string>)
  datatype RawReviewId = RawReviewId(mode: Typed<string>, transport: Typed<string>, checkId: Typed<string>)
  datatype ReviewBuckets = ReviewBuckets(passing: Typed<seq<Typed<RawReviewId>>>,
                                         failing: Typed<seq<Typed<RawReviewId>>>)
  datatype Summary = Summary(
    passed: Typed<int>, failed: Typed<int>, total: Typed<int>, casesPassed: Typed<int>, casesTotal: Typed<int>)

  datatype ReviewReport = ReviewReport(
    schemaVersion: Typed<int>, reviewer: Typed<string>, baselineKind: BaselineKind,
    modes: Typed<seq<Mode>>,          // `modes`, or `requiredModes` in a compact baseline
    requiredCases: Typed<seq<Typed<RawCaseName>>>, compactChecks: Typed<ReviewBuckets>,
    cases: Typed<seq<Typed<RawReviewCase>>>, summary: Typed<Summary>, success: Typed<bool>)

  const REVIEW_SCHEMA_VERSION := 1
  const REVIEWER := "codex-mcp-regression-suite"

  datatype ReviewProblem =
    | WrongReviewSchema | WrongReviewer | WrongModes | UnsupportedReviewBaseline
    | NoRequiredCases | MalformedReviewCase | DuplicateReviewCase
    | NoReviewBuckets | NoReviewBucket(passing: bool) | MalformedReviewId(passing: bool) | DuplicateReviewCheck
    | NoReviewCases | UnexpectedCaseEntry | NoReviewChecks(name: CaseName) | MalformedReviewCheck
    | InconsistentCase(name: CaseName)
    | MissingReviewCase(name: CaseName) | UnexpectedReviewCase(name: CaseName)
    | InconsistentTotals | InconsistentSuccess

  type Outcomes = map<ReviewId, bool>

  // What reading has gathered so far.
  datatype Reading = Reading(outcomes: Outcomes, observed: set<CaseName>, problems: seq<ReviewProblem>) {
    function Report(p: ReviewProblem): Reading { this.(problems := problems + [p]) }
    function Observe(c: CaseName): Reading { this.(observed := observed + {c}) }
    function Add(id: ReviewId, success: bool): Reading { this.(outcomes := outcomes[id := success]) }
  }

  predicate IsReviewCheck(name: string) { "review/" <= name }

  function ReviewHeader(r: ReviewReport): seq<ReviewProblem> {
    (if r.schemaVersion != Is(REVIEW_SCHEMA_VERSION) then [WrongReviewSchema] else []) +
    (if r.reviewer != Is(REVIEWER) then [WrongReviewer] else []) +
    (if r.modes != Is(MODES) then [WrongModes] else [])
  }

  // ------------------------------------------------------------ full reports

  function AddCheck(a: Reading, name: CaseName, c: Typed<RawReviewCheck>): Reading {
    if c.Wrong? || c.value.name.Wrong? || !IsReviewCheck(c.value.name.value) || c.value.success.Wrong?
    then a.Report(MalformedReviewCheck)
    else
      var id := ReviewId(name.0, name.1, c.value.name.value);
      if id in a.outcomes then a.Report(DuplicateReviewCheck) else a.Add(id, c.value.success.value)
  }

  function AddChecks(a: Reading, name: CaseName, checks: seq<Typed<RawReviewCheck>>): Reading {
    if checks == [] then a
    else AddCheck(AddChecks(a, name, checks[..|checks| - 1]), name, checks[|checks| - 1])
  }

  // The conjunction of the successes that were recorded for this case.
  predicate CaseOutcome(before: Outcomes, after: Outcomes) {
    forall id :: id in after && id !in before ==> after[id]
  }

  function AddCase(a: Reading, expected: set<CaseName>, c: Typed<RawReviewCase>): Reading {
    if c.Wrong? then a.Report(MalformedReviewCase)
    else if c.value.mode.Wrong? || c.value.transport.Wrong? ||
         (c.value.mode.value, c.value.transport.value) !in expected
    then a.Report(UnexpectedCaseEntry)
    else
      var name := (c.value.mode.value, c.value.transport.value);
      if name in a.observed then a.Report(DuplicateReviewCase)
      else
        var a1 := a.Observe(name);
        if c.value.checks.Wrong? || c.value.checks.value == [] then a1.Report(NoReviewChecks(name))
        else
          var a2 := AddChecks(a1, name, c.value.checks.value);
          if c.value.success == Is(CaseOutcome(a1.outcomes, a2.outcomes)) then a2 else a2.Report(InconsistentCase(name))
  }

  function AddCases(a: Reading, expected: set<CaseName>, cases: seq<Typed<RawReviewCase>>): Reading {
    if cases == [] then a
    else AddCase(AddCases(a, expected, cases[..|cases| - 1]), expected, cases[|cases| - 1])
  }

  // ------------------------------------------------------------ compact baselines

  function AddName(a: Reading, c: Typed<RawCaseName>): Reading {
    if c.Wrong? || c.value.mode.Wrong? || c.value.transport.Wrong? then a.Report(MalformedReviewCase)
    else
      var name := (c.value.mode.value, c.value.transport.value);
      if name in a.observed then a.Report(DuplicateReviewCase) else a.Observe(name)
  }

  function AddNames(a: Reading, cases: seq<Typed<RawCaseName>>): Reading {
    if cases == [] then a else AddName(AddNames(a, cases[..|cases| - 1]), cases[|cases| - 1])
  }

  function AddRecord(a: Reading, expected: set<CaseName>, passing: bool, r: Typed<RawReviewId>): Reading {
    if r.Wrong? || r.value.mode.Wrong? || r.value.transport.Wrong? || r.value.checkId.Wrong? ||
       !IsReviewCheck(r.value.checkId.value) || (r.value.mode.value, r.value.transport.value) !in expected
    then a.Report(MalformedReviewId(passing))
    else
      var id := ReviewId(r.value.mode.value, r.value.transport.value, r.value.checkId.value);
      if id in a.outcomes then a.Report(DuplicateReviewCheck) else a.Add(id, passing)
  }

  function AddRecords(a: Reading, expected: set<CaseName>, passing: bool, records: seq<Typed<RawReviewId>>): Reading {
    if records == [] then a
    else AddRecord(AddRecords(a, expected, passing, records[..|records| - 1]), expected, passing,
                   records[|records| - 1])
  }

  function AddBucket(a: Reading, expected: set<CaseName>, passing: bool, b: Typed<seq<Typed<RawReviewId>>>): Reading {
    if b.Wrong? then a.Report(NoReviewBucket(passing)) else AddRecords(a, expected, passing, b.value)
  }

  // ------------------------------------------------------------ totals

  function PassedIds(m: Outcomes): set<ReviewId> { set id | id in m && m[id] }

  // Cases with at least one check and no failing one.
  function PassedCases(m: Outcomes, observed: set<CaseName>): set<CaseName> {
    set c | c in observed && (forall id :: id in m && (id.mode, id.transport) == c ==> m[id]) &&
            exists id :: id in m && (id.mode, id.transport) == c
  }

  function Totals(m: Outcomes, observed: set<CaseName>): Summary {
    Summary(Is(|PassedIds(m)|), Is(|m| - |PassedIds(m)|), Is(|m|), Is(|PassedCases(m, observed)|), Is(|observed|))
  }

  predicate CaseNameLess(a: CaseName, b: CaseName) {
    if a.0 != b.0 then StringLess(a.0, b.0) else StringLess(a.1, b.1)
  }

  lemma CaseNameLessIrreflexive(x: CaseName)
    ensures !CaseNameLess(x, x)
  {
    StringLessIrreflexive(x.1);
  }

  lemma CaseNameLessTransitive(x: CaseName, y: CaseName, z: CaseName)
    requires CaseNameLess(x, y) && CaseNameLess(y, z)
    ensures CaseNameLess(x, z)
  {
    if x.0 == y.0 == z.0 {
      StringLessTransitive(x.1, y.1, z.1);
    } else if x.0 != y.0 && y.0 != z.0 {
      StringLessTransitive(x.0, y.0, z.0);
      StringLessIrreflexive(x.0);
    }
  }

  lemma CaseNameLessIsOrder()
    ensures StrictTotal(CaseNameLess)
  {
    forall x: CaseName ensures !CaseNameLess(x, x) { CaseNameLessIrreflexive(x); }
    forall x: CaseName, y: CaseName, z: CaseName | CaseNameLess(x, y) && CaseNameLess(y, z) ensures CaseNameLess(x, z) {
      CaseNameLessTransitive(x, y, z);
    }
    forall x: CaseName, y: CaseName | x != y ensures CaseNameLess(x, y) || CaseNameLess(y, x) {
      if x.0 != y.0 { StringLessConnected(x.0, y.0); } else { StringLessConnected(x.1, y.1); }
    }
  }

  function SortedCases(s: set<CaseName>): (r: seq<CaseName>)
    ensures forall x :: x in r <==> x in s
    ensures Ascending(r, CaseNameLess)
    ensures |r| == |s|
  {
    CaseNameLessIsOrder();
    Sorted(s, CaseNameLess)
  }

  function CaseSetProblems(expected: set<CaseName>, observed: set<CaseName>): seq<ReviewProblem> {
    var missing, unexpected := SortedCases(expected - observed), SortedCases(observed - expected);
    seq(|missing|, i requires 0 <= i < |missing| => MissingReviewCase(missing[i])) +
    seq(|unexpected|, i requires 0 <= i < |unexpected| => UnexpectedReviewCase(unexpected[i]))
  }

  function Finish(a: Reading, r: ReviewReport, expected: set<CaseName>): Reading {
    var failed := |a.outcomes| - |PassedIds(a.outcomes)|;
    a.(problems := a.problems + CaseSetProblems(expected, a.observed) +
         (if r.summary == Is(Totals(a.outcomes, a.observed)) then [] else [InconsistentTotals]) +
         (if r.baselineKind == Full && r.success != Is(a.observed != {} && failed == 0)
          then [InconsistentSuccess] else []))
  }

  function StartCompact(r: ReviewReport): Reading {
    Reading(map[], {}, ReviewHeader(r) + (if r.baselineKind != CompactV1 then [UnsupportedReviewBaseline] else []) +
                       (if r.requiredCases.Wrong? then [NoRequiredCases] else []))
  }

  function GatherCompact(r: ReviewReport, expected: set<CaseName>): Reading {
    var a := AddNames(StartCompact(r), if r.requiredCases.Is? then r.requiredCases.value else []);
    if r.compactChecks.Wrong?
    then AddBucket(AddBucket(a.Report(NoReviewBuckets), expected, true, Wrong), expected, false, Wrong)
    else AddBucket(AddBucket(a, expected, true, r.compactChecks.value.passing), expected, false,
                   r.compactChecks.value.failing)
  }

  function StartFull(r: ReviewReport): Reading {
    Reading(map[], {}, ReviewHeader(r) + (if r.cases.Wrong? then [NoReviewCases] else []))
  }

  function GatherFull(r: ReviewReport, expected: set<CaseName>): Reading {
    AddCases(StartFull(r), expected, if r.cases.Is? then r.cases.value else [])
  }

  // Everything the review gate learns from one report.
  function Read(r: ReviewReport, expected: set<CaseName>): Reading {
    Finish(if r.baselineKind == Full then GatherFull(r, expected) else GatherCompact(r, expected), r, expected)
  }
}
