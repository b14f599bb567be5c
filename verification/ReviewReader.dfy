/**
  The review-report reader as it runs, proved against `ReviewReport.Read`.
 */
module ReviewReader {
  import opened Common
  import opened RegressionReport
  import opened ReviewReport

  method ReadCaseChecks(start: Reading, name: CaseName, checks: seq<Typed<RawReviewCheck>>)
    returns (a: Reading, caseSuccess: bool)
    ensures a == AddChecks(start, name, checks)
    ensures caseSuccess <==> CaseOutcome(start.outcomes, a.outcomes)
  {
    var outcomes, problems := start.outcomes, start.problems;
    caseSuccess := true;
    for i := 0 to |checks|
      invariant Reading(outcomes, start.observed, problems) == AddChecks(start, name, checks[..i])
      invariant forall id :: id in start.outcomes ==> id in outcomes && outcomes[id] == start.outcomes[id]
      invariant caseSuccess <==> CaseOutcome(start.outcomes, outcomes)
    {
      assert checks[..i + 1][..i] == checks[..i];
      var c := checks[i];
      if c.Wrong? || c.value.name.Wrong? || !IsReviewCheck(c.value.name.value) || c.value.success.Wrong? {
        problems := problems + [MalformedReviewCheck];
        continue;
      }
      var id := ReviewId(name.0, name.1, c.value.name.value);
      if id in outcomes {
        problems := problems + [DuplicateReviewCheck];
        continue;
      }
      ghost var before := outcomes;
      outcomes := outcomes[id := c.value.success.value];
      caseSuccess := caseSuccess && c.value.success.value;
      assert CaseOutcome(start.outcomes, outcomes) <==> CaseOutcome(start.outcomes, before) && outcomes[id] by {
        assert forall x :: x in before ==> outcomes[x] == before[x];
      }
    }
    assert checks[..|checks|] == checks;
    a := Reading(outcomes, start.observed, problems);
  }

  method ReadCases(start: Reading, expected: set<CaseName>, cases: seq<Typed<RawReviewCase>>) returns (a: Reading)
    ensures a == AddCases(start, expected, cases)
  {
    a := start;
    for i := 0 to |cases|
      invariant a == AddCases(start, expected, cases[..i])
    {
      assert cases[..i + 1][..i] == cases[..i];
      var c := cases[i];
      if c.Wrong? {
        a := a.Report(MalformedReviewCase);
        continue;
      }
      if c.value.mode.Wrong? || c.value.transport.Wrong? || (c.value.mode.value, c.value.transport.value) !in expected {
        a := a.Report(UnexpectedCaseEntry);
        continue;
      }
      var name := (c.value.mode.value, c.value.transport.value);
      if name in a.observed {
        a := a.Report(DuplicateReviewCase);
        continue;
      }
      a := a.Observe(name);
      if c.value.checks.Wrong? || c.value.checks.value == [] {
        a := a.Report(NoReviewChecks(name));
        continue;
      }
      var caseSuccess;
      a, caseSuccess := ReadCaseChecks(a, name, c.value.checks.value);
      if c.value.success != Is(caseSuccess) { a := a.Report(InconsistentCase(name)); }
    }
    assert cases[..|cases|] == cases;
  }

  method ReadNames(start: Reading, cases: seq<Typed<RawCaseName>>) returns (a: Reading)
    ensures a == AddNames(start, cases)
  {
    a := start;
    for i := 0 to |cases|
      invariant a == AddNames(start, cases[..i])
    {
      assert cases[..i + 1][..i] == cases[..i];
      var c := cases[i];
      if c.Wrong? || c.value.mode.Wrong? || c.value.transport.Wrong? {
        a := a.Report(MalformedReviewCase);
        continue;
      }
      var name := (c.value.mode.value, c.value.transport.value);
      if name in a.observed {
        a := a.Report(DuplicateReviewCase);
        continue;
      }
      a := a.Observe(name);
    }
    assert cases[..|cases|] == cases;
  }

  method ReadBucket(start: Reading, expected: set<CaseName>, passing: bool, b: Typed<seq<Typed<RawReviewId>>>)
    returns (a: Reading)
    ensures a == AddBucket(start, expected, passing, b)
  {
    a := start;
    if b.Wrong? { return a.Report(NoReviewBucket(passing)); }
    for i := 0 to |b.value|
      invariant a == AddRecords(start, expected, passing, b.value[..i])
    {
      assert b.value[..i + 1][..i] == b.value[..i];
      var r := b.value[i];
      if r.Wrong? || r.value.mode.Wrong? || r.value.transport.Wrong? || r.value.checkId.Wrong? ||
         !IsReviewCheck(r.value.checkId.value) || (r.value.mode.value, r.value.transport.value) !in expected {
        a := a.Report(MalformedReviewId(passing));
        continue;
      }
      var id := ReviewId(r.value.mode.value, r.value.transport.value, r.value.checkId.value);
      if id in a.outcomes {
        a := a.Report(DuplicateReviewCheck);
        continue;
      }
      a := a.Add(id, passing);
    }
    assert b.value[..|b.value|] == b.value;
  }

  method RequiredReviewChecks(r: ReviewReport, expected: set<CaseName>) returns (a: Reading)
    ensures a == Read(r, expected)
  {
    if r.baselineKind == Full {
      a := ReadCases(StartFull(r), expected, if r.cases.Is? then r.cases.value else []);
    } else {
      a := ReadNames(StartCompact(r), if r.requiredCases.Is? then r.requiredCases.value else []);
      var buckets := ReviewBuckets(Wrong, Wrong);
      if r.compactChecks.Wrong? { a := a.Report(NoReviewBuckets); } else { buckets := r.compactChecks.value; }
      a := ReadBucket(a, expected, true, buckets.passing);
      a := ReadBucket(a, expected, false, buckets.failing);
    }
    a := Finish(a, r, expected);
  }
}
