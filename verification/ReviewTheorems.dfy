/**
  What a review report means, when it is accepted, that its compact form reads back
  exactly, and that the review gate is a partial order on accepted reports.
 */
module ReviewTheorems {
  import opened Common
  import opened RegressionReport
  import opened ReviewReport
  import opened ReviewGate

  // ------------------------------------------------------------ accepted full reports

  ghost predicate Says(checks: seq<Typed<RawReviewCheck>>, checkId: string, success: bool) {
    exists i :: 0 <= i < |checks| && checks[i] == Is(RawReviewCheck(Is(checkId), Is(success)))
  }

  ghost predicate ReviewChecksOk(checks: seq<Typed<RawReviewCheck>>) {
    && (forall i :: 0 <= i < |checks| ==>
          checks[i].Is? && checks[i].value.name.Is? && IsReviewCheck(checks[i].value.name.value) &&
          checks[i].value.success.Is?)
    && (forall i, j :: 0 <= i < j < |checks| ==> checks[i].value.name != checks[j].value.name)
  }

  function CaseOf(id: ReviewId): CaseName { (id.mode, id.transport) }

  predicate Maps(m: Outcomes, id: ReviewId, b: bool) { id in m && m[id] == b }

  ghost predicate Extends(after: Outcomes, before: Outcomes, name: CaseName, checks: seq<Typed<RawReviewCheck>>) {
    forall id, b :: Maps(after, id, b) <==> Maps(before, id, b) || (CaseOf(id) == name && Says(checks, id.checkId, b))
  }

  lemma SaysExtends(checks: seq<Typed<RawReviewCheck>>, checkId: string, b: bool)
    requires checks != []
    ensures var n := |checks| - 1;
            Says(checks, checkId, b) <==>
              Says(checks[..n], checkId, b) || checks[n] == Is(RawReviewCheck(Is(checkId), Is(b)))
  {
    var n := |checks| - 1;
    assert forall i :: 0 <= i < n ==> checks[..n][i] == checks[i];
    if Says(checks[..n], checkId, b) {
      var i :| 0 <= i < n && checks[..n][i] == Is(RawReviewCheck(Is(checkId), Is(b)));
      assert checks[i] == checks[..n][i];
    }
  }

  lemma {:induction false} AddChecksMeaning(a: Reading, name: CaseName, checks: seq<Typed<RawReviewCheck>>)
    requires forall id :: id in a.outcomes ==> CaseOf(id) != name
    ensures var a' := AddChecks(a, name, checks);
            && a'.observed == a.observed
            && (a'.problems == [] <==> a.problems == [] && ReviewChecksOk(checks))
            && (a'.problems == [] ==> Extends(a'.outcomes, a.outcomes, name, checks))
  {
    if checks != [] {
      var n := |checks| - 1;
      var before := AddChecks(a, name, checks[..n]);
      AddChecksMeaning(a, name, checks[..n]);
      assert forall i :: 0 <= i < n ==> checks[..n][i] == checks[i];
      forall checkId, b { SaysExtends(checks, checkId, b); }
      AddCheckMeaning(a, before, name, checks);
    }
  }

  ghost predicate LastCheckOk(checks: seq<Typed<RawReviewCheck>>)
    requires checks != []
  {
    var n := |checks| - 1;
    && checks[n].Is? && checks[n].value.name.Is? && IsReviewCheck(checks[n].value.name.value) &&
       checks[n].value.success.Is?
    && forall i :: 0 <= i < n && checks[i].Is? ==> checks[i].value.name != checks[n].value.name
  }

  lemma ReviewChecksOkExtends(checks: seq<Typed<RawReviewCheck>>)
    requires checks != []
    ensures ReviewChecksOk(checks) <==> ReviewChecksOk(checks[..|checks| - 1]) && LastCheckOk(checks)
  {
    var n := |checks| - 1;
    var prefix := checks[..n];
    assert forall i :: 0 <= i < n ==> prefix[i] == checks[i];
  }

  lemma OutcomeExtended(a: Outcomes, before: Outcomes, name: CaseName, checks: seq<Typed<RawReviewCheck>>, id: ReviewId,
                        v: bool)
    requires checks != [] && checks[|checks| - 1] == Is(RawReviewCheck(Is(id.checkId), Is(v)))
    requires Extends(before, a, name, checks[..|checks| - 1])
    requires CaseOf(id) == name && id !in before
    ensures Extends(before[id := v], a, name, checks)
  {
    var after, prefix := before[id := v], checks[..|checks| - 1];
    forall x, b ensures Maps(after, x, b) <==> Maps(a, x, b) || (CaseOf(x) == name && Says(checks, x.checkId, b)) {
      SaysExtends(checks, x.checkId, b);
      assert Maps(before, x, b) <==> Maps(a, x, b) || (CaseOf(x) == name && Says(prefix, x.checkId, b));
      if x != id {
        assert CaseOf(x) == name ==> x.checkId != id.checkId;
      }
    }
  }

  lemma AddCheckMeaning(a: Reading, before: Reading, name: CaseName, checks: seq<Typed<RawReviewCheck>>)
    requires checks != []
    requires forall id :: id in a.outcomes ==> CaseOf(id) != name
    requires before.problems == [] ==>
               ReviewChecksOk(checks[..|checks| - 1]) &&
               Extends(before.outcomes, a.outcomes, name, checks[..|checks| - 1])
    ensures var a' := AddCheck(before, name, checks[|checks| - 1]);
            && (a'.problems == [] <==> before.problems == [] && ReviewChecksOk(checks))
            && (a'.problems == [] ==> Extends(a'.outcomes, a.outcomes, name, checks))
  {
    var n := |checks| - 1;
    var c, prefix := checks[n], checks[..n];
    assert forall i :: 0 <= i < n ==> prefix[i] == checks[i];
    forall checkId, b { SaysExtends(checks, checkId, b); }
    ReviewChecksOkExtends(checks);
    if before.problems == [] && c.Is? && c.value.name.Is? && c.value.success.Is? {
      var id := ReviewId(name.0, name.1, c.value.name.value);
      assert id in before.outcomes <==> exists i :: 0 <= i < n && checks[i].value.name == c.value.name by {
        if id in before.outcomes {
          assert Says(prefix, id.checkId, before.outcomes[id]);
          var i :| 0 <= i < n && prefix[i] == Is(RawReviewCheck(Is(id.checkId), Is(before.outcomes[id])));
          assert checks[i].value.name == c.value.name;
        }
        if exists i :: 0 <= i < n && checks[i].value.name == c.value.name {
          var i :| 0 <= i < n && checks[i].value.name == c.value.name;
          assert prefix[i] == Is(RawReviewCheck(Is(id.checkId), Is(checks[i].value.success.value)));
          assert Says(prefix, id.checkId, checks[i].value.success.value);
        }
      }
      if id !in before.outcomes && IsReviewCheck(id.checkId) {
        OutcomeExtended(a.outcomes, before.outcomes, name, checks, id, c.value.success.value);
      }
    }
  }

  ghost predicate AllSucceed(checks: seq<Typed<RawReviewCheck>>)
    requires ReviewChecksOk(checks)
  {
    forall i :: 0 <= i < |checks| ==> checks[i].value.success.value
  }

  // A case entry read without a problem, given the names already taken.
  ghost predicate ReviewCaseOk(c: Typed<RawReviewCase>, expected: set<CaseName>) {
    && c.Is? && c.value.mode.Is? && c.value.transport.Is?
    && (c.value.mode.value, c.value.transport.value) in expected
    && c.value.checks.Is? && c.value.checks.value != [] && ReviewChecksOk(c.value.checks.value)
    && c.value.success == Is(AllSucceed(c.value.checks.value))
  }

  ghost predicate ReviewCasesOk(cases: seq<Typed<RawReviewCase>>, expected: set<CaseName>) {
    && (forall k :: 0 <= k < |cases| ==> ReviewCaseOk(cases[k], expected))
    && (forall j, k :: 0 <= j < k < |cases| ==> NameOf(cases[j]) != NameOf(cases[k]))
  }

  function NameOf(c: Typed<RawReviewCase>): CaseName {
    if c.Is? && c.value.mode.Is? && c.value.transport.Is?
    then (c.value.mode.value, c.value.transport.value) else ("", "")
  }

  function ChecksOf(c: Typed<RawReviewCase>): seq<Typed<RawReviewCheck>> {
    if c.Is? && c.value.checks.Is? then c.value.checks.value else []
  }

  ghost predicate SaidInCases(cases: seq<Typed<RawReviewCase>>, id: ReviewId, b: bool) {
    exists k :: 0 <= k < |cases| && NameOf(cases[k]) == CaseOf(id) && Says(ChecksOf(cases[k]), id.checkId, b)
  }

  lemma {:induction false} ChecksStayInCase(a: Reading, name: CaseName, checks: seq<Typed<RawReviewCheck>>)
    ensures var a' := AddChecks(a, name, checks);
            && a'.observed == a.observed
            && forall id :: id in a'.outcomes ==> id in a.outcomes || (CaseOf(id) == name && IsReviewCheck(id.checkId))
  {
    if checks != [] { ChecksStayInCase(a, name, checks[..|checks| - 1]); }
  }

  // Every recorded check belongs to an observed, expected case and is a review check.
  ghost predicate Sound(a: Reading, expected: set<CaseName>) {
    && a.observed <= expected
    && forall id :: id in a.outcomes ==> CaseOf(id) in a.observed && IsReviewCheck(id.checkId)
  }

  lemma AddCaseSound(a: Reading, expected: set<CaseName>, c: Typed<RawReviewCase>)
    requires Sound(a, expected)
    ensures Sound(AddCase(a, expected, c), expected)
  {
    if ReviewCaseNew(a, expected, c) {
      ChecksStayInCase(a.Observe(NameOf(c)), NameOf(c), ChecksOf(c));
    }
  }

  ghost predicate ReviewCaseNew(a: Reading, expected: set<CaseName>, c: Typed<RawReviewCase>) {
    c.Is? && c.value.mode.Is? && c.value.transport.Is? && NameOf(c) in expected && NameOf(c) !in a.observed &&
    ChecksOf(c) != []
  }

  lemma CaseOutcomeMeaning(before: Outcomes, after: Outcomes, name: CaseName, checks: seq<Typed<RawReviewCheck>>)
    requires ReviewChecksOk(checks) && Extends(after, before, name, checks)
    requires forall id :: id in before ==> CaseOf(id) != name
    ensures CaseOutcome(before, after) <==> AllSucceed(checks)
  {
    if CaseOutcome(before, after) {
      forall i | 0 <= i < |checks| ensures checks[i].value.success.value {
        var id := ReviewId(name.0, name.1, checks[i].value.name.value);
        var b := checks[i].value.success.value;
        assert Says(checks, id.checkId, b);
        assert Maps(after, id, b);
      }
    }
    if AllSucceed(checks) {
      forall id | id in after && id !in before ensures after[id] {
        assert Maps(after, id, after[id]);
        var i :| 0 <= i < |checks| && checks[i] == Is(RawReviewCheck(Is(id.checkId), Is(after[id])));
        assert checks[i].value.success.value;
      }
    }
  }

  lemma AddCaseMeaning(a: Reading, expected: set<CaseName>, c: Typed<RawReviewCase>)
    requires Sound(a, expected)
    ensures var a' := AddCase(a, expected, c);
            && (a'.problems == [] <==> a.problems == [] && ReviewCaseOk(c, expected) && NameOf(c) !in a.observed)
            && (a'.problems == [] ==> a'.observed == a.observed + {NameOf(c)} &&
                                      Extends(a'.outcomes, a.outcomes, NameOf(c), ChecksOf(c)))
  {
    if ReviewCaseNew(a, expected, c) {
      var a1 := a.Observe(NameOf(c));
      AddChecksMeaning(a1, NameOf(c), ChecksOf(c));
      var a2 := AddChecks(a1, NameOf(c), ChecksOf(c));
      if a2.problems == [] {
        CaseOutcomeMeaning(a1.outcomes, a2.outcomes, NameOf(c), ChecksOf(c));
      }
    }
  }

  ghost predicate Names(observed: set<CaseName>, cases: seq<Typed<RawReviewCase>>) {
    forall name :: name in observed <==> exists k :: 0 <= k < |cases| && NameOf(cases[k]) == name
  }

  ghost predicate Represents(m: Outcomes, cases: seq<Typed<RawReviewCase>>) {
    forall id, b :: Maps(m, id, b) <==> SaidInCases(cases, id, b)
  }

  lemma SaidInCasesExtends(cases: seq<Typed<RawReviewCase>>, id: ReviewId, b: bool)
    requires cases != []
    ensures var n := |cases| - 1;
            SaidInCases(cases, id, b) <==>
            SaidInCases(cases[..n], id, b) ||
              (CaseOf(id) == NameOf(cases[n]) && Says(ChecksOf(cases[n]), id.checkId, b))
  {
    var n := |cases| - 1;
    assert forall k :: 0 <= k < n ==> cases[..n][k] == cases[k];
    if SaidInCases(cases[..n], id, b) {
      var k :| 0 <= k < n && NameOf(cases[..n][k]) == CaseOf(id) && Says(ChecksOf(cases[..n][k]), id.checkId, b);
      assert cases[k] == cases[..n][k];
    }
  }

  lemma {:induction false} AddCasesMeaning(start: Reading, expected: set<CaseName>, cases: seq<Typed<RawReviewCase>>)
    requires start.outcomes == map[] && start.observed == {}
    ensures var a := AddCases(start, expected, cases);
            && Sound(a, expected)
            && (a.problems == [] <==> start.problems == [] && ReviewCasesOk(cases, expected))
            && (a.problems == [] ==> Names(a.observed, cases) && Represents(a.outcomes, cases))
  {
    if cases == [] {
    } else {
      var n := |cases| - 1;
      AddCasesMeaning(start, expected, cases[..n]);
      OneMoreCase(AddCases(start, expected, cases[..n]), expected, cases);
    }
  }

  lemma OneMoreCase(before: Reading, expected: set<CaseName>, cases: seq<Typed<RawReviewCase>>)
    requires cases != [] && Sound(before, expected)
    requires before.problems == [] ==>
               Names(before.observed, cases[..|cases| - 1]) && Represents(before.outcomes, cases[..|cases| - 1])
    ensures var a := AddCase(before, expected, cases[|cases| - 1]);
            && Sound(a, expected)
            && (before.problems != [] ==> a.problems != [])
            && (before.problems == [] && ReviewCasesOk(cases[..|cases| - 1], expected) ==>
                  (a.problems == [] <==> ReviewCasesOk(cases, expected)))
            && (!ReviewCasesOk(cases[..|cases| - 1], expected) ==> !ReviewCasesOk(cases, expected))
            && (a.problems == [] ==> Names(a.observed, cases) && Represents(a.outcomes, cases))
  {
    var n := |cases| - 1;
    AddCaseSound(before, expected, cases[n]);
    AddCaseMeaning(before, expected, cases[n]);
    CasesOkExtends(cases, expected);
    if before.problems == [] {
      NamedAlready(before.observed, cases);
      var a := AddCase(before, expected, cases[n]);
      if a.problems == [] {
        NamesExtend(before.observed, cases);
        RepresentsExtend(before.outcomes, a.outcomes, cases);
      }
    }
  }

  lemma NamedAlready(observed: set<CaseName>, cases: seq<Typed<RawReviewCase>>)
    requires cases != [] && Names(observed, cases[..|cases| - 1])
    ensures var n := |cases| - 1;
            NameOf(cases[n]) !in observed <==> forall k :: 0 <= k < n ==> NameOf(cases[..n][k]) != NameOf(cases[n])
  {}

  lemma NamesExtend(observed: set<CaseName>, cases: seq<Typed<RawReviewCase>>)
    requires cases != [] && Names(observed, cases[..|cases| - 1])
    ensures Names(observed + {NameOf(cases[|cases| - 1])}, cases)
  {
    var n := |cases| - 1;
    forall k | 0 <= k < n ensures cases[..n][k] == cases[k] {}
    forall name | name in observed ensures exists k :: 0 <= k < |cases| && NameOf(cases[k]) == name {
      var k :| 0 <= k < n && NameOf(cases[..n][k]) == name;
      assert NameOf(cases[k]) == name;
    }
  }

  lemma RepresentsExtend(before: Outcomes, after: Outcomes, cases: seq<Typed<RawReviewCase>>)
    requires cases != [] && Represents(before, cases[..|cases| - 1])
    requires Extends(after, before, NameOf(cases[|cases| - 1]), ChecksOf(cases[|cases| - 1]))
    ensures Represents(after, cases)
  {
    forall id, b ensures Maps(after, id, b) <==> SaidInCases(cases, id, b) { SaidInCasesExtends(cases, id, b); }
  }

  lemma CasesOkExtends(cases: seq<Typed<RawReviewCase>>, expected: set<CaseName>)
    requires cases != []
    ensures var n := |cases| - 1;
            ReviewCasesOk(cases, expected) <==>
            ReviewCasesOk(cases[..n], expected) && ReviewCaseOk(cases[n], expected) &&
            forall k :: 0 <= k < n ==> NameOf(cases[..n][k]) != NameOf(cases[n])
  {
    var n := |cases| - 1;
    assert forall k :: 0 <= k < n ==> cases[..n][k] == cases[k];
  }

  lemma NoSortedCases(s: set<CaseName>)
    ensures SortedCases(s) == [] <==> s == {}
  {
    if s != {} { var x :| x in s; assert x in SortedCases(s); }
  }

  lemma CaseSetMeaning(expected: set<CaseName>, observed: set<CaseName>)
    ensures CaseSetProblems(expected, observed) == [] <==> observed == expected
  {
    NoSortedCases(expected - observed);
    NoSortedCases(observed - expected);
    assert |CaseSetProblems(expected, observed)| ==
           |SortedCases(expected - observed)| + |SortedCases(observed - expected)|;
    if expected - observed == {} && observed - expected == {} { assert observed == expected; }
  }

  lemma NoFailures(m: Outcomes)
    ensures |m| == |PassedIds(m)| <==> forall id :: id in m ==> m[id]
  {
    var failed := m.Keys - PassedIds(m);
    assert m.Keys == PassedIds(m) + failed;
    assert |m.Keys| == |PassedIds(m)| + |failed|;
    assert failed == {} <==> forall id :: id in m ==> m[id] by {
      if failed == {} {
        forall id | id in m ensures m[id] { assert id !in failed; }
      }
    }
  }

  ghost predicate ReviewHeaderOk(r: ReviewReport) {
    r.schemaVersion == Is(1) && r.reviewer == Is(REVIEWER) && r.modes == Is(MODES)
  }

  lemma FinishMeaning(a: Reading, r: ReviewReport, expected: set<CaseName>)
    ensures Finish(a, r, expected).problems == [] <==>
            && a.problems == [] && a.observed == expected && r.summary == Is(Totals(a.outcomes, expected))
            && (r.baselineKind == Full ==>
                r.success == Is(expected != {} && forall id :: id in a.outcomes ==> a.outcomes[id]))
  {
    CaseSetMeaning(expected, a.observed);
    NoFailures(a.outcomes);
    var p1, p2 := a.problems, CaseSetProblems(expected, a.observed);
    var p3 := if r.summary == Is(Totals(a.outcomes, a.observed)) then [] else [InconsistentTotals];
    var p4 := Finish(a, r, expected).problems[|p1| + |p2| + |p3|..];
    assert Finish(a, r, expected).problems == p1 + p2 + p3 + p4;
  }

  ghost predicate CoversAll(cases: seq<Typed<RawReviewCase>>, expected: set<CaseName>) {
    forall name :: name in expected ==> exists k :: 0 <= k < |cases| && NameOf(cases[k]) == name
  }

  lemma CoverMeaning(observed: set<CaseName>, cases: seq<Typed<RawReviewCase>>, expected: set<CaseName>)
    requires Names(observed, cases) && observed <= expected
    ensures observed == expected <==> CoversAll(cases, expected)
  {
    if CoversAll(cases, expected) {
      forall name | name in expected ensures name in observed {}
    }
  }

  lemma GatherFullMeaning(r: ReviewReport, expected: set<CaseName>)
    requires r.baselineKind == Full
    ensures var a := GatherFull(r, expected);
            && Sound(a, expected)
            && (a.problems == [] <==> ReviewHeaderOk(r) && r.cases.Is? && ReviewCasesOk(r.cases.value, expected))
            && (a.problems == [] ==> Names(a.observed, r.cases.value) && Represents(a.outcomes, r.cases.value))
  {
    AddCasesMeaning(StartFull(r), expected, if r.cases.Is? then r.cases.value else []);
  }

  // A full review report is accepted exactly when all of this holds, and then each check
  // stands for the outcome its case records.
  lemma ReviewReportAccepted(r: ReviewReport, expected: set<CaseName>)
    requires r.baselineKind == Full
    ensures var a := Read(r, expected);
            && (a.problems == [] <==>
                  && ReviewHeaderOk(r) && r.cases.Is? && ReviewCasesOk(r.cases.value, expected)
                  && CoversAll(r.cases.value, expected)
                  && r.summary == Is(Totals(a.outcomes, expected))
                  && r.success == Is(expected != {} && forall id :: id in a.outcomes ==> a.outcomes[id]))
            && (a.problems == [] ==> Represents(a.outcomes, r.cases.value))
  {
    var a := GatherFull(r, expected);
    GatherFullMeaning(r, expected);
    FinishMeaning(a, r, expected);
    if a.problems == [] { CoverMeaning(a.observed, r.cases.value, expected); }
  }

  // ------------------------------------------------------------ compact baselines read back

  datatype ReviewCompaction = ReviewRejected(problems: seq<ReviewProblem>) | ReviewCompacted(baseline: ReviewReport)

  function FailedIds(m: Outcomes): set<ReviewId> { set id | id in m && !m[id] }

  function AsNames(names: seq<CaseName>): seq<Typed<RawCaseName>> {
    seq(|names|, i requires 0 <= i < |names| => Is(RawCaseName(Is(names[i].0), Is(names[i].1))))
  }

  function AsReviewRecords(ids: seq<ReviewId>): seq<Typed<RawReviewId>> {
    seq(|ids|, i requires 0 <= i < |ids| => Is(RawReviewId(Is(ids[i].mode), Is(ids[i].transport), Is(ids[i].checkId))))
  }

  function CompactReviewLists(names: seq<CaseName>, passing: seq<ReviewId>, failing: seq<ReviewId>,
                              summary: Typed<Summary>): ReviewReport {
    ReviewReport(Is(REVIEW_SCHEMA_VERSION), Is(REVIEWER), CompactV1, Is(MODES), Is(AsNames(names)),
                 Is(ReviewBuckets(Is(AsReviewRecords(passing)), Is(AsReviewRecords(failing)))), Wrong, summary, Wrong)
  }

  function CompactReviewForm(m: Outcomes, summary: Typed<Summary>, expected: set<CaseName>): ReviewReport {
    CompactReviewLists(SortedCases(expected), SortedReviewIds(PassedIds(m)), SortedReviewIds(FailedIds(m)), summary)
  }

  function CompactReview(r: ReviewReport, expected: set<CaseName>): ReviewCompaction {
    var a := Read(r, expected);
    if a.problems != [] then ReviewRejected(a.problems)
    else ReviewCompacted(CompactReviewForm(a.outcomes, r.summary, expected))
  }

  ghost predicate Distinct<T>(s: seq<T>) {
    forall i, j :: 0 <= i < j < |s| ==> s[i] != s[j]
  }

  lemma {:induction false} AddNamesReadsBack(a: Reading, names: seq<CaseName>)
    requires Distinct(names) && forall i :: 0 <= i < |names| ==> names[i] !in a.observed
    ensures AddNames(a, AsNames(names)) == a.(observed := a.observed + set x | x in names)
  {
    if names == [] {
    } else {
      var n := |names| - 1;
      AddNamesReadsBack(a, names[..n]);
      AsNamesPrefix(names);
      ObservedExtend(a.observed, names);
      assert names[n] !in names[..n];
    }
  }

  lemma AsNamesPrefix(names: seq<CaseName>)
    requires names != []
    ensures AsNames(names)[..|names| - 1] == AsNames(names[..|names| - 1])
  {}

  lemma ObservedExtend(observed: set<CaseName>, names: seq<CaseName>)
    requires names != []
    ensures var before, last := names[..|names| - 1], names[|names| - 1];
            observed + (set x | x in names) == observed + (set x | x in before) + {last}
  {
    assert names == names[..|names| - 1] + [names[|names| - 1]];
  }

  ghost predicate ValidId(id: ReviewId, expected: set<CaseName>) {
    CaseOf(id) in expected && IsReviewCheck(id.checkId)
  }

  function Marked(ids: seq<ReviewId>, passing: bool): Outcomes {
    map x | x in ids :: passing
  }

  lemma MarkedExtends(m: Outcomes, ids: seq<ReviewId>, passing: bool)
    requires ids != []
    ensures m + Marked(ids, passing) == (m + Marked(ids[..|ids| - 1], passing))[ids[|ids| - 1] := passing]
  {
    assert ids == ids[..|ids| - 1] + [ids[|ids| - 1]];
  }

  lemma {:induction false} AddRecordsReadsBack(a: Reading, expected: set<CaseName>, passing: bool, ids: seq<ReviewId>)
    requires Distinct(ids) && forall i :: 0 <= i < |ids| ==> ids[i] !in a.outcomes && ValidId(ids[i], expected)
    ensures AddRecords(a, expected, passing, AsReviewRecords(ids)) == a.(outcomes := a.outcomes + Marked(ids, passing))
  {
    if ids == [] {
    } else {
      var n := |ids| - 1;
      AddRecordsReadsBack(a, expected, passing, ids[..n]);
      AddLastRecord(a, expected, passing, ids);
      NotYetMarked(a.outcomes, ids, passing);
      AddRecordReadsBack(a.(outcomes := a.outcomes + Marked(ids[..n], passing)), expected, passing, ids[n]);
      MarkedExtends(a.outcomes, ids, passing);
    }
  }

  lemma AddLastRecord(a: Reading, expected: set<CaseName>, passing: bool, ids: seq<ReviewId>)
    requires ids != []
    ensures var before, id := AddRecords(a, expected, passing, AsReviewRecords(ids[..|ids| - 1])), ids[|ids| - 1];
            AddRecords(a, expected, passing, AsReviewRecords(ids)) ==
            AddRecord(before, expected, passing, Is(RawReviewId(Is(id.mode), Is(id.transport), Is(id.checkId))))
  {
    assert AsReviewRecords(ids)[..|ids| - 1] == AsReviewRecords(ids[..|ids| - 1]);
  }

  lemma NotYetMarked(m: Outcomes, ids: seq<ReviewId>, passing: bool)
    requires ids != [] && Distinct(ids) && ids[|ids| - 1] !in m
    ensures ids[|ids| - 1] !in m + Marked(ids[..|ids| - 1], passing)
  {
    assert ids[|ids| - 1] !in ids[..|ids| - 1];
  }

  lemma AddRecordReadsBack(a: Reading, expected: set<CaseName>, passing: bool, id: ReviewId)
    requires id !in a.outcomes && ValidId(id, expected)
    ensures AddRecord(a, expected, passing, Is(RawReviewId(Is(id.mode), Is(id.transport), Is(id.checkId)))) ==
            a.(outcomes := a.outcomes[id := passing])
  {}

  lemma SortedIdsDistinct(s: set<ReviewId>)
    ensures Distinct(SortedReviewIds(s))
  {
    var r := SortedReviewIds(s);
    ReviewIdLessIsOrder();
    forall i, j | 0 <= i < j < |r| ensures r[i] != r[j] { assert ReviewIdLess(r[i], r[j]); }
  }

  lemma SortedCasesDistinct(s: set<CaseName>)
    ensures Distinct(SortedCases(s))
  {
    var r := SortedCases(s);
    CaseNameLessIsOrder();
    forall i, j | 0 <= i < j < |r| ensures r[i] != r[j] { assert CaseNameLess(r[i], r[j]); }
  }

  lemma NamesGather(k: ReviewReport, names: seq<CaseName>, expected: set<CaseName>)
    requires Distinct(names) && (forall x :: x in names <==> x in expected)
    requires StartCompact(k) == Reading(map[], {}, [])
    ensures AddNames(StartCompact(k), AsNames(names)) == Reading(map[], expected, [])
  {
    AddNamesReadsBack(StartCompact(k), names);
    assert (set x | x in names) == expected;
  }

  lemma MarkedPartition(m: Outcomes, passing: seq<ReviewId>, failing: seq<ReviewId>)
    requires forall id :: id in passing <==> id in m && m[id]
    requires forall id :: id in failing <==> id in m && !m[id]
    ensures map[] + Marked(passing, true) == Marked(passing, true)
    ensures Marked(passing, true) + Marked(failing, false) == m
  {}

  lemma BucketsGather(m: Outcomes, passing: seq<ReviewId>, failing: seq<ReviewId>, expected: set<CaseName>)
    requires Distinct(passing) && Distinct(failing) && forall id :: id in m ==> ValidId(id, expected)
    requires forall id :: id in passing <==> id in m && m[id]
    requires forall id :: id in failing <==> id in m && !m[id]
    ensures var a := AddRecords(Reading(map[], expected, []), expected, true, AsReviewRecords(passing));
            AddRecords(a, expected, false, AsReviewRecords(failing)) == Reading(m, expected, [])
  {
    MarkedPartition(m, passing, failing);
    var a := Reading(map[], expected, []);
    forall i | 0 <= i < |passing| ensures ValidId(passing[i], expected) { assert passing[i] in passing; }
    AddRecordsReadsBack(a, expected, true, passing);
    var a1 := Reading(Marked(passing, true), expected, []);
    forall i | 0 <= i < |failing| ensures ValidId(failing[i], expected) && failing[i] !in a1.outcomes {
      assert failing[i] in failing;
    }
    AddRecordsReadsBack(a1, expected, false, failing);
  }

  lemma ListsGather(m: Outcomes, names: seq<CaseName>, passing: seq<ReviewId>, failing: seq<ReviewId>,
                    summary: Typed<Summary>, expected: set<CaseName>)
    requires Distinct(names) && Distinct(passing) && Distinct(failing)
    requires (forall x :: x in names <==> x in expected) && (forall id :: id in m ==> ValidId(id, expected))
    requires forall id :: id in passing <==> id in m && m[id]
    requires forall id :: id in failing <==> id in m && !m[id]
    ensures GatherCompact(CompactReviewLists(names, passing, failing, summary), expected) == Reading(m, expected, [])
  {
    NamesGather(CompactReviewLists(names, passing, failing, summary), names, expected);
    BucketsGather(m, passing, failing, expected);
  }

  // The compact form of valid outcomes gathers exactly those outcomes and every expected case.
  lemma CompactFormGathers(m: Outcomes, summary: Typed<Summary>, expected: set<CaseName>)
    requires forall id :: id in m ==> ValidId(id, expected)
    ensures GatherCompact(CompactReviewForm(m, summary, expected), expected) == Reading(m, expected, [])
  {
    SortedCasesDistinct(expected);
    SortedIdsDistinct(PassedIds(m));
    SortedIdsDistinct(FailedIds(m));
    ListsGather(m, SortedCases(expected), SortedReviewIds(PassedIds(m)), SortedReviewIds(FailedIds(m)), summary,
                expected);
  }

  lemma {:induction false} AddNamesKeepsOutcomes(a: Reading, cases: seq<Typed<RawCaseName>>)
    ensures AddNames(a, cases).outcomes == a.outcomes
  {
    if cases != [] { AddNamesKeepsOutcomes(a, cases[..|cases| - 1]); }
  }

  lemma {:induction false} RecordsAreValid(a: Reading, expected: set<CaseName>, passing: bool,
                                           records: seq<Typed<RawReviewId>>)
    requires forall id :: id in a.outcomes ==> ValidId(id, expected)
    ensures forall id :: id in AddRecords(a, expected, passing, records).outcomes ==> ValidId(id, expected)
  {
    if records != [] { RecordsAreValid(a, expected, passing, records[..|records| - 1]); }
  }

  // Whatever a report holds, the outcomes read from it are about expected review checks.
  lemma OutcomesAreValid(r: ReviewReport, expected: set<CaseName>)
    ensures forall id :: id in Read(r, expected).outcomes ==> ValidId(id, expected)
  {
    if r.baselineKind == Full {
      AddCasesMeaning(StartFull(r), expected, if r.cases.Is? then r.cases.value else []);
    } else {
      var names := if r.requiredCases.Is? then r.requiredCases.value else [];
      AddNamesKeepsOutcomes(StartCompact(r), names);
      var a := AddNames(StartCompact(r), names);
      if r.compactChecks.Is? {
        var b := r.compactChecks.value;
        if b.passing.Is? { RecordsAreValid(a, expected, true, b.passing.value); }
        if b.failing.Is? { RecordsAreValid(AddBucket(a, expected, true, b.passing), expected, false, b.failing.value); }
      }
    }
  }

  // Reading a compact baseline gives the identical outcomes, with no problem: the totals still add up.
  lemma CompactReviewReadsBack(r: ReviewReport, expected: set<CaseName>)
    requires CompactReview(r, expected).ReviewCompacted?
    ensures Read(CompactReview(r, expected).baseline, expected) == Reading(Read(r, expected).outcomes, expected, [])
  {
    var a := Read(r, expected);
    var k := CompactReviewForm(a.outcomes, r.summary, expected);
    OutcomesAreValid(r, expected);
    CompactFormGathers(a.outcomes, r.summary, expected);
    var g := if r.baselineKind == Full then GatherFull(r, expected) else GatherCompact(r, expected);
    FinishMeaning(g, r, expected);
    FinishMeaning(Reading(a.outcomes, expected, []), k, expected);
  }

  // Compacting twice is compacting once, and the gate gives the same verdict against either form.
  lemma ReviewCompactionIsInvisible(c: ReviewReport, r: ReviewReport, expected: set<CaseName>)
    requires CompactReview(r, expected).ReviewCompacted?
    ensures CompactReview(CompactReview(r, expected).baseline, expected) == CompactReview(r, expected)
    ensures Gate(c, CompactReview(r, expected).baseline, expected) == Gate(c, r, expected)
  {
    CompactReviewReadsBack(r, expected);
  }

  // ------------------------------------------------------------ the gate is an order

  ghost predicate NoReviewRegression(c: Outcomes, b: Outcomes) {
    && (forall id :: id in c && !c[id] ==> id in b && !b[id])
    && (forall id :: id in b ==> id in c)
  }

  // What the four lists hold, check by check, and that the gate repeats both reports' problems.
  lemma ReviewListsMeaning(c: ReviewReport, b: ReviewReport, expected: set<CaseName>, id: ReviewId)
    ensures var v := Gate(c, b, expected);
            var now, was := Read(c, expected).outcomes, Read(b, expected).outcomes;
            && (id in v.knownFailures <==> Maps(now, id, false) && Maps(was, id, false))
            && (id in v.newFailures <==> Maps(now, id, false) && !Maps(was, id, false))
            && (id in v.missingChecks <==> id in was && id !in now)
            && (id in v.fixedChecks <==> Maps(was, id, false) && Maps(now, id, true))
            && v.baselineErrors == Read(b, expected).problems && v.candidateErrors == Read(c, expected).problems
  {}

  // The totals an accepted report must show.
  lemma TotalsMeaning(m: Outcomes, observed: set<CaseName>)
    ensures var t := Totals(m, observed);
            && t.passed == Is(|set id | id in m && m[id]|)
            && t.failed == Is(|set id | id in m && !m[id]|)
            && t.total == Is(|m|) && t.casesTotal == Is(|observed|)
            && t.casesPassed == Is(|set c | c in observed && AllPassed(m, c)|)
  {
    PassedAndFailed(m);
    assert PassedCases(m, observed) == set c | c in observed && AllPassed(m, c);
  }

  lemma PassedAndFailed(m: Outcomes)
    ensures |PassedIds(m)| + |set id | id in m && !m[id]| == |m|
  {
    var passed, failed := PassedIds(m), set id | id in m && !m[id];
    assert passed !! failed && passed + failed == m.Keys;
  }

  // A case with a check, and no failing one.
  ghost predicate AllPassed(m: Outcomes, c: CaseName) {
    (exists id :: id in m && CaseOf(id) == c) && forall id :: id in m && CaseOf(id) == c ==> m[id]
  }

  lemma ReviewGatePassesIff(c: ReviewReport, b: ReviewReport, expected: set<CaseName>)
    ensures Gate(c, b, expected).success <==>
            && Read(b, expected).problems == [] && Read(c, expected).problems == []
            && NoReviewRegression(Read(c, expected).outcomes, Read(b, expected).outcomes)
  {
    NoReviewRegressionMeaning(Read(c, expected).outcomes, Read(b, expected).outcomes);
  }

  lemma NoReviewRegressionMeaning(c: Outcomes, b: Outcomes)
    ensures NewIds(c, b) == {} && MissingIds(c, b) == {} <==> NoReviewRegression(c, b)
  {
    assert NewIds(c, b) == {} <==> forall id :: id in c && !c[id] ==> id in b && !b[id] by {
      if NewIds(c, b) == {} {
        forall id | id in c && !c[id] ensures id in b && !b[id] { assert id !in NewIds(c, b); }
      }
    }
    assert MissingIds(c, b) == {} <==> forall id :: id in b ==> id in c by {
      if MissingIds(c, b) == {} {
        forall id | id in b ensures id in c { assert id !in MissingIds(c, b); }
      }
    }
  }

  lemma ReviewGateTransitive(c2: ReviewReport, c1: ReviewReport, c0: ReviewReport, expected: set<CaseName>)
    requires Gate(c2, c1, expected).success && Gate(c1, c0, expected).success
    ensures Gate(c2, c0, expected).success
  {
    ReviewGatePassesIff(c2, c1, expected);
    ReviewGatePassesIff(c1, c0, expected);
    ReviewGatePassesIff(c2, c0, expected);
  }

  // Two reports pass against each other exactly when both are accepted and say the same.
  lemma ReviewGateAntisymmetric(c: ReviewReport, b: ReviewReport, expected: set<CaseName>)
    ensures Gate(c, b, expected).success && Gate(b, c, expected).success <==>
            && Read(c, expected).problems == [] && Read(b, expected).problems == []
            && Read(c, expected).outcomes == Read(b, expected).outcomes
  {
    ReviewGatePassesIff(c, b, expected);
    ReviewGatePassesIff(b, c, expected);
    MutualMeansEqual(Read(c, expected).outcomes, Read(b, expected).outcomes);
  }

  lemma MutualMeansEqual(c: Outcomes, b: Outcomes)
    ensures NoReviewRegression(c, b) && NoReviewRegression(b, c) <==> c == b
  {
    if NoReviewRegression(c, b) && NoReviewRegression(b, c) {
      assert c.Keys == b.Keys;
      assert forall id :: id in c ==> c[id] == b[id];
    }
  }
}
