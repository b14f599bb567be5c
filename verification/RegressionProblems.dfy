/**
  Which problems a report is said to have, each with its own condition on the report.
 */
module RegressionProblems {
  import opened Common
  import opened RegressionReport
  import opened RegressionMeaning

  predicate HeaderReports(r: Report, p: Problem) {
    match p
    case WrongSchema => r.schemaVersion != Is(4)
    case NoVersionCheck => r.versionCheck != Is(Is(true))
    case ModernDisabled => r.modernFeatureEnablement != Is(true)
    case NoOfficialMetadata => r.official.Wrong?
    case OtherRepository => r.official.Is? && r.official.value.repository != Is(OFFICIAL_REPOSITORY)
    case OtherRevision => r.official.Is? && r.official.value.gitRef != Is(OFFICIAL_GIT_REF)
    case AuthExcluded => r.official.Is? && r.official.value.authenticationIncluded != Is(true)
    case NoCatalog => r.official.Is? && r.official.value.scenarios.Wrong?
    case _ => false
  }

  lemma HeaderReported(r: Report, p: Problem)
    ensures p in HeaderProblems(r) <==> HeaderReports(r, p)
  {}

  // ------------------------------------------------------------ cases

  // A later case of a slot repeats an earlier one.
  ghost predicate Repeats(cases: seq<Typed<RawCase>>, key: (Mode, Transport)) {
    exists i, j :: 0 <= i < j < |cases| && IsCaseOf(cases[i], key) && IsCaseOf(cases[j], key)
  }

  predicate IsCaseOf(c: Typed<RawCase>, key: (Mode, Transport)) { IsRequiredCase(c) && CaseKey(c.value) == key }

  predicate LacksTransport(c: Typed<RawCase>) { c.Is? && c.value.mode.Is? && c.value.transport.Wrong? }

  ghost predicate CaseReports(cases: seq<Typed<RawCase>>, p: Problem) {
    match p
    case MalformedCase => exists i :: 0 <= i < |cases| && cases[i].Wrong?
    case MalformedRequiredCase => exists i :: 0 <= i < |cases| && LacksTransport(cases[i])
    case DuplicateCase(mode, transport) => Repeats(cases, (mode, transport))
    case _ => false
  }

  lemma {:induction false} CaseReported(cases: seq<Typed<RawCase>>, p: Problem)
    ensures p in CaseProblems(cases) <==> CaseReports(cases, p)
  {
    if cases != [] {
      CaseReported(cases[..|cases| - 1], p);
      CaseProblemsExtend(cases, p);
      CaseReportsExtend(cases, p);
    }
  }

  // What the last case adds.
  predicate CaseAdds(before: seq<Typed<RawCase>>, c: Typed<RawCase>, p: Problem) {
    match p
    case MalformedCase => c.Wrong?
    case MalformedRequiredCase => LacksTransport(c)
    case DuplicateCase(mode, transport) => IsCaseOf(c, (mode, transport)) && (mode, transport) in Table(before)
    case _ => false
  }

  lemma CaseProblemsExtend(cases: seq<Typed<RawCase>>, p: Problem)
    requires cases != []
    ensures var before, last := cases[..|cases| - 1], cases[|cases| - 1];
            p in CaseProblems(cases) <==> p in CaseProblems(before) || CaseAdds(before, last, p)
  {}

  lemma CaseReportsExtend(cases: seq<Typed<RawCase>>, p: Problem)
    requires cases != []
    ensures var before, last := cases[..|cases| - 1], cases[|cases| - 1];
            CaseReports(cases, p) <==> CaseReports(before, p) || CaseAdds(before, last, p)
  {
    if p.MalformedCase? {
      SomeExtends(cases, (c: Typed<RawCase>) => c.Wrong?);
    } else if p.MalformedRequiredCase? {
      SomeExtends(cases, (c: Typed<RawCase>) => LacksTransport(c));
    } else if p.DuplicateCase? {
      RepeatsExtends(cases, (p.mode, p.transport));
    }
  }

  lemma RepeatsExtends(cases: seq<Typed<RawCase>>, key: (Mode, Transport))
    requires cases != []
    ensures var before, last := cases[..|cases| - 1], cases[|cases| - 1];
            Repeats(cases, key) <==> Repeats(before, key) || (IsCaseOf(last, key) && key in Table(before))
  {
    var n := |cases| - 1;
    var before := cases[..n];
    TableHoldsFirst(before, key);
    forall i | 0 <= i < n ensures before[i] == cases[i] {}
    if Repeats(before, key) {
      var i, j :| 0 <= i < j < |before| && IsCaseOf(before[i], key) && IsCaseOf(before[j], key);
      assert IsCaseOf(cases[i], key) && IsCaseOf(cases[j], key);
    }
    if IsCaseOf(cases[n], key) && key in Table(before) {
      var i :| 0 <= i < n && IsRequiredCase(before[i]) && CaseKey(before[i].value) == key;
      assert IsCaseOf(cases[i], key);
    }
    if Repeats(cases, key) {
      var i, j :| 0 <= i < j < |cases| && IsCaseOf(cases[i], key) && IsCaseOf(cases[j], key);
      assert IsCaseOf(before[i], key);
      if j < n { assert IsCaseOf(before[j], key); }
    }
  }

  // ------------------------------------------------------------ the slots of a mode

  ghost predicate SomeCheckUnread(mode: Mode, transport: Transport, checks: seq<Typed<RawCheck>>) {
    exists i :: 0 <= i < |checks| && ReadCheck(mode, transport, checks[i]).None?
  }

  lemma {:induction false} CheckReported(mode: Mode, transport: Transport, checks: seq<Typed<RawCheck>>, p: Problem)
    ensures p in CheckProblems(mode, transport, checks) <==>
            p == MalformedCheck(mode, transport) && SomeCheckUnread(mode, transport, checks)
  {
    if checks != [] {
      CheckReported(mode, transport, checks[..|checks| - 1], p);
      SomeExtends(checks, c => ReadCheck(mode, transport, c).None?);
    }
  }

  ghost predicate ScenariosReport(mode: Mode, expected: set<string>, observed: set<string>, p: Problem) {
    || (p == ScenariosNotObserved(mode, SortedNames(expected - observed)) && !(expected <= observed))
    || (p == ScenariosUnexpected(mode, SortedNames(observed - expected)) && !(observed <= expected))
  }

  lemma ScenariosReported(mode: Mode, expected: set<string>, observed: set<string>, p: Problem)
    ensures p in ScenarioProblems(mode, expected, observed) <==> ScenariosReport(mode, expected, observed, p)
  {
    NoneLeft(expected, observed);
    NoneLeft(observed, expected);
  }

  lemma NoneLeft(a: set<string>, b: set<string>)
    ensures a - b == {} <==> a <= b
  {
    assert a - b == {} ==> forall x :: x in a ==> x !in a - b;
  }

  // A slot without a case, a case without checks, a check that cannot be read, and over HTTP
  // the scenarios that were expected and not observed or observed and not expected.
  ghost predicate SlotReports(catalog: Catalog, t: CaseTable, mode: Mode, transport: Transport, p: Problem) {
    var checks := SlotChecks(t, mode, transport);
    || (p == MissingCase(mode, transport) && (mode, transport) !in t)
    || (p == NoChecks(mode, transport) && (mode, transport) in t && checks == [])
    || (p == MalformedCheck(mode, transport) && SomeCheckUnread(mode, transport, checks))
    || (transport == OfficialHttp && checks != [] &&
        ScenariosReport(mode, ToSet(catalog.Expected(mode)), ObservedScenarios(mode, transport, checks), p))
  }

  lemma SlotReported(catalog: Catalog, t: CaseTable, mode: Mode, transport: Transport, p: Problem)
    ensures p in SlotProblems(catalog, t, mode, transport) <==> SlotReports(catalog, t, mode, transport, p)
  {
    var checks := SlotChecks(t, mode, transport);
    CheckReported(mode, transport, checks, p);
    ScenariosReported(mode, ToSet(catalog.Expected(mode)), ObservedScenarios(mode, transport, checks), p);
  }

  ghost predicate ModeReports(r: Report, catalog: Catalog, t: CaseTable, mode: Mode, p: Problem) {
    || (p == IncompleteCatalog(mode) && Selected(r, mode) != Is(catalog.Expected(mode)))
    || SlotReports(catalog, t, mode, Stdio, p)
    || SlotReports(catalog, t, mode, OfficialHttp, p)
  }

  lemma ModeReported(r: Report, catalog: Catalog, t: CaseTable, mode: Mode, p: Problem)
    ensures p in ModeProblems(r, catalog, t, mode) <==> ModeReports(r, catalog, t, mode, p)
  {
    SlotReported(catalog, t, mode, Stdio, p);
    SlotReported(catalog, t, mode, OfficialHttp, p);
    InThree(CatalogProblems(r, catalog, mode), SlotProblems(catalog, t, mode, Stdio),
            SlotProblems(catalog, t, mode, OfficialHttp), p);
  }

  lemma InThree<T>(a: seq<T>, b: seq<T>, c: seq<T>, x: T)
    ensures x in a + b + c <==> x in a || x in b || x in c
  {}

  lemma {:induction false} ForModesReported(modes: seq<Mode>, f: Mode -> seq<Problem>, p: Problem)
    ensures p in ForModes(modes, f) <==> exists mode :: mode in modes && p in f(mode)
  {
    if modes != [] {
      var before, mode := modes[..|modes| - 1], modes[|modes| - 1];
      ForModesReported(before, f, p);
      assert modes == before + [mode];
    }
  }

  // ------------------------------------------------------------ full reports

  ghost predicate FullReports(r: Report, catalog: Catalog, p: Problem) {
    || HeaderReports(r, p)
    || (p == NoCases && r.cases.Wrong?)
    || CaseReports(CasesOf(r), p)
    || exists mode :: ModeReports(r, catalog, Table(CasesOf(r)), mode, p)
  }

  lemma FullModesReported(r: Report, catalog: Catalog, t: CaseTable, p: Problem)
    ensures p in ForModes(MODES, FullModes(r, catalog, t)) <==> exists mode :: ModeReports(r, catalog, t, mode, p)
  {
    EveryModeIsRequired();
    ForModesReported(MODES, FullModes(r, catalog, t), p);
    forall mode ensures p in FullModes(r, catalog, t)(mode) <==> ModeReports(r, catalog, t, mode, p) {
      ModeReported(r, catalog, t, mode, p);
    }
  }

  // A full report is said to have exactly these problems.
  lemma FullReportReported(r: Report, catalog: Catalog, p: Problem)
    requires r.baselineKind == Full
    ensures p in ReportProblems(r, catalog) <==> FullReports(r, catalog, p)
  {
    HeaderReported(r, p);
    CaseReported(CasesOf(r), p);
    FullModesReported(r, catalog, Table(CasesOf(r)), p);
    InFour(HeaderProblems(r), if r.cases.Wrong? then [NoCases] else [], CaseProblems(CasesOf(r)),
           ForModes(MODES, FullModes(r, catalog, Table(CasesOf(r)))), p);
  }

  lemma InFour<T>(a: seq<T>, b: seq<T>, c: seq<T>, d: seq<T>, x: T)
    ensures x in a + b + c + d <==> x in a || x in b || x in c || x in d
  {}

  // ------------------------------------------------------------ compact baselines

  ghost predicate RecordsReport(s: Status, records: seq<Typed<RawIdentity>>, p: Problem) {
    || (p == MalformedIdentity(s) && exists i :: 0 <= i < |records| && ReadIdentity(records[i]).None?)
    || (p == DuplicateIdentity(s) && RepeatsRecord(records))
  }

  ghost predicate RepeatsRecord(records: seq<Typed<RawIdentity>>) {
    exists i, j :: 0 <= i < j < |records| && ReadIdentity(records[i]).Some? &&
                   ReadIdentity(records[i]) == ReadIdentity(records[j])
  }

  lemma {:induction false} RecordsReported(s: Status, records: seq<Typed<RawIdentity>>, p: Problem)
    ensures p in RecordProblems(s, records) <==> RecordsReport(s, records, p)
  {
    if records != [] {
      RecordsReported(s, records[..|records| - 1], p);
      SomeExtends(records, c => ReadIdentity(c).None?);
      RepeatsRecordExtends(records);
    }
  }

  lemma RepeatsRecordExtends(records: seq<Typed<RawIdentity>>)
    requires records != []
    ensures var before, last := records[..|records| - 1], ReadIdentity(records[|records| - 1]);
            RepeatsRecord(records) <==> RepeatsRecord(before) || (last.Some? && last.value in Seen(before))
  {
    var n := |records| - 1;
    var before, last := records[..n], ReadIdentity(records[n]);
    forall i | 0 <= i < n ensures before[i] == records[i] {}
    if RepeatsRecord(before) {
      var i, j :| 0 <= i < j < |before| && ReadIdentity(before[i]).Some? &&
                  ReadIdentity(before[i]) == ReadIdentity(before[j]);
      assert ReadIdentity(records[i]) == ReadIdentity(records[j]);
    }
    if last.Some? && last.value in Seen(before) {
      var i :| 0 <= i < n && ReadIdentity(before[i]) == last;
      assert ReadIdentity(records[i]) == last;
    }
    if RepeatsRecord(records) {
      var i, j :| 0 <= i < j < |records| && ReadIdentity(records[i]).Some? &&
                  ReadIdentity(records[i]) == ReadIdentity(records[j]);
      assert ReadIdentity(before[i]) == ReadIdentity(records[i]);
      if j < n { assert ReadIdentity(before[j]) == ReadIdentity(records[j]); }
    }
  }

  ghost predicate BucketReports(s: Status, records: Typed<seq<Typed<RawIdentity>>>, p: Problem) {
    if records.Wrong? then p == NoBucket(s) else RecordsReport(s, records.value, p)
  }

  lemma BucketReported(s: Status, records: Typed<seq<Typed<RawIdentity>>>, p: Problem)
    ensures p in BucketProblems(s, records) <==> BucketReports(s, records, p)
  {
    if records.Is? { RecordsReported(s, records.value, p); }
  }

  ghost predicate CompactModeReports(r: Report, catalog: Catalog, ids: set<Identity>, mode: Mode, p: Problem) {
    || (p == IncompleteCatalog(mode) && Selected(r, mode) != Is(catalog.Expected(mode)))
    || (p == MissingCase(mode, Stdio) && !HasCase(ids, mode, Stdio))
    || (p == MissingCase(mode, OfficialHttp) && !HasCase(ids, mode, OfficialHttp))
    || ScenariosReport(mode, ToSet(catalog.Expected(mode)), CompactScenarios(ids, mode), p)
  }

  function Unless(ok: bool, p: Problem): seq<Problem> { if ok then [] else [p] }

  lemma CompactModeReported(r: Report, catalog: Catalog, ids: set<Identity>, mode: Mode, p: Problem)
    ensures p in CompactModeProblems(r, catalog, ids, mode) <==> CompactModeReports(r, catalog, ids, mode, p)
  {
    ScenariosReported(mode, ToSet(catalog.Expected(mode)), CompactScenarios(ids, mode), p);
    InFour(CatalogProblems(r, catalog, mode),
           Unless(HasCase(ids, mode, Stdio), MissingCase(mode, Stdio)),
           Unless(HasCase(ids, mode, OfficialHttp), MissingCase(mode, OfficialHttp)),
           ScenarioProblems(mode, ToSet(catalog.Expected(mode)), CompactScenarios(ids, mode)), p);
  }

  lemma CompactModesReported(r: Report, catalog: Catalog, ids: set<Identity>, p: Problem)
    ensures p in ForModes(MODES, CompactModes(r, catalog, ids)) <==>
            exists mode :: CompactModeReports(r, catalog, ids, mode, p)
  {
    EveryModeIsRequired();
    ForModesReported(MODES, CompactModes(r, catalog, ids), p);
    forall mode ensures p in CompactModes(r, catalog, ids)(mode) <==> CompactModeReports(r, catalog, ids, mode, p) {
      CompactModeReported(r, catalog, ids, mode, p);
    }
  }

  ghost predicate PreambleReports(r: Report, p: Problem) {
    || HeaderReports(r, p)
    || (p == WrongRequiredModes && r.requiredModes != Is(MODES))
    || (p == WrongTransports && !BothTransports(r.transports))
  }

  ghost predicate CompactReports(r: Report, catalog: Catalog, p: Problem) {
    || PreambleReports(r, p)
    || (p == NoCompactChecks && r.compactChecks.Wrong?)
    || (r.compactChecks.Is? && BodyReports(r, catalog, r.compactChecks.value, p))
  }

  ghost predicate BodyReports(r: Report, catalog: Catalog, b: Buckets, p: Problem) {
    || BucketReports(PASS, b.passing, p)
    || BucketReports(FAIL, b.failing, p)
    || exists mode :: CompactModeReports(r, catalog, CompactStatuses(r).Keys, mode, p)
  }

  lemma PreambleReported(r: Report, p: Problem)
    ensures p in CompactPreamble(r) <==> PreambleReports(r, p)
  {
    HeaderReported(r, p);
    InThree(HeaderProblems(r), if r.requiredModes == Is(MODES) then [] else [WrongRequiredModes],
            if BothTransports(r.transports) then [] else [WrongTransports], p);
  }

  lemma BodyReported(r: Report, catalog: Catalog, b: Buckets, p: Problem)
    ensures p in CompactBody(r, catalog, b) <==> BodyReports(r, catalog, b, p)
  {
    BucketReported(PASS, b.passing, p);
    BucketReported(FAIL, b.failing, p);
    CompactModesReported(r, catalog, CompactStatuses(r).Keys, p);
    InThree(BucketProblems(PASS, b.passing), BucketProblems(FAIL, b.failing),
            ForModes(MODES, CompactModes(r, catalog, CompactStatuses(r).Keys)), p);
  }

  // And so has a compact baseline.
  lemma CompactReportReported(r: Report, catalog: Catalog, p: Problem)
    requires r.baselineKind == CompactV1
    ensures p in ReportProblems(r, catalog) <==> CompactReports(r, catalog, p)
  {
    PreambleReported(r, p);
    if r.compactChecks.Is? { BodyReported(r, catalog, r.compactChecks.value, p); }
  }

  // A report of any other kind is refused for that, besides its header.
  lemma OtherReportReported(r: Report, catalog: Catalog, p: Problem)
    requires r.baselineKind == OtherKind
    ensures p in ReportProblems(r, catalog) <==> HeaderReports(r, p) || p == UnsupportedBaseline
  {
    HeaderReported(r, p);
  }
}
