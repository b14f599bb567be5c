/**
  Compact baselines: a full report reduced to its passing and failing identities.
  Compaction drops SKIP; the gate must not notice.
 */
module RegressionCompaction {
  import opened Ordering
  import opened Common
  import opened RegressionReport
  import opened RegressionMeaning
  import opened RegressionGate
  import opened RegressionTheorems

  datatype CompactionIssue = Malformed(problem: Problem) | NoOAuthPolicyRecorded | ShippingRegression
  datatype Compaction = Rejected(issues: seq<CompactionIssue>) | Compacted(baseline: Report)

  function Passing(m: Statuses): set<Identity> {
    set id | id in m && PASS in m[id]
  }

  function AsRecords(ids: seq<Identity>): seq<Typed<RawIdentity>> {
    seq(|ids|, i requires 0 <= i < |ids| => AsRecord(ids[i]))
  }

  function CompactionIssues(r: Report, catalog: Catalog): seq<CompactionIssue> {
    var problems := ReportProblems(r, catalog);
    seq(|problems|, i requires 0 <= i < |problems| => Malformed(problems[i])) +
    (if r.automaticAuthRequired.Wrong? then [NoOAuthPolicyRecorded] else []) +
    (if ShippingFailing(ReportStatuses(r)) != {} then [ShippingRegression] else [])
  }

  function SelectedAll(r: Report): map<Mode, Typed<seq<string>>> {
    map[Shipping := Selected(r, Shipping), Legacy := Selected(r, Legacy), Modern := Selected(r, Modern)]
  }

  function CompactOf(auth: Typed<bool>, scenarios: map<Mode, Typed<seq<string>>>,
                     passing: set<Identity>, failing: set<Identity>): Report {
    Report(Is(REPORT_SCHEMA_VERSION), Is(Is(true)), Is(true), auth,
           Is(OfficialMetadata(Is(OFFICIAL_REPOSITORY), Is(OFFICIAL_GIT_REF), Is(true), Is(scenarios))),
           CompactV1, Is(MODES), Is(TRANSPORTS),
           Is(Buckets(Is(AsRecords(SortedIds(passing))), Is(AsRecords(SortedIds(failing))))),
           Wrong)
  }

  function CompactForm(r: Report): Report {
    var m := ReportStatuses(r);
    CompactOf(r.automaticAuthRequired, SelectedAll(r), Passing(m), Failing(m))
  }

  function Compact(r: Report, catalog: Catalog): Compaction {
    var issues := CompactionIssues(r, catalog);
    if issues != [] then Rejected(issues) else Compacted(CompactForm(r))
  }

  // Compaction is refused exactly for a malformed report, an unrecorded OAuth policy or
  // a shipping failure; in other words, unless the report passes against itself.
  lemma CompactionAccepts(r: Report, catalog: Catalog)
    ensures Compact(r, catalog).Compacted? <==> Gate(r, r, catalog).success
  {
    GateReflexive(r, catalog);
    NoShippingFailureMeaning(ReportStatuses(r));
    assert |CompactionIssues(r, catalog)| == |ReportProblems(r, catalog)| +
           (if r.automaticAuthRequired.Wrong? then 1 else 0) +
           (if ShippingFailing(ReportStatuses(r)) != {} then 1 else 0);
  }

  // ------------------------------------------------------------ compaction keeps outcomes

  predicate Readable(id: Identity) {
    id.transport in TRANSPORTS && id.checkId != []
  }

  lemma SaidByIsReadable(t: CaseTable, id: Identity, s: Status)
    requires SaidByTable(t, id, s)
    ensures Readable(id)
  {}

  // Everything a report says is about identities a compact baseline can spell.
  lemma IdentitiesAreReadable(r: Report, id: Identity)
    requires id in ReportStatuses(r)
    ensures Readable(id) && ReadIdentity(AsRecord(id)) == Some(id)
  {
    match r.baselineKind {
      case Full =>
        FullStatusesMeaning(r, id, PASS);
        var s :| s in StatusesOf(ReportStatuses(r), id);
        FullStatusesMeaning(r, id, s);
        SaidByIsReadable(Table(CasesOf(r)), id, s);
      case CompactV1 =>
        CompactStatusesMeaning(r, id);
        var s :| s in StatusesOf(ReportStatuses(r), id);
        match s case PASS => case FAIL => case SKIP =>
    }
  }

  lemma AsRecordsMeaning(ids: seq<Identity>)
    requires forall id :: id in ids ==> Readable(id)
    requires Ascending(ids, IdLess)
    ensures RecordsOk(AsRecords(ids))
    ensures forall id :: id in Seen(AsRecords(ids)) <==> id in ids
  {
    var records := AsRecords(ids);
    forall i | 0 <= i < |ids| ensures ReadIdentity(records[i]) == Some(ids[i]) {
      assert ids[i] in ids;
    }
    forall i, j | 0 <= i < j < |ids| ensures ids[i] != ids[j] {
      IdLessLaws(ids[i], ids[j]);
    }
    forall id ensures id in Seen(records) <==> id in ids {
      if id in ids {
        var i :| 0 <= i < |ids| && ids[i] == id;
        assert ReadIdentity(records[i]) == Some(id);
      }
    }
  }

  // Reading the compact form gives back every identity's statuses, minus SKIP.
  lemma CompactionKeepsOutcomes(r: Report, id: Identity)
    ensures StatusesOf(ReportStatuses(CompactForm(r)), id) == StatusesOf(ReportStatuses(r), id) - {SKIP}
  {
    var m, k := ReportStatuses(r), CompactForm(r);
    BucketsReadBack(r);
    CompactStatusesMeaning(k, id);
    forall s: Status ensures s in StatusesOf(ReportStatuses(k), id) <==> s in StatusesOf(m, id) - {SKIP} {
      match s case PASS => case FAIL => case SKIP =>
    }
  }

  lemma BucketsReadBack(r: Report)
    ensures var b := CompactForm(r).compactChecks.value;
            && (forall id :: id in Seen(b.passing.value) <==> id in Passing(ReportStatuses(r)))
            && (forall id :: id in Seen(b.failing.value) <==> id in Failing(ReportStatuses(r)))
  {
    var m := ReportStatuses(r);
    forall id | id in m ensures Readable(id) { IdentitiesAreReadable(r, id); }
    AsRecordsMeaning(SortedIds(Passing(m)));
    AsRecordsMeaning(SortedIds(Failing(m)));
  }

  lemma BucketsWellFormed(r: Report)
    ensures RecordsOk(CompactForm(r).compactChecks.value.passing.value)
    ensures RecordsOk(CompactForm(r).compactChecks.value.failing.value)
  {
    var m := ReportStatuses(r);
    forall id | id in m ensures Readable(id) { IdentitiesAreReadable(r, id); }
    AsRecordsMeaning(SortedIds(Passing(m)));
    AsRecordsMeaning(SortedIds(Failing(m)));
  }

  lemma CompactHeader(auth: Typed<bool>, scenarios: map<Mode, Typed<seq<string>>>, passing: set<Identity>,
                      failing: set<Identity>)
    ensures HeaderOk(CompactOf(auth, scenarios, passing, failing))
    ensures BothTransports(CompactOf(auth, scenarios, passing, failing).transports)
  {
    assert TRANSPORTS[0] == Stdio && TRANSPORTS[1] == OfficialHttp;
  }

  // For every candidate, the four lists are the same against either form.
  lemma CompactionKeepsLists(c: Report, b: Report, catalog: Catalog)
    ensures var full, compact := Gate(c, b, catalog), Gate(c, CompactForm(b), catalog);
            && compact.knownFailures == full.knownFailures
            && compact.newFailures == full.newFailures
            && compact.missingChecks == full.missingChecks
            && compact.fixedChecks == full.fixedChecks
  {
    var cs, bs, ks := ReportStatuses(c), ReportStatuses(b), ReportStatuses(CompactForm(b));
    forall id ensures StatusesOf(ks, id) == StatusesOf(bs, id) - {SKIP} { CompactionKeepsOutcomes(b, id); }
    SameListsFromOutcomes(cs, bs, ks);
  }

  lemma SameListsFromOutcomes(c: Statuses, b: Statuses, k: Statuses)
    requires forall id :: StatusesOf(k, id) == StatusesOf(b, id) - {SKIP}
    ensures Known(c, k) == Known(c, b) && New(c, k) == New(c, b) && Missing(c, k) == Missing(c, b) &&
            Fixed(c, k) == Fixed(c, b)
  {
    forall id
      ensures PASS in StatusesOf(k, id) <==> PASS in StatusesOf(b, id)
      ensures FAIL in StatusesOf(k, id) <==> FAIL in StatusesOf(b, id)
    {}
    forall id ensures id in Missing(c, k) <==> id in Missing(c, b) {
      assert id in Missing(c, b) <==>
             ((PASS in StatusesOf(b, id) && PASS !in StatusesOf(c, id)) ||
              (FAIL in StatusesOf(b, id) && PASS !in StatusesOf(c, id) && FAIL !in StatusesOf(c, id)));
    }
    forall id ensures id in Fixed(c, k) <==> id in Fixed(c, b) {
      assert id in Fixed(c, b) <==>
             FAIL in StatusesOf(b, id) && FAIL !in StatusesOf(c, id) && PASS in StatusesOf(c, id);
    }
  }

  // ------------------------------------------------------------ when the verdict survives

  // Some check of the slot, and of every expected scenario, has an outcome other than SKIP.
  ghost predicate CoveredMode(m: Statuses, catalog: Catalog, mode: Mode) {
    && (exists id :: Ran(m, id) && id.mode == mode && id.transport == Stdio)
    && (exists id :: Ran(m, id) && id.mode == mode && id.transport == OfficialHttp)
    && forall name :: name in catalog.Expected(mode) ==> ScenarioRan(m, mode, name)
  }

  ghost predicate Covered(m: Statuses, catalog: Catalog) {
    forall mode: Mode :: CoveredMode(m, catalog, mode)
  }

  ghost predicate Ran(m: Statuses, id: Identity) {
    PASS in StatusesOf(m, id) || FAIL in StatusesOf(m, id)
  }

  ghost predicate ScenarioRan(m: Statuses, mode: Mode, name: string) {
    exists id :: Ran(m, id) && id.mode == mode && NamesScenario(id) && id.scenario == name
  }

  // In an accepted report only expected scenarios are named.
  lemma AcceptedNamesExpected(r: Report, catalog: Catalog, id: Identity)
    requires ReportProblems(r, catalog) == []
    requires id in ReportStatuses(r) && NamesScenario(id)
    ensures id.scenario in catalog.Expected(id.mode)
  {
    match r.baselineKind {
      case Full =>
        FullReportAccepted(r, catalog);
        FullStatusesMeaning(r, id, PASS);
        var s :| s in StatusesOf(ReportStatuses(r), id);
        FullStatusesMeaning(r, id, s);
        var t := Table(CasesOf(r));
        var checks := SlotChecks(t, id.mode, id.transport);
        assert ModeOk(r, catalog, t, id.mode);
        assert id.scenario in ObservedScenarios(id.mode, OfficialHttp, checks);
      case CompactV1 =>
        CompactReportAccepted(r, catalog);
        assert CompactModeOk(r, catalog, ReportStatuses(r).Keys, id.mode);
        assert id.scenario in CompactScenarios(ReportStatuses(r).Keys, id.mode);
    }
  }

  lemma AcceptedSelects(r: Report, catalog: Catalog, mode: Mode)
    requires ReportProblems(r, catalog) == []
    ensures Selected(r, mode) == Is(catalog.Expected(mode))
  {
    match r.baselineKind {
      case Full => FullReportAccepted(r, catalog); assert ModeOk(r, catalog, Table(CasesOf(r)), mode);
      case CompactV1 =>
        CompactReportAccepted(r, catalog);
        assert CompactModeOk(r, catalog, ReportStatuses(r).Keys, mode);
    }
  }

  lemma CompactKeysRan(r: Report, id: Identity)
    ensures id in ReportStatuses(CompactForm(r)) <==> Ran(ReportStatuses(r), id)
    ensures id in ReportStatuses(CompactForm(r)) ==> id in ReportStatuses(r)
  {
    CompactionKeepsOutcomes(r, id);
    CompactStatusesMeaning(CompactForm(r), id);
    var m := StatusesOf(ReportStatuses(r), id);
    assert PASS in m - {SKIP} <==> PASS in m;
    assert FAIL in m - {SKIP} <==> FAIL in m;
    if m - {SKIP} != {} {
      var s :| s in m - {SKIP};
      assert s == PASS || s == FAIL;
    }
  }

  lemma CompactModeAccepted(r: Report, catalog: Catalog, mode: Mode)
    requires ReportProblems(r, catalog) == []
    ensures CompactModeOk(CompactForm(r), catalog, ReportStatuses(CompactForm(r)).Keys, mode) <==>
            CoveredMode(ReportStatuses(r), catalog, mode)
  {
    AcceptedSelects(r, catalog, mode);
    CompactFormSelects(r, mode);
    forall id ensures id in ReportStatuses(CompactForm(r)) <==> Ran(ReportStatuses(r), id) { CompactKeysRan(r, id); }
    CasesRan(ReportStatuses(CompactForm(r)).Keys, ReportStatuses(r), mode);
    CompactScenariosAccepted(r, catalog, mode);
  }

  lemma CasesRan(keys: set<Identity>, m: Statuses, mode: Mode)
    requires forall id :: id in keys <==> Ran(m, id)
    ensures HasCase(keys, mode, Stdio) <==> exists id :: Ran(m, id) && id.mode == mode && id.transport == Stdio
    ensures HasCase(keys, mode, OfficialHttp) <==>
            exists id :: Ran(m, id) && id.mode == mode && id.transport == OfficialHttp
  {}

  lemma CompactOfSelects(auth: Typed<bool>, scenarios: map<Mode, Typed<seq<string>>>, passing: set<Identity>,
                         failing: set<Identity>, mode: Mode)
    ensures Selected(CompactOf(auth, scenarios, passing, failing), mode) ==
            if mode in scenarios then scenarios[mode] else Wrong
  {}

  lemma CompactFormSelects(r: Report, mode: Mode)
    ensures Selected(CompactForm(r), mode) == Selected(r, mode)
  {
    var m := ReportStatuses(r);
    CompactOfSelects(r.automaticAuthRequired, SelectedAll(r), Passing(m), Failing(m), mode);
    match mode case Shipping => case Legacy => case Modern =>
  }

  lemma CompactScenariosAccepted(r: Report, catalog: Catalog, mode: Mode)
    requires ReportProblems(r, catalog) == []
    ensures CompactScenarios(ReportStatuses(CompactForm(r)).Keys, mode) == ToSet(catalog.Expected(mode)) <==>
            forall name :: name in catalog.Expected(mode) ==> ScenarioRan(ReportStatuses(r), mode, name)
  {
    var m, keys := ReportStatuses(r), ReportStatuses(CompactForm(r)).Keys;
    var named := CompactScenarios(keys, mode);
    forall name ensures name in named <==> ScenarioRan(m, mode, name) {
      forall id ensures id in keys <==> Ran(m, id) { CompactKeysRan(r, id); }
      if name in named {
        var id :| id in keys && id.mode == mode && NamesScenario(id) && id.scenario == name;
        assert Ran(m, id);
      }
    }
    forall name | name in named ensures name in ToSet(catalog.Expected(mode)) {
      var id :| id in keys && id.mode == mode && NamesScenario(id) && id.scenario == name;
      CompactKeysRan(r, id);
      AcceptedNamesExpected(r, catalog, id);
    }
  }

  // The compact form of an accepted report is itself accepted exactly when the report is covered.
  lemma CompactFormAccepted(r: Report, catalog: Catalog)
    requires ReportProblems(r, catalog) == []
    ensures ReportProblems(CompactForm(r), catalog) == [] <==> Covered(ReportStatuses(r), catalog)
  {
    var k := CompactForm(r);
    CompactReportAccepted(k, catalog);
    BucketsWellFormed(r);
    CompactHeader(r.automaticAuthRequired, SelectedAll(r), Passing(ReportStatuses(r)), Failing(ReportStatuses(r)));
    CompactModesAccepted(r, catalog);
  }

  lemma CompactModesAccepted(r: Report, catalog: Catalog)
    requires ReportProblems(r, catalog) == []
    ensures (forall mode :: CompactModeOk(CompactForm(r), catalog, ReportStatuses(CompactForm(r)).Keys, mode)) <==>
            Covered(ReportStatuses(r), catalog)
  {
    var k, m := CompactForm(r), ReportStatuses(r);
    forall mode ensures CompactModeOk(k, catalog, ReportStatuses(k).Keys, mode) <==> CoveredMode(m, catalog, mode) {
      CompactModeAccepted(r, catalog, mode);
    }
  }

  // The verdict against the compact form is the verdict against the report, provided it is covered.
  lemma CompactionKeepsVerdict(c: Report, b: Report, catalog: Catalog)
    requires Compact(b, catalog).Compacted?
    ensures Gate(c, Compact(b, catalog).baseline, catalog).success <==>
            Gate(c, b, catalog).success && Covered(ReportStatuses(b), catalog)
  {
    var k := CompactForm(b);
    CompactionAccepts(b, catalog);
    GateReflexive(b, catalog);
    CompactFormAccepted(b, catalog);
    GatePassesIff(c, b, catalog);
    GatePassesIff(c, k, catalog);
    CompactionKeepsLists(c, b, catalog);
    forall id { CompactionKeepsOutcomes(b, id); }
    NoRegressionMeaning(ReportStatuses(c), ReportStatuses(b));
    NoRegressionMeaning(ReportStatuses(c), ReportStatuses(k));
    SameListsFromOutcomes(ReportStatuses(c), ReportStatuses(b), ReportStatuses(k));
  }

  // Compacting twice is compacting once, exactly for covered reports.
  lemma CompactionIdempotent(r: Report, catalog: Catalog)
    requires Compact(r, catalog).Compacted?
    ensures Compact(Compact(r, catalog).baseline, catalog) == Compact(r, catalog) <==>
            Covered(ReportStatuses(r), catalog)
  {
    var k := CompactForm(r);
    CompactionAccepts(r, catalog);
    CompactionAccepts(k, catalog);
    CompactionKeepsVerdict(r, r, catalog);
    GatePassesIff(r, k, catalog);
    GateReflexive(k, catalog);
    CompactFormAccepted(r, catalog);
    CompactFormStable(r);
  }

  lemma SameOutcomeSets(m: Statuses, k: Statuses)
    requires forall id :: StatusesOf(k, id) == StatusesOf(m, id) - {SKIP}
    ensures Passing(k) == Passing(m) && Failing(k) == Failing(m)
  {
    forall id ensures (id in Passing(k) <==> id in Passing(m)) && (id in Failing(k) <==> id in Failing(m)) {
      var was, now := StatusesOf(m, id), StatusesOf(k, id);
      assert now == was - {SKIP};
      assert (PASS in now <==> PASS in was) && (FAIL in now <==> FAIL in was);
    }
  }

  lemma CompactFormStable(r: Report)
    ensures CompactForm(CompactForm(r)) == CompactForm(r)
  {
    var k := CompactForm(r);
    forall id ensures StatusesOf(ReportStatuses(k), id) == StatusesOf(ReportStatuses(r), id) - {SKIP} {
      CompactionKeepsOutcomes(r, id);
    }
    SameOutcomeSets(ReportStatuses(r), ReportStatuses(k));
    forall mode { CompactFormSelects(r, mode); }
    assert SelectedAll(k) == SelectedAll(r);
  }
}
