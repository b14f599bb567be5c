/**
  Laws of the regression gate: when it passes, that it is a preorder, and what two reports
  that pass against each other agree on.
 */
module RegressionTheorems {
  import opened Common
  import opened RegressionReport
  import opened RegressionGate

  // ------------------------------------------------------------ when the gate passes

  ghost predicate NoShippingFailure(m: Statuses) {
    forall id :: FAIL in StatusesOf(m, id) ==> id.mode != Shipping
  }

  ghost predicate KeepsCheck(cs: set<Status>, bs: set<Status>) {
    && (FAIL in cs ==> FAIL in bs)
    && (PASS in bs ==> PASS in cs)
    && (FAIL in bs ==> FAIL in cs || PASS in cs)
  }

  // The candidate fails nothing the baseline did not fail, keeps every pass, and
  // still runs every failure.
  ghost predicate NoRegression(c: Statuses, b: Statuses) {
    forall id :: KeepsCheck(StatusesOf(c, id), StatusesOf(b, id))
  }

  ghost predicate SameOAuthPolicy(c: Report, b: Report) {
    c.automaticAuthRequired.Is? && c.automaticAuthRequired == b.automaticAuthRequired
  }

  lemma NoShippingFailureMeaning(m: Statuses)
    ensures ShippingFailing(m) == {} <==> NoShippingFailure(m)
  {
    if ShippingFailing(m) == {} {
      forall id | FAIL in StatusesOf(m, id) ensures id.mode != Shipping {
        assert id !in ShippingFailing(m);
      }
    }
  }

  lemma NoRegressionMeaning(c: Statuses, b: Statuses)
    ensures New(c, b) == {} && Missing(c, b) == {} <==> NoRegression(c, b)
  {
    forall id ensures id !in New(c, b) && id !in Missing(c, b) <==> KeepsCheck(StatusesOf(c, id), StatusesOf(b, id)) {}
    assert (forall id :: id !in New(c, b) && id !in Missing(c, b)) <==> New(c, b) == {} && Missing(c, b) == {};
  }

  lemma NoIssuesMeaning(c: Report, b: Report, catalog: Catalog)
    ensures GateIssues(c, b, catalog) == [] <==>
            && ReportProblems(b, catalog) == [] && ReportProblems(c, catalog) == []
            && SameOAuthPolicy(c, b)
            && NoShippingFailure(ReportStatuses(c)) && NoShippingFailure(ReportStatuses(b))
  {
    NoShippingFailureMeaning(ReportStatuses(c));
    NoShippingFailureMeaning(ReportStatuses(b));
    NoneSorted(ShippingFailing(ReportStatuses(c)));
    NoneSorted(ShippingFailing(ReportStatuses(b)));
    var e1, e2 := BaselineIssues(ReportProblems(b, catalog)), CandidateIssues(ReportProblems(c, catalog));
    var e3 := OAuthIssues(c.automaticAuthRequired, b.automaticAuthRequired);
    var e4 := ShippingIssues(SortedIds(ShippingFailing(ReportStatuses(c))));
    var e5 := BaselineShippingIssues(SortedIds(ShippingFailing(ReportStatuses(b))));
    assert GateIssues(c, b, catalog) == e1 + e2 + e3 + e4 + e5;
    assert |GateIssues(c, b, catalog)| == |e1| + |e2| + |e3| + |e4| + |e5|;
  }

  // The gate's verdict, stated on the two reports alone.
  lemma GatePassesIff(c: Report, b: Report, catalog: Catalog)
    ensures Gate(c, b, catalog).success <==>
            && ReportProblems(b, catalog) == [] && ReportProblems(c, catalog) == []
            && SameOAuthPolicy(c, b)
            && NoShippingFailure(ReportStatuses(c)) && NoShippingFailure(ReportStatuses(b))
            && NoRegression(ReportStatuses(c), ReportStatuses(b))
  {
    NoIssuesMeaning(c, b, catalog);
    NoRegressionMeaning(ReportStatuses(c), ReportStatuses(b));
  }

  // What the four lists hold, check by check.
  lemma ListsMeaning(c: Report, b: Report, catalog: Catalog, id: Identity)
    ensures var v := Gate(c, b, catalog);
            var now, was := StatusesOf(ReportStatuses(c), id), StatusesOf(ReportStatuses(b), id);
            && (id in v.knownFailures <==> FAIL in now && FAIL in was)
            && (id in v.newFailures <==> FAIL in now && FAIL !in was)
            && (id in v.missingChecks <==>
                  (PASS in was && PASS !in now) || (FAIL in was && FAIL !in now && PASS !in now))
            && (id in v.fixedChecks <==> FAIL in was && FAIL !in now && PASS in now)
  {
    SetsMeaning(ReportStatuses(c), ReportStatuses(b), id);
  }

  lemma SetsMeaning(c: Statuses, b: Statuses, id: Identity)
    ensures var now, was := StatusesOf(c, id), StatusesOf(b, id);
            && (id in Known(c, b) <==> FAIL in now && FAIL in was)
            && (id in New(c, b) <==> FAIL in now && FAIL !in was)
            && (id in Missing(c, b) <==>
                  (PASS in was && PASS !in now) || (FAIL in was && FAIL !in now && PASS !in now))
            && (id in Fixed(c, b) <==> FAIL in was && FAIL !in now && PASS in now)
  {}

  // The errors come from the problems, the policies and the statuses of the two reports.
  lemma ErrorsComeFrom(c: Report, b: Report, catalog: Catalog)
    ensures Gate(c, b, catalog).errors ==
            Issues(ReportProblems(c, catalog), ReportProblems(b, catalog),
                   OAuthIssues(c.automaticAuthRequired, b.automaticAuthRequired), ReportStatuses(c), ReportStatuses(b))
  {}

  // What the errors say: every problem of either report, as such;
  lemma ProblemsAreIssues(cps: seq<Problem>, bps: seq<Problem>, cAuth: Typed<bool>, bAuth: Typed<bool>,
                          cs: Statuses, bs: Statuses, p: Problem)
    ensures var errors := Issues(cps, bps, OAuthIssues(cAuth, bAuth), cs, bs);
            && (InBaseline(p) in errors <==> p in bps)
            && (InCandidate(p) in errors <==> p in cps)
  {
    ProblemIssues(bps, p);
    ProblemIssues(cps, p);
    var cIds, bIds := SortedIds(ShippingFailing(cs)), SortedIds(ShippingFailing(bs));
    InItsPart(cps, bps, OAuthIssues(cAuth, bAuth), cIds, bIds, InBaseline(p));
    InItsPart(cps, bps, OAuthIssues(cAuth, bAuth), cIds, bIds, InCandidate(p));
  }

  // an OAuth policy that is missing or differs;
  lemma PoliciesAreCompared(cps: seq<Problem>, bps: seq<Problem>, cAuth: Typed<bool>, bAuth: Typed<bool>,
                            cs: Statuses, bs: Statuses)
    ensures var errors := Issues(cps, bps, OAuthIssues(cAuth, bAuth), cs, bs);
            && (NoOAuthPolicy in errors <==> cAuth.Wrong? || bAuth.Wrong?)
            && (OAuthPoliciesDiffer in errors <==> cAuth.Is? && bAuth.Is? && cAuth.value != bAuth.value)
  {
    var cIds, bIds := SortedIds(ShippingFailing(cs)), SortedIds(ShippingFailing(bs));
    InItsPart(cps, bps, OAuthIssues(cAuth, bAuth), cIds, bIds, NoOAuthPolicy);
    InItsPart(cps, bps, OAuthIssues(cAuth, bAuth), cIds, bIds, OAuthPoliciesDiffer);
  }

  // and every shipping failure of either report, by its check.
  lemma ShippingFailuresAreIssues(cps: seq<Problem>, bps: seq<Problem>, cAuth: Typed<bool>, bAuth: Typed<bool>,
                                  cs: Statuses, bs: Statuses, checkId: string)
    ensures var errors := Issues(cps, bps, OAuthIssues(cAuth, bAuth), cs, bs);
            && (ShippingCheckFailed(checkId) in errors <==> HasShippingFailure(cs, checkId))
            && (BaselineShippingNotPassing(checkId) in errors <==> HasShippingFailure(bs, checkId))
  {
    var cIds, bIds := SortedIds(ShippingFailing(cs)), SortedIds(ShippingFailing(bs));
    ShippingFailuresAreListed(cs, checkId);
    ShippingFailuresAreListed(bs, checkId);
    ShippingIssuesMeaning(cIds, checkId);
    ShippingIssuesMeaning(bIds, checkId);
    InItsPart(cps, bps, OAuthIssues(cAuth, bAuth), cIds, bIds, ShippingCheckFailed(checkId));
    InItsPart(cps, bps, OAuthIssues(cAuth, bAuth), cIds, bIds, BaselineShippingNotPassing(checkId));
  }

  // Each kind of issue comes from one part of the list.
  lemma InItsPart(cps: seq<Problem>, bps: seq<Problem>, oauth: seq<Issue>, cIds: seq<Identity>, bIds: seq<Identity>,
                  x: Issue)
    requires forall y :: y in oauth ==> y.NoOAuthPolicy? || y.OAuthPoliciesDiffer?
    ensures x in BaselineIssues(bps) + CandidateIssues(cps) + oauth + ShippingIssues(cIds) +
                 BaselineShippingIssues(bIds) <==>
            match x
            case InBaseline(_) => x in BaselineIssues(bps)
            case InCandidate(_) => x in CandidateIssues(cps)
            case NoOAuthPolicy => x in oauth
            case OAuthPoliciesDiffer => x in oauth
            case ShippingCheckFailed(_) => x in ShippingIssues(cIds)
            case BaselineShippingNotPassing(_) => x in BaselineShippingIssues(bIds)
  {
    FiveParts(BaselineIssues(bps), CandidateIssues(cps), oauth, ShippingIssues(cIds), BaselineShippingIssues(bIds), x);
  }

  lemma FiveParts<T>(a: seq<T>, b: seq<T>, c: seq<T>, d: seq<T>, e: seq<T>, x: T)
    ensures x in a + b + c + d + e <==> x in a || x in b || x in c || x in d || x in e
  {}

  ghost predicate HasShippingFailure(m: Statuses, checkId: string) {
    exists id :: FAIL in StatusesOf(m, id) && id.mode == Shipping && id.checkId == checkId
  }

  lemma ProblemIssues(ps: seq<Problem>, p: Problem)
    ensures InBaseline(p) in BaselineIssues(ps) <==> p in ps
    ensures InCandidate(p) in CandidateIssues(ps) <==> p in ps
  {
    if p in ps {
      var i :| 0 <= i < |ps| && ps[i] == p;
      assert BaselineIssues(ps)[i] == InBaseline(p) && CandidateIssues(ps)[i] == InCandidate(p);
    }
  }

  lemma ShippingIssuesMeaning(ids: seq<Identity>, checkId: string)
    ensures ShippingCheckFailed(checkId) in ShippingIssues(ids) <==> HasCheck(ids, checkId)
    ensures BaselineShippingNotPassing(checkId) in BaselineShippingIssues(ids) <==> HasCheck(ids, checkId)
  {
    if HasCheck(ids, checkId) {
      var i :| 0 <= i < |ids| && ids[i].checkId == checkId;
      assert ShippingIssues(ids)[i] == ShippingCheckFailed(checkId);
      assert BaselineShippingIssues(ids)[i] == BaselineShippingNotPassing(checkId);
    }
  }

  ghost predicate HasCheck(ids: seq<Identity>, checkId: string) {
    exists i :: 0 <= i < |ids| && ids[i].checkId == checkId
  }

  lemma ShippingFailuresAreListed(m: Statuses, checkId: string)
    ensures HasCheck(SortedIds(ShippingFailing(m)), checkId) <==> HasShippingFailure(m, checkId)
  {
    var ids := SortedIds(ShippingFailing(m));
    if HasCheck(ids, checkId) {
      var i :| 0 <= i < |ids| && ids[i].checkId == checkId;
      assert ids[i] in ids;
    }
    if HasShippingFailure(m, checkId) {
      var id :| FAIL in StatusesOf(m, id) && id.mode == Shipping && id.checkId == checkId;
      assert id in ids;
    }
  }

  // ------------------------------------------------------------ the gate is a preorder

  // A report passes against itself exactly when it is well formed, records its OAuth
  // policy and has no shipping failure.
  lemma GateReflexive(r: Report, catalog: Catalog)
    ensures Gate(r, r, catalog).success <==>
            ReportProblems(r, catalog) == [] && r.automaticAuthRequired.Is? && NoShippingFailure(ReportStatuses(r))
  {
    GatePassesIff(r, r, catalog);
  }

  lemma NoRegressionComposes(m2: Statuses, m1: Statuses, m0: Statuses)
    requires NoRegression(m2, m1) && NoRegression(m1, m0)
    ensures NoRegression(m2, m0)
  {}

  lemma GateTransitive(c2: Report, c1: Report, c0: Report, catalog: Catalog)
    requires Gate(c2, c1, catalog).success && Gate(c1, c0, catalog).success
    ensures Gate(c2, c0, catalog).success
  {
    GatePassesIff(c2, c1, catalog);
    GatePassesIff(c1, c0, catalog);
    GatePassesIff(c2, c0, catalog);
    NoRegressionComposes(ReportStatuses(c2), ReportStatuses(c1), ReportStatuses(c0));
  }

  // Two reports pass against each other exactly when each passes against itself, they
  // share the OAuth policy and they agree on PASS and on FAIL everywhere.
  lemma GateAntisymmetric(c: Report, b: Report, catalog: Catalog)
    ensures Gate(c, b, catalog).success && Gate(b, c, catalog).success <==>
            && Gate(c, c, catalog).success && Gate(b, b, catalog).success
            && SameOAuthPolicy(c, b)
            && SameOutcomes(ReportStatuses(c), ReportStatuses(b))
  {
    GatePassesIff(c, b, catalog);
    GatePassesIff(b, c, catalog);
    GatePassesIff(c, c, catalog);
    GatePassesIff(b, b, catalog);
    MutuallyKept(ReportStatuses(c), ReportStatuses(b));
  }

  ghost predicate SameOutcomes(c: Statuses, b: Statuses) {
    forall id :: StatusesOf(c, id) - {SKIP} == StatusesOf(b, id) - {SKIP}
  }

  lemma MutuallyKept(c: Statuses, b: Statuses)
    ensures NoRegression(c, b) && NoRegression(b, c) <==> SameOutcomes(c, b)
  {
    forall id
      ensures && KeepsCheck(StatusesOf(c, id), StatusesOf(b, id))
              && KeepsCheck(StatusesOf(b, id), StatusesOf(c, id)) <==>
              StatusesOf(c, id) - {SKIP} == StatusesOf(b, id) - {SKIP}
    {
      MutuallyKeptCheck(StatusesOf(c, id), StatusesOf(b, id));
    }
  }

  lemma MutuallyKeptCheck(c: set<Status>, b: set<Status>)
    ensures KeepsCheck(c, b) && KeepsCheck(b, c) <==> c - {SKIP} == b - {SKIP}
  {
    assert PASS in c <==> PASS in c - {SKIP};
    assert FAIL in c <==> FAIL in c - {SKIP};
    assert PASS in b <==> PASS in b - {SKIP};
    assert FAIL in b <==> FAIL in b - {SKIP};
    if KeepsCheck(c, b) && KeepsCheck(b, c) {
      forall s: Status ensures s in c - {SKIP} <==> s in b - {SKIP} {
        match s case PASS => case FAIL => case SKIP =>
      }
    }
  }
}
