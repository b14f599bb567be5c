/**
  The regression gate: a candidate report compared with a baseline report.
 */
module RegressionGate {
  import opened Common
  import opened Ordering
  import opened RegressionReport
  import opened RegressionReader

  // ------------------------------------------------------------ identity order

  function ModeRank(m: Mode): nat {
    match m case Shipping => 0 case Legacy => 1 case Modern => 2
  }

  function SourceRank(s: Source): nat {
    match s case Harness => 0 case Official => 1 case Supplemental => 2
  }

  // Alphabetical on the two transports that occur in identities.
  predicate TransportLess(a: Transport, b: Transport) {
    match (a, b)
    case (OfficialHttp, _) => b != OfficialHttp
    case (Stdio, _) => b.OtherTransport?
    case (OtherTransport(x), OtherTransport(y)) => StringLess(x, y)
    case (OtherTransport(_), _) => false
  }

  // Field by field, as a frozen ordered dataclass compares.
  predicate IdLess(a: Identity, b: Identity) {
    if a.mode != b.mode then ModeRank(a.mode) < ModeRank(b.mode)
    else if a.transport != b.transport then TransportLess(a.transport, b.transport)
    else if a.source != b.source then SourceRank(a.source) < SourceRank(b.source)
    else if a.scenario != b.scenario then StringLess(a.scenario, b.scenario)
    else StringLess(a.checkId, b.checkId)
  }

  lemma TransportLessLaws(a: Transport, b: Transport, c: Transport)
    ensures !TransportLess(a, a)
    ensures TransportLess(a, b) && TransportLess(b, c) ==> TransportLess(a, c)
    ensures a != b ==> TransportLess(a, b) || TransportLess(b, a)
  {
    if a.OtherTransport? { StringLessIrreflexive(a.name); }
    if a.OtherTransport? && b.OtherTransport? && a != b { StringLessConnected(a.name, b.name); }
    if a.OtherTransport? && b.OtherTransport? && c.OtherTransport? && TransportLess(a, b) && TransportLess(b, c) {
      StringLessTransitive(a.name, b.name, c.name);
    }
  }

  lemma IdLessLaws(a: Identity, b: Identity)
    ensures !IdLess(a, a)
    ensures a != b ==> IdLess(a, b) || IdLess(b, a)
  {
    StringLessIrreflexive(a.checkId);
    TransportLessLaws(a.transport, b.transport, b.transport);
    if a.scenario != b.scenario { StringLessConnected(a.scenario, b.scenario); }
    if a.checkId != b.checkId { StringLessConnected(a.checkId, b.checkId); }
  }

  lemma IdLessTransitive(a: Identity, b: Identity, c: Identity)
    requires IdLess(a, b) && IdLess(b, c)
    ensures IdLess(a, c)
  {
    TransportLessLaws(a.transport, b.transport, c.transport);
    TransportLessLaws(b.transport, c.transport, b.transport);
    TransportLessLaws(b.transport, a.transport, b.transport);
    StringLessIrreflexive(a.scenario);
    StringLessIrreflexive(b.scenario);
    if StringLess(a.scenario, b.scenario) && StringLess(b.scenario, c.scenario) {
      StringLessTransitive(a.scenario, b.scenario, c.scenario);
    }
    if StringLess(a.checkId, b.checkId) && StringLess(b.checkId, c.checkId) {
      StringLessTransitive(a.checkId, b.checkId, c.checkId);
    }
  }

  lemma IdLessIsOrder()
    ensures StrictTotal(IdLess)
  {
    forall a ensures !IdLess(a, a) { IdLessLaws(a, a); }
    forall a, b, c | IdLess(a, b) && IdLess(b, c) ensures IdLess(a, c) { IdLessTransitive(a, b, c); }
    forall a, b | a != b ensures IdLess(a, b) || IdLess(b, a) { IdLessLaws(a, b); }
  }

  function SortedIds(s: set<Identity>): (r: seq<Identity>)
    ensures forall id :: id in r <==> id in s
    ensures Ascending(r, IdLess)
  {
    IdLessIsOrder();
    Sorted(s, IdLess)
  }

  lemma AmongSortedIds(keys: set<Identity>, chosen: set<Identity>)
    requires chosen <= keys
    ensures Among(SortedIds(keys), chosen) == SortedIds(chosen)
  {
    IdLessIsOrder();
    AmongSorted(SortedIds(keys), chosen, IdLess);
  }

  // ------------------------------------------------------------ the comparison

  datatype Issue =
    | InBaseline(problem: Problem)
    | InCandidate(problem: Problem)
    | NoOAuthPolicy
    | OAuthPoliciesDiffer
    | ShippingCheckFailed(checkId: string)
    | BaselineShippingNotPassing(checkId: string)

  datatype Verdict = Verdict(
    success: bool, errors: seq<Issue>,
    newFailures: seq<Identity>, missingChecks: seq<Identity>,
    knownFailures: seq<Identity>, fixedChecks: seq<Identity>)

  function Failing(m: Statuses): set<Identity> {
    set id | id in m && FAIL in m[id]
  }

  function ShippingFailing(m: Statuses): set<Identity> {
    set id | id in m && FAIL in m[id] && id.mode == Shipping
  }

  function Known(c: Statuses, b: Statuses): set<Identity> {
    set id | id in c && FAIL in c[id] && FAIL in StatusesOf(b, id)
  }

  function New(c: Statuses, b: Statuses): set<Identity> {
    set id | id in c && FAIL in c[id] && FAIL !in StatusesOf(b, id)
  }

  // A pass that is no longer there, or a failure that is neither failing nor passing any more.
  function Missing(c: Statuses, b: Statuses): set<Identity> {
    set id | id in b && (|| (PASS in b[id] && PASS !in StatusesOf(c, id))
                         || (FAIL in b[id] && PASS !in StatusesOf(c, id) && FAIL !in StatusesOf(c, id)))
  }

  function Fixed(c: Statuses, b: Statuses): set<Identity> {
    set id | id in b && FAIL in b[id] && FAIL !in StatusesOf(c, id) && PASS in StatusesOf(c, id)
  }

  function OAuthIssues(c: Typed<bool>, b: Typed<bool>): seq<Issue> {
    if b.Wrong? || c.Wrong? then [NoOAuthPolicy] else if b != c then [OAuthPoliciesDiffer] else []
  }

  function BaselineIssues(ps: seq<Problem>): (r: seq<Issue>)
    ensures |r| == |ps|
  {
    seq(|ps|, i requires 0 <= i < |ps| => InBaseline(ps[i]))
  }

  function CandidateIssues(ps: seq<Problem>): (r: seq<Issue>)
    ensures |r| == |ps|
  {
    seq(|ps|, i requires 0 <= i < |ps| => InCandidate(ps[i]))
  }

  function ShippingIssues(ids: seq<Identity>): (r: seq<Issue>)
    ensures |r| == |ids|
  {
    seq(|ids|, i requires 0 <= i < |ids| => ShippingCheckFailed(ids[i].checkId))
  }

  function BaselineShippingIssues(ids: seq<Identity>): (r: seq<Issue>)
    ensures |r| == |ids|
  {
    seq(|ids|, i requires 0 <= i < |ids| => BaselineShippingNotPassing(ids[i].checkId))
  }

  function Issues(cps: seq<Problem>, bps: seq<Problem>, oauth: seq<Issue>, cs: Statuses, bs: Statuses): seq<Issue> {
    BaselineIssues(bps) + CandidateIssues(cps) + oauth +
    ShippingIssues(SortedIds(ShippingFailing(cs))) + BaselineShippingIssues(SortedIds(ShippingFailing(bs)))
  }

  function GateIssues(c: Report, b: Report, catalog: Catalog): seq<Issue> {
    Issues(ReportProblems(c, catalog), ReportProblems(b, catalog),
           OAuthIssues(c.automaticAuthRequired, b.automaticAuthRequired), ReportStatuses(c), ReportStatuses(b))
  }

  function Gate(c: Report, b: Report, catalog: Catalog): Verdict {
    var cs, bs := ReportStatuses(c), ReportStatuses(b);
    var issues := GateIssues(c, b, catalog);
    Verdict(issues == [] && New(cs, bs) == {} && Missing(cs, bs) == {}, issues,
            SortedIds(New(cs, bs)), SortedIds(Missing(cs, bs)), SortedIds(Known(cs, bs)), SortedIds(Fixed(cs, bs)))
  }

  // The loop over the candidate: split its failures into known and new ones.
  method SplitFailures(cs: Statuses, bs: Statuses, keys: seq<Identity>)
    returns (known: seq<Identity>, new_: seq<Identity>, errors: seq<Issue>)
    requires forall id :: id in keys ==> id in cs
    ensures known == Among(keys, Known(cs, bs))
    ensures new_ == Among(keys, New(cs, bs))
    ensures errors == ShippingIssues(Among(keys, ShippingFailing(cs)))
  {
    known, new_, errors := [], [], [];
    ghost var shipping: seq<Identity> := [];
    for i := 0 to |keys|
      invariant known == Among(keys[..i], Known(cs, bs))
      invariant new_ == Among(keys[..i], New(cs, bs))
      invariant shipping == Among(keys[..i], ShippingFailing(cs))
      invariant errors == ShippingIssues(shipping)
    {
      var id := keys[i];
      assert keys[..i + 1][..i] == keys[..i];
      if FAIL !in cs[id] { continue; }
      if id.mode == Shipping {
        errors := errors + [ShippingCheckFailed(id.checkId)];
        shipping := shipping + [id];
      }
      if FAIL in StatusesOf(bs, id) {
        known := known + [id];
      } else {
        new_ := new_ + [id];
      }
    }
    assert keys[..|keys|] == keys;
  }

  // The loop over the baseline: what disappeared and what was fixed.
  method SplitBaseline(cs: Statuses, bs: Statuses, keys: seq<Identity>)
    returns (missing: seq<Identity>, fixed: seq<Identity>, errors: seq<Issue>)
    requires forall id :: id in keys ==> id in bs
    ensures missing == Among(keys, Missing(cs, bs))
    ensures fixed == Among(keys, Fixed(cs, bs))
    ensures errors == BaselineShippingIssues(Among(keys, ShippingFailing(bs)))
  {
    missing, fixed, errors := [], [], [];
    ghost var shipping: seq<Identity> := [];
    for i := 0 to |keys|
      invariant missing == Among(keys[..i], Missing(cs, bs))
      invariant fixed == Among(keys[..i], Fixed(cs, bs))
      invariant shipping == Among(keys[..i], ShippingFailing(bs))
      invariant errors == BaselineShippingIssues(shipping)
    {
      var id := keys[i];
      assert keys[..i + 1][..i] == keys[..i];
      var candidate := StatusesOf(cs, id);
      if id.mode == Shipping && FAIL in bs[id] {
        errors := errors + [BaselineShippingNotPassing(id.checkId)];
        shipping := shipping + [id];
      }
      if PASS in bs[id] && PASS !in candidate {
        missing := missing + [id];
      } else if FAIL in bs[id] && FAIL !in candidate && PASS !in candidate {
        missing := missing + [id];
      } else if FAIL in bs[id] && FAIL !in candidate {
        fixed := fixed + [id];
      }
    }
    assert keys[..|keys|] == keys;
  }

  lemma NoneSorted(s: set<Identity>)
    ensures SortedIds(s) == [] <==> s == {}
  {
    if s != {} { var id :| id in s; assert id in SortedIds(s); }
  }

  method EvaluateGate(candidate: Report, baseline: Report, catalog: Catalog) returns (v: Verdict)
    ensures v == Gate(candidate, baseline, catalog)
  {
    var bs, baselineProblems := RequiredChecks(baseline, catalog);
    var cs, candidateProblems := RequiredChecks(candidate, catalog);
    var errors := BaselineIssues(baselineProblems) + CandidateIssues(candidateProblems) +
      OAuthIssues(candidate.automaticAuthRequired, baseline.automaticAuthRequired);
    var known, new_, shipping := SplitFailures(cs, bs, SortedIds(cs.Keys));
    var missing, fixed, baselineShipping := SplitBaseline(cs, bs, SortedIds(bs.Keys));
    AmongSortedIds(cs.Keys, Known(cs, bs));
    AmongSortedIds(cs.Keys, New(cs, bs));
    AmongSortedIds(cs.Keys, ShippingFailing(cs));
    AmongSortedIds(bs.Keys, Missing(cs, bs));
    AmongSortedIds(bs.Keys, Fixed(cs, bs));
    AmongSortedIds(bs.Keys, ShippingFailing(bs));
    NoneSorted(New(cs, bs));
    NoneSorted(Missing(cs, bs));
    errors := errors + shipping + baselineShipping;
    v := Verdict(errors == [] && new_ == [] && missing == [], errors, new_, missing, known, fixed);
  }
}
