/**
  The review gate and its compact baseline.
 */
module ReviewGate {
  import opened Ordering
  import opened ReviewReport
  import opened ReviewReader

  predicate ReviewIdLess(a: ReviewId, b: ReviewId) {
    if (a.mode, a.transport) != (b.mode, b.transport) then CaseNameLess((a.mode, a.transport), (b.mode, b.transport))
    else StringLess(a.checkId, b.checkId)
  }

  lemma ReviewIdLessTransitive(a: ReviewId, b: ReviewId, c: ReviewId)
    requires ReviewIdLess(a, b) && ReviewIdLess(b, c)
    ensures ReviewIdLess(a, c)
  {
    var x, y, z := (a.mode, a.transport), (b.mode, b.transport), (c.mode, c.transport);
    if x == y == z {
      StringLessTransitive(a.checkId, b.checkId, c.checkId);
    } else if x != y && y != z {
      CaseNameLessTransitive(x, y, z);
      CaseNameLessIrreflexive(x);
    }
  }

  lemma ReviewIdLessIsOrder()
    ensures StrictTotal(ReviewIdLess)
  {
    forall x ensures !ReviewIdLess(x, x) { StringLessIrreflexive(x.checkId); }
    forall x, y, z | ReviewIdLess(x, y) && ReviewIdLess(y, z) ensures ReviewIdLess(x, z) {
      ReviewIdLessTransitive(x, y, z);
    }
    forall x: ReviewId, y: ReviewId | x != y ensures ReviewIdLess(x, y) || ReviewIdLess(y, x) {
      CaseNameLessIsOrder();
      if x.checkId != y.checkId { StringLessConnected(x.checkId, y.checkId); }
    }
  }

  function SortedReviewIds(s: set<ReviewId>): (r: seq<ReviewId>)
    ensures forall x :: x in r <==> x in s
    ensures Ascending(r, ReviewIdLess)
  {
    ReviewIdLessIsOrder();
    Sorted(s, ReviewIdLess)
  }

  lemma AmongSortedReviewIds(keys: set<ReviewId>, chosen: set<ReviewId>)
    requires chosen <= keys
    ensures Among(SortedReviewIds(keys), chosen) == SortedReviewIds(chosen)
    ensures SortedReviewIds(chosen) == [] <==> chosen == {}
  {
    ReviewIdLessIsOrder();
    AmongSorted(SortedReviewIds(keys), chosen, ReviewIdLess);
    if chosen != {} { var x :| x in chosen; assert x in SortedReviewIds(chosen); }
  }

  datatype ReviewVerdict = ReviewVerdict(
    success: bool, baselineErrors: seq<ReviewProblem>, candidateErrors: seq<ReviewProblem>,
    knownFailures: seq<ReviewId>, newFailures: seq<ReviewId>, missingChecks: seq<ReviewId>, fixedChecks: seq<ReviewId>)

  function KnownIds(c: Outcomes, b: Outcomes): set<ReviewId> { set id | id in c && !c[id] && id in b && !b[id] }
  function NewIds(c: Outcomes, b: Outcomes): set<ReviewId> { set id | id in c && !c[id] && !(id in b && !b[id]) }
  function MissingIds(c: Outcomes, b: Outcomes): set<ReviewId> { set id | id in b && id !in c }
  function FixedIds(c: Outcomes, b: Outcomes): set<ReviewId> { set id | id in b && id in c && !b[id] && c[id] }

  function Gate(c: ReviewReport, b: ReviewReport, expected: set<CaseName>): ReviewVerdict {
    var cr, br := Read(c, expected), Read(b, expected);
    var cs, bs := cr.outcomes, br.outcomes;
    ReviewVerdict(br.problems == [] && cr.problems == [] && NewIds(cs, bs) == {} && MissingIds(cs, bs) == {},
                  br.problems, cr.problems, SortedReviewIds(KnownIds(cs, bs)), SortedReviewIds(NewIds(cs, bs)),
                  SortedReviewIds(MissingIds(cs, bs)), SortedReviewIds(FixedIds(cs, bs)))
  }

  method SplitReviewFailures(cs: Outcomes, bs: Outcomes, keys: seq<ReviewId>)
    returns (known: seq<ReviewId>, new_: seq<ReviewId>)
    requires forall id :: id in keys ==> id in cs
    ensures known == Among(keys, KnownIds(cs, bs)) && new_ == Among(keys, NewIds(cs, bs))
  {
    known, new_ := [], [];
    for i := 0 to |keys|
      invariant known == Among(keys[..i], KnownIds(cs, bs)) && new_ == Among(keys[..i], NewIds(cs, bs))
    {
      assert keys[..i + 1][..i] == keys[..i];
      var id := keys[i];
      if cs[id] { continue; }
      if id in bs && !bs[id] { known := known + [id]; } else { new_ := new_ + [id]; }
    }
    assert keys[..|keys|] == keys;
  }

  method SplitReviewBaseline(cs: Outcomes, bs: Outcomes, keys: seq<ReviewId>)
    returns (missing: seq<ReviewId>, fixed: seq<ReviewId>)
    requires forall id :: id in keys ==> id in bs
    ensures missing == Among(keys, MissingIds(cs, bs)) && fixed == Among(keys, FixedIds(cs, bs))
  {
    missing, fixed := [], [];
    for i := 0 to |keys|
      invariant missing == Among(keys[..i], MissingIds(cs, bs)) && fixed == Among(keys[..i], FixedIds(cs, bs))
    {
      assert keys[..i + 1][..i] == keys[..i];
      var id := keys[i];
      if id !in cs { missing := missing + [id]; } else if !bs[id] && cs[id] { fixed := fixed + [id]; }
    }
    assert keys[..|keys|] == keys;
  }

  method EvaluateReviewGate(candidate: ReviewReport, baseline: ReviewReport, expected: set<CaseName>)
    returns (v: ReviewVerdict)
    ensures v == Gate(candidate, baseline, expected)
  {
    var br := RequiredReviewChecks(baseline, expected);
    var cr := RequiredReviewChecks(candidate, expected);
    var cs, bs := cr.outcomes, br.outcomes;
    var known, new_ := SplitReviewFailures(cs, bs, SortedReviewIds(cs.Keys));
    var missing, fixed := SplitReviewBaseline(cs, bs, SortedReviewIds(bs.Keys));
    AmongSortedReviewIds(cs.Keys, KnownIds(cs, bs));
    AmongSortedReviewIds(cs.Keys, NewIds(cs, bs));
    AmongSortedReviewIds(bs.Keys, MissingIds(cs, bs));
    AmongSortedReviewIds(bs.Keys, FixedIds(cs, bs));
    v := ReviewVerdict(br.problems == [] && cr.problems == [] && new_ == [] && missing == [],
                       br.problems, cr.problems, known, new_, missing, fixed);
  }
}
