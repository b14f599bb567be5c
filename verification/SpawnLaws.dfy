/**
  Laws of the spawn graph: what closing an edge does to the open listing, and which
  upserts keep the graph free of cycles.
 */
module SpawnLaws {
  import opened Ordering
  import opened Common
  import opened SpawnGraph
  import opened SpawnListing

  const OPEN: Filter := Some(Open)

  // ------------------------------------------------------------ closing an edge

  function Closing(edges: Edges, c: ThreadId): Edges { WithStatus(edges, c, Closed) }

  lemma {:induction false} ClosingRemovesOnly(edges: Edges, c: ThreadId, r: ThreadId, x: ThreadId, d: nat)
    requires Below(Closing(edges, c), OPEN, r, x, d)
    ensures Below(edges, OPEN, r, x, d) && x != c
    decreases d
  {
    if d > 1 { ClosingRemovesOnly(edges, c, r, edges[x].parent, d - 1); }
  }

  // A climb that survives does not pass the closed edge.
  lemma {:induction false} SurvivorAvoids(edges: Edges, c: ThreadId, r: ThreadId, x: ThreadId, d: nat, k: nat)
    requires Below(Closing(edges, c), OPEN, r, x, d) && k < d
    ensures !Below(edges, OPEN, c, x, k)
    decreases d
  {
    if k == 1 {
      ClosingRemovesOnly(edges, c, r, edges[x].parent, d - 1);
    } else if k > 1 {
      SurvivorAvoids(edges, c, r, edges[x].parent, d - 1, k - 1);
    }
  }

  // What does not survive hangs under the closed edge.
  lemma {:induction false} LostHangsUnder(edges: Edges, c: ThreadId, r: ThreadId, x: ThreadId, d: nat)
    requires Below(edges, OPEN, r, x, d) && !Below(Closing(edges, c), OPEN, r, x, d)
    ensures Descends(edges, OPEN, r, c) && (x == c || Descends(edges, OPEN, c, x))
    decreases d
  {
    if x != c {
      assert d > 1;
      var p := edges[x].parent;
      LostHangsUnder(edges, c, r, p, d - 1);
      if p == c {
        assert Below(edges, OPEN, c, x, 1);
      } else {
        var k: nat :| Below(edges, OPEN, c, p, k);
        assert Below(edges, OPEN, c, x, k + 1);
      }
    }
  }

  // The closed thread, if it was listed under `root`, and everything open below it.
  ghost predicate CutOff(edges: Edges, root: ThreadId, c: ThreadId, x: ThreadId) {
    Descends(edges, OPEN, root, c) && (x == c || Descends(edges, OPEN, c, x))
  }

  lemma SurvivorNotCutOff(edges: Edges, root: ThreadId, c: ThreadId, x: ThreadId, d: nat)
    requires !Descends(edges, OPEN, root, root)
    requires Below(Closing(edges, c), OPEN, root, x, d)
    ensures !CutOff(edges, root, c, x)
  {
    ClosingRemovesOnly(edges, c, root, x, d);
    if Descends(edges, OPEN, root, c) && Descends(edges, OPEN, c, x) {
      var k: nat :| Below(edges, OPEN, c, x, k);
      var h: nat :| Below(edges, OPEN, root, c, h);
      BelowComposes(edges, OPEN, root, c, x, h, k);
      DepthIsUnique(edges, OPEN, root, x, d, h + k);
      SurvivorAvoids(edges, c, root, x, d, k);
    }
  }

  lemma ClosingMeaning(edges: Edges, root: ThreadId, c: ThreadId, x: ThreadId, d: nat)
    requires !Descends(edges, OPEN, root, root)
    ensures Below(Closing(edges, c), OPEN, root, x, d) <==>
            Below(edges, OPEN, root, x, d) && !CutOff(edges, root, c, x)
  {
    if Below(Closing(edges, c), OPEN, root, x, d) {
      ClosingRemovesOnly(edges, c, root, x, d);
      SurvivorNotCutOff(edges, root, c, x, d);
    } else if Below(edges, OPEN, root, x, d) {
      LostHangsUnder(edges, c, root, x, d);
    }
  }

  // Closing one edge removes exactly the subtree under it from the open listing and keeps
  // the order of the rest.
  lemma ClosingCutsSubtree(edges: Edges, root: ThreadId, c: ThreadId, before: seq<Row>, after: seq<Row>, kept: set<Row>)
    requires !Descends(edges, OPEN, root, root)
    requires IsListing(edges, OPEN, root, before) && IsListing(Closing(edges, c), OPEN, root, after)
    requires forall r :: r in kept <==> r in before && !CutOff(edges, root, c, r.id)
    ensures after == Among(before, kept)
  {
    AmongMeaning(before, kept, RowLess);
    RowLessIsOrder();
    forall r ensures r in after <==> r in Among(before, kept) {
      ClosingMeaning(edges, root, c, r.id, r.depth);
    }
    AscendingUnique(after, Among(before, kept), RowLess);
  }

  // Without a filter, statuses do not matter.
  lemma {:induction false} StatusIsIgnored(edges: Edges, c: ThreadId, s: EdgeStatus, r: ThreadId, x: ThreadId, d: nat)
    ensures Below(WithStatus(edges, c, s), None, r, x, d) == Below(edges, None, r, x, d)
    decreases d
  {
    if d > 1 && x in edges { StatusIsIgnored(edges, c, s, r, edges[x].parent, d - 1); }
  }

  // ------------------------------------------------------------ attaching a thread

  // What an upsert does to children, under every filter.
  lemma UpsertMeaning(edges: Edges, p: ThreadId, c: ThreadId, s: EdgeStatus, filter: Filter, q: ThreadId, x: ThreadId)
    ensures IsChild(Upsert(edges, p, c, s), filter, q, x) <==>
            if x == c then q == p && (filter.None? || filter.value == s) else IsChild(edges, filter, q, x)
  {}

  // What setting a status does to children, under every filter.
  lemma StatusMeaning(edges: Edges, c: ThreadId, s: EdgeStatus, filter: Filter, q: ThreadId, x: ThreadId)
    ensures IsChild(WithStatus(edges, c, s), filter, q, x) <==>
            if x == c then IsChild(edges, None, q, c) && (filter.None? || filter.value == s)
            else IsChild(edges, filter, q, x)
  {}

  // Setting a status is an upsert under the same parent, and the last status wins: reopening
  // undoes closing.
  lemma LastStatusWins(edges: Edges, c: ThreadId, s: EdgeStatus, s': EdgeStatus)
    ensures c in edges ==> WithStatus(edges, c, s) == Upsert(edges, edges[c].parent, c, s)
    ensures c !in edges ==> WithStatus(edges, c, s) == edges
    ensures WithStatus(WithStatus(edges, c, s'), c, s) == WithStatus(edges, c, s)
    ensures c in edges && edges[c].status == s ==> WithStatus(edges, c, s) == edges
  {}

  // `x` lies `d` matching edges below `root`, none of them the edge of `c`.
  predicate Avoids(edges: Edges, filter: Filter, c: ThreadId, root: ThreadId, x: ThreadId, d: nat)
    decreases d
  {
    d > 0 && x != c && x in edges && Matches(edges[x], filter) &&
    if d == 1 then edges[x].parent == root else Avoids(edges, filter, c, root, edges[x].parent, d - 1)
  }

  ghost predicate Elsewhere(edges: Edges, filter: Filter, c: ThreadId, root: ThreadId, x: ThreadId) {
    exists d :: Avoids(edges, filter, c, root, x, d)
  }

  lemma {:induction false} AvoidingSurvives(edges: Edges, p: ThreadId, c: ThreadId, s: EdgeStatus, filter: Filter,
                                            root: ThreadId, x: ThreadId, d: nat)
    requires Avoids(edges, filter, c, root, x, d)
    ensures Below(Upsert(edges, p, c, s), filter, root, x, d)
    decreases d
  {
    if d > 1 { AvoidingSurvives(edges, p, c, s, filter, root, edges[x].parent, d - 1); }
  }

  // A climb in the new graph avoids the new edge, or reaches `c` without it first.
  lemma {:induction false} ClimbMeets(edges: Edges, p: ThreadId, c: ThreadId, s: EdgeStatus, filter: Filter,
                                      root: ThreadId, x: ThreadId, d: nat) returns (a: nat)
    requires Below(Upsert(edges, p, c, s), filter, root, x, d) && !Avoids(edges, filter, c, root, x, d)
    ensures a < d && (if a == 0 then x == c else Avoids(edges, filter, c, c, x, a))
    ensures Below(Upsert(edges, p, c, s), filter, root, c, d - a)
    decreases d
  {
    if x == c {
      a := 0;
    } else {
      assert d > 1;
      a := ClimbMeets(edges, p, c, s, filter, root, edges[x].parent, d - 1);
      a := a + 1;
    }
  }

  // From `c` the climb goes over the new edge to `p`, and from there need not come back.
  lemma {:induction false} ClimbFromNew(edges: Edges, p: ThreadId, c: ThreadId, s: EdgeStatus, filter: Filter,
                                        root: ThreadId, d: nat)
    requires Below(Upsert(edges, p, c, s), filter, root, c, d)
    ensures (filter.None? || filter.value == s) && (p == root || Elsewhere(edges, filter, c, root, p))
    decreases d
  {
    if d > 1 && !Avoids(edges, filter, c, root, p, d - 1) {
      var a := ClimbMeets(edges, p, c, s, filter, root, p, d - 1);
      ClimbFromNew(edges, p, c, s, filter, root, d - 1 - a);
    }
  }

  // What an upsert does to the descendants of any root, under any filter and with cycles or
  // not: what was reached without the child's old edge still is, and the child with all below
  // it hangs under the root exactly when its new edge matches and its new parent does.
  lemma UpsertMovesSubtree(edges: Edges, p: ThreadId, c: ThreadId, s: EdgeStatus, filter: Filter,
                           root: ThreadId, x: ThreadId)
    ensures Descends(Upsert(edges, p, c, s), filter, root, x) <==>
            || Elsewhere(edges, filter, c, root, x)
            || ((filter.None? || filter.value == s) &&
                (x == c || Elsewhere(edges, filter, c, c, x)) &&
                (p == root || Elsewhere(edges, filter, c, root, p)))
  {
    var after := Upsert(edges, p, c, s);
    if Descends(after, filter, root, x) {
      var d: nat :| Below(after, filter, root, x, d);
      if !Avoids(edges, filter, c, root, x, d) {
        var a := ClimbMeets(edges, p, c, s, filter, root, x, d);
        ClimbFromNew(edges, p, c, s, filter, root, d - a);
      }
    }
    if Elsewhere(edges, filter, c, root, x) {
      var d: nat :| Avoids(edges, filter, c, root, x, d);
      AvoidingSurvives(edges, p, c, s, filter, root, x, d);
    }
    if (filter.None? || filter.value == s) && (x == c || Elsewhere(edges, filter, c, c, x)) &&
       (p == root || Elsewhere(edges, filter, c, root, p)) {
      NewEdgeReaches(edges, p, c, s, filter, root, x);
    }
  }

  lemma NewEdgeReaches(edges: Edges, p: ThreadId, c: ThreadId, s: EdgeStatus, filter: Filter, root: ThreadId,
                       x: ThreadId)
    requires filter.None? || filter.value == s
    requires (x == c || Elsewhere(edges, filter, c, c, x)) && (p == root || Elsewhere(edges, filter, c, root, p))
    ensures Descends(Upsert(edges, p, c, s), filter, root, x)
  {
    var after := Upsert(edges, p, c, s);
    assert Below(after, filter, p, c, 1);
    var up: nat := 1;
    if p != root {
      var b: nat :| Avoids(edges, filter, c, root, p, b);
      AvoidingSurvives(edges, p, c, s, filter, root, p, b);
      BelowComposes(after, filter, root, p, c, b, 1);
      up := b + 1;
    }
    assert Below(after, filter, root, c, up);
    if x != c {
      var a: nat :| Avoids(edges, filter, c, c, x, a);
      AvoidingSurvives(edges, p, c, s, filter, c, x, a);
      BelowComposes(after, filter, root, c, x, up, a);
    }
  }

  // ------------------------------------------------------------ keeping the graph acyclic

  ghost predicate Acyclic(edges: Edges) {
    forall x :: !Descends(edges, None, x, x)
  }

  ghost predicate SameExcept(a: Edges, b: Edges, c: ThreadId) {
    forall x :: x != c ==> (x in a <==> x in b) && (x in a ==> a[x].parent == b[x].parent)
  }

  // A climb to `c` can stop at the first visit, and then never uses the edge of `c`.
  lemma {:induction false} ClimbAvoids(a: Edges, b: Edges, c: ThreadId, x: ThreadId, d: nat)
    requires SameExcept(a, b, c) && x != c && Below(a, None, c, x, d)
    ensures Descends(b, None, c, x)
    decreases d
  {
    var p := a[x].parent;
    if p == c {
      assert Below(b, None, c, x, 1);
    } else {
      ClimbAvoids(a, b, c, p, d - 1);
      var k: nat :| Below(b, None, c, p, k);
      assert Below(b, None, c, x, k + 1);
    }
  }

  // A climb either survives changing the edge of `c` or passes through `c`.
  lemma {:induction false} ClimbSplits(a: Edges, b: Edges, c: ThreadId, r: ThreadId, x: ThreadId, d: nat)
    requires SameExcept(a, b, c) && Below(a, None, r, x, d) && !Below(b, None, r, x, d)
    ensures Descends(a, None, r, c) && (x == c || Descends(a, None, c, x))
    decreases d
  {
    if x == c {
      assert Below(a, None, r, c, d);
    } else {
      var p := a[x].parent;
      assert d > 1;
      ClimbSplits(a, b, c, r, p, d - 1);
      if p == c {
        assert Below(a, None, c, x, 1);
      } else {
        var k: nat :| Below(a, None, c, p, k);
        assert Below(a, None, c, x, k + 1);
      }
    }
  }

  // After an upsert, any cycle goes through the new edge.
  lemma CycleUsesNewEdge(edges: Edges, p: ThreadId, c: ThreadId, s: EdgeStatus, x: ThreadId)
    requires Acyclic(edges) && Descends(Upsert(edges, p, c, s), None, x, x)
    ensures p == c || Descends(edges, None, c, p)
  {
    var after := Upsert(edges, p, c, s);
    var d: nat :| Below(after, None, x, x, d);
    assert !Descends(edges, None, x, x);
    ClimbSplits(after, edges, c, x, x, d);
    var h: nat :| Below(after, None, x, c, h);
    var loop := h;
    if x != c {
      var k: nat :| Below(after, None, c, x, k);
      BelowComposes(after, None, c, x, c, k, h);
      loop := k + h;
    }
    assert Below(after, None, c, c, loop);
    if p != c {
      assert loop > 1 && Below(after, None, c, p, loop - 1);
      ClimbAvoids(after, edges, c, p, loop - 1);
    }
  }

  // Upserting a parent keeps an acyclic graph acyclic exactly when the child is neither the
  // parent nor above it.
  lemma UpsertKeepsAcyclic(edges: Edges, p: ThreadId, c: ThreadId, s: EdgeStatus)
    requires Acyclic(edges)
    ensures Acyclic(Upsert(edges, p, c, s)) <==> p != c && !Descends(edges, None, c, p)
  {
    var after := Upsert(edges, p, c, s);
    if !Acyclic(after) {
      var x :| Descends(after, None, x, x);
      CycleUsesNewEdge(edges, p, c, s, x);
    }
    if p == c {
      assert Below(after, None, c, c, 1);
      assert Descends(after, None, c, c);
    } else if Descends(edges, None, c, p) {
      var k: nat :| Below(edges, None, c, p, k);
      ClimbAvoids(edges, after, c, p, k);
      var m: nat :| Below(after, None, c, p, m);
      assert Below(after, None, c, c, m + 1);
      assert Descends(after, None, c, c);
    }
  }

  // In an acyclic graph every listing ends, whatever the filter.
  lemma {:induction false} FilteredIsUnfiltered(edges: Edges, filter: Filter, r: ThreadId, x: ThreadId, d: nat)
    requires Below(edges, filter, r, x, d)
    ensures Below(edges, None, r, x, d)
    decreases d
  {
    if d > 1 { FilteredIsUnfiltered(edges, filter, r, edges[x].parent, d - 1); }
  }

  lemma AcyclicListingsEnd(edges: Edges, filter: Filter, root: ThreadId)
    requires Acyclic(edges)
    ensures !Descends(edges, filter, root, root) && Finishes(edges, filter, root)
  {
    QueryEndsIff(edges, filter, root);
    if Descends(edges, filter, root, root) {
      var d: nat :| Below(edges, filter, root, root, d);
      FilteredIsUnfiltered(edges, filter, root, root, d);
      assert Descends(edges, None, root, root);
    }
  }
}
