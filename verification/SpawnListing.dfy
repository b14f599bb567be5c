/**
  When the recursive query ends, and what it lists.
 */
module SpawnListing {
  import opened Common
  import opened Ordering
  import opened SpawnGraph

  // ------------------------------------------------------------ termination, exactly

  lemma {:induction false} DistinctIdsFit(ids: seq<ThreadId>, keys: set<ThreadId>)
    requires (forall i, j :: 0 <= i < j < |ids| ==> ids[i] != ids[j]) && forall i :: 0 <= i < |ids| ==> ids[i] in keys
    ensures |ids| <= |keys|
  {
    if ids != [] {
      var n := |ids| - 1;
      DistinctIdsFit(ids[..n], keys - {ids[n]});
    }
  }

  function Ids(rows: seq<Row>): seq<ThreadId> {
    seq(|rows|, i requires 0 <= i < |rows| => rows[i].id)
  }

  lemma IdsAreDistinct(edges: Edges, filter: Filter, root: ThreadId, rows: seq<Row>)
    requires AllBelow(edges, filter, root, rows) && DistinctRows(rows) && !Descends(edges, filter, root, root)
    ensures forall i, j :: 0 <= i < j < |rows| ==> Ids(rows)[i] != Ids(rows)[j]
  {
    forall i, j | 0 <= i < j < |rows| ensures rows[i].id != rows[j].id {
      assert rows[i] in rows && rows[j] in rows;
      if rows[i].id == rows[j].id { DepthIsUnique(edges, filter, root, rows[i].id, rows[i].depth, rows[j].depth); }
    }
  }

  lemma RowsFit(edges: Edges, filter: Filter, root: ThreadId, rows: seq<Row>)
    requires AllBelow(edges, filter, root, rows) && DistinctRows(rows) && !Descends(edges, filter, root, root)
    ensures |rows| <= |edges|
  {
    IdsAreDistinct(edges, filter, root, rows);
    forall i | 0 <= i < |rows| ensures Ids(rows)[i] in edges.Keys {
      assert rows[i] in rows;
    }
    DistinctIdsFit(Ids(rows), edges.Keys);
  }

  lemma {:induction false} OutGrows(edges: Edges, filter: Filter, root: ThreadId, n: nat)
    requires After(edges, filter, root, n).queue != []
    ensures |After(edges, filter, root, n).out| == n
  {
    if n > 0 { OutGrows(edges, filter, root, n - 1); }
  }

  lemma {:induction false} DepthsAreBounded(rows: seq<Row>) returns (bound: nat)
    ensures forall r :: r in rows ==> r.depth <= bound
  {
    bound := 0;
    if rows != [] {
      var n := |rows| - 1;
      var b := DepthsAreBounded(rows[..n]);
      bound := if b < rows[n].depth then rows[n].depth else b;
      assert rows == rows[..n] + [rows[n]];
    }
  }

  lemma {:induction false} CycleRepeats(edges: Edges, filter: Filter, root: ThreadId, loop: nat, k: nat)
    returns (d: nat)
    requires Below(edges, filter, root, root, loop)
    ensures Below(edges, filter, root, root, d) && d > k
  {
    if k == 0 {
      d := loop;
    } else {
      d := CycleRepeats(edges, filter, root, loop, k - 1);
      BelowComposes(edges, filter, root, root, root, d, loop);
      d := d + loop;
    }
  }

  lemma EndedQueryIsComplete(edges: Edges, filter: Filter, root: ThreadId, n: nat, x: ThreadId, d: nat)
    requires After(edges, filter, root, n).queue == [] && Below(edges, filter, root, x, d)
    ensures Row(x, d) in After(edges, filter, root, n).out
  {
    AfterInvariant(edges, filter, root, n);
    var q := After(edges, filter, root, n);
    assert AllRows(q) == q.out;
    EmptyQueueIsComplete(edges, filter, root, q.out, x, d);
  }

  lemma EndsWithoutCycle(edges: Edges, filter: Filter, root: ThreadId)
    requires !Descends(edges, filter, root, root)
    ensures After(edges, filter, root, |edges|).queue == []
  {
    var q := After(edges, filter, root, |edges|);
    AfterInvariant(edges, filter, root, |edges|);
    RowsFit(edges, filter, root, AllRows(q));
    if q.queue != [] { OutGrows(edges, filter, root, |edges|); }
  }

  // The recursive query ends exactly when the root is not its own matching descendant, and
  // then within as many rows as there are edges.
  lemma QueryEndsIff(edges: Edges, filter: Filter, root: ThreadId)
    ensures Finishes(edges, filter, root) <==> !Descends(edges, filter, root, root)
  {
    if !Descends(edges, filter, root, root) {
      EndsWithoutCycle(edges, filter, root);
    } else if Finishes(edges, filter, root) {
      var n: nat :| After(edges, filter, root, n).queue == [];
      var loop: nat :| Below(edges, filter, root, root, loop);
      var bound := DepthsAreBounded(After(edges, filter, root, n).out);
      var d := CycleRepeats(edges, filter, root, loop, bound);
      EndedQueryIsComplete(edges, filter, root, n, root, d);
    }
  }

  // The smallest store on which it does not: a thread recorded as its own parent.
  lemma SelfEdgeNeverEnds(t: ThreadId, status: EdgeStatus)
    ensures !Finishes(Upsert(map[], t, t, status), None, t)
  {
    var edges := Upsert(map[], t, t, status);
    assert Below(edges, None, t, t, 1);
    QueryEndsIff(edges, None, t);
  }

  // ------------------------------------------------------------ the listing

  predicate RowLess(a: Row, b: Row) { a.depth < b.depth || (a.depth == b.depth && a.id < b.id) }

  lemma RowLessIsOrder()
    ensures StrictTotal(RowLess)
  {}

  // Exactly the matching descendants, strictly ordered by depth and then thread id.
  ghost predicate IsListing(edges: Edges, filter: Filter, root: ThreadId, rows: seq<Row>) {
    Ascending(rows, RowLess) && forall r :: r in rows <==> Below(edges, filter, root, r.id, r.depth)
  }

  // The ids of the listing, in its order.
  ghost predicate ListsIds(edges: Edges, filter: Filter, root: ThreadId, ids: seq<ThreadId>) {
    exists rows :: IsListing(edges, filter, root, rows) && ids == Ids(rows)
  }

  lemma ListingIsUnique(edges: Edges, filter: Filter, root: ThreadId, a: seq<Row>, b: seq<Row>)
    requires IsListing(edges, filter, root, a) && IsListing(edges, filter, root, b)
    ensures a == b
  {
    RowLessIsOrder();
    AscendingUnique(a, b, RowLess);
  }

  // Each descendant is listed once.
  lemma ListedOnce(edges: Edges, filter: Filter, root: ThreadId, rows: seq<Row>)
    requires IsListing(edges, filter, root, rows) && !Descends(edges, filter, root, root)
    ensures forall i, j :: 0 <= i < j < |rows| ==> Ids(rows)[i] != Ids(rows)[j]
    ensures forall x :: x in Ids(rows) <==> Descends(edges, filter, root, x)
  {
    IdsAreDistinct(edges, filter, root, rows);
    forall x ensures x in Ids(rows) <==> Descends(edges, filter, root, x) {
      if x in Ids(rows) {
        var i :| 0 <= i < |rows| && rows[i].id == x;
        assert rows[i] in rows;
      }
      if Descends(edges, filter, root, x) {
        var d: nat :| Below(edges, filter, root, x, d);
        var i :| 0 <= i < |rows| && rows[i] == Row(x, d);
        assert Ids(rows)[i] == x;
      }
    }
  }

  function OrderedRows(out: seq<Row>): (r: seq<Row>)
    ensures Ascending(r, RowLess) && forall x :: x in r <==> x in out
  {
    RowLessIsOrder();
    Sorted((set x | x in out), RowLess)
  }

  class AgentGraphStore {
    var edges: Edges

    constructor ()
      ensures edges == map[]
    {
      edges := map[];
    }

    method UpsertEdge(parent: ThreadId, child: ThreadId, status: EdgeStatus)
      modifies this
      ensures edges == Upsert(old(edges), parent, child, status)
    {
      edges := edges[child := Edge(parent, status)];
    }

    method SetEdgeStatus(child: ThreadId, status: EdgeStatus)
      modifies this
      ensures edges == WithStatus(old(edges), child, status)
    {
      if child in edges { edges := edges[child := Edge(edges[child].parent, status)]; }
    }

    method ListDescendants(root: ThreadId, filter: Filter) returns (ids: seq<ThreadId>)
      requires !Descends(edges, filter, root, root)
      ensures ListsIds(edges, filter, root, ids)
    {
      var q := Start(edges, filter, root);
      StartInvariant(edges, filter, root);
      while q.queue != []
        invariant QueryInvariant(edges, filter, root, q)
        decreases |edges| - |q.out|
      {
        RowsFit(edges, filter, root, AllRows(q));
        ExpandInvariant(edges, filter, root, q);
        var head := q.queue[0];
        q := Query(q.queue[1..] + ChildRows(edges, filter, head.id, head.depth + 1), q.out + [head]);
      }
      var ordered := OrderedRows(q.out);
      ids := Ids(ordered);
      EndedIsListing(edges, filter, root, q);
    }
  }

  lemma EndedIsListing(edges: Edges, filter: Filter, root: ThreadId, q: Query)
    requires QueryInvariant(edges, filter, root, q) && q.queue == []
    ensures IsListing(edges, filter, root, OrderedRows(q.out))
  {
    assert AllRows(q) == q.out;
    forall r ensures r in q.out <==> Below(edges, filter, root, r.id, r.depth) {
      if Below(edges, filter, root, r.id, r.depth) { EmptyQueueIsComplete(edges, filter, root, q.out, r.id, r.depth); }
    }
  }
}
