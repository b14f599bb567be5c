/**
  The thread-spawn graph: one incoming edge per spawned thread, and the breadth-first
  descendant listing that the SQLite store computes with a recursive query.

  A thread id is a UUID compared as fixed-width text, that is, a number.
 */
module SpawnGraph {
  import opened Ordering
  import opened Common

  type ThreadId = nat
  datatype EdgeStatus = Open | Closed
  datatype Edge = Edge(parent: ThreadId, status: EdgeStatus)
  type Edges = map<ThreadId, Edge>   // keyed by the child: at most one parent each
  type Filter = Option<EdgeStatus>

  function Upsert(edges: Edges, parent: ThreadId, child: ThreadId, status: EdgeStatus): Edges {
    edges[child := Edge(parent, status)]
  }

  function WithStatus(edges: Edges, child: ThreadId, status: EdgeStatus): Edges {
    if child in edges then edges[child := edges[child].(status := status)] else edges
  }

  predicate Matches(e: Edge, filter: Filter) { filter.None? || e.status == filter.value }

  predicate IsChild(edges: Edges, filter: Filter, parent: ThreadId, x: ThreadId) {
    x in edges && Matches(edges[x], filter) && edges[x].parent == parent
  }

  function Children(edges: Edges, filter: Filter, parent: ThreadId): set<ThreadId> {
    set x | x in edges && IsChild(edges, filter, parent, x)
  }

  // `x` lies `d` matching edges below `root`.
  predicate Below(edges: Edges, filter: Filter, root: ThreadId, x: ThreadId, d: nat)
    decreases d
  {
    d > 0 && x in edges && Matches(edges[x], filter) &&
    if d == 1 then edges[x].parent == root else Below(edges, filter, root, edges[x].parent, d - 1)
  }

  ghost predicate Descends(edges: Edges, filter: Filter, root: ThreadId, x: ThreadId) {
    exists d :: Below(edges, filter, root, x, d)
  }

  lemma {:induction false} BelowComposes(edges: Edges, filter: Filter, r: ThreadId, y: ThreadId, x: ThreadId, a: nat,
                                         b: nat)
    requires Below(edges, filter, r, y, a) && Below(edges, filter, y, x, b)
    ensures Below(edges, filter, r, x, a + b)
    decreases b
  {
    if b > 1 { BelowComposes(edges, filter, r, y, edges[x].parent, a, b - 1); }
  }

  // Parents are unique, so two climbs from one thread that end below different heights
  // pass through each other.
  lemma {:induction false} ClimbsNest(edges: Edges, filter: Filter, r: ThreadId, q: ThreadId, x: ThreadId, a: nat,
                                      b: nat)
    requires Below(edges, filter, r, x, a) && Below(edges, filter, q, x, b) && a <= b
    ensures if a == b then q == r else Below(edges, filter, q, r, b - a)
    decreases a
  {
    if a > 1 { ClimbsNest(edges, filter, r, q, edges[x].parent, a - 1, b - 1); }
  }

  // Unless the root descends from itself, every descendant has one depth.
  lemma DepthIsUnique(edges: Edges, filter: Filter, root: ThreadId, x: ThreadId, a: nat, b: nat)
    requires Below(edges, filter, root, x, a) && Below(edges, filter, root, x, b)
    requires !Descends(edges, filter, root, root)
    ensures a == b
  {
    if a <= b {
      ClimbsNest(edges, filter, root, root, x, a, b);
    } else {
      ClimbsNest(edges, filter, root, root, x, b, a);
    }
  }

  // ------------------------------------------------------------ the recursive query

  datatype Row = Row(id: ThreadId, depth: nat)
  // The rows still to be expanded and the rows already emitted.
  datatype Query = Query(queue: seq<Row>, out: seq<Row>)

  predicate IdLess(a: ThreadId, b: ThreadId) { a < b }

  lemma IdLessIsOrder()
    ensures StrictTotal(IdLess)
  {}

  function ListChildren(edges: Edges, filter: Filter, parent: ThreadId): (r: seq<ThreadId>)
    ensures Ascending(r, IdLess)
    ensures forall x :: x in r <==> IsChild(edges, filter, parent, x)
  {
    IdLessIsOrder();
    Sorted(Children(edges, filter, parent), IdLess)
  }

  function ChildRows(edges: Edges, filter: Filter, parent: ThreadId, depth: nat): seq<Row> {
    var ids := ListChildren(edges, filter, parent);
    seq(|ids|, i requires 0 <= i < |ids| => Row(ids[i], depth))
  }

  lemma ChildRowsMeaning(edges: Edges, filter: Filter, parent: ThreadId, depth: nat)
    ensures forall row :: row in ChildRows(edges, filter, parent, depth) <==>
            row.depth == depth && IsChild(edges, filter, parent, row.id)
    ensures DistinctRows(ChildRows(edges, filter, parent, depth))
  {
    var ids := ListChildren(edges, filter, parent);
    var rows := ChildRows(edges, filter, parent, depth);
    forall row: Row | row.depth == depth && row.id in ids ensures row in rows {
      var i :| 0 <= i < |ids| && ids[i] == row.id;
      assert rows[i] == row;
    }
    forall i, j | 0 <= i < j < |rows| ensures rows[i] != rows[j] { assert IdLess(ids[i], ids[j]); }
  }

  function Start(edges: Edges, filter: Filter, root: ThreadId): Query {
    Query(ChildRows(edges, filter, root, 1), [])
  }

  // Emit the oldest row and queue its children, one level deeper.
  function Expand(edges: Edges, filter: Filter, q: Query): Query
    requires q.queue != []
  {
    Query(q.queue[1..] + ChildRows(edges, filter, q.queue[0].id, q.queue[0].depth + 1), q.out + [q.queue[0]])
  }

  function After(edges: Edges, filter: Filter, root: ThreadId, n: nat): Query {
    if n == 0 then Start(edges, filter, root) else
      var q := After(edges, filter, root, n - 1);
      if q.queue == [] then q else Expand(edges, filter, q)
  }

  ghost predicate Finishes(edges: Edges, filter: Filter, root: ThreadId) {
    exists n :: After(edges, filter, root, n).queue == []
  }

  function AllRows(q: Query): seq<Row> { q.out + q.queue }

  ghost predicate DistinctRows(rows: seq<Row>) {
    forall i, j :: 0 <= i < j < |rows| ==> rows[i] != rows[j]
  }

  ghost predicate Expanded(edges: Edges, filter: Filter, parent: ThreadId, depth: nat, rows: seq<Row>) {
    forall x :: IsChild(edges, filter, parent, x) ==> Row(x, depth) in rows
  }

  ghost predicate AllBelow(edges: Edges, filter: Filter, root: ThreadId, rows: seq<Row>) {
    forall r :: r in rows ==> Below(edges, filter, root, r.id, r.depth)
  }

  ghost predicate EmittedExpanded(edges: Edges, filter: Filter, out: seq<Row>, rows: seq<Row>) {
    forall i :: 0 <= i < |out| ==> Expanded(edges, filter, out[i].id, out[i].depth + 1, rows)
  }

  // A row of the first level, or a child of a row that was emitted.
  ghost predicate HasOrigin(edges: Edges, r: Row, out: seq<Row>) {
    r.depth == 1 || (r.depth > 1 && r.id in edges && Row(edges[r.id].parent, r.depth - 1) in out)
  }

  ghost predicate AllOriginate(edges: Edges, rows: seq<Row>, out: seq<Row>) {
    forall i :: 0 <= i < |rows| ==> HasOrigin(edges, rows[i], out)
  }

  ghost predicate RowsInvariant(edges: Edges, filter: Filter, root: ThreadId, rows: seq<Row>, out: seq<Row>) {
    && AllBelow(edges, filter, root, rows)
    && DistinctRows(rows)
    && Expanded(edges, filter, root, 1, rows)
    && EmittedExpanded(edges, filter, out, rows)
    && AllOriginate(edges, rows, out)
  }

  ghost predicate QueryInvariant(edges: Edges, filter: Filter, root: ThreadId, q: Query) {
    RowsInvariant(edges, filter, root, AllRows(q), q.out)
  }

  lemma StartInvariant(edges: Edges, filter: Filter, root: ThreadId)
    ensures QueryInvariant(edges, filter, root, Start(edges, filter, root))
  {
    var rows := ChildRows(edges, filter, root, 1);
    ChildRowsMeaning(edges, filter, root, 1);
    assert AllRows(Start(edges, filter, root)) == rows;
    forall i | 0 <= i < |rows| ensures HasOrigin(edges, rows[i], []) { assert rows[i] in rows; }
  }

  lemma BelowExtends(edges: Edges, filter: Filter, root: ThreadId, rows: seq<Row>, head: Row)
    requires AllBelow(edges, filter, root, rows) && head in rows
    ensures AllBelow(edges, filter, root, rows + ChildRows(edges, filter, head.id, head.depth + 1))
  {
    var new_ := ChildRows(edges, filter, head.id, head.depth + 1);
    ChildRowsMeaning(edges, filter, head.id, head.depth + 1);
    forall r | r in rows + new_ ensures Below(edges, filter, root, r.id, r.depth) {
      if r !in rows { assert r in new_ && Below(edges, filter, root, head.id, head.depth); }
    }
  }

  // Parents are unique: a child row can only have come from this parent row.
  lemma ChildIsNew(edges: Edges, filter: Filter, rows: seq<Row>, out: seq<Row>, head: Row, r: Row)
    requires AllOriginate(edges, rows, out) && head.depth >= 1 && head !in out
    requires IsChild(edges, filter, head.id, r.id) && r.depth == head.depth + 1
    ensures r !in rows
  {
    forall i | 0 <= i < |rows| ensures rows[i] != r {
      assert HasOrigin(edges, rows[i], out);
    }
  }

  lemma OriginsExtend(edges: Edges, filter: Filter, rows: seq<Row>, out: seq<Row>, head: Row)
    requires AllOriginate(edges, rows, out) && head.depth >= 1
    ensures AllOriginate(edges, rows + ChildRows(edges, filter, head.id, head.depth + 1), out + [head])
  {
    var new_ := ChildRows(edges, filter, head.id, head.depth + 1);
    ChildRowsMeaning(edges, filter, head.id, head.depth + 1);
    var rows' := rows + new_;
    forall i | 0 <= i < |rows'| ensures HasOrigin(edges, rows'[i], out + [head]) {
      if i < |rows| {
        assert rows'[i] == rows[i] && HasOrigin(edges, rows[i], out);
      } else {
        assert rows'[i] == new_[i - |rows|] && new_[i - |rows|] in new_;
        assert head in out + [head];
      }
    }
  }

  lemma ExpandedExtends(edges: Edges, filter: Filter, out: seq<Row>, rows: seq<Row>, head: Row)
    requires EmittedExpanded(edges, filter, out, rows)
    ensures EmittedExpanded(edges, filter, out + [head], rows + ChildRows(edges, filter, head.id, head.depth + 1))
  {
    var out', rows' := out + [head], rows + ChildRows(edges, filter, head.id, head.depth + 1);
    ChildRowsMeaning(edges, filter, head.id, head.depth + 1);
    forall i | 0 <= i < |out'| ensures Expanded(edges, filter, out'[i].id, out'[i].depth + 1, rows') {
      if i < |out| {
        assert out'[i] == out[i] && Expanded(edges, filter, out[i].id, out[i].depth + 1, rows);
      }
    }
  }

  lemma DistinctExtends(a: seq<Row>, b: seq<Row>)
    requires DistinctRows(a) && DistinctRows(b) && forall j :: 0 <= j < |b| ==> b[j] !in a
    ensures DistinctRows(a + b)
  {}

  lemma HeadNotEmitted(out: seq<Row>, queue: seq<Row>)
    requires queue != [] && DistinctRows(out + queue)
    ensures queue[0] !in out && queue[0] in out + queue
  {
    assert (out + queue)[|out|] == queue[0];
    assert forall i :: 0 <= i < |out| ==> (out + queue)[i] == out[i];
  }

  lemma NewRowsDistinct(edges: Edges, filter: Filter, rows: seq<Row>, out: seq<Row>, head: Row)
    requires DistinctRows(rows) && AllOriginate(edges, rows, out) && head.depth >= 1 && head !in out
    ensures DistinctRows(rows + ChildRows(edges, filter, head.id, head.depth + 1))
  {
    var new_ := ChildRows(edges, filter, head.id, head.depth + 1);
    ChildRowsMeaning(edges, filter, head.id, head.depth + 1);
    forall j | 0 <= j < |new_| ensures new_[j] !in rows {
      assert new_[j] in new_;
      ChildIsNew(edges, filter, rows, out, head, new_[j]);
    }
    DistinctExtends(rows, new_);
  }

  lemma RootExpandedExtends(edges: Edges, filter: Filter, root: ThreadId, rows: seq<Row>, new_: seq<Row>)
    requires Expanded(edges, filter, root, 1, rows)
    ensures Expanded(edges, filter, root, 1, rows + new_)
  {}

  lemma RowsInvariantExtends(edges: Edges, filter: Filter, root: ThreadId, rows: seq<Row>, out: seq<Row>, head: Row)
    requires RowsInvariant(edges, filter, root, rows, out) && head in rows && head !in out
    ensures RowsInvariant(edges, filter, root, rows + ChildRows(edges, filter, head.id, head.depth + 1), out + [head])
  {
    assert Below(edges, filter, root, head.id, head.depth);
    BelowExtends(edges, filter, root, rows, head);
    OriginsExtend(edges, filter, rows, out, head);
    ExpandedExtends(edges, filter, out, rows, head);
    NewRowsDistinct(edges, filter, rows, out, head);
    RootExpandedExtends(edges, filter, root, rows, ChildRows(edges, filter, head.id, head.depth + 1));
  }

  lemma ExpandInvariant(edges: Edges, filter: Filter, root: ThreadId, q: Query)
    requires q.queue != [] && QueryInvariant(edges, filter, root, q)
    ensures QueryInvariant(edges, filter, root, Expand(edges, filter, q))
  {
    var head := q.queue[0];
    HeadNotEmitted(q.out, q.queue);
    RowsInvariantExtends(edges, filter, root, AllRows(q), q.out, head);
    HeadMoves(q.out, q.queue, ChildRows(edges, filter, head.id, head.depth + 1));
  }

  lemma HeadMoves(out: seq<Row>, queue: seq<Row>, new_: seq<Row>)
    requires queue != []
    ensures (out + [queue[0]]) + (queue[1..] + new_) == (out + queue) + new_
  {}

  lemma {:induction false} AfterInvariant(edges: Edges, filter: Filter, root: ThreadId, n: nat)
    ensures QueryInvariant(edges, filter, root, After(edges, filter, root, n))
  {
    if n == 0 {
      StartInvariant(edges, filter, root);
    } else {
      AfterInvariant(edges, filter, root, n - 1);
      var q := After(edges, filter, root, n - 1);
      if q.queue != [] { ExpandInvariant(edges, filter, root, q); }
    }
  }

  // When nothing is left to expand, every descendant has been emitted.
  lemma {:induction false} EmptyQueueIsComplete(edges: Edges, filter: Filter, root: ThreadId, out: seq<Row>,
                                                x: ThreadId, d: nat)
    requires Expanded(edges, filter, root, 1, out) && EmittedExpanded(edges, filter, out, out)
    requires Below(edges, filter, root, x, d)
    ensures Row(x, d) in out
    decreases d
  {
    if d == 1 {
      assert IsChild(edges, filter, root, x);
    } else {
      var p := edges[x].parent;
      EmptyQueueIsComplete(edges, filter, root, out, p, d - 1);
      var i :| 0 <= i < |out| && out[i] == Row(p, d - 1);
      assert Expanded(edges, filter, out[i].id, out[i].depth + 1, out);
      assert IsChild(edges, filter, p, x);
    }
  }
}
