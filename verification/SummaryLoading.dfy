/** One-to-many and named eager loading of ActionSummary edges (ent/gen/ent/actionsummary_query.go,
    loadActionData, loadRunnerCount, loadActionCacheStatistics and loadMetrics;
    ent/gen/ent/actionsummary.go, the accessors). */
module SummaryLoading {
  import opened Wrappers
  import opened EdgeQueries
  import opened OrderedSets
  import opened ChildPages
  import opened Pages
  import opened Scanning
  import SummaryScan

  /** A row of a child table; its foreign key column may be NULL. */
  datatype ChildRow = ChildRow(id: int, fk: Option<int>, data: string)

  /** The edges of a summary that are filled from child tables, plain and named. */
  datatype ChildEdge =
    | ActionData | RunnerCount | ActionCacheStatistics
    | NamedActionData(name: string) | NamedRunnerCount(name: string)

  datatype MetricsError = UnexpectedMetrics(id: int)

  datatype ChildError = NilForeignKey(id: int) | UnexpectedForeignKey(fk: int, id: int)

  /** The builder of a child query: the rows its own predicates let through in its order, the
      foreign key filters added so far, offset and limit, and whether keys are scanned. */
  datatype ChildQuery = ChildQuery(visible: seq<ChildRow>, filters: seq<seq<int>>, offset: nat, limit: nat, withFKs: bool) {
    predicate Passes(row: ChildRow) {
      forall f :: f in filters ==> row.fk.Some? && row.fk.value in f
    }

    function All(): seq<Child> {
      Page(Filtered(visible), offset, limit)
    }

    function Filtered(rows: seq<ChildRow>): seq<Child> {
      if rows == [] then []
      else if Passes(rows[0]) then
        [Child(rows[0].id, if withFKs then rows[0].fk else None, rows[0].data)] + Filtered(rows[1..])
      else Filtered(rows[1..])
    }

    /** What a load function does to the builder before running it. */
    function Restricted(fks: seq<int>): ChildQuery {
      this.(withFKs := true, filters := filters + [fks])
    }
  }

  function Passing(query: ChildQuery): ChildRow -> bool {
    (row: ChildRow) => query.Passes(row)
  }

  /** The child shows the row: its id, its data and, if keys are scanned, its key. */
  predicate Shows(query: ChildQuery, c: Child, row: ChildRow) {
    c.id == row.id && c.data == row.data && c.fk == if query.withFKs then row.fk else None
  }

  /** The children are the rows that pass, in order. */
  lemma {:induction false} FilteredExact(query: ChildQuery, rows: seq<ChildRow>)
    ensures
      var kept, children := Keep(rows, Passing(query)), query.Filtered(rows);
      |children| == |kept| && forall i :: 0 <= i < |kept| ==> Shows(query, children[i], kept[i])
  {
    if rows != [] {
      assert rows == [rows[0]] + rows[1..];
      KeepCons(rows[0], rows[1..], Passing(query));
      FilteredExact(query, rows[1..]);
    }
  }

  lemma {:induction false} FilteredKeys(query: ChildQuery, rows: seq<ChildRow>, fks: seq<int>)
    requires query.withFKs && fks in query.filters
    ensures forall c :: c in query.Filtered(rows) ==> c.fk.Some? && c.fk.value in fks
  {
    if rows != [] {
      FilteredKeys(query, rows[1..], fks);
    }
  }

  /** With the key scanned and filtered for, neither error of a load function can happen. */
  lemma AllKeys(query: ChildQuery, fks: seq<int>)
    ensures forall c :: c in query.Restricted(fks).All() ==> c.fk.Some? && c.fk.value in fks
  {
    var q := query.Restricted(fks);
    assert q.filters[|q.filters| - 1] == fks;
    FilteredKeys(q, query.visible, fks);
    PageMembers(q.Filtered(q.visible), q.offset, q.limit);
  }

  /** The last position of an id: a map from id to node keeps the last one written. */
  function LastIndex(ids: seq<int>, id: int): (i: nat)
    requires id in ids
    ensures i < |ids| && ids[i] == id && forall j :: i < j < |ids| ==> ids[j] != id
  {
    if ids[|ids| - 1] == id then |ids| - 1 else LastIndex(ids[..|ids| - 1], id)
  }

  /** The children that end up at node i. */
  function Share(children: seq<Child>, ids: seq<int>, i: nat): seq<Child>
    requires i < |ids|
  {
    if LastIndex(ids, ids[i]) == i then ChildrenOf(children, ids[i]) else []
  }

  type Edges = map<ChildEdge, seq<Child>>

  /** The edge slots after one loader: list edges are initialised to an empty list and appended
      to; the one-to-one edge is a pointer, overwritten by each child and nil without any. */
  function Collect(edges: Edges, k: ChildEdge, children: seq<Child>): Edges {
    if !k.ActionCacheStatistics? then edges[k := children]
    else if children == [] then edges
    else edges[k := [children[|children| - 1]]]
  }

  function Assigned(edges: Edges, k: ChildEdge, c: Child): Edges {
    edges[k := if k in edges && !k.ActionCacheStatistics? then edges[k] + [c] else [c]]
  }

  class ActionSummary {
    const fields: SummaryScan.Fields
    const id := fields.id
    const metricsFk := fields.metricsFk
    var metrics: Option<Entity>
    var edges: Edges

    constructor (fields: SummaryScan.Fields)
      ensures this.fields == fields && metrics.None? && edges == map[]
    {
      this.fields, metrics, edges := fields, None, map[];
    }

    /** The init closures: a list edge, plain or named, starts as an empty list. */
    method Init(k: ChildEdge)
      modifies `edges
      ensures edges == Collect(old(edges), k, [])
    {
      if !k.ActionCacheStatistics? {
        edges := edges[k := []];
      }
    }

    /** The assign closures. */
    method Assign(k: ChildEdge, c: Child)
      modifies `edges
      ensures edges == Assigned(old(edges), k, c)
    {
      if k in edges && !k.ActionCacheStatistics? {
        edges := edges[k := edges[k] + [c]];
      } else {
        edges := edges[k := [c]];
      }
    }
  }

  ghost predicate DistinctSummaries(nodes: seq<ActionSummary>) {
    forall i, j :: 0 <= i < j < |nodes| ==> nodes[i] != nodes[j]
  }

  ghost function IdsOf(nodes: seq<ActionSummary>): seq<int> {
    seq(|nodes|, i requires 0 <= i < |nodes| => nodes[i].id)
  }

  /** The map from id to node keeps the last node of each id seen so far. */
  ghost predicate Indexed(nodes: seq<ActionSummary>, seen: seq<int>, nodeids: map<int, ActionSummary>)
    requires |seen| <= |nodes|
  {
    && (forall id :: id in nodeids <==> id in seen)
    && (forall id :: id in nodeids ==> nodeids[id] == nodes[LastIndex(seen, id)])
  }

  lemma IndexedNext(nodes: seq<ActionSummary>, seen: seq<int>, nodeids: map<int, ActionSummary>, id: int)
    requires |seen| < |nodes| && Indexed(nodes, seen, nodeids)
    ensures Indexed(nodes, seen + [id], nodeids[id := nodes[|seen|]])
  {
    assert (seen + [id])[..|seen|] == seen;
  }

  /** The first loop of a load function: collect the ids, index and initialise the nodes. */
  method Prepare(nodes: seq<ActionSummary>, k: ChildEdge) returns (fks: seq<int>, nodeids: map<int, ActionSummary>)
    requires DistinctSummaries(nodes)
    modifies nodes`edges
    ensures fks == IdsOf(nodes) && Indexed(nodes, fks, nodeids)
    ensures forall i :: 0 <= i < |nodes| ==> nodes[i].edges == Collect(old(nodes[i].edges), k, [])
  {
    fks, nodeids := [], map[];
    for i := 0 to |nodes|
      invariant |fks| == i && forall j :: 0 <= j < i ==> fks[j] == nodes[j].id
      invariant Indexed(nodes, fks, nodeids)
      invariant forall j :: 0 <= j < i ==> nodes[j].edges == Collect(old(nodes[j].edges), k, [])
      invariant forall j :: i <= j < |nodes| ==> nodes[j].edges == old(nodes[j].edges)
    {
      IndexedNext(nodes, fks, nodeids, nodes[i].id);
      fks := fks + [nodes[i].id];
      nodeids := nodeids[nodes[i].id := nodes[i]];
      nodes[i].Init(k);
    }
  }

  lemma CollectNext(edges: Edges, k: ChildEdge, children: seq<Child>, c: Child)
    ensures Collect(edges, k, children + [c]) == Assigned(Collect(edges, k, children), k, c)
  {
  }

  lemma ShareNext(children: seq<Child>, c: Child, ids: seq<int>, i: nat)
    requires i < |ids|
    ensures Share(children + [c], ids, i) ==
      Share(children, ids, i) + if c.fk == Some(ids[i]) && LastIndex(ids, ids[i]) == i then [c] else []
  {
    assert (children + [c])[..|children|] == children;
  }

  /** What the nodes hold after some neighbours: one map per node. */
  ghost predicate Shared(now: seq<Edges>, before: seq<Edges>, k: ChildEdge, children: seq<Child>, ids: seq<int>) {
    && |now| == |before| == |ids|
    && forall i :: 0 <= i < |ids| ==> now[i] == Collect(before[i], k, Share(children, ids, i))
  }

  /** The maps of all nodes after some neighbours. */
  ghost function After(before: seq<Edges>, k: ChildEdge, children: seq<Child>, ids: seq<int>): seq<Edges>
    requires |before| == |ids|
  {
    seq(|ids|, i requires 0 <= i < |ids| => Collect(before[i], k, Share(children, ids, i)))
  }

  /** One more neighbour is assigned at node t, the last among those with its key, ... */
  lemma CollectShare(edges: Edges, k: ChildEdge, children: seq<Child>, c: Child, ids: seq<int>, t: nat, i: nat)
    requires i < |ids| && c.fk.Some? && c.fk.value in ids && t == LastIndex(ids, c.fk.value)
    ensures
      var was := Collect(edges, k, Share(children, ids, i));
      Collect(edges, k, Share(children + [c], ids, i)) == if i == t then Assigned(was, k, c) else was
  {
    ShareNext(children, c, ids, i);
    if i == t {
      CollectNext(edges, k, Share(children, ids, i), c);
    } else {
      assert Share(children, ids, i) + [] == Share(children, ids, i);
    }
  }

  /** ... which alone changes. */
  lemma AfterNext(before: seq<Edges>, k: ChildEdge, children: seq<Child>, c: Child, ids: seq<int>, t: nat)
    requires |before| == |ids| && c.fk.Some? && c.fk.value in ids && t == LastIndex(ids, c.fk.value)
    ensures After(before, k, children + [c], ids) ==
      After(before, k, children, ids)[t := Assigned(After(before, k, children, ids)[t], k, c)]
  {
    var was, now := After(before, k, children, ids), After(before, k, children + [c], ids);
    forall i | 0 <= i < |ids|
      ensures now[i] == was[t := Assigned(was[t], k, c)][i]
    {
      CollectShare(before[i], k, children, c, ids, t, i);
    }
  }

  lemma AfterStart(before: seq<Edges>, k: ChildEdge, ids: seq<int>)
    requires |before| == |ids|
    ensures forall i :: 0 <= i < |ids| ==> After(before, k, [], ids)[i] == Collect(before[i], k, [])
  {
  }

  lemma AfterShared(before: seq<Edges>, k: ChildEdge, children: seq<Child>, ids: seq<int>)
    requires |before| == |ids|
    ensures Shared(After(before, k, children, ids), before, k, children, ids)
  {
  }

  ghost predicate Holds(nodes: seq<ActionSummary>, now: seq<Edges>)
    reads nodes`edges
  {
    |now| == |nodes| && forall i :: 0 <= i < |nodes| ==> nodes[i].edges == now[i]
  }

  /** The neighbour's key is known, and the map leads to the last node with that id. */
  ghost predicate Routed(nodes: seq<ActionSummary>, nodeids: map<int, ActionSummary>, ids: seq<int>, n: Child)
    requires |ids| == |nodes|
  {
    && n.fk.Some? && n.fk.value in ids && n.fk.value in nodeids
    && nodeids[n.fk.value] == nodes[LastIndex(ids, n.fk.value)]
  }

  lemma AllRouted(nodes: seq<ActionSummary>, nodeids: map<int, ActionSummary>, ids: seq<int>, neighbors: seq<Child>)
    requires |ids| == |nodes| && Indexed(nodes, ids, nodeids)
    requires forall c :: c in neighbors ==> c.fk.Some? && c.fk.value in ids
    ensures forall j :: 0 <= j < |neighbors| ==> Routed(nodes, nodeids, ids, neighbors[j])
  {
    forall j | 0 <= j < |neighbors|
      ensures Routed(nodes, nodeids, ids, neighbors[j])
    {
      assert neighbors[j] in neighbors;
      var id := neighbors[j].fk.value;
      assert id in ids;
      assert id in nodeids;
    }
  }

  /** The body of the second loop: hand one neighbour to the node its key names. */
  method HandOut(nodes: seq<ActionSummary>, k: ChildEdge, nodeids: map<int, ActionSummary>, n: Child,
                 ghost now: seq<Edges>, ghost t: nat)
    returns (r: Option<ChildError>)
    requires DistinctSummaries(nodes) && Holds(nodes, now)
    requires n.fk.Some? && n.fk.value in nodeids && t < |nodes| && nodeids[n.fk.value] == nodes[t]
    modifies nodes`edges
    ensures r.None? && Holds(nodes, now[t := Assigned(now[t], k, n)])
  {
    if n.fk.None? { return Some(NilForeignKey(n.id)); }
    var fk := n.fk.value;
    if fk !in nodeids { return Some(ChildError.UnexpectedForeignKey(fk, n.id)); }
    assert nodes[t] in nodes;
    nodeids[fk].Assign(k, n);
    r := None;
  }

  /** The second loop. */
  method Distribute(nodes: seq<ActionSummary>, k: ChildEdge, nodeids: map<int, ActionSummary>, neighbors: seq<Child>,
                    ghost ids: seq<int>, ghost before: seq<Edges>)
    returns (r: Option<ChildError>)
    requires DistinctSummaries(nodes) && |before| == |ids| == |nodes|
    requires forall j :: 0 <= j < |neighbors| ==> Routed(nodes, nodeids, ids, neighbors[j])
    requires Holds(nodes, After(before, k, [], ids))
    modifies nodes`edges
    ensures r.None?
    ensures Holds(nodes, After(before, k, neighbors, ids))
  {
    r := None;
    ghost var done: seq<Child>, now := [], After(before, k, [], ids);
    for j := 0 to |neighbors|
      invariant r.None? && done == neighbors[..j] && now == After(before, k, done, ids)
      invariant Holds(nodes, now)
    {
      var n := neighbors[j];
      TakeNext(neighbors, j);
      assert Routed(nodes, nodeids, ids, n);
      ghost var t := LastIndex(ids, n.fk.value);
      r := HandOut(nodes, k, nodeids, n, now, t);
      if r.Some? { return; }
      AfterNext(before, k, done, n, ids, t);
      done, now := done + [n], now[t := Assigned(now[t], k, n)];
    }
    assert done == neighbors;
  }

  /** loadActionData, loadRunnerCount and loadActionCacheStatistics, for the plain and the named
      edges: never an error, and each node ends with its share of the neighbours. */
  method LoadChildren(query: ChildQuery, nodes: seq<ActionSummary>, k: ChildEdge, ghost before: seq<Edges>)
    returns (r: Option<ChildError>, query': ChildQuery, ghost now: seq<Edges>)
    requires DistinctSummaries(nodes) && Holds(nodes, before)
    modifies nodes`edges
    ensures r.None?
    ensures query' == query.Restricted(IdsOf(nodes))
    ensures Holds(nodes, now) && Shared(now, before, k, query'.All(), IdsOf(nodes))
  {
    var fks, nodeids := Prepare(nodes, k);
    AfterStart(before, k, fks);
    query' := query.Restricted(fks);
    var neighbors := query'.All();
    AllKeys(query, fks);
    AllRouted(nodes, nodeids, fks, neighbors);
    r := Distribute(nodes, k, nodeids, neighbors, fks, before);
    now := After(before, k, neighbors, fks);
    AfterShared(before, k, neighbors, fks);
  }

  // ---------------------------------------------------------------- the nullable edge

  ghost predicate MetricsBuckets(nodes: seq<ActionSummary>, n: nat, ids: seq<int>, nodeids: map<int, seq<ActionSummary>>)
    requires n <= |nodes|
  {
    && (forall k :: k in nodeids <==> k in ids)
    && (forall i :: 0 <= i < n && nodes[i].metricsFk.Some? ==>
          nodes[i].metricsFk.value in nodeids && nodes[i] in nodeids[nodes[i].metricsFk.value])
    && (forall k, j :: k in nodeids && 0 <= j < |nodeids[k]| ==>
          nodeids[k][j] in nodes && nodeids[k][j].metricsFk == Some(k))
  }

  method BucketMetrics(nodes: seq<ActionSummary>) returns (ids: seq<int>, nodeids: map<int, seq<ActionSummary>>)
    ensures MetricsBuckets(nodes, |nodes|, ids, nodeids) && forall k :: k in nodeids ==> |nodeids[k]| > 0
  {
    ids, nodeids := [], map[];
    for i := 0 to |nodes|
      invariant MetricsBuckets(nodes, i, ids, nodeids) && forall k :: k in nodeids ==> |nodeids[k]| > 0
    {
      if nodes[i].metricsFk.None? { continue; }
      var fk := nodes[i].metricsFk.value;
      var bucket := [];
      if fk in nodeids {
        bucket := nodeids[fk];
      } else {
        ids := ids + [fk];
      }
      nodeids := nodeids[fk := bucket + [nodes[i]]];
    }
  }

  method AssignMetrics(bucket: seq<ActionSummary>, n: Entity)
    modifies bucket`metrics
    ensures forall a :: a in bucket ==> a.metrics == Some(n)
  {
    for i := 0 to |bucket|
      invariant forall a :: a in bucket[..i] ==> a.metrics == Some(n)
    {
      bucket[i].metrics := Some(n);
      assert bucket[..i + 1] == bucket[..i] + [bucket[i]];
    }
  }

  function MetricsAfter(fk: Option<int>, neighbors: seq<Entity>): Option<Entity> {
    if fk.None? then None else Latest(neighbors, fk.value)
  }

  method DistributeMetrics(nodes: seq<ActionSummary>, ids: seq<int>, nodeids: map<int, seq<ActionSummary>>,
                           neighbors: seq<Entity>)
    returns (r: Option<MetricsError>)
    requires MetricsBuckets(nodes, |nodes|, ids, nodeids)
    requires forall n :: n in neighbors ==> n.id in ids
    requires forall i :: 0 <= i < |nodes| ==> nodes[i].metrics.None?
    modifies nodes`metrics
    ensures r.None?
    ensures forall i :: 0 <= i < |nodes| ==> nodes[i].metrics == MetricsAfter(nodes[i].metricsFk, neighbors)
  {
    for j := 0 to |neighbors|
      invariant forall i :: 0 <= i < |nodes| ==> nodes[i].metrics == MetricsAfter(nodes[i].metricsFk, neighbors[..j])
    {
      var n := neighbors[j];
      if n.id !in nodeids { return Some(UnexpectedMetrics(n.id)); }
      assert neighbors[..j + 1][..j] == neighbors[..j];
      AssignMetrics(nodeids[n.id], n);
    }
    assert neighbors[..|neighbors|] == neighbors;
    r := None;
  }

  /** The keys that are not NULL. */
  function NonNull(fks: seq<Option<int>>): seq<int> {
    if fks == [] then []
    else NonNull(fks[..|fks| - 1]) + if fks[|fks| - 1].Some? then [fks[|fks| - 1].value] else []
  }

  lemma {:induction false} NonNullMembers(fks: seq<Option<int>>)
    ensures forall k :: k in NonNull(fks) <==> Some(k) in fks
    decreases |fks|
  {
    if fks != [] {
      NonNullMembers(fks[..|fks| - 1]);
      assert fks == fks[..|fks| - 1] + [fks[|fks| - 1]];
    }
  }

  ghost function KeysOf(nodes: seq<ActionSummary>): seq<Option<int>> {
    seq(|nodes|, i requires 0 <= i < |nodes| => nodes[i].metricsFk)
  }

  /** The metrics of a node: what the batched query gives for its key, nothing for a NULL key. */
  function MetricsOf(query: EdgeQuery, fks: seq<Option<int>>, fk: Option<int>): Option<Entity> {
    match fk
    case None => None
    case Some(id) => Batched(query, NonNull(fks), id)
  }

  ghost predicate MetricsAgree(query: EdgeQuery, fks: seq<Option<int>>) {
    forall i :: 0 <= i < |fks| ==> AgreesFor(query, fks, fks[i])
  }

  ghost predicate AgreesFor(query: EdgeQuery, fks: seq<Option<int>>, fk: Option<int>) {
    MetricsOf(query, fks, fk) == OwnNullable(query, fk)
  }

  lemma AgreeOnKeys(query: EdgeQuery, fks: seq<Option<int>>)
    ensures MetricsAgree(query, fks) ==> BatchAgrees(query, NonNull(fks))
  {
    NonNullMembers(fks);
    if MetricsAgree(query, fks) {
      forall id | id in NonNull(fks)
        ensures Batched(query, NonNull(fks), id) == Own(query, id)
      {
        var i :| 0 <= i < |fks| && fks[i] == Some(id);
        assert AgreesFor(query, fks, fks[i]);
      }
    }
  }

  lemma KeysAgree(query: EdgeQuery, fks: seq<Option<int>>)
    ensures BatchAgrees(query, NonNull(fks)) ==> MetricsAgree(query, fks)
  {
    NonNullMembers(fks);
    forall i | 0 <= i < |fks| && BatchAgrees(query, NonNull(fks))
      ensures AgreesFor(query, fks, fks[i])
    {
      match fks[i]
      case None =>
      case Some(id) => assert fks[i] in fks && id in NonNull(fks);
    }
  }

  /** The nullable edge is loaded as each node's own query would, exactly if the batched rows fit
      the page; no key can be mistaken for NULL. */
  lemma MetricsExact(query: EdgeQuery, fks: seq<Option<int>>)
    requires UniqueIds(query.visible)
    ensures MetricsAgree(query, fks) <==> FitsPage(query, NonNull(fks))
  {
    BatchExact(query, NonNull(fks));
    AgreeOnKeys(query, fks);
    KeysAgree(query, fks);
  }

  lemma BucketKeys(nodes: seq<ActionSummary>, ids: seq<int>, nodeids: map<int, seq<ActionSummary>>)
    requires MetricsBuckets(nodes, |nodes|, ids, nodeids) && forall k :: k in nodeids ==> |nodeids[k]| > 0
    ensures SameMembers(ids, NonNull(KeysOf(nodes)))
  {
    var fks := KeysOf(nodes);
    NonNullMembers(fks);
    forall k
      ensures k in ids <==> Some(k) in fks
    {
      if k in ids {
        assert nodeids[k][0] in nodes && nodeids[k][0].metricsFk == Some(k);
        var i :| 0 <= i < |nodes| && nodes[i] == nodeids[k][0];
        assert fks[i] == Some(k);
      }
      if Some(k) in fks {
        var i :| 0 <= i < |fks| && fks[i] == Some(k);
        assert nodes[i].metricsFk == Some(k);
      }
    }
  }

  lemma KeysListed(nodes: seq<ActionSummary>, ids: seq<int>)
    requires SameMembers(ids, NonNull(KeysOf(nodes)))
    ensures ids == [] <==> NonNull(KeysOf(nodes)) == []
    ensures forall i :: 0 <= i < |nodes| && nodes[i].metricsFk.Some? ==> nodes[i].metricsFk.value in ids
  {
    var fks := KeysOf(nodes);
    NonNullMembers(fks);
    EmptyTogether(ids, NonNull(fks));
    forall i | 0 <= i < |nodes| && nodes[i].metricsFk.Some?
      ensures nodes[i].metricsFk.value in ids
    {
      var k := nodes[i].metricsFk.value;
      assert fks[i] == Some(k) && Some(k) in fks;
      assert k in NonNull(fks);
    }
  }

  /** The builder after loading: one more filter, exactly the keys that are not NULL, if any. */
  ghost predicate MetricsRan(before: EdgeQuery, after: EdgeQuery, fks: seq<Option<int>>) {
    if NonNull(fks) == [] then after == before
    else exists ids :: after == before.Where(ids) && SameMembers(ids, NonNull(fks))
  }

  /** loadMetrics skips the nodes without a key, so a NULL key loads nothing, whatever ids exist; no
      error can happen, and the builder keeps the keys as one more filter. */
  method LoadMetrics(query: EdgeQuery, nodes: seq<ActionSummary>) returns (r: Option<MetricsError>, query': EdgeQuery)
    requires UniqueIds(query.visible)
    requires forall i :: 0 <= i < |nodes| ==> nodes[i].metrics.None?
    modifies nodes`metrics
    ensures r.None?
    ensures forall i :: 0 <= i < |nodes| ==> nodes[i].metrics == MetricsOf(query, KeysOf(nodes), nodes[i].metricsFk)
    ensures MetricsRan(query, query', KeysOf(nodes))
  {
    var ids, nodeids := BucketMetrics(nodes);
    ghost var keys := NonNull(KeysOf(nodes));
    r, query' := None, query;
    BucketKeys(nodes, ids, nodeids);
    KeysListed(nodes, ids);
    if |ids| != 0 {
      query' := query.Where(ids);
      var neighbors := query'.All();
      BatchRows(query, ids);
      SameBatch(query, ids, keys);
      forall i | 0 <= i < |nodes|
        ensures MetricsAfter(nodes[i].metricsFk, neighbors) == MetricsOf(query, KeysOf(nodes), nodes[i].metricsFk)
      {
        if nodes[i].metricsFk.Some? {
          LatestIsLookup(neighbors, nodes[i].metricsFk.value);
        }
      }
      r := DistributeMetrics(nodes, ids, nodeids, neighbors);
    }
  }

  // ---------------------------------------------------------------- all edges of a query

  function Slot(edges: Edges, k: ChildEdge): Option<seq<Child>> {
    if k in edges then Some(edges[k]) else None
  }

  /** What an edge slot holds for a share of the neighbours. */
  function SlotFor(k: ChildEdge, share: seq<Child>): Option<seq<Child>> {
    if !k.ActionCacheStatistics? then Some(share)
    else if share == [] then None
    else Some([share[|share| - 1]])
  }

  type ChildQueries = map<ChildEdge, ChildQuery>

  /** The edges in done hold each node's share of their own query's neighbours, all others are
      not loaded. */
  ghost predicate LoadedEdges(now: seq<Edges>, with: ChildQueries, done: set<ChildEdge>, ids: seq<int>) {
    && |now| == |ids| && done <= with.Keys
    && forall i, k :: 0 <= i < |ids| ==>
      Slot(now[i], k) == if k in done then SlotFor(k, Share(with[k].Restricted(ids).All(), ids, i)) else None
  }

  ghost predicate RanQueries(before: ChildQueries, after: ChildQueries, done: set<ChildEdge>, ids: seq<int>) {
    && after.Keys == before.Keys
    && forall k :: k in before ==> after[k] == if k in done then before[k].Restricted(ids) else before[k]
  }

  ghost predicate Progress(now: seq<Edges>, with0: ChildQueries, with: ChildQueries, done: set<ChildEdge>, ids: seq<int>) {
    LoadedEdges(now, with0, done, ids) && RanQueries(with0, with, done, ids)
  }

  lemma RanNext(with0: ChildQueries, with: ChildQueries, done: set<ChildEdge>, ids: seq<int>, k: ChildEdge)
    requires RanQueries(with0, with, done, ids) && k in with0 && k !in done
    ensures RanQueries(with0, with[k := with0[k].Restricted(ids)], done + {k}, ids)
  {
  }

  lemma LoadedNext(now: seq<Edges>, next: seq<Edges>, with: ChildQueries, done: set<ChildEdge>, ids: seq<int>, k: ChildEdge)
    requires LoadedEdges(now, with, done, ids) && k in with && k !in done
    requires Shared(next, now, k, with[k].Restricted(ids).All(), ids)
    ensures LoadedEdges(next, with, done + {k}, ids)
  {
    forall i, g | 0 <= i < |ids|
      ensures Slot(next[i], g) ==
        if g in done + {k} then SlotFor(g, Share(with[g].Restricted(ids).All(), ids, i)) else None
    {
      assert Slot(now[i], g) == if g in done then SlotFor(g, Share(with[g].Restricted(ids).All(), ids, i)) else None;
    }
  }

  lemma NothingLoaded(start: seq<Edges>, with: ChildQueries, ids: seq<int>)
    requires |start| == |ids| && forall i :: 0 <= i < |start| ==> start[i] == map[]
    ensures Progress(start, with, with, {}, ids)
  {
  }

  function PlainEdges(edges: set<ChildEdge>): set<ChildEdge> {
    set k | k in edges && !k.NamedActionData? && !k.NamedRunnerCount?
  }

  function NamedEdges(edges: set<ChildEdge>): set<ChildEdge> {
    edges - PlainEdges(edges)
  }

  function RowIds(rows: seq<SummaryScan.Row>): seq<int> {
    seq(|rows|, i requires 0 <= i < |rows| => SummaryScan.RowId(rows[i]))
  }

  function RowKeys(rows: seq<SummaryScan.Row>): seq<Option<int>> {
    seq(|rows|, i requires 0 <= i < |rows| => SummaryScan.NullableKey(rows[i]))
  }

  /** The metrics of a row, or nothing if they were not asked for. */
  function WantedMetrics(metrics: Option<EdgeQuery>, rows: seq<SummaryScan.Row>, row: SummaryScan.Row): Option<Entity> {
    match metrics
    case None => None
    case Some(query) => MetricsOf(query, RowKeys(rows), SummaryScan.NullableKey(row))
  }

  ghost predicate MetricsAfterRun(before: Option<EdgeQuery>, after: Option<EdgeQuery>, rows: seq<SummaryScan.Row>) {
    match before
    case None => after.None?
    case Some(query) => after.Some? && MetricsRan(query, after.value, RowKeys(rows))
  }

  /** The node has the row's id, and its hidden key if that is scanned. */
  ghost predicate FromRow(node: ActionSummary, row: SummaryScan.Row, keyed: bool) {
    node.id == SummaryScan.RowId(row) && (keyed ==> node.metricsFk == SummaryScan.NullableKey(row))
  }

  ghost predicate FromRows(nodes: seq<ActionSummary>, rows: seq<SummaryScan.Row>, keyed: bool) {
    |nodes| == |rows| && forall i :: 0 <= i < |rows| ==> FromRow(nodes[i], rows[i], keyed)
  }

  /** Every node carries of its row exactly what was asked for. */
  ghost predicate AllCarry(nodes: seq<ActionSummary>, rows: seq<SummaryScan.Row>, fields: seq<SummaryScan.Column>,
                           keyed: bool) {
    && |nodes| == |rows|
    && forall i :: 0 <= i < |rows| ==> SummaryScan.CarriesAsked(nodes[i].fields, rows[i], fields, keyed)
  }

  lemma NodesNext(nodes: seq<ActionSummary>, node: ActionSummary, rows: seq<SummaryScan.Row>, row: SummaryScan.Row,
                  fields: seq<SummaryScan.Column>, keyed: bool)
    requires FromRows(nodes, rows, keyed) && AllCarry(nodes, rows, fields, keyed)
    requires FromRow(node, row, keyed) && SummaryScan.CarriesAsked(node.fields, row, fields, keyed)
    ensures FromRows(nodes + [node], rows + [row], keyed) && AllCarry(nodes + [node], rows + [row], fields, keyed)
  {
  }

  ghost predicate NothingYet(nodes: seq<ActionSummary>)
    reads nodes
  {
    forall a :: a in nodes ==> a.metrics.None? && a.edges == map[]
  }

  lemma MoveOne<T>(todo: set<T>, finished: set<T>, k: T)
    requires k in todo && todo !! finished
    ensures todo - {k} !! finished + {k} && (finished + {k}) + (todo - {k}) == finished + todo
  {
  }

  class ActionSummaryQuery {
    const fields: seq<SummaryScan.Column>
    const withFKs: bool
    var metrics: Option<EdgeQuery>
    var with: ChildQueries

    constructor (fields: seq<SummaryScan.Column>, withFKs: bool, metrics: Option<EdgeQuery>, with: ChildQueries)
      ensures this.fields == fields && this.withFKs == withFKs && this.metrics == metrics && this.with == with
    {
      this.fields, this.withFKs, this.metrics, this.with := fields, withFKs, metrics, with;
    }

    /** The Assign callback for one row: a valid row never fails to scan. */
    method ScanRow(row: SummaryScan.Row, keys: bool) returns (r: Result<ActionSummary, SummaryScan.ScanError>)
      requires SummaryScan.ValidRow(row)
      ensures r.Ok? && fresh(r.value) && r.value.metrics.None? && r.value.edges == map[]
      ensures FromRow(r.value, row, keys) && SummaryScan.CarriesAsked(r.value.fields, row, fields, keys)
    {
      var columns := SummaryScan.SpecColumns(fields, keys);
      SummaryScan.ScannedKey(row, fields, keys);
      SummaryScan.RowCarried(row, fields, keys);
      var f := SummaryScan.AssignValues(columns, Cells(row, columns));
      match f {
        case Err(e) => return Err(e);
        case Ok(scanned) =>
          var node := new ActionSummary(scanned);
          r := Ok(node);
      }
    }

    /** The Assign callback, for all rows. */
    method ScanRows(rows: seq<SummaryScan.Row>, keys: bool) returns (r: Result<seq<ActionSummary>, SummaryScan.ScanError>)
      requires forall i :: 0 <= i < |rows| ==> SummaryScan.ValidRow(rows[i])
      ensures r.Ok? && fresh(r.value) && DistinctSummaries(r.value) && NothingYet(r.value)
      ensures FromRows(r.value, rows, keys) && AllCarry(r.value, rows, fields, keys)
    {
      var nodes: seq<ActionSummary> := [];
      for i := 0 to |rows|
        invariant |nodes| == i && fresh(nodes) && DistinctSummaries(nodes) && NothingYet(nodes)
        invariant FromRows(nodes, rows[..i], keys) && AllCarry(nodes, rows[..i], fields, keys)
      {
        var scanned := ScanRow(rows[i], keys);
        match scanned {
          case Err(e) => return Err(e);
          case Ok(node) =>
            TakeNext(rows, i);
            NodesNext(nodes, node, rows[..i], rows[i], fields, keys);
            nodes := nodes + [node];
        }
      }
      assert rows[..|rows|] == rows;
      r := Ok(nodes);
    }

    /** The metrics block of sqlAll. */
    method LoadMetricsIfRequested(nodes: seq<ActionSummary>, ghost rows: seq<SummaryScan.Row>)
      returns (r: Option<MetricsError>)
      requires metrics.Some? ==> UniqueIds(metrics.value.visible)
      requires FromRows(nodes, rows, metrics.Some?)
      requires forall i :: 0 <= i < |nodes| ==> nodes[i].metrics.None?
      modifies `metrics, nodes`metrics
      ensures r.None?
      ensures forall i :: 0 <= i < |nodes| ==> nodes[i].metrics == WantedMetrics(old(metrics), rows, rows[i])
      ensures MetricsAfterRun(old(metrics), metrics, rows)
    {
      r := None;
      if metrics.Some? {
        var query;
        assert KeysOf(nodes) == RowKeys(rows);
        r, query := LoadMetrics(metrics.value, nodes);
        metrics := Some(query);
      }
    }

    /** sqlAll: whatever fields are selected, no error can happen; every summary has the metrics the
        batched query gives for its hidden key and the share of every requested child query. */
    method SqlAll(rows: seq<SummaryScan.Row>)
      returns (r: Result<seq<ActionSummary>, SummaryScan.ScanError>, ghost now: seq<Edges>)
      requires forall i :: 0 <= i < |rows| ==> SummaryScan.ValidRow(rows[i])
      requires metrics.Some? ==> UniqueIds(metrics.value.visible)
      modifies `metrics, `with
      ensures r.Ok? && fresh(r.value) && AllCarry(r.value, rows, fields, withFKs || old(metrics).Some?)
      ensures forall i :: 0 <= i < |rows| ==>
        r.value[i].id == SummaryScan.RowId(rows[i]) && r.value[i].metrics == WantedMetrics(old(metrics), rows, rows[i])
      ensures rows != [] ==> Holds(r.value, now) && Progress(now, old(with), with, old(with.Keys), RowIds(rows))
      ensures MetricsAfterRun(old(metrics), metrics, rows) && (rows == [] ==> with == old(with))
    {
      r := ScanRows(rows, withFKs || metrics.Some?);
      now := [];
      if r.Err? || |r.value| == 0 { return; }
      var nodes := r.value;
      assert forall i :: 0 <= i < |nodes| ==> nodes[i] in nodes;
      var failed := LoadMetricsIfRequested(nodes, rows);
      assert failed.None?;
      ghost var ids, start := RowIds(rows), seq(|nodes|, i => map[]);
      assert ids == IdsOf(nodes);
      var err;
      err, now := LoadAll(nodes, ids, start);
      assert err.None?;
    }

    /** One more requested edge. */
    method LoadOne(nodes: seq<ActionSummary>, k: ChildEdge, ghost with0: ChildQueries, ghost done: set<ChildEdge>,
                   ghost before: seq<Edges>, ghost ids: seq<int>)
      returns (r: Option<ChildError>, ghost now: seq<Edges>)
      requires DistinctSummaries(nodes) && Holds(nodes, before) && k in with0 && k !in done && ids == IdsOf(nodes)
      requires Progress(before, with0, with, done, ids)
      modifies `with, nodes`edges
      ensures r.None? && Holds(nodes, now)
      ensures Progress(now, with0, with, done + {k}, ids)
    {
      var query;
      assert with[k] == with0[k];
      r, query, now := LoadChildren(with[k], nodes, k, before);
      LoadedNext(before, now, with0, done, ids, k);
      RanNext(with0, with, done, ids, k);
      with := with[k := query];
    }

    /** Loads some requested edges in an arbitrary order, as ranging over a Go map does. */
    method LoadEach(nodes: seq<ActionSummary>, edges: set<ChildEdge>, ghost with0: ChildQueries,
                    ghost done: set<ChildEdge>, ghost before: seq<Edges>, ghost ids: seq<int>)
      returns (r: Option<ChildError>, ghost now: seq<Edges>)
      requires DistinctSummaries(nodes) && Holds(nodes, before) && ids == IdsOf(nodes)
      requires edges !! done && edges <= with0.Keys && Progress(before, with0, with, done, ids)
      modifies `with, nodes`edges
      ensures r.None? && Holds(nodes, now)
      ensures Progress(now, with0, with, done + edges, ids)
    {
      r, now := None, before;
      var todo := edges;
      ghost var finished := done;
      while todo != {}
        invariant r.None? && Holds(nodes, now)
        invariant todo <= edges && todo !! finished && finished + todo == done + edges
        invariant Progress(now, with0, with, finished, ids)
      {
        var k :| k in todo;
        r, now := LoadOne(nodes, k, with0, finished, now, ids);
        if r.Some? { return; }
        MoveOne(todo, finished, k);
        todo, finished := todo - {k}, finished + {k};
      }
      assert finished == done + edges;
    }

    /** sqlAll after the rows have been scanned: the plain edges first, then the named ones. */
    method LoadAll(nodes: seq<ActionSummary>, ghost ids: seq<int>, ghost start: seq<Edges>)
      returns (r: Option<ChildError>, ghost now: seq<Edges>)
      requires DistinctSummaries(nodes) && Holds(nodes, start) && ids == IdsOf(nodes)
      requires forall i :: 0 <= i < |start| ==> start[i] == map[]
      modifies `with, nodes`edges
      ensures r.None? && Holds(nodes, now)
      ensures Progress(now, old(with), with, old(with.Keys), ids)
    {
      ghost var w := with;
      var plain, named := PlainEdges(with.Keys), NamedEdges(with.Keys);
      NothingLoaded(start, w, ids);
      r, now := LoadEach(nodes, plain, w, {}, start, ids);
      assert {} + plain == plain;
      if r.Some? { return; }
      r, now := LoadEach(nodes, named, w, plain, now, ids);
      assert plain + named == w.Keys;
    }
  }

  // ---------------------------------------------------------------- what loading means

  datatype NamedError = NotLoadedError

  /** NamedActionData and NamedRunnerCount. */
  function Named(edges: Edges, k: ChildEdge): Result<seq<Child>, NamedError> {
    if k in edges then Ok(edges[k]) else Err(NotLoadedError)
  }

  /** A named accessor reports "not loaded" exactly for the names that were not asked for; a name
      that was asked for has a list on every node, empty or not. */
  lemma NamedExact(now: seq<Edges>, with: ChildQueries, ids: seq<int>, i: nat, k: ChildEdge)
    requires LoadedEdges(now, with, with.Keys, ids) && i < |ids| && !k.ActionCacheStatistics?
    ensures Named(now[i], k) ==
      if k in with then Ok(Share(with[k].Restricted(ids).All(), ids, i)) else Err(NotLoadedError)
  {
    assert Slot(now[i], k) == if k in with then SlotFor(k, Share(with[k].Restricted(ids).All(), ids, i)) else None;
  }

  /** The one-to-one edge is the last child the node is handed, and missing without any. */
  lemma StatisticsExact(now: seq<Edges>, with: ChildQueries, ids: seq<int>, i: nat)
    requires LoadedEdges(now, with, with.Keys, ids) && i < |ids|
    ensures
      if ActionCacheStatistics !in with then ActionCacheStatistics !in now[i]
      else
        var share := Share(with[ActionCacheStatistics].Restricted(ids).All(), ids, i);
        && (ActionCacheStatistics in now[i] <==> share != [])
        && (share != [] ==> now[i][ActionCacheStatistics] == [share[|share| - 1]])
  {
    assert Slot(now[i], ActionCacheStatistics) ==
      if ActionCacheStatistics in with
      then SlotFor(ActionCacheStatistics, Share(with[ActionCacheStatistics].Restricted(ids).All(), ids, i)) else None;
  }

  lemma PassesRestricted(query: ChildQuery, fks: seq<int>, row: ChildRow)
    ensures query.Restricted(fks).Passes(row) <==> query.Passes(row) && row.fk.Some? && row.fk.value in fks
  {
    var filters := query.Restricted(fks).filters;
    assert filters[|query.filters|] == fks;
    assert forall f :: f in query.filters ==> f in filters;
    assert forall f :: f in filters ==> f in query.filters || f == fks;
  }

  lemma {:induction false} OwnRows(query: ChildQuery, rows: seq<ChildRow>, ids: seq<int>, id: int)
    requires id in ids
    ensures ChildrenOf(query.Restricted(ids).Filtered(rows), id) == query.Restricted([id]).Filtered(rows)
  {
    if rows != [] {
      OwnRows(query, rows[1..], ids, id);
      var q1, q2, row := query.Restricted(ids), query.Restricted([id]), rows[0];
      PassesRestricted(query, ids, row);
      PassesRestricted(query, [id], row);
      if q1.Passes(row) {
        var c := Child(row.id, row.fk, row.data);
        ChildrenConcat([c], q1.Filtered(rows[1..]), id);
        OneChild(c, id);
      }
    }
  }

  ghost predicate UniqueRows(rows: seq<ChildRow>) {
    forall i, j :: 0 <= i < j < |rows| ==> rows[i].id != rows[j].id
  }

  lemma {:induction false} FilteredUnique(query: ChildQuery, rows: seq<ChildRow>)
    requires UniqueRows(rows)
    ensures UniqueChildren(query.Filtered(rows))
    ensures forall c :: c in query.Filtered(rows) ==> exists i :: 0 <= i < |rows| && rows[i].id == c.id
  {
    if rows != [] {
      var rest := query.Filtered(rows[1..]);
      FilteredUnique(query, rows[1..]);
      assert forall i :: 0 <= i < |rows[1..]| ==> rows[1..][i] == rows[i + 1];
      forall c | c in rest
        ensures c.id != rows[0].id && exists i :: 0 <= i < |rows| && rows[i].id == c.id
      {
        var i :| 0 <= i < |rows[1..]| && rows[1..][i].id == c.id;
        assert rows[i + 1].id == c.id;
      }
      if query.Passes(rows[0]) {
        var all := query.Filtered(rows);
        assert all[0].id == rows[0].id;
        forall i | 1 <= i < |all|
          ensures all[i] == rest[i - 1] && all[i].id != all[0].id
        {
          assert rest[i - 1] in rest;
        }
      }
    }
  }

  /** The rows of the batched query of all nodes. */
  ghost function BatchedRows(query: ChildQuery, ids: seq<int>): seq<Child> {
    query.Restricted(ids).Filtered(query.visible)
  }

  lemma BatchedKeys(query: ChildQuery, ids: seq<int>)
    requires UniqueRows(query.visible)
    ensures KeysIn(BatchedRows(query, ids), ids) && UniqueChildren(BatchedRows(query, ids))
  {
    var q := query.Restricted(ids);
    assert q.filters[|q.filters| - 1] == ids;
    FilteredKeys(q, query.visible, ids);
    FilteredUnique(q, query.visible);
    var rows := BatchedRows(query, ids);
    assert forall i :: 0 <= i < |rows| ==> rows[i] in rows;
  }

  lemma ListSplits(query: ChildQuery, ids: seq<int>, id: int)
    requires id in ids
    ensures ChildrenOf(query.Restricted(ids).All(), id) == query.Restricted([id]).All() <==>
      SplitsAt(BatchedRows(query, ids), query.offset, query.limit, id)
  {
    OwnRows(query, query.visible, ids, id);
  }

  /** Every node's list is the answer of the query for that node alone - offset and limit included -
      exactly if the batched rows fit the page, and a node whose id occurs again later has no
      children to lose. Without offset and limit the first part always holds. */
  lemma SharesExact(query: ChildQuery, ids: seq<int>)
    requires UniqueRows(query.visible)
    ensures
      (forall i :: 0 <= i < |ids| ==> OwnShare(query, ids, i)) <==>
      && FitsParents(BatchedRows(query, ids), ids, query.offset, query.limit)
      && forall i :: 0 <= i < |ids| && LastIndex(ids, ids[i]) != i ==> query.Restricted([ids[i]]).All() == []
  {
    var rows := BatchedRows(query, ids);
    BatchedKeys(query, ids);
    SplitExact(rows, ids, query.offset, query.limit);
    forall i | 0 <= i < |ids|
      ensures OwnShare(query, ids, i) <==>
        if LastIndex(ids, ids[i]) == i then SplitsAt(rows, query.offset, query.limit, ids[i])
        else query.Restricted([ids[i]]).All() == []
    {
      ListSplits(query, ids, ids[i]);
    }
    if forall i :: 0 <= i < |ids| ==> OwnShare(query, ids, i) {
      forall id | id in ids
        ensures SplitsAt(rows, query.offset, query.limit, id)
      {
        var i := LastIndex(ids, id);
        assert OwnShare(query, ids, i);
      }
    }
  }

  ghost predicate OwnShare(query: ChildQuery, ids: seq<int>, i: nat)
    requires i < |ids|
  {
    Share(query.Restricted(ids).All(), ids, i) == query.Restricted([ids[i]]).All()
  }

  /** Without offset and limit only a repeated id can take children away from a node. */
  lemma UnpagedShares(query: ChildQuery, ids: seq<int>)
    requires UniqueRows(query.visible) && query.offset == 0 && query.limit == 0
    ensures (forall i :: 0 <= i < |ids| ==> OwnShare(query, ids, i)) <==>
      forall i :: 0 <= i < |ids| && LastIndex(ids, ids[i]) != i ==> query.Restricted([ids[i]]).All() == []
  {
    SharesExact(query, ids);
  }

  // ---------------------------------------------------------------- running a builder again

  function Belongs(ids: seq<int>): Child -> bool {
    (c: Child) => c.fk.Some? && c.fk.value in ids
  }

  lemma PassesAgain(query: ChildQuery, first: seq<int>, second: seq<int>, row: ChildRow)
    ensures query.Restricted(first).Restricted(second).Passes(row) <==>
      query.Restricted(second).Passes(row) && row.fk.Some? && row.fk.value in first
  {
    PassesRestricted(query, second, row);
    PassesRestricted(query, first, row);
    PassesRestricted(query.Restricted(first), second, row);
  }

  lemma FilteredCons(query: ChildQuery, rows: seq<ChildRow>)
    requires rows != [] && query.withFKs
    ensures query.Filtered(rows) ==
      (if query.Passes(rows[0]) then [Child(rows[0].id, rows[0].fk, rows[0].data)] else []) + query.Filtered(rows[1..])
  {
  }

  /** With the key filter of a first run still in place, a query selects from what a fresh one
      would. */
  lemma {:induction false} AgainRows(query: ChildQuery, rows: seq<ChildRow>, first: seq<int>, second: seq<int>)
    ensures query.Restricted(first).Restricted(second).Filtered(rows) ==
      Keep(query.Restricted(second).Filtered(rows), Belongs(first))
  {
    if rows != [] {
      var once, again, row := query.Restricted(second), query.Restricted(first).Restricted(second), rows[0];
      AgainRows(query, rows[1..], first, second);
      PassesAgain(query, first, second, row);
      FilteredCons(once, rows);
      FilteredCons(again, rows);
      if once.Passes(row) {
        KeepCons(Child(row.id, row.fk, row.data), once.Filtered(rows[1..]), Belongs(first));
      }
    }
  }

  ghost predicate CoveredChildren(query: ChildQuery, first: seq<int>, second: seq<int>) {
    Covers(BatchedRows(query, second), Belongs(first), query.offset, query.limit)
  }

  ghost predicate SameShares(a: seq<Child>, b: seq<Child>, ids: seq<int>) {
    forall i :: 0 <= i < |ids| ==> Share(a, ids, i) == Share(b, ids, i)
  }

  lemma SharesContain(page: seq<Child>, again: seq<Child>, ids: seq<int>)
    requires SameShares(again, page, ids) && forall c :: c in page ==> c.fk.Some? && c.fk.value in ids
    ensures forall c :: c in page ==> c in again
  {
    forall c | c in page
      ensures c in again
    {
      var i := LastIndex(ids, c.fk.value);
      assert Share(again, ids, i) == Share(page, ids, i);
      ChildrenMembers(page, ids[i]);
      ChildrenMembers(again, ids[i]);
    }
  }

  lemma ChildrenDistinct(rows: seq<Child>)
    requires UniqueChildren(rows)
    ensures Distinct(rows)
  {
  }

  /** A second run of a child query hands every node what a fresh builder would exactly if all rows
      up to the end of its page belong to summaries of the first run. */
  lemma ChildrenAgainExact(query: ChildQuery, first: seq<int>, second: seq<int>)
    requires UniqueRows(query.visible)
    ensures SameShares(query.Restricted(first).Restricted(second).All(), query.Restricted(second).All(), second) <==>
      CoveredChildren(query, first, second)
  {
    var rows := BatchedRows(query, second);
    var page, again := query.Restricted(second).All(), query.Restricted(first).Restricted(second).All();
    AgainRows(query, query.visible, first, second);
    BatchedKeys(query, second);
    ChildrenDistinct(rows);
    FilterExact(rows, Belongs(first), query.offset, query.limit);
    if CoveredChildren(query, first, second) {
      CoversSame(rows, Belongs(first), query.offset, query.limit);
    }
    if SameShares(again, page, second) {
      AllKeys(query, second);
      SharesContain(page, again, second);
    }
  }

  /** So for all requested child edges of a builder that has run before. */
  lemma ChildrenReuseExact(w0: ChildQueries, w1: ChildQueries, first: seq<int>, second: seq<int>)
    requires RanQueries(w0, w1, w0.Keys, first) && forall k :: k in w0 ==> UniqueRows(w0[k].visible)
    ensures
      (forall k :: k in w0 ==> SameShares(w1[k].Restricted(second).All(), w0[k].Restricted(second).All(), second))
      <==> forall k :: k in w0 ==> CoveredChildren(w0[k], first, second)
  {
    forall k | k in w0
      ensures SameShares(w1[k].Restricted(second).All(), w0[k].Restricted(second).All(), second) <==>
        CoveredChildren(w0[k], first, second)
    {
      ChildrenAgainExact(w0[k], first, second);
    }
  }

  ghost predicate SameMetrics(before: EdgeQuery, after: EdgeQuery, fks: seq<Option<int>>) {
    forall i :: 0 <= i < |fks| ==> MetricsOf(after, fks, fks[i]) == MetricsOf(before, fks, fks[i])
  }

  lemma MetricsLookups(before: EdgeQuery, after: EdgeQuery, fks: seq<Option<int>>)
    ensures SameMetrics(before, after, fks) <==>
      SameLookups(after.Where(NonNull(fks)).All(), before.Where(NonNull(fks)).All(), NonNull(fks))
  {
    NonNullMembers(fks);
    if SameMetrics(before, after, fks) {
      forall id | id in NonNull(fks)
        ensures Batched(after, NonNull(fks), id) == Batched(before, NonNull(fks), id)
      {
        var i :| 0 <= i < |fks| && fks[i] == Some(id);
        assert MetricsOf(after, fks, fks[i]) == MetricsOf(before, fks, fks[i]);
      }
    } else {
      var i :| 0 <= i < |fks| && MetricsOf(after, fks, fks[i]) != MetricsOf(before, fks, fks[i]);
      assert fks[i] in fks && fks[i].value in NonNull(fks);
    }
  }

  /** The metrics edge is loaded again as by a fresh builder exactly if the first run met no key, or
      asked for every row up to the end of the page. */
  lemma MetricsReuseExact(before: EdgeQuery, after: EdgeQuery, fks1: seq<Option<int>>, fks2: seq<Option<int>>)
    requires UniqueIds(before.visible) && MetricsRan(before, after, fks1)
    ensures SameMetrics(before, after, fks2) <==>
      NonNull(fks1) == [] || Covered(before, NonNull(fks1), NonNull(fks2))
  {
    MetricsLookups(before, after, fks2);
    if NonNull(fks1) != [] {
      var ids :| after == before.Where(ids) && SameMembers(ids, NonNull(fks1));
      AgainExact(before, ids, NonNull(fks2));
      assert Covered(before, ids, NonNull(fks2)) <==> Covered(before, NonNull(fks1), NonNull(fks2));
    }
  }

  /** The same builder run first over summary 1, then over summary 2, which has a child: it gets
      none. */
  lemma ReuseLosesChildren() returns (query: ChildQuery)
    ensures UniqueRows(query.visible) && query.Restricted([2]).All() != []
    ensures query.Restricted([1]).Restricted([2]).All() == []
  {
    query := ChildQuery([ChildRow(10, Some(2), "a")], [], 0, 0, false);
    var row := query.visible[0];
    PassesRestricted(query, [2], row);
    PassesAgain(query, [1], [2], row);
    FilteredCons(query.Restricted([2]), query.visible);
    FilteredCons(query.Restricted([1]).Restricted([2]), query.visible);
    assert query.visible[1..] == [];
    assert 2 !in [1] && query.Passes(row);
  }

  /** The lists of the first n nodes taken together. */
  ghost function AllShares(children: seq<Child>, ids: seq<int>, n: nat): multiset<Child>
    requires n <= |ids|
  {
    if n == 0 then multiset{} else AllShares(children, ids, n - 1) + multiset(Share(children, ids, n - 1))
  }

  /** Loading partitions the neighbours: together the nodes' lists hold each of them exactly
      once, even when several nodes have the same id. */
  lemma {:induction false} SharesPartition(children: seq<Child>, ids: seq<int>)
    requires forall c :: c in children ==> c.fk.Some? && c.fk.value in ids
    ensures AllShares(children, ids, |ids|) == multiset(children)
    decreases |children|
  {
    if children == [] {
      NoSharesAtAll(ids, |ids|);
    } else {
      var init, c := children[..|children| - 1], children[|children| - 1];
      assert children == init + [c];
      SharesPartition(init, ids);
      var t := LastIndex(ids, c.fk.value);
      forall i | 0 <= i < |ids|
        ensures GrowsAt(init, children, c, ids, t, i)
      {
        ShareGrows(init, c, ids, t, i);
      }
      OneMore(init, children, c, ids, t, |ids|);
    }
  }

  lemma {:induction false} NoSharesAtAll(ids: seq<int>, n: nat)
    requires n <= |ids|
    ensures AllShares([], ids, n) == multiset{}
  {
    if n > 0 { NoSharesAtAll(ids, n - 1); }
  }

  ghost predicate GrowsAt(children: seq<Child>, more: seq<Child>, c: Child, ids: seq<int>, t: nat, i: nat)
    requires i < |ids|
  {
    multiset(Share(more, ids, i)) ==
      if t == i then multiset(Share(children, ids, i)) + multiset{c} else multiset(Share(children, ids, i))
  }

  /** If one more child makes only node t's share grow, the total grows by that child. */
  lemma {:induction false} OneMore(children: seq<Child>, more: seq<Child>, c: Child, ids: seq<int>, t: nat, n: nat)
    requires n <= |ids|
    requires forall i :: 0 <= i < n ==> GrowsAt(children, more, c, ids, t, i)
    ensures AllShares(more, ids, n) ==
      if t < n then AllShares(children, ids, n) + multiset{c} else AllShares(children, ids, n)
    decreases n
  {
    if n > 0 {
      OneMore(children, more, c, ids, t, n - 1);
      assert GrowsAt(children, more, c, ids, t, n - 1);
      AddShare(AllShares(children, ids, n - 1), multiset(Share(children, ids, n - 1)), c,
        AllShares(more, ids, n - 1), multiset(Share(more, ids, n - 1)), t < n - 1, t == n - 1);
    }
  }

  lemma AddShare(a: multiset<Child>, b: multiset<Child>, c: Child, a': multiset<Child>, b': multiset<Child>,
                 inA: bool, inB: bool)
    requires !(inA && inB)
    requires a' == if inA then a + multiset{c} else a
    requires b' == if inB then b + multiset{c} else b
    ensures a' + b' == if inA || inB then (a + b) + multiset{c} else a + b
  {
  }

  lemma ShareGrows(children: seq<Child>, c: Child, ids: seq<int>, t: nat, i: nat)
    requires i < |ids| && c.fk.Some? && c.fk.value in ids && t == LastIndex(ids, c.fk.value)
    ensures multiset(Share(children + [c], ids, i)) ==
      if t == i then multiset(Share(children, ids, i)) + multiset{c} else multiset(Share(children, ids, i))
  {
    ShareNext(children, c, ids, i);
    if t != i {
      assert Share(children, ids, i) + [] == Share(children, ids, i);
    }
  }
}
