/** Updating the edges of an ActionSummary: what the setters record in the mutation
    (ent/gen/ent/mutation.go) and the clear and add lists sqlSave builds from it
    (ent/gen/ent/actionsummary_update.go), against the calls taken one after another. */
module EdgeUpdates {
  import opened Wrappers

  datatype EdgeName = MetricsEdge | ActionDataEdge | RunnerCountEdge | CacheStatisticsEdge

  predicate Unique(e: EdgeName) { e.MetricsEdge? || e.CacheStatisticsEdge? }

  /** An entry of the update's lists; a clear entry without nodes clears the whole edge. */
  datatype EdgeSpec = EdgeSpec(edge: EdgeName, nodes: seq<int>)

  datatype Spec = Spec(clear: seq<EdgeSpec>, add: seq<EdgeSpec>)

  function Members(nodes: seq<int>): set<int> {
    set n | n in nodes
  }

  /** What the database does to the neighbours along one edge: clear entries first, then add
      entries; adding to a unique edge replaces its neighbour. */
  function ClearOne(spec: EdgeSpec, e: EdgeName, s: set<int>): set<int> {
    if spec.edge != e then s else if spec.nodes == [] then {} else s - Members(spec.nodes)
  }

  function AddOne(spec: EdgeSpec, e: EdgeName, s: set<int>): set<int> {
    if spec.edge != e then s else if Unique(e) then Members(spec.nodes) else s + Members(spec.nodes)
  }

  function ClearAll(specs: seq<EdgeSpec>, e: EdgeName, s: set<int>): set<int> {
    if specs == [] then s else ClearOne(specs[|specs| - 1], e, ClearAll(specs[..|specs| - 1], e, s))
  }

  function AddAll(specs: seq<EdgeSpec>, e: EdgeName, s: set<int>): set<int> {
    if specs == [] then s else AddOne(specs[|specs| - 1], e, AddAll(specs[..|specs| - 1], e, s))
  }

  lemma ClearSnoc(specs: seq<EdgeSpec>, last: EdgeSpec)
    ensures forall e, s :: ClearAll(specs + [last], e, s) == ClearOne(last, e, ClearAll(specs, e, s))
  {
    assert (specs + [last])[..|specs|] == specs;
  }

  lemma AddSnoc(specs: seq<EdgeSpec>, last: EdgeSpec)
    ensures forall e, s :: AddAll(specs + [last], e, s) == AddOne(last, e, AddAll(specs, e, s))
  {
    assert (specs + [last])[..|specs|] == specs;
  }

  function Apply(spec: Spec, e: EdgeName, s: set<int>): set<int> {
    AddAll(spec.add, e, ClearAll(spec.clear, e, s))
  }

  // ---------------------------------------------------------------- what a mutation records

  /** The recorded changes of an edge; for a unique edge added holds at most its one target. */
  datatype Change = Change(added: set<int>, removed: set<int>, cleared: bool)

  /** The neighbours after saving the change. */
  function After(e: EdgeName, c: Change, s: set<int>): set<int> {
    Added(e, c, Cleared(c, s))
  }

  datatype Call = AddIDs(ids: seq<int>) | RemoveIDs(ids: seq<int>) | SetID(id: int) | Clear

  /** The setters of each edge: AddIDs and RemoveIDs for the to-many edges, SetID for the unique
      ones, and Clear for all. */
  predicate Fits(e: EdgeName, call: Call) {
    match call
    case AddIDs(_) => e == ActionDataEdge || e == RunnerCountEdge
    case RemoveIDs(_) => e == ActionDataEdge || e == RunnerCountEdge
    case SetID(_) => e == MetricsEdge || e == CacheStatisticsEdge
    case Clear => true
  }

  function Record(c: Change, call: Call): Change {
    match call
    case AddIDs(ids) => c.(added := c.added + Members(ids))
    case RemoveIDs(ids) => c.(added := c.added - Members(ids), removed := c.removed + Members(ids))
    case SetID(id) => c.(added := {id})
    case Clear => c.(cleared := true)
  }

  function RecordAll(calls: seq<Call>): Change {
    if calls == [] then Change({}, {}, false) else Record(RecordAll(calls[..|calls| - 1]), calls[|calls| - 1])
  }

  lemma SomeMember(s: set<int>)
    ensures s == {} || exists x :: x in s
  {
    if forall x :: x !in s {
      assert s == {};
    }
  }

  /** The part of a mutation that belongs to one edge. */
  class EdgeMutation {
    var added: set<int>
    var removed: set<int>
    var cleared: bool

    function Now(): Change
      reads this
    {
      Change(added, removed, cleared)
    }

    constructor ()
      ensures Now() == RecordAll([])
    {
      added, removed, cleared := {}, {}, false;
    }

    method Add(ids: seq<int>)
      modifies this
      ensures Now() == Record(old(Now()), AddIDs(ids))
    {
      for i := 0 to |ids|
        invariant Now() == old(Now()).(added := old(added) + Members(ids[..i]))
      {
        added := added + {ids[i]};
      }
      assert ids[..|ids|] == ids;
    }

    method Remove(ids: seq<int>)
      modifies this
      ensures Now() == Record(old(Now()), RemoveIDs(ids))
    {
      for i := 0 to |ids|
        invariant Now() == old(Now()).(added := old(added) - Members(ids[..i]), removed := old(removed) + Members(ids[..i]))
      {
        added := added - {ids[i]};
        removed := removed + {ids[i]};
      }
      assert ids[..|ids|] == ids;
    }

    method Set(id: int)
      modifies this
      ensures Now() == Record(old(Now()), SetID(id))
    {
      added := {id};
    }

    method ClearEdge()
      modifies this
      ensures Now() == Record(old(Now()), Clear)
    {
      cleared := true;
    }

    /** The recorded ids in some order. */
    method Listed(ids: set<int>) returns (nodes: seq<int>)
      ensures Members(nodes) == ids && (nodes == [] <==> ids == {})
    {
      nodes := [];
      var rest := ids;
      while rest != {}
        invariant Members(nodes) + rest == ids && Members(nodes) !! rest
        decreases |rest|
      {
        SomeMember(rest);
        var id :| id in rest;
        nodes := nodes + [id];
        rest := rest - {id};
      }
      assert nodes != [] ==> nodes[0] in Members(nodes);
    }

    /** The edge's block of sqlSave: at most one clear entry and at most one add entry, with the
        recorded effect on this edge and none on the others. */
    method AppendTo(e: EdgeName, spec: Spec) returns (r: Spec)
      ensures forall s :: ClearAll(r.clear, e, s) == Cleared(Now(), ClearAll(spec.clear, e, s))
      ensures forall s :: AddAll(r.add, e, s) == Added(e, Now(), AddAll(spec.add, e, s))
      ensures forall e', s :: e' != e ==>
        ClearAll(r.clear, e', s) == ClearAll(spec.clear, e', s) && AddAll(r.add, e', s) == AddAll(spec.add, e', s)
    {
      r := spec;
      if cleared {
        ClearSnoc(r.clear, EdgeSpec(e, []));
        r := r.(clear := r.clear + [EdgeSpec(e, [])]);
      }
      if removed != {} && !cleared {
        var nodes := Listed(removed);
        ClearSnoc(r.clear, EdgeSpec(e, nodes));
        r := r.(clear := r.clear + [EdgeSpec(e, nodes)]);
      }
      if added != {} {
        var nodes := Listed(added);
        AddSnoc(r.add, EdgeSpec(e, nodes));
        r := r.(add := r.add + [EdgeSpec(e, nodes)]);
      }
    }
  }

  function Cleared(c: Change, s: set<int>): set<int> {
    if c.cleared then {} else s - c.removed
  }

  function Added(e: EdgeName, c: Change, s: set<int>): set<int> {
    if Unique(e) && c.added != {} then c.added else s + c.added
  }

  // ---------------------------------------------------------------- the builder

  /** The update builder of one ActionSummary. */
  class ActionSummaryUpdate {
    const metrics: EdgeMutation
    const actionData: EdgeMutation
    const runnerCount: EdgeMutation
    const cacheStatistics: EdgeMutation
    var done: bool

    ghost predicate Separate() {
      metrics != actionData && metrics != runnerCount && metrics != cacheStatistics &&
      actionData != runnerCount && actionData != cacheStatistics && runnerCount != cacheStatistics
    }

    function Of(e: EdgeName): EdgeMutation {
      match e
      case MetricsEdge => metrics
      case ActionDataEdge => actionData
      case RunnerCountEdge => runnerCount
      case CacheStatisticsEdge => cacheStatistics
    }

    constructor ()
      ensures Separate() && !done && forall e :: fresh(Of(e)) && Of(e).Now() == RecordAll([])
    {
      metrics := new EdgeMutation();
      actionData := new EdgeMutation();
      runnerCount := new EdgeMutation();
      cacheStatistics := new EdgeMutation();
      done := false;
    }

    /** One setter call on one edge; the other edges keep their changes. */
    method Call(e: EdgeName, call: Call)
      requires Separate() && Fits(e, call)
      modifies Of(e)
      ensures Of(e).Now() == Record(old(Of(e).Now()), call)
    {
      match call
      case AddIDs(ids) => Of(e).Add(ids);
      case RemoveIDs(ids) => Of(e).Remove(ids);
      case SetID(id) => Of(e).Set(id);
      case Clear => Of(e).ClearEdge();
    }

    /** Builds the lists and hands them to the update, which fails or not; the mutation is done
        exactly if it did not. Saving leaves every edge as its recorded change says. */
    method SqlSave(fails: bool) returns (spec: Spec, ok: bool)
      modifies this
      ensures forall e, s :: Apply(spec, e, s) == After(e, Of(e).Now(), s)
      ensures ok == !fails && done == (old(done) || ok)
    {
      spec := Spec([], []);
      spec := metrics.AppendTo(MetricsEdge, spec);
      spec := actionData.AppendTo(ActionDataEdge, spec);
      spec := runnerCount.AppendTo(RunnerCountEdge, spec);
      spec := cacheStatistics.AppendTo(CacheStatisticsEdge, spec);
      if fails { return spec, false; }
      done := true;
      return spec, true;
    }
  }

  // ---------------------------------------------------------------- against the calls in order

  /** The calls taken one after another on the neighbours. */
  function InOrder(calls: seq<Call>, s: set<int>): set<int> {
    if calls == [] then s else
    var before := InOrder(calls[..|calls| - 1], s);
    match calls[|calls| - 1]
    case AddIDs(ids) => before + Members(ids)
    case RemoveIDs(ids) => before - Members(ids)
    case SetID(id) => {id}
    case Clear => {}
  }

  /** The ids that were added before a later Clear and not named again since. */
  function Stale(calls: seq<Call>): set<int> {
    if calls == [] then {} else
    var before := Stale(calls[..|calls| - 1]);
    match calls[|calls| - 1]
    case AddIDs(ids) => before - Members(ids)
    case RemoveIDs(ids) => before - Members(ids)
    case SetID(_) => {}
    case Clear => RecordAll(calls[..|calls| - 1]).added
  }

  /** Saving gives what the calls give in order, and besides it exactly the stale ids: a Clear
      does not cancel the additions recorded before it. */
  lemma {:induction false} SavedExact(e: EdgeName, calls: seq<Call>, s: set<int>)
    requires forall i :: 0 <= i < |calls| ==> Fits(e, calls[i])
    requires Unique(e) ==> |s| <= 1
    ensures After(e, RecordAll(calls), s) == InOrder(calls, s) + Stale(calls)
    ensures InOrder(calls, s) !! Stale(calls)
    ensures Stale(calls) <= RecordAll(calls).added
    ensures Unique(e) ==> RecordAll(calls).removed == {}
    decreases |calls|
  {
    if calls != [] {
      var init, last := calls[..|calls| - 1], calls[|calls| - 1];
      assert Fits(e, last);
      SavedExact(e, init, s);
    }
  }

  /** So the batch agrees with the calls in order, from every start, exactly if nothing is stale. */
  lemma BatchIsInOrder(e: EdgeName, calls: seq<Call>, s: set<int>)
    requires forall i :: 0 <= i < |calls| ==> Fits(e, calls[i])
    requires Unique(e) ==> |s| <= 1
    ensures After(e, RecordAll(calls), s) == InOrder(calls, s) <==> Stale(calls) == {}
    ensures Clear !in calls ==> Stale(calls) == {}
    ensures After(e, RecordAll(calls), s) >= InOrder(calls, s)
  {
    SavedExact(e, calls, s);
    NothingStale(calls);
  }

  /** Stale ids occur: added and then cleared, 1 is still a neighbour after saving. */
  lemma ClearedTooEarly()
    ensures Fits(ActionDataEdge, AddIDs([1])) && Fits(ActionDataEdge, Clear)
    ensures InOrder([AddIDs([1]), Clear], {}) == {}
    ensures After(ActionDataEdge, RecordAll([AddIDs([1]), Clear]), {}) == {1}
  {
  }

  lemma {:induction false} NothingStale(calls: seq<Call>)
    ensures Clear !in calls ==> Stale(calls) == {}
    decreases |calls|
  {
    if calls != [] && Clear !in calls {
      assert calls[|calls| - 1] in calls;
      NothingStale(calls[..|calls| - 1]);
    }
  }
}
