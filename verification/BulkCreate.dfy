/** Bulk creation (ent/gen/ent/action_create.go, ActionCreateBulk.Save, check and createSpec): a
    recursion through the builders' mutators that checks and describes every row before a single
    batch insert, and marks the mutations done on the way back. */
module BulkCreate {
  import opened Wrappers

  /** What a mutation holds: its set fields and the targets of its unique edges. */
  datatype Fields = Fields(
    id: Option<int>, labelText: Option<string>, kind: Option<string>,
    bazelInvocation: Option<int>, configuration: Option<int>, stdout: Option<int>, stderr: Option<int>)

  datatype Error = Missing(name: string) | Hooked(text: string) | Constraint

  datatype Node = Node(
    id: int, labelText: string, kind: string,
    bazelInvocationId: int, configurationId: int, stdoutFileId: int, stderrFileId: int)

  /** A row to insert: without an id the database assigns one. */
  datatype Spec = Spec(
    id: Option<int>, labelText: Option<string>, kind: Option<string>,
    bazelInvocation: Option<int>, configuration: Option<int>, stdout: Option<int>, stderr: Option<int>)

  /** A hook changes the mutation in place or refuses, calls its successor once, returns the
      successor's error, and may still fail after the successor succeeded. */
  datatype Hook = Hook(before: Fields -> Result<Fields, Error>, after: Node -> Option<Error>)

  datatype Builder = Builder(fields: Fields, hooks: seq<Hook>)

  datatype Mutation = Mutation(fields: Fields, id: Option<int>, done: bool)

  /** What happened, in order: the check of builder i, and the batch insert. */
  datatype Event = Check(i: nat, ok: bool) | Insert(ok: bool)

  /** The database's part: whether it accepts the batch, and the ids it would assign. */
  datatype Env = Env(accepts: bool, serials: seq<int>)

  datatype State = State(
    mutations: seq<Mutation>, specs: seq<Option<Spec>>, nodes: seq<Option<Node>>,
    db: map<int, Spec>, log: seq<Event>)

  function CheckFields(f: Fields): Option<Error> {
    if f.bazelInvocation.None? then Some(Missing("bazel_invocation_id"))
    else if f.configuration.None? then Some(Missing("configuration_id"))
    else if f.labelText.None? then Some(Missing("label"))
    else None
  }

  function NodeOf(f: Fields): Node {
    Node(f.id.GetOr(0), f.labelText.GetOr(""), f.kind.GetOr(""), f.bazelInvocation.GetOr(0),
         f.configuration.GetOr(0), f.stdout.GetOr(0), f.stderr.GetOr(0))
  }

  function SpecOf(f: Fields): Spec {
    Spec(f.id, f.labelText, f.kind, f.bazelInvocation, f.configuration, f.stdout, f.stderr)
  }

  // ---------------------------------------------------------------- the database contract

  /** The id of each row: the given one, or the one the database assigns at that position. */
  function RowIds(specs: seq<Spec>, serials: seq<int>): (r: seq<int>)
    requires |serials| == |specs|
    ensures |r| == |specs| && forall i :: 0 <= i < |r| ==> r[i] == specs[i].id.GetOr(serials[i])
  {
    if specs == [] then [] else [specs[0].id.GetOr(serials[0])] + RowIds(specs[1..], serials[1..])
  }

  predicate CanInsert(db: map<int, Spec>, ids: seq<int>) {
    ids == [] || (ids[0] !in db && ids[0] !in ids[1..] && CanInsert(db, ids[1..]))
  }

  function WithIds(specs: seq<Spec>, ids: seq<int>): (r: seq<Spec>)
    requires |ids| == |specs|
    ensures |r| == |specs| && forall i :: 0 <= i < |r| ==> r[i] == specs[i].(id := Some(ids[i]))
  {
    if specs == [] then [] else [specs[0].(id := Some(ids[0]))] + WithIds(specs[1..], ids[1..])
  }

  function Store(db: map<int, Spec>, specs: seq<Spec>): map<int, Spec>
    requires forall s :: s in specs ==> s.id.Some?
  {
    if specs == [] then db
    else
      var init, last := specs[..|specs| - 1], specs[|specs| - 1];
      Store(db, init)[last.id.value := last]
  }

  /** sqlgraph.BatchCreate: every row is inserted under its id, or the database is unchanged. On
      success each spec carries its id. */
  function BatchCreate(db: map<int, Spec>, specs: seq<Spec>, env: Env): Option<(map<int, Spec>, seq<Spec>)>
    requires |env.serials| == |specs|
  {
    var ids := RowIds(specs, env.serials);
    if env.accepts && CanInsert(db, ids) then Some((Store(db, WithIds(specs, ids)), WithIds(specs, ids))) else None
  }

  // ---------------------------------------------------------------- the mutator chain

  function Values(specs: seq<Option<Spec>>): (r: seq<Spec>)
    requires forall i :: 0 <= i < |specs| ==> specs[i].Some?
    ensures |r| == |specs| && forall i :: 0 <= i < |r| ==> specs[i] == Some(r[i])
  {
    if specs == [] then [] else [specs[0].value] + Values(specs[1..])
  }

  function Somes(specs: seq<Spec>): (r: seq<Option<Spec>>)
    ensures |r| == |specs| && forall i :: 0 <= i < |r| ==> r[i] == Some(specs[i])
  {
    if specs == [] then [] else [Some(specs[0])] + Somes(specs[1..])
  }

  ghost predicate Sized(bs: seq<Builder>, env: Env, st: State) {
    |st.mutations| == |st.specs| == |st.nodes| == |bs| == |env.serials|
  }

  /** The chain has come down to builder i: all earlier rows are described. */
  ghost predicate Reached(bs: seq<Builder>, env: Env, st: State, i: nat) {
    Sized(bs, env, st) && i < |bs| && forall j :: 0 <= j < i ==> st.specs[j].Some?
  }

  /** The last step down: the batch insert. */
  function InsertAll(env: Env, st: State): (State, Option<Error>)
    requires |env.serials| == |st.specs| && forall j :: 0 <= j < |st.specs| ==> st.specs[j].Some?
  {
    match BatchCreate(st.db, Values(st.specs), env)
    case None => (st.(log := st.log + [Insert(false)]), Some(Constraint))
    case Some((db, specs)) => (st.(db := db, specs := Somes(specs), log := st.log + [Insert(true)]), None)
  }

  /** The way back up: the node takes its id from the inserted row and the mutation is done. */
  function Finish(st: State, i: nat): State
    requires i < |st.nodes| == |st.specs| == |st.mutations|
    requires st.nodes[i].Some? && st.specs[i].Some?
  {
    var node := st.nodes[i].value;
    var node' := if st.specs[i].value.id.Some? && node.id == 0 then node.(id := st.specs[i].value.id.value) else node;
    st.(nodes := st.nodes[i := Some(node')],
        mutations := st.mutations[i := st.mutations[i].(id := Some(node'.id), done := true)])
  }

  /** A hook changed the fields of mutation i. */
  function WithFields(st: State, i: nat, f: Fields): State
    requires i < |st.mutations|
  {
    st.(mutations := st.mutations[i := st.mutations[i].(fields := f)])
  }

  /** What checking and describing builder i makes of the state. */
  function Describe(st: State, i: nat): State
    requires i < |st.mutations| == |st.nodes| == |st.specs|
  {
    var f := st.mutations[i].fields;
    st.(log := st.log + [Check(i, true)], nodes := st.nodes[i := Some(NodeOf(f))], specs := st.specs[i := Some(SpecOf(f))])
  }

  /** What the chain from builder i on leaves alone, and that success describes every row. */
  ghost predicate Kept(bs: seq<Builder>, env: Env, st: State, i: nat, r: (State, Option<Error>))
    requires Sized(bs, env, st) && i <= |bs|
  {
    && Sized(bs, env, r.0)
    && (forall j :: 0 <= j < i ==> r.0.nodes[j] == st.nodes[j] && r.0.mutations[j] == st.mutations[j])
    && (r.1.None? ==> forall j :: 0 <= j < |bs| ==> r.0.specs[j].Some?)
    && (r.1.None? ==> forall j :: i <= j < |bs| ==> r.0.nodes[j].Some?)
  }

  lemma InsertKept(bs: seq<Builder>, env: Env, st: State)
    requires Sized(bs, env, st) && forall j :: 0 <= j < |st.specs| ==> st.specs[j].Some?
    ensures Kept(bs, env, st, |bs|, InsertAll(env, st))
  {
  }

  lemma FinishKept(bs: seq<Builder>, env: Env, st: State, i: nat, below: (State, Option<Error>))
    requires Reached(bs, env, st, i) && Kept(bs, env, Describe(st, i), i + 1, below)
    ensures below.0.nodes[i] == Some(NodeOf(st.mutations[i].fields)) && below.0.mutations[i] == st.mutations[i]
    ensures below.1.Some? ==> Kept(bs, env, st, i, below)
    ensures below.1.None? ==> Kept(bs, env, st, i, (Finish(below.0, i), None))
  {
  }

  /** mutators[i] from its h-th hook inwards. */
  function Mutate(bs: seq<Builder>, env: Env, st: State, i: nat, h: nat): (r: (State, Option<Error>))
    requires Reached(bs, env, st, i) && h <= |bs[i].hooks|
    ensures Kept(bs, env, st, i, r)
    decreases |bs| - i, |bs[i].hooks| - h
  {
    if h < |bs[i].hooks| then
      match bs[i].hooks[h].before(st.mutations[i].fields)
      case Err(e) => (st, Some(e))
      case Ok(f) =>
        var (st2, err) := Mutate(bs, env, WithFields(st, i, f), i, h + 1);
        if err.Some? then (st2, err) else (st2, bs[i].hooks[h].after(st2.nodes[i].value))
    else
      var err := CheckFields(st.mutations[i].fields);
      if err.Some? then (st.(log := st.log + [Check(i, false)]), err) else MutateBelow(bs, env, st, i)
  }

  /** The rest of mutators[i] once the fields are checked. */
  function MutateBelow(bs: seq<Builder>, env: Env, st: State, i: nat): (r: (State, Option<Error>))
    requires Reached(bs, env, st, i)
    ensures Kept(bs, env, st, i, r)
    decreases |bs| - i, -1
  {
    var d := Describe(st, i);
    var below := if i < |bs| - 1 then Mutate(bs, env, d, i + 1, 0) else InsertBelow(bs, env, d);
    FinishKept(bs, env, st, i, below);
    if below.1.Some? then below else (Finish(below.0, i), None)
  }

  function InsertBelow(bs: seq<Builder>, env: Env, st: State): (r: (State, Option<Error>))
    requires Sized(bs, env, st) && forall j :: 0 <= j < |st.specs| ==> st.specs[j].Some?
    ensures Kept(bs, env, st, |bs|, r)
  {
    InsertKept(bs, env, st);
    InsertAll(env, st)
  }

  function Initial(bs: seq<Builder>, db: map<int, Spec>): State {
    State(seq(|bs|, i requires 0 <= i < |bs| => Mutation(bs[i].fields, None, false)),
          seq(|bs|, i => None), seq(|bs|, i => None), db, [])
  }

  class ActionCreateBulk {
    const builders: seq<Builder>
    const env: Env
    var mutations: seq<Mutation>
    var specs: seq<Option<Spec>>
    var nodes: seq<Option<Node>>
    var db: map<int, Spec>
    var log: seq<Event>

    constructor (builders: seq<Builder>, env: Env, db: map<int, Spec>)
      ensures this.builders == builders && this.env == env && Now() == Initial(builders, db)
    {
      this.builders, this.env := builders, env;
      mutations := seq(|builders|, i requires 0 <= i < |builders| => Mutation(builders[i].fields, None, false));
      specs, nodes := seq(|builders|, i => None), seq(|builders|, i => None);
      this.db, log := db, [];
    }

    function Now(): State
      reads this
    {
      State(mutations, specs, nodes, db, log)
    }

    method InsertBatch() returns (err: Option<Error>)
      requires Sized(builders, env, Now()) && forall j :: 0 <= j < |specs| ==> specs[j].Some?
      modifies this
      ensures (Now(), err) == InsertAll(env, old(Now()))
    {
      match BatchCreate(db, Values(specs), env) {
        case None =>
          log, err := log + [Insert(false)], Some(Constraint);
        case Some(result) =>
          db, specs := result.0, Somes(result.1);
          log, err := log + [Insert(true)], None;
      }
    }

    method MutateFrom(i: nat, h: nat) returns (err: Option<Error>)
      requires Reached(builders, env, Now(), i) && h <= |builders[i].hooks|
      modifies this
      ensures (Now(), err) == Mutate(builders, env, old(Now()), i, h)
      decreases |builders| - i, |builders[i].hooks| - h
    {
      if h < |builders[i].hooks| {
        var f := builders[i].hooks[h].before(mutations[i].fields);
        if f.Err? { return Some(f.error); }
        mutations := mutations[i := mutations[i].(fields := f.value)];
        err := MutateFrom(i, h + 1);
        if err.None? {
          err := builders[i].hooks[h].after(nodes[i].value);
        }
        return;
      }
      err := CheckFields(mutations[i].fields);
      log := log + [Check(i, err.None?)];
      if err.Some? { return; }
      nodes := nodes[i := Some(NodeOf(mutations[i].fields))];
      specs := specs[i := Some(SpecOf(mutations[i].fields))];
      if i < |builders| - 1 {
        err := MutateFrom(i + 1, 0);
      } else {
        err := InsertBatch();
      }
      if err.Some? { return; }
      var node := nodes[i].value;
      if specs[i].value.id.Some? && node.id == 0 {
        node := node.(id := specs[i].value.id.value);
      }
      nodes := nodes[i := Some(node)];
      mutations := mutations[i := mutations[i].(id := Some(node.id), done := true)];
    }

    method Save() returns (err: Option<Error>)
      requires Sized(builders, env, Now())
      modifies this
      ensures (Now(), err) == RunSave(builders, env, old(Now()))
    {
      err := None;
      if |builders| > 0 {
        err := MutateFrom(0, 0);
      }
    }
  }

  function RunSave(bs: seq<Builder>, env: Env, st: State): (State, Option<Error>)
    requires Sized(bs, env, st)
  {
    if bs == [] then (st, None) else Mutate(bs, env, st, 0, 0)
  }

  // ---------------------------------------------------------------- what a run leaves behind

  ghost function Checks(n: nat): seq<Event> {
    seq(n, i requires 0 <= i < n => Check(i, true))
  }

  lemma ChecksNext(i: nat)
    ensures Checks(i) + [Check(i, true)] == Checks(i + 1)
  {
  }

  /** The fields of a mutation after the hooks from h on have run on the way down. */
  function BeforeFrom(hooks: seq<Hook>, h: nat, f: Fields): Result<Fields, Error>
    requires h <= |hooks|
    decreases |hooks| - h
  {
    if h == |hooks| then Ok(f) else
    match hooks[h].before(f)
    case Err(e) => Err(e)
    case Ok(g) => BeforeFrom(hooks, h + 1, g)
  }

  /** Some hook from h on fails after its successor succeeded. */
  ghost predicate AfterFails(hooks: seq<Hook>, h: nat, node: Node) {
    exists g :: h <= g < |hooks| && hooks[g].after(node).Some?
  }

  /** The error is that of the innermost hook from h on that fails so. */
  ghost predicate LateError(hooks: seq<Hook>, h: nat, node: Node, e: Error) {
    exists g :: h <= g < |hooks| && hooks[g].after(node) == Some(e) && !AfterFails(hooks, g + 1, node)
  }

  /** On the way down to builder i, with the hooks before h already run. */
  ghost predicate Descending(bs: seq<Builder>, env: Env, st: State, i: nat, h: nat) {
    && Reached(bs, env, st, i) && h <= |bs[i].hooks| && st.log == Checks(i)
    && forall j :: i <= j < |bs| ==> !st.mutations[j].done
  }

  /** Nothing was inserted: the run stopped at a hook, at a check or at the database. */
  ghost predicate Stopped(bs: seq<Builder>, env: Env, st: State, r: State, err: Option<Error>)
    requires Sized(bs, env, st) && Sized(bs, env, r)
  {
    && err.Some? && r.db == st.db
    && (forall j :: 0 <= j < |bs| ==> r.mutations[j].done == st.mutations[j].done)
    && ((exists m: nat :: m < |bs| && (r.log == Checks(m) || r.log == Checks(m) + [Check(m, false)])) ||
        (r.log == Checks(|bs|) + [Insert(false)] && err == Some(Constraint)))
  }

  const NO_FIELDS := Fields(None, None, None, None, None, None, None)

  /** The rows of the batch: those described before builder i, then one per remaining builder. */
  ghost function Batch(st: State, r: State, i: nat): seq<Spec>
    requires i <= |st.specs| == |r.mutations| && forall j :: 0 <= j < i ==> st.specs[j].Some?
  {
    seq(|st.specs|, j requires 0 <= j < |st.specs| =>
      if j < i then st.specs[j].value else SpecOf(r.mutations[j].fields))
  }

  /** The row was inserted from the builder's hooked and checked fields. */
  ghost predicate Described(b: Builder, h: nat, before: Mutation, after: Mutation)
    requires h <= |b.hooks|
  {
    BeforeFrom(b.hooks, h, before.fields) == Ok(after.fields) && CheckFields(after.fields).None?
  }

  /** The node and the mutation of a finished builder carry the id of the inserted row. */
  ghost predicate Finished(mutation: Mutation, node: Option<Node>, spec: Option<Spec>) {
    && mutation.done && spec.Some? && spec.value.id.Some? && mutation.id == spec.value.id
    && node == Some(NodeOf(mutation.fields).(id := spec.value.id.value))
  }

  /** The database and the specs are those of the one batch, described by the hooked fields. */
  ghost predicate RowsInserted(bs: seq<Builder>, env: Env, st: State, i: nat, h: nat, r: State)
    requires Sized(bs, env, r) && Reached(bs, env, st, i) && h <= |bs[i].hooks|
  {
    && r.log == Checks(|bs|) + [Insert(true)]
    && BatchCreate(st.db, Batch(st, r, i), env) == Some((r.db, Specs(r)))
    && (forall j :: 0 <= j < |bs| ==> r.specs[j].Some?)
    && Described(bs[i], h, st.mutations[i], r.mutations[i])
    && (forall j :: i < j < |bs| ==> Described(bs[j], 0, st.mutations[j], r.mutations[j]))
  }

  ghost function Specs(r: State): seq<Spec> {
    seq(|r.specs|, j requires 0 <= j < |r.specs| => if r.specs[j].Some? then r.specs[j].value else SpecOf(NO_FIELDS))
  }

  /** Exactly the builders from k on are finished. */
  ghost predicate FinishedFrom(bs: seq<Builder>, env: Env, r: State, i: nat, k: nat)
    requires Sized(bs, env, r)
  {
    && i <= k < |bs|
    && (forall j :: i <= j < k ==> !r.mutations[j].done)
    && (forall j :: k <= j < |bs| ==> Finished(r.mutations[j], r.nodes[j], r.specs[j]))
  }

  /** The outcome is an error exactly if a hook fails afterwards; the innermost builder with such
      a hook is k. */
  ghost predicate FailsAfter(bs: seq<Builder>, r: State, i: nat, h: nat, err: Option<Error>, k: nat)
    requires |r.nodes| == |bs| && i <= k < |bs| && forall j :: k <= j < |bs| ==> r.nodes[j].Some?
  {
    && (forall j :: k < j < |bs| ==> !AfterFails(bs[j].hooks, 0, r.nodes[j].value))
    && (if err.Some? then LateError(bs[k].hooks, if k == i then h else 0, r.nodes[k].value, err.value)
        else k == i && !AfterFails(bs[i].hooks, h, r.nodes[i].value))
  }

  ghost predicate Inserted(bs: seq<Builder>, env: Env, st: State, i: nat, h: nat, r: State, err: Option<Error>, k: nat)
    requires Sized(bs, env, r) && Reached(bs, env, st, i) && h <= |bs[i].hooks|
  {
    && RowsInserted(bs, env, st, i, h, r) && FinishedFrom(bs, env, r, i, k) && FailsAfter(bs, r, i, h, err, k)
  }

  lemma RowsThroughHook(bs: seq<Builder>, env: Env, st: State, st1: State, i: nat, h: nat, f: Fields, r: State)
    requires Sized(bs, env, r) && Reached(bs, env, st, i) && h < |bs[i].hooks|
    requires bs[i].hooks[h].before(st.mutations[i].fields) == Ok(f)
    requires st1 == WithFields(st, i, f)
    requires RowsInserted(bs, env, st1, i, h + 1, r)
    ensures RowsInserted(bs, env, st, i, h, r)
  {
    assert Batch(st1, r, i) == Batch(st, r, i);
    assert forall j :: i < j < |bs| ==> st1.mutations[j] == st.mutations[j];
  }

  lemma InsertedThroughHook(bs: seq<Builder>, env: Env, st: State, st1: State, i: nat, h: nat, f: Fields, r: State,
                            inner: Option<Error>, k: nat)
    requires Sized(bs, env, r) && Reached(bs, env, st, i) && h < |bs[i].hooks|
    requires bs[i].hooks[h].before(st.mutations[i].fields) == Ok(f)
    requires st1 == WithFields(st, i, f)
    requires Inserted(bs, env, st1, i, h + 1, r, inner, k)
    ensures inner.Some? ==> Inserted(bs, env, st, i, h, r, inner, k)
    ensures inner.None? ==> r.nodes[i].Some? && Inserted(bs, env, st, i, h, r, bs[i].hooks[h].after(r.nodes[i].value), k)
  {
    RowsThroughHook(bs, env, st, st1, i, h, f, r);
  }

  lemma RowsFromBelow(bs: seq<Builder>, env: Env, st: State, d: State, i: nat, r: State)
    requires Sized(bs, env, r) && Reached(bs, env, st, i) && i + 1 < |bs| && d == Describe(st, i)
    requires CheckFields(st.mutations[i].fields).None? && r.mutations[i] == st.mutations[i]
    requires RowsInserted(bs, env, d, i + 1, 0, r)
    ensures RowsInserted(bs, env, st, i, |bs[i].hooks|, r)
  {
    assert Batch(d, r, i + 1) == Batch(st, r, i);
  }

  lemma RowsFinished(bs: seq<Builder>, env: Env, st: State, i: nat, h: nat, r: State)
    requires Sized(bs, env, r) && Reached(bs, env, st, i) && h <= |bs[i].hooks|
    requires RowsInserted(bs, env, st, i, h, r) && r.nodes[i].Some?
    ensures RowsInserted(bs, env, st, i, h, Finish(r, i))
  {
    var e := Finish(r, i);
    assert Batch(st, e, i) == Batch(st, r, i);
    assert Specs(e) == Specs(r);
  }

  lemma FinishBuilder(bs: seq<Builder>, env: Env, st: State, i: nat, r: State)
    requires Sized(bs, env, r) && Reached(bs, env, st, i) && RowsInserted(bs, env, st, i, |bs[i].hooks|, r)
    requires r.nodes[i] == Some(NodeOf(r.mutations[i].fields))
    ensures Finished(Finish(r, i).mutations[i], Finish(r, i).nodes[i], Finish(r, i).specs[i])
  {
    RowOf(st.db, Batch(st, r, i), env, i);
    assert Specs(r)[i] == r.specs[i].value;
  }

  lemma FinishMarks(bs: seq<Builder>, env: Env, r: State, i: nat)
    requires Sized(bs, env, r) && i + 1 < |bs| && r.nodes[i].Some? && r.specs[i].Some?
    requires FinishedFrom(bs, env, r, i + 1, i + 1) && FailsAfter(bs, r, i + 1, 0, None, i + 1)
    requires Finished(Finish(r, i).mutations[i], Finish(r, i).nodes[i], r.specs[i])
    ensures FinishedFrom(bs, env, Finish(r, i), i, i) && FailsAfter(bs, Finish(r, i), i, |bs[i].hooks|, None, i)
  {
    var e := Finish(r, i);
    forall j | i <= j < |bs|
      ensures Finished(e.mutations[j], e.nodes[j], e.specs[j])
    {
      if j > i {
        assert e.mutations[j] == r.mutations[j] && e.nodes[j] == r.nodes[j] && e.specs[j] == r.specs[j];
      }
    }
  }

  lemma ErrorFromBelow(bs: seq<Builder>, env: Env, st: State, d: State, i: nat, r: State, inner: Option<Error>, k: nat)
    requires Sized(bs, env, r) && Reached(bs, env, st, i) && i + 1 < |bs| && d == Describe(st, i)
    requires CheckFields(st.mutations[i].fields).None? && !st.mutations[i].done
    requires Inserted(bs, env, d, i + 1, 0, r, inner, k) && inner.Some? && r.mutations[i] == st.mutations[i]
    ensures Inserted(bs, env, st, i, |bs[i].hooks|, r, inner, k)
  {
    RowsFromBelow(bs, env, st, d, i, r);
  }

  /** The rows of a finished builder, from those of the builders below. */
  lemma FinishedRows(bs: seq<Builder>, env: Env, st: State, d: State, i: nat, r: State)
    requires Sized(bs, env, r) && Reached(bs, env, st, i) && i + 1 < |bs| && d == Describe(st, i)
    requires CheckFields(st.mutations[i].fields).None? && RowsInserted(bs, env, d, i + 1, 0, r)
    requires r.mutations[i] == st.mutations[i] && r.nodes[i] == Some(NodeOf(st.mutations[i].fields))
    ensures r.specs[i].Some? && RowsInserted(bs, env, st, i, |bs[i].hooks|, Finish(r, i))
    ensures Finished(Finish(r, i).mutations[i], Finish(r, i).nodes[i], Finish(r, i).specs[i])
  {
    RowsFromBelow(bs, env, st, d, i, r);
    RowsFinished(bs, env, st, i, |bs[i].hooks|, r);
    FinishBuilder(bs, env, st, i, r);
  }

  lemma FinishedFromBelow(bs: seq<Builder>, env: Env, st: State, d: State, i: nat, r: State, k: nat)
    requires Sized(bs, env, r) && Reached(bs, env, st, i) && i + 1 < |bs| && d == Describe(st, i)
    requires CheckFields(st.mutations[i].fields).None?
    requires Inserted(bs, env, d, i + 1, 0, r, None, k)
    requires r.mutations[i] == st.mutations[i] && r.nodes[i] == Some(NodeOf(st.mutations[i].fields))
    ensures r.specs[i].Some? && Inserted(bs, env, st, i, |bs[i].hooks|, Finish(r, i), None, i)
  {
    FinishedRows(bs, env, st, d, i, r);
    FinishMarks(bs, env, r, i);
  }

  lemma InsertedFromBelow(bs: seq<Builder>, env: Env, st: State, d: State, i: nat, r: State, inner: Option<Error>, k: nat)
    requires Sized(bs, env, r) && Reached(bs, env, st, i) && i + 1 < |bs| && d == Describe(st, i)
    requires CheckFields(st.mutations[i].fields).None? && !st.mutations[i].done
    requires Inserted(bs, env, d, i + 1, 0, r, inner, k)
    requires r.mutations[i] == st.mutations[i] && r.nodes[i] == Some(NodeOf(st.mutations[i].fields))
    ensures inner.Some? ==> Inserted(bs, env, st, i, |bs[i].hooks|, r, inner, k)
    ensures inner.None? ==> r.specs[i].Some? && Inserted(bs, env, st, i, |bs[i].hooks|, Finish(r, i), None, i)
  {
    if inner.Some? {
      ErrorFromBelow(bs, env, st, d, i, r, inner, k);
    } else {
      FinishedFromBelow(bs, env, st, d, i, r, k);
    }
  }

  lemma RowOf(db: map<int, Spec>, specs: seq<Spec>, env: Env, i: nat)
    requires |specs| == |env.serials| && i < |specs| && BatchCreate(db, specs, env).Some?
    ensures BatchCreate(db, specs, env).value.1[i] == specs[i].(id := Some(specs[i].id.GetOr(env.serials[i])))
  {
  }

  lemma DescribedBatch(st: State, i: nat)
    requires |st.mutations| == |st.nodes| == |st.specs| == i + 1 && forall j :: 0 <= j < i ==> st.specs[j].Some?
    ensures Values(Describe(st, i).specs) == Batch(st, Describe(st, i), i)
  {
  }

  lemma SpecsOfSomes(r: State, specs: seq<Spec>)
    requires r.specs == Somes(specs)
    ensures Specs(r) == specs
  {
  }

  lemma BottomRows(bs: seq<Builder>, env: Env, st: State, i: nat)
    requires Reached(bs, env, st, i) && Descending(bs, env, st, i, |bs[i].hooks|) && i + 1 == |bs|
    requires CheckFields(st.mutations[i].fields).None? && InsertAll(env, Describe(st, i)).1.None?
    ensures
      var r := InsertAll(env, Describe(st, i)).0;
      && Sized(bs, env, r) && RowsInserted(bs, env, st, i, |bs[i].hooks|, r)
      && r.nodes[i] == Some(NodeOf(r.mutations[i].fields)) && r.specs[i].Some?
  {
    var d := Describe(st, i);
    ChecksNext(i);
    var r := InsertAll(env, d).0;
    DescribedBatch(st, i);
    assert Batch(st, r, i) == Batch(st, d, i);
    SpecsOfSomes(r, BatchCreate(st.db, Values(d.specs), env).value.1);
  }

  lemma LastFinished(bs: seq<Builder>, env: Env, r: State, i: nat)
    requires Sized(bs, env, r) && i + 1 == |bs| && Finished(r.mutations[i], r.nodes[i], r.specs[i])
    ensures FinishedFrom(bs, env, r, i, i) && FailsAfter(bs, r, i, |bs[i].hooks|, None, i)
  {
  }

  lemma InsertedAtBottom(bs: seq<Builder>, env: Env, st: State, i: nat)
    requires Reached(bs, env, st, i) && Descending(bs, env, st, i, |bs[i].hooks|) && i + 1 == |bs|
    requires CheckFields(st.mutations[i].fields).None?
    ensures
      var (r, err) := InsertAll(env, Describe(st, i));
      if err.Some? then Stopped(bs, env, st, r, err)
      else r.nodes[i].Some? && r.specs[i].Some? && Inserted(bs, env, st, i, |bs[i].hooks|, Finish(r, i), None, i)
  {
    var (r, err) := InsertAll(env, Describe(st, i));
    if err.None? {
      BottomRows(bs, env, st, i);
      RowsFinished(bs, env, st, i, |bs[i].hooks|, r);
      FinishBuilder(bs, env, st, i, r);
      LastFinished(bs, env, Finish(r, i), i);
    } else {
      ChecksNext(i);
    }
  }

  /** Either nothing was inserted and no mark changed, or everything was inserted and the builders
      from some k on are finished. */
  ghost predicate OutcomeOf(bs: seq<Builder>, env: Env, st: State, i: nat, h: nat, r: State, err: Option<Error>, k: nat)
    requires Sized(bs, env, r) && Reached(bs, env, st, i) && h <= |bs[i].hooks|
  {
    Stopped(bs, env, st, r, err) || Inserted(bs, env, st, i, h, r, err, k)
  }

  lemma OutcomeOfHook(bs: seq<Builder>, env: Env, st: State, st1: State, i: nat, h: nat, f: Fields, k: nat)
    requires Descending(bs, env, st, i, h) && h < |bs[i].hooks|
    requires bs[i].hooks[h].before(st.mutations[i].fields) == Ok(f)
    requires st1 == WithFields(st, i, f)
    requires OutcomeOf(bs, env, st1, i, h + 1, Mutate(bs, env, st1, i, h + 1).0, Mutate(bs, env, st1, i, h + 1).1, k)
    ensures OutcomeOf(bs, env, st, i, h, Mutate(bs, env, st, i, h).0, Mutate(bs, env, st, i, h).1, k)
  {
    var (r, inner) := Mutate(bs, env, st1, i, h + 1);
    if Inserted(bs, env, st1, i, h + 1, r, inner, k) {
      InsertedThroughHook(bs, env, st, st1, i, h, f, r, inner, k);
    }
  }

  lemma OutcomeOfStep(bs: seq<Builder>, env: Env, st: State, d: State, i: nat, k: nat) returns (k': nat)
    requires Reached(bs, env, st, i) && Descending(bs, env, st, i, |bs[i].hooks|) && i + 1 < |bs|
    requires CheckFields(st.mutations[i].fields).None? && d == Describe(st, i) && Reached(bs, env, d, i + 1)
    requires OutcomeOf(bs, env, d, i + 1, 0, Mutate(bs, env, d, i + 1, 0).0, Mutate(bs, env, d, i + 1, 0).1, k)
    ensures
      var (r, err) := Mutate(bs, env, st, i, |bs[i].hooks|);
      OutcomeOf(bs, env, st, i, |bs[i].hooks|, r, err, k')
  {
    var (r, inner) := Mutate(bs, env, d, i + 1, 0);
    k' := if inner.None? then i else k;
    if Inserted(bs, env, d, i + 1, 0, r, inner, k) {
      InsertedFromBelow(bs, env, st, d, i, r, inner, k);
    }
  }

  lemma OutcomeOfCheck(bs: seq<Builder>, env: Env, st: State, i: nat)
    requires Reached(bs, env, st, i) && Descending(bs, env, st, i, |bs[i].hooks|)
    requires CheckFields(st.mutations[i].fields).Some? || i + 1 == |bs|
    ensures
      var (r, err) := Mutate(bs, env, st, i, |bs[i].hooks|);
      OutcomeOf(bs, env, st, i, |bs[i].hooks|, r, err, i)
  {
    if CheckFields(st.mutations[i].fields).None? {
      InsertedAtBottom(bs, env, st, i);
    }
  }

  /** The whole chain from any point on the way down. */
  lemma {:induction false} MutateOutcome(bs: seq<Builder>, env: Env, st: State, i: nat, h: nat) returns (k: nat)
    requires Descending(bs, env, st, i, h)
    ensures OutcomeOf(bs, env, st, i, h, Mutate(bs, env, st, i, h).0, Mutate(bs, env, st, i, h).1, k)
    decreases |bs| - i, |bs[i].hooks| - h
  {
    k := i;
    if h < |bs[i].hooks| {
      var g := bs[i].hooks[h].before(st.mutations[i].fields);
      if g.Ok? {
        var st1 := WithFields(st, i, g.value);
        k := MutateOutcome(bs, env, st1, i, h + 1);
        OutcomeOfHook(bs, env, st, st1, i, h, g.value, k);
      }
    } else if CheckFields(st.mutations[i].fields).None? && i + 1 < |bs| {
      var d := Describe(st, i);
      ChecksNext(i);
      var k1 := MutateOutcome(bs, env, d, i + 1, 0);
      k := OutcomeOfStep(bs, env, st, d, i, k1);
    } else {
      OutcomeOfCheck(bs, env, st, i);
    }
  }

  // ---------------------------------------------------------------- Save as a whole

  lemma SaveOutcome(bs: seq<Builder>, env: Env, db: map<int, Spec>) returns (k: nat)
    requires |env.serials| == |bs| && bs != []
    ensures
      var st := Initial(bs, db);
      var (r, err) := RunSave(bs, env, st);
      OutcomeOf(bs, env, st, 0, 0, r, err, k)
  {
    var st := Initial(bs, db);
    assert Checks(0) == [];
    k := MutateOutcome(bs, env, st, 0, 0);
  }

  ghost predicate NoneDone(st: State) {
    forall j :: 0 <= j < |st.mutations| ==> !st.mutations[j].done
  }

  ghost predicate AllDone(st: State) {
    forall j :: 0 <= j < |st.mutations| ==> st.mutations[j].done
  }

  /** Every builder was checked, in order, before the one insert that ends the log. */
  ghost predicate InsertedOnce(log: seq<Event>, n: nat) {
    log == Checks(n) + [Insert(true)]
  }

  /** A batch insert is attempted at most once, as the last thing, and only after every check. */
  lemma InsertLast(bs: seq<Builder>, env: Env, db: map<int, Spec>, p: nat)
    requires |env.serials| == |bs| && bs != []
    requires
      var log := RunSave(bs, env, Initial(bs, db)).0.log;
      p < |log| && log[p].Insert?
    ensures
      var log := RunSave(bs, env, Initial(bs, db)).0.log;
      p == |bs| == |log| - 1 && log[..p] == Checks(|bs|)
  {
    var k := SaveOutcome(bs, env, db);
  }

  /** The entity is what reading the row back would give, absent columns as zero values. */
  predicate ShowsRow(n: Node, row: Spec) {
    && row.id == Some(n.id) && n.labelText == row.labelText.GetOr("") && n.kind == row.kind.GetOr("")
    && n.bazelInvocationId == row.bazelInvocation.GetOr(0) && n.configurationId == row.configuration.GetOr(0)
    && n.stdoutFileId == row.stdout.GetOr(0) && n.stderrFileId == row.stderr.GetOr(0)
  }

  /** The required columns are there. */
  predicate Complete(row: Spec) {
    row.bazelInvocation.Some? && row.configuration.Some? && row.labelText.Some?
  }

  /** Success means: one insert, rows stored, every mutation done, and node i is the hooked fields
      of builder i under the id of row i - the given one or the one the database assigned. Each
      node shows the row that was stored for it, and no stored row lacks a required column. */
  lemma SaveSucceeds(bs: seq<Builder>, env: Env, db: map<int, Spec>, i: nat)
    requires |env.serials| == |bs| && i < |bs| && RunSave(bs, env, Initial(bs, db)).1.None?
    ensures
      var r := RunSave(bs, env, Initial(bs, db)).0;
      && InsertedOnce(r.log, |bs|) && AllDone(r)
      && BeforeFrom(bs[i].hooks, 0, bs[i].fields) == Ok(r.mutations[i].fields)
      && var id := r.mutations[i].fields.id.GetOr(env.serials[i]);
      && r.nodes[i] == Some(NodeOf(r.mutations[i].fields).(id := id))
      && r.mutations[i].id == Some(id)
      && id in r.db && Stores(r.db[id], r.mutations[i].fields, id)
      && ShowsRow(r.nodes[i].value, r.db[id]) && Complete(r.db[id])
  {
    var st := Initial(bs, db);
    var k := SaveOutcome(bs, env, db);
    var r := RunSave(bs, env, st).0;
    var batch := Batch(st, r, 0);
    RowOf(db, batch, env, i);
    assert Specs(r)[i] == r.specs[i].value;
    assert Described(bs[i], 0, st.mutations[i], r.mutations[i]);
    StoredRow(db, batch, env, i);
  }

  lemma StoredRow(db: map<int, Spec>, specs: seq<Spec>, env: Env, i: nat)
    requires |env.serials| == |specs| && i < |specs| && BatchCreate(db, specs, env).Some?
    ensures
      var (db', rows) := BatchCreate(db, specs, env).value;
      rows[i].id.value in db' && db'[rows[i].id.value] == rows[i]
  {
    var ids := RowIds(specs, env.serials);
    DistinctIds(db, ids);
    StoreKeeps(db, WithIds(specs, ids), i);
  }

  lemma {:induction false} DistinctIds(db: map<int, Spec>, ids: seq<int>)
    requires CanInsert(db, ids)
    ensures forall i, j :: 0 <= i < j < |ids| ==> ids[i] != ids[j]
    ensures forall i :: 0 <= i < |ids| ==> ids[i] !in db
  {
    if ids != [] {
      DistinctIds(db, ids[1..]);
    }
  }

  lemma {:induction false} StoreKeeps(db: map<int, Spec>, rows: seq<Spec>, i: nat)
    requires i < |rows| && forall s :: s in rows ==> s.id.Some?
    requires forall a, b :: 0 <= a < b < |rows| ==> rows[a].id != rows[b].id
    ensures rows[i].id.value in Store(db, rows) && Store(db, rows)[rows[i].id.value] == rows[i]
    decreases |rows|
  {
    if i < |rows| - 1 {
      StoreKeeps(db, rows[..|rows| - 1], i);
    }
  }

  // ---------------------------------------------------------------- Save from its inputs

  /** What a row needs: a bazel invocation, a configuration and a label. */
  predicate HasRequired(f: Fields) {
    f.bazelInvocation.Some? && f.configuration.Some? && f.labelText.Some?
  }

  /** The error of a builder that is refused: its hook's, or the first missing field. */
  predicate IsRefusal(f: Result<Fields, Error>, e: Error) {
    match f
    case Err(hooked) => e == hooked
    case Ok(g) =>
      && (g.bazelInvocation.None? ==> e == Missing("bazel_invocation_id"))
      && (g.bazelInvocation.Some? && g.configuration.None? ==> e == Missing("configuration_id"))
      && (g.bazelInvocation.Some? && g.configuration.Some? ==> g.labelText.None? && e == Missing("label"))
  }

  /** The check asks for the required fields and for nothing else. */
  lemma CheckExact(f: Fields)
    ensures CheckFields(f).None? <==> HasRequired(f)
    ensures CheckFields(f).Some? ==> IsRefusal(Ok(f), CheckFields(f).value)
  {
  }

  /** The fields of builder j once the hooks still ahead of it on the way down have run. */
  ghost function Ahead(bs: seq<Builder>, env: Env, st: State, i: nat, h: nat, j: nat): Result<Fields, Error>
    requires Sized(bs, env, st) && i <= j < |bs| && h <= |bs[i].hooks|
  {
    BeforeFrom(bs[j].hooks, if j == i then h else 0, st.mutations[j].fields)
  }

  ghost predicate PassesAhead(bs: seq<Builder>, env: Env, st: State, i: nat, h: nat, j: nat)
    requires Sized(bs, env, st) && i <= j < |bs| && h <= |bs[i].hooks|
  {
    Ahead(bs, env, st, i, h, j).Ok? && HasRequired(Ahead(bs, env, st, i, h, j).value)
  }

  ghost predicate RestPasses(bs: seq<Builder>, env: Env, st: State, i: nat, h: nat)
    requires Sized(bs, env, st) && i < |bs| && h <= |bs[i].hooks|
  {
    forall j :: i <= j < |bs| ==> PassesAhead(bs, env, st, i, h, j)
  }

  /** The batch the chain is going to insert. */
  ghost function RowsAhead(bs: seq<Builder>, env: Env, st: State, i: nat, h: nat): seq<Spec>
    requires Reached(bs, env, st, i) && h <= |bs[i].hooks| && RestPasses(bs, env, st, i, h)
  {
    seq(|bs|, j requires 0 <= j < |bs| =>
      if j < i then st.specs[j].value
      else assert PassesAhead(bs, env, st, i, h, j); SpecOf(Ahead(bs, env, st, i, h, j).value))
  }

  ghost predicate NoInsert(log: seq<Event>) {
    forall p :: 0 <= p < |log| ==> log[p].Check?
  }

  /** From any point on the way down: the insert is attempted exactly if every remaining builder's
      hooks let it through and its check passes, and then with their rows. */
  ghost predicate Attempts(bs: seq<Builder>, env: Env, st: State, i: nat, h: nat, log: seq<Event>)
    requires Reached(bs, env, st, i) && h <= |bs[i].hooks|
  {
    if RestPasses(bs, env, st, i, h)
    then log == Checks(|bs|) + [Insert(BatchCreate(st.db, RowsAhead(bs, env, st, i, h), env).Some?)]
    else NoInsert(log)
  }

  lemma AttemptsThroughHook(bs: seq<Builder>, env: Env, st: State, i: nat, h: nat, f: Fields, log: seq<Event>)
    requires Descending(bs, env, st, i, h) && h < |bs[i].hooks|
    requires bs[i].hooks[h].before(st.mutations[i].fields) == Ok(f)
    requires Attempts(bs, env, WithFields(st, i, f), i, h + 1, log)
    ensures Attempts(bs, env, st, i, h, log)
  {
    var st1, h1 := WithFields(st, i, f), h + 1;
    if RestPasses(bs, env, st, i, h) {
      forall j | i <= j < |bs|
        ensures PassesAhead(bs, env, st1, i, h1, j)
      {
        assert PassesAhead(bs, env, st, i, h, j);
      }
      assert RowsAhead(bs, env, st1, i, h + 1) == RowsAhead(bs, env, st, i, h);
    } else {
      var j :| i <= j < |bs| && !PassesAhead(bs, env, st, i, h, j);
      assert !PassesAhead(bs, env, st1, i, h + 1, j);
    }
  }

  lemma AttemptsFromBelow(bs: seq<Builder>, env: Env, st: State, i: nat, log: seq<Event>)
    requires i + 1 < |bs| && Descending(bs, env, st, i, |bs[i].hooks|)
    requires CheckFields(st.mutations[i].fields).None?
    requires Attempts(bs, env, Describe(st, i), i + 1, 0, log)
    ensures Attempts(bs, env, st, i, |bs[i].hooks|, log)
  {
    var d, i1, h := Describe(st, i), i + 1, |bs[i].hooks|;
    assert PassesAhead(bs, env, st, i, h, i);
    if RestPasses(bs, env, st, i, h) {
      forall j | i1 <= j < |bs|
        ensures PassesAhead(bs, env, d, i1, 0, j)
      {
        assert PassesAhead(bs, env, st, i, h, j);
      }
      assert RowsAhead(bs, env, d, i + 1, 0) == RowsAhead(bs, env, st, i, h);
    } else {
      var j :| i <= j < |bs| && !PassesAhead(bs, env, st, i, h, j);
      assert !PassesAhead(bs, env, d, i + 1, 0, j);
    }
  }

  lemma AttemptsAtBottom(bs: seq<Builder>, env: Env, st: State, i: nat)
    requires i + 1 == |bs| && Descending(bs, env, st, i, |bs[i].hooks|)
    requires CheckFields(st.mutations[i].fields).None?
    ensures Attempts(bs, env, st, i, |bs[i].hooks|, InsertAll(env, Describe(st, i)).0.log)
  {
    var d := Describe(st, i);
    assert PassesAhead(bs, env, st, i, |bs[i].hooks|, i);
    ChecksNext(i);
    assert Values(d.specs) == RowsAhead(bs, env, st, i, |bs[i].hooks|);
  }

  lemma AttemptRefused(bs: seq<Builder>, env: Env, st: State, i: nat, h: nat)
    requires Descending(bs, env, st, i, h)
    requires if h < |bs[i].hooks| then bs[i].hooks[h].before(st.mutations[i].fields).Err?
      else CheckFields(st.mutations[i].fields).Some?
    ensures Attempts(bs, env, st, i, h, Mutate(bs, env, st, i, h).0.log)
  {
    assert !PassesAhead(bs, env, st, i, h, i);
  }

  lemma {:induction false} AttemptExact(bs: seq<Builder>, env: Env, st: State, i: nat, h: nat)
    requires Descending(bs, env, st, i, h)
    ensures Attempts(bs, env, st, i, h, Mutate(bs, env, st, i, h).0.log)
    decreases |bs| - i, |bs[i].hooks| - h
  {
    if h < |bs[i].hooks| {
      var g := bs[i].hooks[h].before(st.mutations[i].fields);
      if g.Ok? {
        AttemptExact(bs, env, WithFields(st, i, g.value), i, h + 1);
        AttemptsThroughHook(bs, env, st, i, h, g.value, Mutate(bs, env, st, i, h).0.log);
      } else {
        AttemptRefused(bs, env, st, i, h);
      }
    } else if CheckFields(st.mutations[i].fields).Some? {
      AttemptRefused(bs, env, st, i, h);
    } else if i + 1 < |bs| {
      ChecksNext(i);
      AttemptExact(bs, env, Describe(st, i), i + 1, 0);
      AttemptsFromBelow(bs, env, st, i, Mutate(bs, env, Describe(st, i), i + 1, 0).0.log);
    } else {
      AttemptsAtBottom(bs, env, st, i);
    }
  }

  /** Builder j is the first one from i on that is refused. */
  ghost predicate FirstRefused(bs: seq<Builder>, env: Env, st: State, i: nat, h: nat, j: nat)
    requires Sized(bs, env, st) && i < |bs| && h <= |bs[i].hooks|
  {
    i <= j < |bs| && !PassesAhead(bs, env, st, i, h, j) && forall k :: i <= k < j ==> PassesAhead(bs, env, st, i, h, k)
  }

  /** From any point on the way down: the first builder that is refused decides the error. */
  lemma {:induction false} RefusalAhead(bs: seq<Builder>, env: Env, st: State, i: nat, h: nat) returns (j: nat)
    requires Descending(bs, env, st, i, h) && !RestPasses(bs, env, st, i, h)
    ensures FirstRefused(bs, env, st, i, h, j) && Mutate(bs, env, st, i, h).1.Some?
    ensures IsRefusal(Ahead(bs, env, st, i, h, j), Mutate(bs, env, st, i, h).1.value)
    decreases |bs| - i, |bs[i].hooks| - h
  {
    j := i;
    if h < |bs[i].hooks| {
      var g := bs[i].hooks[h].before(st.mutations[i].fields);
      if g.Ok? {
        RestThroughHook(bs, env, st, i, h, g.value);
        j := RefusalAhead(bs, env, WithFields(st, i, g.value), i, h + 1);
        RefusedThroughHook(bs, env, st, i, h, g.value, j);
      }
    } else {
      CheckExact(st.mutations[i].fields);
      if CheckFields(st.mutations[i].fields).None? {
        RestBelow(bs, env, st, i);
        ChecksNext(i);
        j := RefusalAhead(bs, env, Describe(st, i), i + 1, 0);
        RefusedBelow(bs, env, st, i, j);
      }
    }
  }

  lemma RestThroughHook(bs: seq<Builder>, env: Env, st: State, i: nat, h: nat, f: Fields)
    requires Descending(bs, env, st, i, h) && h < |bs[i].hooks|
    requires bs[i].hooks[h].before(st.mutations[i].fields) == Ok(f) && !RestPasses(bs, env, st, i, h)
    ensures !RestPasses(bs, env, WithFields(st, i, f), i, h + 1)
  {
    var j :| i <= j < |bs| && !PassesAhead(bs, env, st, i, h, j);
    assert !PassesAhead(bs, env, WithFields(st, i, f), i, h + 1, j);
  }

  lemma RefusedThroughHook(bs: seq<Builder>, env: Env, st: State, i: nat, h: nat, f: Fields, j: nat)
    requires Descending(bs, env, st, i, h) && h < |bs[i].hooks|
    requires bs[i].hooks[h].before(st.mutations[i].fields) == Ok(f)
    requires FirstRefused(bs, env, WithFields(st, i, f), i, h + 1, j)
    ensures FirstRefused(bs, env, st, i, h, j)
    ensures Ahead(bs, env, st, i, h, j) == Ahead(bs, env, WithFields(st, i, f), i, h + 1, j)
  {
    var st1, h1 := WithFields(st, i, f), h + 1;
    forall k | i <= k < j
      ensures PassesAhead(bs, env, st, i, h, k)
    {
      assert PassesAhead(bs, env, st1, i, h1, k);
    }
  }

  lemma RestBelow(bs: seq<Builder>, env: Env, st: State, i: nat)
    requires i < |bs| && Descending(bs, env, st, i, |bs[i].hooks|) && HasRequired(st.mutations[i].fields)
    requires !RestPasses(bs, env, st, i, |bs[i].hooks|)
    ensures i + 1 < |bs| && !RestPasses(bs, env, Describe(st, i), i + 1, 0)
  {
    var j :| i <= j < |bs| && !PassesAhead(bs, env, st, i, |bs[i].hooks|, j);
    assert PassesAhead(bs, env, st, i, |bs[i].hooks|, i);
    assert !PassesAhead(bs, env, Describe(st, i), i + 1, 0, j);
  }

  lemma RefusedBelow(bs: seq<Builder>, env: Env, st: State, i: nat, j: nat)
    requires i + 1 < |bs| && Descending(bs, env, st, i, |bs[i].hooks|) && HasRequired(st.mutations[i].fields)
    requires FirstRefused(bs, env, Describe(st, i), i + 1, 0, j)
    ensures FirstRefused(bs, env, st, i, |bs[i].hooks|, j)
    ensures Ahead(bs, env, st, i, |bs[i].hooks|, j) == Ahead(bs, env, Describe(st, i), i + 1, 0, j)
  {
    var d, i1, h := Describe(st, i), i + 1, |bs[i].hooks|;
    forall k | i <= k < j
      ensures PassesAhead(bs, env, st, i, h, k)
    {
      if k > i {
        assert PassesAhead(bs, env, d, i1, 0, k);
      }
    }
  }

  /** If some builder is refused, Save returns the first one's refusal. */
  lemma RefusalExact(bs: seq<Builder>, env: Env, db: map<int, Spec>) returns (j: nat)
    requires |env.serials| == |bs| && bs != [] && !AllPass(bs)
    ensures j < |bs| && !Passes(bs[j]) && forall k :: 0 <= k < j ==> Passes(bs[k])
    ensures
      var err := RunSave(bs, env, Initial(bs, db)).1;
      err.Some? && IsRefusal(Prepared(bs[j]), err.value)
  {
    assert Checks(0) == [];
    InitialAhead(bs, env, db);
    j := RefusalAhead(bs, env, Initial(bs, db), 0, 0);
    forall k | 0 <= k < j
      ensures Passes(bs[k])
    {
      assert PassesAhead(bs, env, Initial(bs, db), 0, 0, k);
    }
  }

  /** A builder's fields after its hooks, and what they and its check say about it. */
  ghost function Prepared(b: Builder): Result<Fields, Error> {
    BeforeFrom(b.hooks, 0, b.fields)
  }

  ghost predicate Passes(b: Builder) {
    Prepared(b).Ok? && HasRequired(Prepared(b).value)
  }

  ghost predicate AllPass(bs: seq<Builder>) {
    forall i :: 0 <= i < |bs| ==> Passes(bs[i])
  }

  ghost function RowsOf(bs: seq<Builder>): seq<Spec>
    requires AllPass(bs)
  {
    seq(|bs|, i requires 0 <= i < |bs| => SpecOf(Prepared(bs[i]).value))
  }

  /** The database takes the rows: it accepts batches, and their ids are new and distinct. */
  ghost predicate Accepted(bs: seq<Builder>, env: Env, db: map<int, Spec>)
    requires AllPass(bs) && |env.serials| == |bs|
  {
    && env.accepts
    && (forall i :: 0 <= i < |bs| ==> IdAt(bs, env, i) !in db)
    && forall i, j :: 0 <= i < j < |bs| ==> IdAt(bs, env, i) != IdAt(bs, env, j)
  }

  /** The given id of builder i, or the one the database would assign. */
  ghost function IdAt(bs: seq<Builder>, env: Env, i: nat): int
    requires AllPass(bs) && i < |bs| == |env.serials|
  {
    Prepared(bs[i]).value.id.GetOr(env.serials[i])
  }

  lemma {:induction false} CanInsertExact(db: map<int, Spec>, ids: seq<int>)
    ensures CanInsert(db, ids) <==>
      (forall i :: 0 <= i < |ids| ==> ids[i] !in db) && forall i, j :: 0 <= i < j < |ids| ==> ids[i] != ids[j]
  {
    if ids != [] {
      CanInsertExact(db, ids[1..]);
      assert ids == [ids[0]] + ids[1..];
    }
  }

  lemma AcceptedExact(bs: seq<Builder>, env: Env, db: map<int, Spec>)
    requires AllPass(bs) && |env.serials| == |bs|
    ensures Accepted(bs, env, db) <==> BatchCreate(db, RowsOf(bs), env).Some?
  {
    var ids := RowIds(RowsOf(bs), env.serials);
    assert forall i :: 0 <= i < |bs| ==> ids[i] == IdAt(bs, env, i);
    CanInsertExact(db, ids);
  }

  ghost predicate Insertable(bs: seq<Builder>, env: Env, db: map<int, Spec>)
    requires |env.serials| == |bs|
  {
    AllPass(bs) && Accepted(bs, env, db)
  }

  /** The entity builder i yields: its hooked fields under the given or the assigned id. */
  ghost function NodeAt(bs: seq<Builder>, env: Env, i: nat): Node
    requires AllPass(bs) && i < |bs| == |env.serials|
  {
    var f := Prepared(bs[i]).value;
    NodeOf(f).(id := IdAt(bs, env, i))
  }

  /** Some hook of builder i refuses that entity after its successor succeeded. */
  ghost predicate FailsLate(bs: seq<Builder>, env: Env, i: nat)
    requires AllPass(bs) && i < |bs| == |env.serials|
  {
    AfterFails(bs[i].hooks, 0, NodeAt(bs, env, i))
  }

  lemma InitialAhead(bs: seq<Builder>, env: Env, db: map<int, Spec>)
    requires |env.serials| == |bs| && bs != []
    ensures RestPasses(bs, env, Initial(bs, db), 0, 0) <==> AllPass(bs)
    ensures AllPass(bs) ==> RowsAhead(bs, env, Initial(bs, db), 0, 0) == RowsOf(bs)
  {
    forall j | 0 <= j < |bs|
      ensures PassesAhead(bs, env, Initial(bs, db), 0, 0, j) <==> Passes(bs[j])
      ensures Ahead(bs, env, Initial(bs, db), 0, 0, j) == Prepared(bs[j])
    {
    }
  }

  /** Save attempts the insert exactly if every builder passes, with exactly their rows, ... */
  lemma InsertExact(bs: seq<Builder>, env: Env, db: map<int, Spec>)
    requires |env.serials| == |bs| && bs != []
    ensures
      var log := RunSave(bs, env, Initial(bs, db)).0.log;
      if AllPass(bs) then log == Checks(|bs|) + [Insert(Accepted(bs, env, db))] else NoInsert(log)
  {
    assert Checks(0) == [];
    AttemptExact(bs, env, Initial(bs, db), 0, 0);
    InitialAhead(bs, env, db);
    if AllPass(bs) {
      AcceptedExact(bs, env, db);
    }
  }

  /** A run that inserted finished exactly the builders from k on, the last one that fails late. */
  lemma InsertedFrom(bs: seq<Builder>, env: Env, db: map<int, Spec>) returns (k: nat)
    requires |env.serials| == |bs| && bs != [] && Insertable(bs, env, db)
    ensures
      var (r, err) := RunSave(bs, env, Initial(bs, db));
      && FinishedFrom(bs, env, r, 0, k)
      && (forall j :: k < j < |bs| ==> !FailsLate(bs, env, j))
      && (if err.Some? then FailsLate(bs, env, k) && LateError(bs[k].hooks, 0, NodeAt(bs, env, k), err.value)
          else k == 0 && !FailsLate(bs, env, 0))
      && BatchCreate(db, RowsOf(bs), env) == Some((r.db, Specs(r)))
  {
    var st := Initial(bs, db);
    k := SaveOutcome(bs, env, db);
    InsertExact(bs, env, db);
    var (r, err) := RunSave(bs, env, st);
    if Stopped(bs, env, st, r, err) {
      LogsDiffer(r.log, |bs|);
    }
    assert Inserted(bs, env, st, 0, 0, r, err, k);
    FinishedNodes(bs, env, db, r, k);
  }

  lemma FinishedNodes(bs: seq<Builder>, env: Env, db: map<int, Spec>, r: State, k: nat)
    requires |env.serials| == |bs| && bs != [] && AllPass(bs) && Sized(bs, env, r)
    requires RowsInserted(bs, env, Initial(bs, db), 0, 0, r) && FinishedFrom(bs, env, r, 0, k)
    ensures Batch(Initial(bs, db), r, 0) == RowsOf(bs)
    ensures forall j :: k <= j < |bs| ==> r.nodes[j] == Some(NodeAt(bs, env, j))
  {
    var st := Initial(bs, db);
    var batch := Batch(st, r, 0);
    forall j | 0 <= j < |bs|
      ensures Prepared(bs[j]) == Ok(r.mutations[j].fields)
    {
      assert Described(bs[j], 0, st.mutations[j], r.mutations[j]);
    }
    assert batch == RowsOf(bs);
    forall j | k <= j < |bs|
      ensures r.nodes[j] == Some(NodeAt(bs, env, j))
    {
      RowOf(db, batch, env, j);
      assert Specs(r)[j] == r.specs[j].value;
      assert Finished(r.mutations[j], r.nodes[j], r.specs[j]);
    }
  }

  /** The row holds the fields under the id, column by column. */
  predicate Stores(row: Spec, f: Fields, id: int) {
    && row.id == Some(id) && row.labelText == f.labelText && row.kind == f.kind
    && row.bazelInvocation == f.bazelInvocation && row.configuration == f.configuration
    && row.stdout == f.stdout && row.stderr == f.stderr
  }

  /** The database has one more row per builder, with its hooked fields, and is otherwise as before. */
  ghost predicate RowsAdded(bs: seq<Builder>, env: Env, db: map<int, Spec>, now: map<int, Spec>)
    requires |env.serials| == |bs|
  {
    && AllPass(bs)
    && (forall i :: 0 <= i < |bs| ==>
          IdAt(bs, env, i) in now && Stores(now[IdAt(bs, env, i)], Prepared(bs[i]).value, IdAt(bs, env, i)))
    && (forall id :: id in db ==> id in now && now[id] == db[id])
    && forall id :: id in now && id !in db ==> exists i :: 0 <= i < |bs| && IdAt(bs, env, i) == id
  }

  lemma {:induction false} StoreOnly(db: map<int, Spec>, rows: seq<Spec>)
    requires forall row :: row in rows ==> row.id.Some? && row.id.value !in db
    ensures forall id :: id in db ==> id in Store(db, rows) && Store(db, rows)[id] == db[id]
    ensures forall id :: id in Store(db, rows) && id !in db ==> exists i :: 0 <= i < |rows| && rows[i].id == Some(id)
    decreases |rows|
  {
    if rows != [] {
      var init, last := rows[..|rows| - 1], rows[|rows| - 1];
      assert last in rows && forall row :: row in init ==> row in rows;
      StoreOnly(db, init);
      assert forall i :: 0 <= i < |init| ==> init[i] == rows[i];
    }
  }

  lemma InsertedRow(bs: seq<Builder>, env: Env, db: map<int, Spec>, rows: seq<Spec>, i: nat)
    requires |env.serials| == |bs| && AllPass(bs) && i < |bs| && BatchCreate(db, RowsOf(bs), env).Some?
    requires rows == BatchCreate(db, RowsOf(bs), env).value.1
    ensures i < |rows| && Stores(rows[i], Prepared(bs[i]).value, IdAt(bs, env, i))
    ensures
      var now := BatchCreate(db, RowsOf(bs), env).value.0;
      IdAt(bs, env, i) in now && now[IdAt(bs, env, i)] == rows[i]
  {
    RowOf(db, RowsOf(bs), env, i);
    StoredRow(db, RowsOf(bs), env, i);
  }

  lemma InsertAdds(bs: seq<Builder>, env: Env, db: map<int, Spec>)
    requires |env.serials| == |bs| && Insertable(bs, env, db)
    ensures BatchCreate(db, RowsOf(bs), env).Some?
    ensures RowsAdded(bs, env, db, BatchCreate(db, RowsOf(bs), env).value.0)
  {
    AcceptedExact(bs, env, db);
    var (now, rows) := BatchCreate(db, RowsOf(bs), env).value;
    forall i | 0 <= i < |bs|
      ensures Stores(rows[i], Prepared(bs[i]).value, IdAt(bs, env, i))
      ensures IdAt(bs, env, i) in now && now[IdAt(bs, env, i)] == rows[i]
    {
      InsertedRow(bs, env, db, rows, i);
    }
    OnlyRows(bs, env, db, now, rows);
  }

  lemma OnlyRows(bs: seq<Builder>, env: Env, db: map<int, Spec>, now: map<int, Spec>, rows: seq<Spec>)
    requires |env.serials| == |bs| == |rows| && Insertable(bs, env, db)
    requires forall i :: 0 <= i < |bs| ==> rows[i].id == Some(IdAt(bs, env, i))
    requires forall row :: row in rows ==> row.id.Some?
    requires now == Store(db, rows)
    ensures forall id :: id in db ==> id in now && now[id] == db[id]
    ensures forall id :: id in now && id !in db ==> exists i :: 0 <= i < |bs| && IdAt(bs, env, i) == id
  {
    forall row | row in rows
      ensures row.id.Some? && row.id.value !in db
    {
      var i :| 0 <= i < |rows| && rows[i] == row;
      assert IdAt(bs, env, i) !in db;
    }
    StoreOnly(db, rows);
    forall id | id in now && id !in db
      ensures exists i :: 0 <= i < |bs| && IdAt(bs, env, i) == id
    {
      var i :| 0 <= i < |rows| && rows[i].id == Some(id);
      assert IdAt(bs, env, i) == id;
    }
  }

  lemma SaveDecides(bs: seq<Builder>, env: Env, db: map<int, Spec>)
    requires |env.serials| == |bs| && bs != []
    ensures
      var (r, err) := RunSave(bs, env, Initial(bs, db));
      && (InsertedOnce(r.log, |bs|) <==> Insertable(bs, env, db))
      && (err.None? <==> Insertable(bs, env, db) && forall i :: 0 <= i < |bs| ==> !FailsLate(bs, env, i))
      && (Insertable(bs, env, db) ==> BatchCreate(db, RowsOf(bs), env) == Some((r.db, Specs(r))))
  {
    InsertExact(bs, env, db);
    if Insertable(bs, env, db) {
      var k := InsertedFrom(bs, env, db);
    } else {
      NotInserted(bs, env, db);
    }
  }

  /** ... it inserts them exactly if moreover the database takes them, and it succeeds exactly if
      then no hook fails late. The database ends with those rows, column by column the hooked
      fields, or as it was. */
  lemma SaveExact(bs: seq<Builder>, env: Env, db: map<int, Spec>)
    requires |env.serials| == |bs| && bs != []
    ensures
      var (r, err) := RunSave(bs, env, Initial(bs, db));
      && (InsertedOnce(r.log, |bs|) <==> Insertable(bs, env, db))
      && (err.None? <==> Insertable(bs, env, db) && forall i :: 0 <= i < |bs| ==> !FailsLate(bs, env, i))
      && if Insertable(bs, env, db) then RowsAdded(bs, env, db, r.db) else r.db == db
  {
    SaveDecides(bs, env, db);
    if Insertable(bs, env, db) {
      InsertAdds(bs, env, db);
    } else {
      NotInserted(bs, env, db);
    }
  }

  lemma NotInserted(bs: seq<Builder>, env: Env, db: map<int, Spec>)
    requires |env.serials| == |bs| && bs != [] && !Insertable(bs, env, db)
    ensures
      var (r, err) := RunSave(bs, env, Initial(bs, db));
      !InsertedOnce(r.log, |bs|) && err.Some? && r.db == db && NoneDone(r)
  {
    var k := SaveOutcome(bs, env, db);
    InsertExact(bs, env, db);
    var (r, err) := RunSave(bs, env, Initial(bs, db));
    if AllPass(bs) {
      LogsDiffer(r.log, |bs|);
    } else {
      NoInsertDiffers(r.log, |bs|);
    }
    assert Stopped(bs, env, Initial(bs, db), r, err);
  }

  /** If all builders pass, the error is the database's, or that of the innermost hook that fails
      late for the last builder that has one. */
  lemma LateErrorExact(bs: seq<Builder>, env: Env, db: map<int, Spec>) returns (k: nat)
    requires |env.serials| == |bs| && bs != [] && AllPass(bs)
    requires RunSave(bs, env, Initial(bs, db)).1.Some?
    ensures
      var err := RunSave(bs, env, Initial(bs, db)).1.value;
      if !Accepted(bs, env, db) then err == Constraint
      else
        && k < |bs| && LateError(bs[k].hooks, 0, NodeAt(bs, env, k), err)
        && forall j :: k < j < |bs| ==> !FailsLate(bs, env, j)
  {
    if Accepted(bs, env, db) {
      k := InsertedFrom(bs, env, db);
    } else {
      k := SaveOutcome(bs, env, db);
      InsertExact(bs, env, db);
      var log := RunSave(bs, env, Initial(bs, db)).0.log;
      assert log == Checks(|bs|) + [Insert(false)];
      ShortLogs(log, |bs|);
    }
  }

  lemma ShortLogs(log: seq<Event>, n: nat)
    requires log == Checks(n) + [Insert(false)]
    ensures log != Checks(n) + [Insert(true)]
    ensures forall m: nat :: m < n ==> log != Checks(m) && log != Checks(m) + [Check(m, false)]
  {
    assert log[n] == Insert(false) && |log| == n + 1;
  }

  lemma NoInsertDiffers(log: seq<Event>, n: nat)
    requires NoInsert(log)
    ensures log != Checks(n) + [Insert(true)]
  {
    assert (Checks(n) + [Insert(true)])[n] == Insert(true);
  }

  /** All or nothing: without late failures a failed Save leaves the database and every mark as
      they were, and a successful one marks them all. */
  lemma AllOrNothing(bs: seq<Builder>, env: Env, db: map<int, Spec>)
    requires |env.serials| == |bs|
    requires forall i, g, node :: 0 <= i < |bs| && 0 <= g < |bs[i].hooks| ==> bs[i].hooks[g].after(node).None?
    ensures
      var (r, err) := RunSave(bs, env, Initial(bs, db));
      && (err.None? <==> bs == [] || Insertable(bs, env, db))
      && if err.Some? then r.db == db && NoneDone(r)
         else AllDone(r) && (InsertedOnce(r.log, |bs|) || (bs == [] && r.db == db && r.log == []))
  {
    if bs != [] {
      SaveDecides(bs, env, db);
      if Insertable(bs, env, db) {
        var k := InsertedFrom(bs, env, db);
      } else {
        NotInserted(bs, env, db);
      }
    }
  }

  /** With hooks that may fail late, the marks are all or nothing exactly when the rows cannot be
      inserted or no builder but the first one has such a hook for its entity. */
  lemma LateFailureExact(bs: seq<Builder>, env: Env, db: map<int, Spec>)
    requires |env.serials| == |bs| && bs != []
    ensures
      var r := RunSave(bs, env, Initial(bs, db)).0;
      AllDone(r) || NoneDone(r) <==>
        !Insertable(bs, env, db) || forall i :: 1 <= i < |bs| ==> !FailsLate(bs, env, i)
  {
    var (r, err) := RunSave(bs, env, Initial(bs, db));
    if Insertable(bs, env, db) {
      var k := InsertedFrom(bs, env, db);
      assert r.mutations[|bs| - 1].done;
      if k > 0 {
        assert !r.mutations[0].done;
        assert FailsLate(bs, env, k);
      }
    } else {
      NotInserted(bs, env, db);
    }
  }

  lemma LogsDiffer(log: seq<Event>, n: nat)
    requires (exists m: nat :: m < n && (log == Checks(m) || log == Checks(m) + [Check(m, false)])) ||
      log == Checks(n) + [Insert(false)]
    ensures log != Checks(n) + [Insert(true)]
  {
    assert (Checks(n) + [Insert(true)])[n] == Insert(true);
  }

  /** Two builders, the second with a hook that refuses its entity after the insert: both rows are
      stored, the second mutation is done and the first is not. */
  lemma LateFailureHappens() returns (bs: seq<Builder>, env: Env)
    ensures |env.serials| == |bs| && bs != []
    ensures
      var r := RunSave(bs, env, Initial(bs, map[])).0;
      InsertedOnce(r.log, |bs|) && !AllDone(r) && !NoneDone(r)
  {
    var fields := Fields(None, Some("a"), None, Some(7), Some(8), None, None);
    var refuse := Hook(f => Ok(f), n => Some(Constraint));
    bs, env := [Builder(fields, []), Builder(fields, [refuse])], Env(true, [1, 2]);
    assert refuse.before(fields) == Ok(fields);
    assert BeforeFrom([refuse], 1, fields) == Ok(fields);
    assert Prepared(bs[0]) == Ok(fields) && Prepared(bs[1]) == Ok(fields);
    assert AllPass(bs);
    var ids := RowIds(RowsOf(bs), env.serials);
    assert ids == [1, 2] && ids[1..] == [2];
    assert refuse.after(NodeAt(bs, env, 1)).Some? && bs[1].hooks[0] == refuse;
    assert FailsLate(bs, env, 1);
    LateFailureExact(bs, env, map[]);
    SaveExact(bs, env, map[]);
  }
}
