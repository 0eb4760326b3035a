/** The visibility policies (ent/authschema/privacy.go) as path predicates over a small relational
    store, and the service that lists the authorised instance names (dbauthservice.go). */
module Visibility {
  import opened Pages
  import opened Wrappers

  datatype Kind =
    | InstanceNames | Users | Invocations | Builds | Targets | InvocationTargets
    | TestSummaries | TestTargets | FilePaths | Files

  /** The edges the policies walk, from a row to its neighbours. */
  datatype Edge =
    | UserInvocations | InvocationInstance | BuildInstance | TargetInstance | PairTarget
    | SummaryPair | TestTargetTarget | FileFilePath | FilePathInstance

  /** entql predicates; a name None is SQL's NULL. */
  datatype P = HasEdgeWith(edge: Edge, p: P) | FieldIn(names: seq<Option<string>>)

  datatype InvocationRow = InvocationRow(instance: int, user: Option<int>)
  datatype PairRow = PairRow(invocation: int, target: int)

  /** Rows by id; where a row has one column only, it is the id of its unique neighbour. */
  datatype Store = Store(
    instanceNames: map<int, string>, users: set<int>, invocations: map<int, InvocationRow>,
    builds: map<int, int>, targets: map<int, int>, pairs: map<int, PairRow>, testSummaries: map<int, int>,
    testTargets: map<int, int>, filePaths: map<int, int>, files: map<int, int>)

  ghost predicate Has(s: Store, kind: Kind, id: int) {
    match kind
    case InstanceNames => id in s.instanceNames
    case Users => id in s.users
    case Invocations => id in s.invocations
    case Builds => id in s.builds
    case Targets => id in s.targets
    case InvocationTargets => id in s.pairs
    case TestSummaries => id in s.testSummaries
    case TestTargets => id in s.testTargets
    case FilePaths => id in s.filePaths
    case Files => id in s.files
  }

  /** Row b is a neighbour of row a along the edge. */
  ghost predicate Linked(s: Store, e: Edge, a: int, b: int) {
    match e
    case UserInvocations => b in s.invocations && s.invocations[b].user == Some(a)
    case InvocationInstance => a in s.invocations && s.invocations[a].instance == b
    case BuildInstance => a in s.builds && s.builds[a] == b
    case TargetInstance => a in s.targets && s.targets[a] == b
    case PairTarget => a in s.pairs && s.pairs[a].target == b
    case SummaryPair => a in s.testSummaries && s.testSummaries[a] == b
    case TestTargetTarget => a in s.testTargets && s.testTargets[a] == b
    case FileFilePath => a in s.files && s.files[a] == b
    case FilePathInstance => a in s.filePaths && s.filePaths[a] == b
  }

  /** An edge predicate holds if some neighbour satisfies the inner one; a NULL equals nothing. */
  ghost predicate Eval(s: Store, id: int, p: P)
    decreases p
  {
    match p
    case HasEdgeWith(e, q) => exists b :: Linked(s, e, id, b) && Eval(s, b, q)
    case FieldIn(names) => id in s.instanceNames && Some(s.instanceNames[id]) in names
  }

  // ---------------------------------------------------------------- the policies

  function AuthenticatedUserPolicy(names: seq<Option<string>>): P {
    HasEdgeWith(UserInvocations, HasEdgeWith(InvocationInstance, FieldIn(names)))
  }

  function BazelInvocationPolicy(names: seq<Option<string>>): P {
    HasEdgeWith(InvocationInstance, FieldIn(names))
  }

  function BuildPolicy(names: seq<Option<string>>): P {
    HasEdgeWith(BuildInstance, FieldIn(names))
  }

  function FilePolicy(names: seq<Option<string>>): P {
    HasEdgeWith(FileFilePath, HasEdgeWith(FilePathInstance, FieldIn(names)))
  }

  function FilePathPolicy(names: seq<Option<string>>): P {
    HasEdgeWith(FilePathInstance, FieldIn(names))
  }

  function TargetPolicy(names: seq<Option<string>>): P {
    HasEdgeWith(TargetInstance, FieldIn(names))
  }

  function TestSummaryPolicy(names: seq<Option<string>>): P {
    HasEdgeWith(SummaryPair, HasEdgeWith(PairTarget, HasEdgeWith(TargetInstance, FieldIn(names))))
  }

  function TestTargetPolicy(names: seq<Option<string>>): P {
    HasEdgeWith(TestTargetTarget, HasEdgeWith(TargetInstance, FieldIn(names)))
  }

  /** The policy of a kind; instance names and invocation targets have none. */
  function PolicyOf(kind: Kind): Option<seq<Option<string>> -> P> {
    match kind
    case Users => Some(AuthenticatedUserPolicy)
    case Invocations => Some(BazelInvocationPolicy)
    case Builds => Some(BuildPolicy)
    case Files => Some(FilePolicy)
    case FilePaths => Some(FilePathPolicy)
    case Targets => Some(TargetPolicy)
    case TestSummaries => Some(TestSummaryPolicy)
    case TestTargets => Some(TestTargetPolicy)
    case InstanceNames => None
    case InvocationTargets => None
  }

  /** The kinds of rows that carry a policy. */
  predicate Guarded(kind: Kind) {
    !kind.InstanceNames? && !kind.InvocationTargets?
  }

  // ---------------------------------------------------------------- the rule

  /** What the request's context carries: the bypass mark, the service's list of names. */
  datatype Context = Context(bypass: bool, service: Option<seq<Option<string>>>)

  datatype Decision = Skip | Deny

  /** The query's filter: the predicates that were added so far, all of which must hold. */
  class Filter {
    var predicates: seq<P>

    constructor ()
      ensures predicates == []
    {
      predicates := [];
    }

    method Where(p: P)
      modifies this
      ensures predicates == old(predicates) + [p]
    {
      predicates := predicates + [p];
    }
  }

  ghost predicate AllHold(s: Store, id: int, predicates: seq<P>) {
    forall i :: 0 <= i < |predicates| ==> Eval(s, id, predicates[i])
  }

  function NamesOrNull(names: seq<Option<string>>): seq<Option<string>> {
    if names == [] then [None] else names
  }

  function Outcome(ctx: Context, before: seq<P>, filterFunc: seq<Option<string>> -> P): (Decision, seq<P>) {
    if ctx.bypass then (Skip, before)
    else if ctx.service.None? then (Deny, before)
    else (Skip, before + [filterFunc(NamesOrNull(ctx.service.value))])
  }

  /** The three outcomes, written out: nothing is added under a bypass or without the service; else one
      predicate over the listed names, or over NULL alone if there are none. */
  lemma OutcomeExact(ctx: Context, before: seq<P>, filterFunc: seq<Option<string>> -> P)
    ensures
      var (d, after) := Outcome(ctx, before, filterFunc);
      if ctx.bypass then d == Skip && after == before
      else match ctx.service
        case None => d == Deny && after == before
        case Some(names) =>
          && d == Skip && |after| == |before| + 1 && after[..|before|] == before
          && after[|before|] == if names == [] then filterFunc([None]) else filterFunc(names)
  {
  }

  method PrivacyFilter(ctx: Context, f: Filter, filterFunc: seq<Option<string>> -> P) returns (d: Decision)
    modifies f
    ensures (d, f.predicates) == Outcome(ctx, old(f.predicates), filterFunc)
  {
    if ctx.bypass { return Skip; }
    if ctx.service.None? { return Deny; }
    var names := ctx.service.value;
    if |names| == 0 {
      names := names + [None];
    }
    assert names == NamesOrNull(ctx.service.value);
    f.Where(filterFunc(names));
    return Skip;
  }

  /** The row is returned by a query of its kind that has no other condition. */
  ghost predicate Visible(ctx: Context, s: Store, kind: Kind, id: int) {
    Has(s, kind, id) && match PolicyOf(kind)
      case None => true
      case Some(policy) => Outcome(ctx, [], policy).0.Skip? && AllHold(s, id, Outcome(ctx, [], policy).1)
  }

  // ---------------------------------------------------------------- the set specification

  /** The reference: the instances a row belongs to, found by following columns. */
  ghost predicate BelongsTo(s: Store, kind: Kind, id: int, instance: int) {
    match kind
    case InstanceNames => id in s.instanceNames && id == instance
    case Invocations => id in s.invocations && s.invocations[id].instance == instance
    case Builds => Refers(s.builds, id, instance)
    case Targets => Refers(s.targets, id, instance)
    case FilePaths => Refers(s.filePaths, id, instance)
    case Files => id in s.files && Refers(s.filePaths, s.files[id], instance)
    case TestTargets => id in s.testTargets && Refers(s.targets, s.testTargets[id], instance)
    case InvocationTargets => id in s.pairs && Refers(s.targets, s.pairs[id].target, instance)
    case TestSummaries =>
      id in s.testSummaries && s.testSummaries[id] in s.pairs &&
      Refers(s.targets, s.pairs[s.testSummaries[id]].target, instance)
    case Users => exists i :: i in s.invocations && s.invocations[i] == InvocationRow(instance, Some(id))
  }

  predicate Refers(column: map<int, int>, id: int, to: int) {
    id in column && column[id] == to
  }

  ghost predicate Named(s: Store, instance: int, names: seq<Option<string>>) {
    instance in s.instanceNames && Some(s.instanceNames[instance]) in names
  }

  ghost predicate InNamed(s: Store, kind: Kind, id: int, names: seq<Option<string>>) {
    exists instance :: BelongsTo(s, kind, id, instance) && Named(s, instance, names)
  }

  /** One step along an edge with a single neighbour. */
  lemma StepEdge(s: Store, e: Edge, a: int, b: int, q: P)
    requires forall c :: Linked(s, e, a, c) <==> c == b
    ensures Eval(s, a, HasEdgeWith(e, q)) <==> Eval(s, b, q)
  {
  }

  lemma StepNamed(s: Store, e: Edge, a: int, kind: Kind, names: seq<Option<string>>)
    requires forall c :: Linked(s, e, a, c) <==> BelongsTo(s, kind, a, c)
    ensures Eval(s, a, HasEdgeWith(e, FieldIn(names))) <==> InNamed(s, kind, a, names)
  {
    assert forall c :: Eval(s, c, FieldIn(names)) <==> Named(s, c, names);
  }

  lemma DirectPolicies(s: Store, id: int, names: seq<Option<string>>)
    ensures Eval(s, id, BazelInvocationPolicy(names)) <==> InNamed(s, Invocations, id, names)
    ensures Eval(s, id, BuildPolicy(names)) <==> InNamed(s, Builds, id, names)
    ensures Eval(s, id, TargetPolicy(names)) <==> InNamed(s, Targets, id, names)
    ensures Eval(s, id, FilePathPolicy(names)) <==> InNamed(s, FilePaths, id, names)
  {
    StepNamed(s, InvocationInstance, id, Invocations, names);
    StepNamed(s, BuildInstance, id, Builds, names);
    StepNamed(s, TargetInstance, id, Targets, names);
    StepNamed(s, FilePathInstance, id, FilePaths, names);
  }

  /** The row belongs to the instances of the row its only column refers to. */
  lemma Through(s: Store, kind: Kind, id: int, other: Kind, ref: int, names: seq<Option<string>>)
    requires forall instance :: BelongsTo(s, kind, id, instance) <==> BelongsTo(s, other, ref, instance)
    ensures InNamed(s, kind, id, names) <==> InNamed(s, other, ref, names)
  {
  }

  /** A file is visible exactly when its path is, and a test target exactly when its target is. */
  lemma FileAsPath(s: Store, id: int, names: seq<Option<string>>)
    requires id in s.files
    ensures Eval(s, id, FilePolicy(names)) <==> Eval(s, s.files[id], FilePathPolicy(names))
    ensures InNamed(s, Files, id, names) <==> InNamed(s, FilePaths, s.files[id], names)
  {
    StepEdge(s, FileFilePath, id, s.files[id], FilePathPolicy(names));
    Through(s, Files, id, FilePaths, s.files[id], names);
  }

  lemma TestTargetAsTarget(s: Store, id: int, names: seq<Option<string>>)
    requires id in s.testTargets
    ensures Eval(s, id, TestTargetPolicy(names)) <==> Eval(s, s.testTargets[id], TargetPolicy(names))
    ensures InNamed(s, TestTargets, id, names) <==> InNamed(s, Targets, s.testTargets[id], names)
  {
    StepEdge(s, TestTargetTarget, id, s.testTargets[id], TargetPolicy(names));
    Through(s, TestTargets, id, Targets, s.testTargets[id], names);
  }

  lemma SummaryAsTarget(s: Store, id: int, names: seq<Option<string>>)
    requires id in s.testSummaries && s.testSummaries[id] in s.pairs
    ensures Eval(s, id, TestSummaryPolicy(names)) <==> Eval(s, s.pairs[s.testSummaries[id]].target, TargetPolicy(names))
    ensures InNamed(s, TestSummaries, id, names) <==> InNamed(s, Targets, s.pairs[s.testSummaries[id]].target, names)
  {
    var pair := s.testSummaries[id];
    StepEdge(s, SummaryPair, id, pair, HasEdgeWith(PairTarget, TargetPolicy(names)));
    StepEdge(s, PairTarget, pair, s.pairs[pair].target, TargetPolicy(names));
    Through(s, TestSummaries, id, Targets, s.pairs[pair].target, names);
  }

  /** A summary whose invocation target is missing is visible to nobody. */
  lemma DanglingSummary(s: Store, id: int, names: seq<Option<string>>)
    requires id in s.testSummaries && s.testSummaries[id] !in s.pairs
    ensures !Eval(s, id, TestSummaryPolicy(names)) && !InNamed(s, TestSummaries, id, names)
  {
    StepEdge(s, SummaryPair, id, s.testSummaries[id], HasEdgeWith(PairTarget, TargetPolicy(names)));
  }

  /** A user is visible exactly when at least one of the user's invocations is. */
  lemma UserAsInvocations(s: Store, id: int, names: seq<Option<string>>)
    ensures Eval(s, id, AuthenticatedUserPolicy(names)) <==>
      exists i :: i in s.invocations && s.invocations[i].user == Some(id) && Eval(s, i, BazelInvocationPolicy(names))
    ensures InNamed(s, Users, id, names) <==>
      exists i :: i in s.invocations && s.invocations[i].user == Some(id) && Eval(s, i, BazelInvocationPolicy(names))
  {
    assert forall i :: Linked(s, UserInvocations, id, i) <==> i in s.invocations && s.invocations[i].user == Some(id);
    if InNamed(s, Users, id, names) {
      var instance :| BelongsTo(s, Users, id, instance) && Named(s, instance, names);
      var i :| i in s.invocations && s.invocations[i] == InvocationRow(instance, Some(id));
      DirectPolicies(s, i, names);
      assert BelongsTo(s, Invocations, i, instance);
    }
    if i :| i in s.invocations && s.invocations[i].user == Some(id) && Eval(s, i, BazelInvocationPolicy(names)) {
      DirectPolicies(s, i, names);
      assert s.invocations[i] == InvocationRow(s.invocations[i].instance, Some(id));
      assert BelongsTo(s, Users, id, s.invocations[i].instance);
    }
  }

  /** Every policy's path predicate is the set specification. */
  lemma PolicyExact(s: Store, kind: Kind, id: int, names: seq<Option<string>>)
    requires Has(s, kind, id) && Guarded(kind)
    ensures PolicyOf(kind).Some? && (Eval(s, id, PolicyOf(kind).value(names)) <==> InNamed(s, kind, id, names))
  {
    DirectPolicies(s, id, names);
    match kind
    case Users => UserAsInvocations(s, id, names);
    case Files =>
      FileAsPath(s, id, names);
      DirectPolicies(s, s.files[id], names);
    case TestTargets =>
      TestTargetAsTarget(s, id, names);
      DirectPolicies(s, s.testTargets[id], names);
    case TestSummaries =>
      if s.testSummaries[id] in s.pairs {
        SummaryAsTarget(s, id, names);
        DirectPolicies(s, s.pairs[s.testSummaries[id]].target, names);
      } else {
        DanglingSummary(s, id, names);
      }
    case _ =>
  }

  /** Who sees a row that has a policy: everyone under a bypass, nobody without the service, and
      otherwise those with an authorised name among the row's instances. */
  lemma VisibleExact(ctx: Context, s: Store, kind: Kind, id: int)
    requires Guarded(kind)
    ensures Visible(ctx, s, kind, id) <==>
      Has(s, kind, id) && (ctx.bypass || (ctx.service.Some? && InNamed(s, kind, id, ctx.service.value)))
    ensures !kind.Users? && !ctx.bypass ==>
      (Visible(ctx, s, kind, id) <==> ctx.service.Some? && InNamed(s, kind, id, ctx.service.value))
  {
    if Has(s, kind, id) && !ctx.bypass && ctx.service.Some? {
      var names := NamesOrNull(ctx.service.value);
      var policy := PolicyOf(kind).value;
      assert Outcome(ctx, [], policy).1 == [policy(names)];
      assert AllHold(s, id, [policy(names)]) <==> Eval(s, id, [policy(names)][0]);
      PolicyExact(s, kind, id, names);
      assert forall instance :: Named(s, instance, names) <==> Named(s, instance, ctx.service.value);
    }
  }

  /** More authorised names never hide a row, and no names at all show none. */
  lemma Monotone(s: Store, kind: Kind, id: int, names: seq<Option<string>>, more: seq<Option<string>>)
    requires Guarded(kind) && forall n :: n in names ==> n in more
    ensures Visible(Context(false, Some(names)), s, kind, id) ==> Visible(Context(false, Some(more)), s, kind, id)
    ensures !Visible(Context(false, Some([])), s, kind, id)
  {
    VisibleExact(Context(false, Some(names)), s, kind, id);
    VisibleExact(Context(false, Some(more)), s, kind, id);
    VisibleExact(Context(false, Some([])), s, kind, id);
    assert forall instance :: Named(s, instance, names) ==> Named(s, instance, more);
  }

  lemma SameNamed(ctx: Context, s: Store, kind: Kind, id: int, other: Kind, ref: int)
    requires Guarded(kind) && Guarded(other) && Has(s, kind, id) && Has(s, other, ref)
    requires forall names :: InNamed(s, kind, id, names) <==> InNamed(s, other, ref, names)
    ensures Visible(ctx, s, kind, id) <==> Visible(ctx, s, other, ref)
  {
    VisibleExact(ctx, s, kind, id);
    VisibleExact(ctx, s, other, ref);
  }

  /** Given the required edges, every request sees a file exactly when it sees its path, a test
      target when it sees its target, and a test summary when it sees the target of its pair. */
  lemma PoliciesAgree(ctx: Context, s: Store, id: int)
    ensures id in s.files && s.files[id] in s.filePaths ==>
      (Visible(ctx, s, Files, id) <==> Visible(ctx, s, FilePaths, s.files[id]))
    ensures id in s.testTargets && s.testTargets[id] in s.targets ==>
      (Visible(ctx, s, TestTargets, id) <==> Visible(ctx, s, Targets, s.testTargets[id]))
    ensures Rooted(s, id) ==>
      (Visible(ctx, s, TestSummaries, id) <==> Visible(ctx, s, Targets, PairOf(s, id).target))
  {
    if id in s.files && s.files[id] in s.filePaths {
      forall names { FileAsPath(s, id, names); }
      SameNamed(ctx, s, Files, id, FilePaths, s.files[id]);
    }
    if id in s.testTargets && s.testTargets[id] in s.targets {
      forall names { TestTargetAsTarget(s, id, names); }
      SameNamed(ctx, s, TestTargets, id, Targets, s.testTargets[id]);
    }
    if Rooted(s, id) {
      forall names { SummaryAsTarget(s, id, names); }
      SameNamed(ctx, s, TestSummaries, id, Targets, PairOf(s, id).target);
    }
  }

  ghost predicate HasInvocation(s: Store, id: int) {
    exists i :: i in s.invocations && s.invocations[i].user == Some(id)
  }

  ghost predicate SeesInvocation(ctx: Context, s: Store, id: int) {
    exists i :: i in s.invocations && s.invocations[i].user == Some(id) && Visible(ctx, s, Invocations, i)
  }

  lemma SeenInvocations(ctx: Context, s: Store, id: int)
    requires !ctx.bypass && ctx.service.Some?
    ensures SeesInvocation(ctx, s, id) <==> InNamed(s, Users, id, ctx.service.value)
  {
    var names := ctx.service.value;
    UserAsInvocations(s, id, names);
    forall i
      ensures i in s.invocations ==> (Visible(ctx, s, Invocations, i) <==> Eval(s, i, BazelInvocationPolicy(names)))
    {
      VisibleExact(ctx, s, Invocations, i);
      DirectPolicies(s, i, names);
    }
  }

  /** A request sees a user exactly when it sees one of the user's invocations - except under a
      bypass, for a user without any: the agreement holds exactly without a bypass or if the user
      has an invocation. */
  lemma UserAgrees(ctx: Context, s: Store, id: int)
    requires id in s.users
    ensures (Visible(ctx, s, Users, id) <==> SeesInvocation(ctx, s, id)) <==> !ctx.bypass || HasInvocation(s, id)
  {
    VisibleExact(ctx, s, Users, id);
    if !ctx.bypass && ctx.service.Some? {
      SeenInvocations(ctx, s, id);
    } else {
      forall i
        ensures i in s.invocations ==> (Visible(ctx, s, Invocations, i) <==> ctx.bypass)
      {
        VisibleExact(ctx, s, Invocations, i);
      }
    }
  }

  // ---------------------------------------------------------------- summaries and invocations

  /** The columns a test summary leads to all exist, as the required edges demand. */
  ghost predicate Rooted(s: Store, summary: int) {
    && summary in s.testSummaries && s.testSummaries[summary] in s.pairs
    && s.pairs[s.testSummaries[summary]].target in s.targets
    && s.pairs[s.testSummaries[summary]].invocation in s.invocations
  }

  function PairOf(s: Store, summary: int): PairRow
    requires summary in s.testSummaries && s.testSummaries[summary] in s.pairs
  {
    s.pairs[s.testSummaries[summary]]
  }

  lemma SummaryNamed(s: Store, summary: int, names: seq<Option<string>>)
    requires Rooted(s, summary)
    ensures InNamed(s, TestSummaries, summary, names) <==> Named(s, s.targets[PairOf(s, summary).target], names)
    ensures InNamed(s, Invocations, PairOf(s, summary).invocation, names) <==>
      Named(s, s.invocations[PairOf(s, summary).invocation].instance, names)
  {
    assert BelongsTo(s, TestSummaries, summary, s.targets[PairOf(s, summary).target]);
    assert BelongsTo(s, Invocations, PairOf(s, summary).invocation, s.invocations[PairOf(s, summary).invocation].instance);
  }

  /** The name of an instance, if there is such an instance. */
  function NameOf(s: Store, instance: int): Option<string> {
    if instance in s.instanceNames then Some(s.instanceNames[instance]) else None
  }

  ghost predicate SameVisibility(s: Store, summary: int)
    requires Rooted(s, summary)
  {
    forall ctx :: Visible(ctx, s, TestSummaries, summary) <==> Visible(ctx, s, Invocations, PairOf(s, summary).invocation)
  }

  lemma SummaryVisible(ctx: Context, s: Store, summary: int)
    requires Rooted(s, summary)
    ensures Visible(ctx, s, TestSummaries, summary) <==>
      ctx.bypass || (ctx.service.Some? && Named(s, s.targets[PairOf(s, summary).target], ctx.service.value))
    ensures Visible(ctx, s, Invocations, PairOf(s, summary).invocation) <==>
      ctx.bypass ||
      (ctx.service.Some? && Named(s, s.invocations[PairOf(s, summary).invocation].instance, ctx.service.value))
  {
    VisibleExact(ctx, s, TestSummaries, summary);
    VisibleExact(ctx, s, Invocations, PairOf(s, summary).invocation);
    if ctx.service.Some? {
      SummaryNamed(s, summary, ctx.service.value);
    }
  }

  /** A summary's policy follows its target and never looks at its invocation: the two are visible
      to the same requests exactly when target and invocation have the same instance name. */
  lemma SummaryAsInvocationExact(s: Store, summary: int)
    requires Rooted(s, summary)
    ensures SameVisibility(s, summary) <==>
      NameOf(s, s.targets[PairOf(s, summary).target]) ==
      NameOf(s, s.invocations[PairOf(s, summary).invocation].instance)
  {
    var t := s.targets[PairOf(s, summary).target];
    var i := s.invocations[PairOf(s, summary).invocation].instance;
    forall ctx | NameOf(s, t) == NameOf(s, i)
      ensures Visible(ctx, s, TestSummaries, summary) <==> Visible(ctx, s, Invocations, PairOf(s, summary).invocation)
    {
      SummaryVisible(ctx, s, summary);
    }
    if NameOf(s, t) != NameOf(s, i) {
      var ctx := Context(false, Some([if NameOf(s, t).Some? then NameOf(s, t) else NameOf(s, i)]));
      SummaryVisible(ctx, s, summary);
    }
  }

  // ---------------------------------------------------------------- the authorised names

  /** Caches the valid instance names of the database for a while. */
  class DbAuthService {
    const updateThreshold: int
    const valid: string -> bool
    var instanceNames: seq<string>
    var lastUpdated: int

    constructor (updateThreshold: int, valid: string -> bool, zeroTime: int)
      ensures this.updateThreshold == updateThreshold && this.valid == valid
      ensures instanceNames == [] && lastUpdated == zeroTime
    {
      this.updateThreshold, this.valid := updateThreshold, valid;
      instanceNames, lastUpdated := [], zeroTime;
    }

    /** The cache is kept while it is young and when the query (None is its error) fails; otherwise
        it becomes the valid names of the database and is as old as this call. */
    method GetInstanceNames(now: int, query: Option<seq<string>>) returns (names: seq<string>)
      modifies this
      ensures names == instanceNames
      ensures now - old(lastUpdated) < updateThreshold || query.None? ==>
        instanceNames == old(instanceNames) && lastUpdated == old(lastUpdated)
      ensures now - old(lastUpdated) >= updateThreshold && query.Some? ==>
        lastUpdated == now && forall n :: n in instanceNames <==> n in query.value && valid(n)
    {
      if now - lastUpdated < updateThreshold { return instanceNames; }
      if query.None? { return instanceNames; }
      instanceNames := [];
      for i := 0 to |query.value|
        invariant instanceNames == Keep(query.value[..i], valid)
        invariant lastUpdated == old(lastUpdated)
      {
        assert query.value[..i + 1][..i] == query.value[..i];
        if valid(query.value[i]) {
          instanceNames := instanceNames + [query.value[i]];
        }
      }
      assert query.value[..|query.value|] == query.value;
      KeepMembers(query.value, valid);
      lastUpdated := now;
      return instanceNames;
    }

    /** The authorised names are the cached ones that the authoriser allows, never NULL. */
    method GetAuthorizedInstanceNames(now: int, query: Option<seq<string>>, allows: string -> bool)
      returns (names: seq<Option<string>>)
      modifies this
      ensures None !in names && forall n :: Some(n) in names <==> n in instanceNames && allows(n)
      ensures now - old(lastUpdated) < updateThreshold || query.None? ==>
        instanceNames == old(instanceNames) && lastUpdated == old(lastUpdated)
      ensures now - old(lastUpdated) >= updateThreshold && query.Some? ==>
        lastUpdated == now && forall n :: n in instanceNames <==> n in query.value && valid(n)
    {
      var all := GetInstanceNames(now, query);
      names := [];
      for i := 0 to |all|
        invariant None !in names
        invariant forall n :: Some(n) in names <==> n in all[..i] && allows(n)
      {
        if allows(all[i]) {
          names := names + [Some(all[i])];
        }
      }
    }
  }

  /** Some instance of the row has a valid name that is among the given ones and allowed. */
  ghost predicate Allowed(s: Store, kind: Kind, id: int, known: string -> bool, allows: string -> bool) {
    exists instance :: BelongsTo(s, kind, id, instance) && instance in s.instanceNames
      && known(s.instanceNames[instance]) && allows(s.instanceNames[instance])
  }

  /** With names cached from the database as it was some time ago, a request sees exactly the rows
      of an instance whose valid, allowed name was there then. So it sees nothing that is not
      allowed, and misses exactly the rows all of whose allowed instances are newer than the cache;
      a cache as new as the store misses nothing. */
  lemma SeesWhatIsAllowed(s: Store, kind: Kind, id: int, names: seq<Option<string>>, cached: set<string>,
                          valid: string -> bool, allows: string -> bool)
    requires Guarded(kind)
    requires forall n :: Some(n) in names <==> n in cached && valid(n) && allows(n)
    ensures
      var sees := Visible(Context(false, Some(names)), s, kind, id);
      && (sees <==> Has(s, kind, id) && Allowed(s, kind, id, n => n in cached && valid(n), allows))
      && (sees ==> Allowed(s, kind, id, valid, allows))
      && (s.instanceNames.Values <= cached ==> (sees <==> Has(s, kind, id) && Allowed(s, kind, id, valid, allows)))
  {
    VisibleExact(Context(false, Some(names)), s, kind, id);
    forall instance
      ensures Named(s, instance, names) <==>
        instance in s.instanceNames && s.instanceNames[instance] in cached
        && valid(s.instanceNames[instance]) && allows(s.instanceNames[instance])
    {
      if instance in s.instanceNames {
        assert s.instanceNames[instance] in s.instanceNames.Values;
      }
    }
  }

  /** A summary of a target of instance "b" under an invocation of instance "a": who may see only
      one of the two sees only one of the rows. */
  lemma SummaryApart() returns (s: Store)
    ensures Rooted(s, 5) && !SameVisibility(s, 5)
  {
    s := Store(map[1 := "a", 2 := "b"], {}, map[3 := InvocationRow(1, None)], map[], map[4 := 2],
               map[6 := PairRow(3, 4)], map[5 := 6], map[], map[], map[]);
    SummaryAsInvocationExact(s, 5);
    assert "a"[0] != "b"[0];
  }

  /** A user without invocations is seen under a bypass, with no invocation to be seen. */
  lemma LoneUser() returns (s: Store)
    ensures 1 in s.users
    ensures Visible(Context(true, None), s, Users, 1) && !SeesInvocation(Context(true, None), s, 1)
  {
    s := Store(map[], {1}, map[], map[], map[], map[], map[], map[], map[], map[]);
    VisibleExact(Context(true, None), s, Users, 1);
  }
}
