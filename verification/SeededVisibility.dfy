/** The policies over the databases that seeding reaches. */
module SeededVisibility {
  import opened Wrappers
  import opened Visibility
  import P = SeedProgram
  import R = SeedRuns

  /** The store whose seeded tables hold the rows of the database. */
  ghost function StoreOf(db: map<int, P.Row>, rest: Store): Store {
    rest.(
      invocations := map id | id in db && db[id].Invocation? :: InvocationRow(db[id].instance, db[id].user),
      targets := map id | id in db && db[id].Target? :: db[id].instance,
      pairs := map id | id in db && db[id].InvocationTarget? :: PairRow(db[id].invocation, db[id].target),
      testTargets := map id | id in db && db[id].TestTarget? :: db[id].target,
      testSummaries := map id | id in db && db[id].TestSummary? :: db[id].invocationTarget)
  }

  lemma SummaryRooted(db: map<int, P.Row>, rest: Store, summary: int)
    requires R.Joined(db) && summary in db && db[summary].TestSummary?
    ensures
      var s := StoreOf(db, rest);
      && Rooted(s, summary)
      && s.targets[PairOf(s, summary).target] == s.invocations[PairOf(s, summary).invocation].instance
  {
    assert P.PointsWell(db[summary], R.RowOf(db));
    var pair := db[summary].invocationTarget;
    assert P.PointsWell(db[pair], R.RowOf(db));
  }

  /** After every step of every seeding run, whatever the schedule and the failures, a test summary
      is visible to exactly the requests that see its invocation, and to those that see its target. */
  lemma SeededSummaries(db: map<int, P.Row>, params: seq<P.Params>, events: seq<R.Event>, rest: Store, summary: int)
    requires R.Joined(db)
    requires
      var seeded := R.Seeded(db, params, events).db;
      summary in seeded && seeded[summary].TestSummary?
    ensures Rooted(StoreOf(R.Seeded(db, params, events).db, rest), summary)
    ensures SameVisibility(StoreOf(R.Seeded(db, params, events).db, rest), summary)
  {
    R.PairsAlwaysJoin(db, params, events);
    var seeded := R.Seeded(db, params, events).db;
    SummaryRooted(seeded, rest, summary);
    SummaryAsInvocationExact(StoreOf(seeded, rest), summary);
  }

  /** The stored invocations of a user that belong to an instance with a listed name. */
  ghost predicate HasNamedInvocation(db: map<int, P.Row>, rest: Store, user: int, names: seq<Option<string>>) {
    exists i :: i in db && db[i].Invocation? && db[i].user == Some(user) && Named(rest, db[i].instance, names)
  }

  /** Who sees the rows of any database whose references are right: an invocation or a target by the
      name of its instance, a test target by that of its target's instance, a user by that of some
      invocation of theirs. */
  lemma SeenByName(db: map<int, P.Row>, rest: Store, names: seq<Option<string>>, id: int)
    requires R.Joined(db)
    ensures id in db && db[id].TestTarget? ==> db[id].target in db && db[db[id].target].Target?
    ensures
      var ctx, s := Context(false, Some(names)), StoreOf(db, rest);
      && (id in rest.users ==> (Visible(ctx, s, Users, id) <==> HasNamedInvocation(db, rest, id, names)))
      && (id in db && db[id].Invocation? ==> (Visible(ctx, s, Invocations, id) <==> Named(rest, db[id].instance, names)))
      && (id in db && db[id].Target? ==> (Visible(ctx, s, Targets, id) <==> Named(rest, db[id].instance, names)))
      && (id in db && db[id].TestTarget? ==>
            (Visible(ctx, s, TestTargets, id) <==> Named(rest, db[db[id].target].instance, names)))
  {
    var ctx, s := Context(false, Some(names)), StoreOf(db, rest);
    assert forall instance :: Named(s, instance, names) <==> Named(rest, instance, names);
    if id in rest.users {
      VisibleExact(ctx, s, Users, id);
      SeenUser(db, rest, names, id);
    }
    if id in db {
      assert P.PointsWell(db[id], R.RowOf(db));
      SeenRow(db, rest, names, id);
    }
  }

  lemma SeenUser(db: map<int, P.Row>, rest: Store, names: seq<Option<string>>, user: int)
    ensures InNamed(StoreOf(db, rest), Users, user, names) <==> HasNamedInvocation(db, rest, user, names)
  {
    var s := StoreOf(db, rest);
    if InNamed(s, Users, user, names) {
      var instance :| BelongsTo(s, Users, user, instance) && Named(s, instance, names);
      var i :| i in s.invocations && s.invocations[i] == InvocationRow(instance, Some(user));
      assert db[i].user == Some(user) && Named(rest, db[i].instance, names);
    }
    if i :| i in db && db[i].Invocation? && db[i].user == Some(user) && Named(rest, db[i].instance, names) {
      assert s.invocations[i] == InvocationRow(db[i].instance, Some(user));
      assert BelongsTo(s, Users, user, db[i].instance) && Named(s, db[i].instance, names);
    }
  }

  lemma SeenRow(db: map<int, P.Row>, rest: Store, names: seq<Option<string>>, id: int)
    requires id in db && P.PointsWell(db[id], R.RowOf(db))
    ensures db[id].TestTarget? ==> db[id].target in db && db[db[id].target].Target?
    ensures
      var ctx, s := Context(false, Some(names)), StoreOf(db, rest);
      && (db[id].Invocation? ==> (Visible(ctx, s, Invocations, id) <==> Named(rest, db[id].instance, names)))
      && (db[id].Target? ==> (Visible(ctx, s, Targets, id) <==> Named(rest, db[id].instance, names)))
      && (db[id].TestTarget? ==>
            (Visible(ctx, s, TestTargets, id) <==> Named(rest, db[db[id].target].instance, names)))
  {
    var ctx, s := Context(false, Some(names)), StoreOf(db, rest);
    match db[id]
    case Invocation(instance, _, _) =>
      VisibleExact(ctx, s, Invocations, id);
      assert BelongsTo(s, Invocations, id, instance);
    case Target(instance, _, _) =>
      VisibleExact(ctx, s, Targets, id);
      assert BelongsTo(s, Targets, id, instance);
    case TestTarget(target) =>
      VisibleExact(ctx, s, TestTargets, id);
      assert BelongsTo(s, TestTargets, id, db[target].instance);
    case _ =>
  }
}
