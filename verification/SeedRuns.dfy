/** All interleavings of the per-instance seeding goroutines (cmd/bb_seed/main.go, seed): each
    performs its bulk saves in order against one database; a failed save stops its goroutine only. */
module SeedRuns {
  import opened Wrappers
  import opened OrderedSets
  import opened Batcher
  import opened SeedProgram

  /** A goroutine: its bulk saves, how many are done, the ids of the rows it created, in order. */
  datatype Task = Task(saves: seq<seq<Row>>, pc: nat, ids: seq<int>, failed: bool)

  /** Rows by id; ids of different tables are taken apart. References are ids here. */
  datatype System = System(db: map<int, Row>, tasks: seq<Task>)

  /** The next save of a task succeeds, with the ids the database hands out, or fails. */
  datatype Event = Save(task: nat, newIds: seq<int>) | Fail(task: nat)

  /** References by position become references by id. */
  function Rename(row: Row, ids: seq<int>): Row
    requires RefsBelow(row, |ids|)
  {
    match row
    case Invocation(_, _, _) => row
    case Target(_, _, _) => row
    case ConnectionMetadata(i) => ConnectionMetadata(ids[i])
    case EventMetadata(i) => EventMetadata(ids[i])
    case InvocationTarget(i, t) => InvocationTarget(ids[i], ids[t])
    case TestTarget(t) => TestTarget(ids[t])
    case TestSummary(k) => TestSummary(ids[k])
    case TestResult(k) => TestResult(ids[k])
  }

  ghost predicate OnTrack(t: Task) {
    Ordered(t.saves, 0) && t.pc <= |t.saves| && |t.ids| == |Flatten(t.saves[..t.pc])|
  }

  ghost predicate AllOnTrack(s: System) {
    forall i :: 0 <= i < |s.tasks| ==> OnTrack(s.tasks[i])
  }

  /** The goroutine has a next save; the database hands out one new id per row. */
  ghost predicate Enabled(s: System, e: Event) {
    && e.task < |s.tasks| && !s.tasks[e.task].failed && s.tasks[e.task].pc < |s.tasks[e.task].saves|
    && (e.Save? ==>
          && |e.newIds| == |s.tasks[e.task].saves[s.tasks[e.task].pc]| && Distinct(e.newIds)
          && forall j :: 0 <= j < |e.newIds| ==> e.newIds[j] !in s.db)
  }

  ghost function NewRows(chunk: seq<Row>, ids: seq<int>, newIds: seq<int>): map<int, Row>
    requires AllBelow(chunk, |ids|) && |newIds| == |chunk| && Distinct(newIds)
  {
    map j | 0 <= j < |chunk| :: newIds[j] := Rename(chunk[j], ids)
  }

  ghost function SaveTask(t: Task, newIds: seq<int>): Task {
    t.(pc := t.pc + 1, ids := t.ids + newIds)
  }

  /** One step of the whole system; an event that is not possible changes nothing. */
  ghost function Step(s: System, e: Event): (r: System)
    requires AllOnTrack(s)
    ensures AllOnTrack(r)
  {
    if !Enabled(s, e) then s else
    var t := s.tasks[e.task];
    match e
    case Fail(_) => s.(tasks := s.tasks[e.task := t.(failed := true)])
    case Save(_, newIds) =>
      NextSave(t.saves, t.pc);
      System(s.db + NewRows(t.saves[t.pc], t.ids, newIds), s.tasks[e.task := SaveTask(t, newIds)])
  }

  ghost function Run(s: System, events: seq<Event>): (r: System)
    requires AllOnTrack(s)
    ensures AllOnTrack(r)
  {
    if events == [] then s else Step(Run(s, events[..|events| - 1]), events[|events| - 1])
  }

  /** One goroutine per instance, none of which has saved anything. */
  ghost function Start(db: map<int, Row>, params: seq<Params>): (s: System)
    ensures AllOnTrack(s)
  {
    var s := System(db, seq(|params|, i requires 0 <= i < |params| => Task(Saves(params[i]), 0, [], false)));
    forall i | 0 <= i < |params|
      ensures OnTrack(s.tasks[i])
    {
      SavesOrdered(params[i]);
    }
    s
  }

  // ---------------------------------------------------------------- positions and saves

  lemma {:induction false} OrderedAt(saves: seq<seq<Row>>, bound: nat, i: nat)
    requires Ordered(saves, bound) && i < |saves|
    ensures AllBelow(saves[i], bound + |Flatten(saves[..i])|)
    decreases |saves|
  {
    if i > 0 {
      OrderedAt(saves[1..], bound + |saves[0]|, i - 1);
      assert saves[..i] == [saves[0]] + saves[1..][..i - 1];
      FlattenCons(saves[0], saves[1..][..i - 1]);
    }
  }

  /** The next save continues the rows at position |ids| and refers to earlier positions only. */
  lemma NextSave(saves: seq<seq<Row>>, pc: nat)
    requires Ordered(saves, 0) && pc < |saves|
    ensures
      var n := |Flatten(saves[..pc])|;
      && AllBelow(saves[pc], n) && |Flatten(saves[..pc + 1])| == n + |saves[pc]| <= |Flatten(saves)|
      && forall j :: 0 <= j < |saves[pc]| ==> Flatten(saves)[n + j] == saves[pc][j]
  {
    OrderedAt(saves, 0, pc);
    assert saves[..pc + 1][..pc] == saves[..pc];
    FlattenConcat(saves[..pc + 1], saves[pc + 1..]);
    assert saves == saves[..pc + 1] + saves[pc + 1..];
  }

  // ---------------------------------------------------------------- the invariant

  /** Row k of a goroutine is in the database, under its id and with its references renamed. */
  ghost predicate Stored(db: map<int, Row>, t: Task, k: int) {
    && 0 <= k < |t.ids| && k < |Flatten(t.saves)| && RefsBelow(Flatten(t.saves)[k], |t.ids|)
    && t.ids[k] in db && db[t.ids[k]] == Rename(Flatten(t.saves)[k], t.ids)
  }

  ghost predicate AllStored(s: System) {
    forall i, k :: 0 <= i < |s.tasks| && 0 <= k < |s.tasks[i].ids| ==> Stored(s.db, s.tasks[i], k)
  }

  ghost predicate OwnedBy(s: System, id: int, i: int, k: int) {
    0 <= i < |s.tasks| && 0 <= k < |s.tasks[i].ids| && s.tasks[i].ids[k] == id
  }

  /** No id was handed out twice, neither within a task nor to two tasks. */
  ghost predicate Apart(s: System) {
    forall id, i, k, i', k' :: OwnedBy(s, id, i, k) && OwnedBy(s, id, i', k') ==> i == i' && k == k'
  }

  /** The rows from before are untouched, and every other row belongs to a task. */
  ghost predicate Accounted(db: map<int, Row>, s: System) {
    && (forall id :: id in db ==> id in s.db && s.db[id] == db[id])
    && (forall id, i, k :: id in db ==> !OwnedBy(s, id, i, k))
    && (forall id :: id in s.db && id !in db ==> exists i, k :: OwnedBy(s, id, i, k))
  }

  ghost predicate Inv(db: map<int, Row>, s: System) {
    AllStored(s) && Apart(s) && Accounted(db, s)
  }

  lemma RenameLonger(row: Row, ids: seq<int>, newIds: seq<int>)
    requires RefsBelow(row, |ids|)
    ensures RefsBelow(row, |ids + newIds|) && Rename(row, ids + newIds) == Rename(row, ids)
  {
  }

  /** A stored row stays stored when fresh ids are added. */
  lemma StoredLater(db: map<int, Row>, t: Task, k: int, more: map<int, Row>, newIds: seq<int>, pc: nat)
    requires Stored(db, t, k) && forall id :: id in more ==> id !in db
    ensures Stored(db + more, t, k) && Stored(db + more, t.(pc := pc, ids := t.ids + newIds), k)
  {
    RenameLonger(Flatten(t.saves)[k], t.ids, newIds);
    assert t.ids[k] !in more && (t.ids + newIds)[k] == t.ids[k];
  }

  lemma NewRowIs(chunk: seq<Row>, known: seq<int>, newIds: seq<int>, j: nat)
    requires AllBelow(chunk, |known|) && |newIds| == |chunk| && Distinct(newIds) && j < |chunk|
    ensures newIds[j] in NewRows(chunk, known, newIds)
    ensures NewRows(chunk, known, newIds)[newIds[j]] == Rename(chunk[j], known)
  {
  }

  /** The new rows are those of the chunk, under the new ids. */
  ghost predicate Writes(chunk: seq<Row>, known: seq<int>, newIds: seq<int>, more: map<int, Row>) {
    && |newIds| == |chunk|
    && forall j :: 0 <= j < |chunk| ==> WrittenAt(chunk[j], known, newIds[j], more)
  }

  ghost predicate WrittenAt(row: Row, known: seq<int>, id: int, more: map<int, Row>) {
    RefsBelow(row, |known|) && id in more && more[id] == Rename(row, known)
  }

  lemma NewRowsWrite(chunk: seq<Row>, known: seq<int>, newIds: seq<int>)
    requires AllBelow(chunk, |known|) && |newIds| == |chunk| && Distinct(newIds)
    ensures Writes(chunk, known, newIds, NewRows(chunk, known, newIds))
  {
    forall j | 0 <= j < |chunk|
      ensures WrittenAt(chunk[j], known, newIds[j], NewRows(chunk, known, newIds))
    {
      NewRowIs(chunk, known, newIds, j);
    }
  }

  lemma NewRowStored(db: map<int, Row>, more: map<int, Row>, t: Task, newIds: seq<int>, j: nat)
    requires OnTrack(t) && t.pc < |t.saves| && Writes(t.saves[t.pc], t.ids, newIds, more) && j < |newIds|
    ensures Stored(db + more, SaveTask(t, newIds), |t.ids| + j)
  {
    var row := t.saves[t.pc][j];
    NextSave(t.saves, t.pc);
    assert WrittenAt(row, t.ids, newIds[j], more);
    RenameLonger(row, t.ids, newIds);
    StoredAdded(db, more, SaveTask(t, newIds), |t.ids| + j, row);
  }

  lemma StoredAdded(db: map<int, Row>, more: map<int, Row>, t: Task, k: nat, row: Row)
    requires k < |t.ids| && k < |Flatten(t.saves)| && Flatten(t.saves)[k] == row && RefsBelow(row, |t.ids|)
    requires t.ids[k] in more && more[t.ids[k]] == Rename(row, t.ids)
    ensures Stored(db + more, t, k)
  {
  }

  /** r is s after task i saved its next chunk under the new ids. */
  ghost predicate Saved(s: System, i: nat, newIds: seq<int>, r: System) {
    && i < |s.tasks| && OnTrack(s.tasks[i]) && s.tasks[i].pc < |s.tasks[i].saves|
    && AllBelow(s.tasks[i].saves[s.tasks[i].pc], |s.tasks[i].ids|)
    && |newIds| == |s.tasks[i].saves[s.tasks[i].pc]| && Distinct(newIds)
    && (forall j :: 0 <= j < |newIds| ==> newIds[j] !in s.db)
    && r.db == s.db + NewRows(s.tasks[i].saves[s.tasks[i].pc], s.tasks[i].ids, newIds)
    && r.tasks == s.tasks[i := SaveTask(s.tasks[i], newIds)]
  }

  lemma SaveStores(s: System, i: nat, newIds: seq<int>, r: System, i': int, k: int)
    requires Saved(s, i, newIds, r) && AllStored(s)
    requires 0 <= i' < |r.tasks| && 0 <= k < |r.tasks[i'].ids|
    ensures Stored(r.db, r.tasks[i'], k)
  {
    var t := s.tasks[i];
    var more := NewRows(t.saves[t.pc], t.ids, newIds);
    assert forall id :: id in more ==> id !in s.db;
    NewRowsWrite(t.saves[t.pc], t.ids, newIds);
    SaveStoresAt(s, i, newIds, more, r, i', k);
  }

  lemma SaveStoresAt(s: System, i: nat, newIds: seq<int>, more: map<int, Row>, r: System, i': int, k: int)
    requires i < |s.tasks| && OnTrack(s.tasks[i]) && s.tasks[i].pc < |s.tasks[i].saves| && AllStored(s)
    requires Writes(s.tasks[i].saves[s.tasks[i].pc], s.tasks[i].ids, newIds, more) && forall id :: id in more ==> id !in s.db
    requires r.db == s.db + more && r.tasks == s.tasks[i := SaveTask(s.tasks[i], newIds)]
    requires 0 <= i' < |r.tasks| && 0 <= k < |r.tasks[i'].ids|
    ensures Stored(r.db, r.tasks[i'], k)
  {
    var t := s.tasks[i];
    if i' != i {
      assert Stored(s.db, s.tasks[i'], k);
      StoredLater(s.db, s.tasks[i'], k, more, [], 0);
    } else if k < |t.ids| {
      assert Stored(s.db, t, k);
      StoredLater(s.db, t, k, more, newIds, t.pc + 1);
    } else {
      NewRowStored(s.db, more, t, newIds, k - |t.ids|);
    }
  }

  /** What a task owns after the save it owned before, or the save gave it. */
  lemma SaveOwns(s: System, i: nat, newIds: seq<int>, r: System, id: int, i': int, k: int)
    requires Saved(s, i, newIds, r) && AllStored(s) && OwnedBy(r, id, i', k)
    ensures id in s.db ==> OwnedBy(s, id, i', k)
    ensures id !in s.db ==> i' == i && 0 <= k - |s.tasks[i].ids| < |newIds| && newIds[k - |s.tasks[i].ids|] == id
  {
    if i' != i || k < |s.tasks[i].ids| {
      assert Stored(s.db, s.tasks[i'], k);
    }
  }

  lemma SaveApart(s: System, i: nat, newIds: seq<int>, r: System)
    requires Saved(s, i, newIds, r) && AllStored(s) && Apart(s)
    ensures Apart(r)
  {
    forall id, i1, k1, i2, k2 | OwnedBy(r, id, i1, k1) && OwnedBy(r, id, i2, k2)
      ensures i1 == i2 && k1 == k2
    {
      SaveOwns(s, i, newIds, r, id, i1, k1);
      SaveOwns(s, i, newIds, r, id, i2, k2);
    }
  }

  lemma SaveAccounted(db: map<int, Row>, s: System, i: nat, newIds: seq<int>, r: System)
    requires Saved(s, i, newIds, r) && AllStored(s) && Accounted(db, s)
    ensures Accounted(db, r)
  {
    forall id, i', k | id in db
      ensures !OwnedBy(r, id, i', k)
    {
      if OwnedBy(r, id, i', k) {
        SaveOwns(s, i, newIds, r, id, i', k);
      }
    }
    forall id | id in r.db && id !in db
      ensures exists i', k :: OwnedBy(r, id, i', k)
    {
      if id in s.db {
        var i', k :| OwnedBy(s, id, i', k);
        StillOwned(s, i, newIds, r, id, i', k);
      } else {
        var j :| 0 <= j < |newIds| && newIds[j] == id;
        NewlyOwned(s, i, newIds, r, j);
      }
    }
  }

  lemma StillOwned(s: System, i: nat, newIds: seq<int>, r: System, id: int, i': int, k: int)
    requires i < |s.tasks| && r.tasks == s.tasks[i := SaveTask(s.tasks[i], newIds)] && OwnedBy(s, id, i', k)
    ensures OwnedBy(r, id, i', k)
  {
  }

  lemma NewlyOwned(s: System, i: nat, newIds: seq<int>, r: System, j: nat)
    requires i < |s.tasks| && r.tasks == s.tasks[i := SaveTask(s.tasks[i], newIds)] && j < |newIds|
    ensures OwnedBy(r, newIds[j], i, |s.tasks[i].ids| + j)
  {
  }

  lemma SaveKeeps(db: map<int, Row>, s: System, i: nat, newIds: seq<int>, r: System)
    requires Saved(s, i, newIds, r) && Inv(db, s)
    ensures Inv(db, r)
  {
    forall i', k | 0 <= i' < |r.tasks| && 0 <= k < |r.tasks[i'].ids|
      ensures Stored(r.db, r.tasks[i'], k)
    {
      SaveStores(s, i, newIds, r, i', k);
    }
    SaveApart(s, i, newIds, r);
    SaveAccounted(db, s, i, newIds, r);
  }

  lemma StepKeeps(db: map<int, Row>, s: System, e: Event)
    requires AllOnTrack(s) && Inv(db, s)
    ensures Inv(db, Step(s, e))
  {
    if Enabled(s, e) {
      if e.Save? {
        NextSave(s.tasks[e.task].saves, s.tasks[e.task].pc);
        SaveKeeps(db, s, e.task, e.newIds, Step(s, e));
      } else {
        FailKeeps(db, s, e);
      }
    }
  }

  lemma FailKeeps(db: map<int, Row>, s: System, e: Event)
    requires AllOnTrack(s) && Inv(db, s) && Enabled(s, e) && e.Fail?
    ensures Inv(db, Step(s, e))
  {
    var r := Step(s, e);
    forall i, k | 0 <= i < |r.tasks| && 0 <= k < |r.tasks[i].ids|
      ensures Stored(r.db, r.tasks[i], k)
    {
      assert Stored(s.db, s.tasks[i], k);
    }
    assert forall id, i, k :: OwnedBy(r, id, i, k) <==> OwnedBy(s, id, i, k);
  }

  /** The invariant of every run: stored rows are the programs' rows under fresh, distinct ids. */
  lemma {:induction false} RunKeeps(db: map<int, Row>, s: System, events: seq<Event>)
    requires AllOnTrack(s) && Inv(db, s)
    ensures Inv(db, Run(s, events))
    ensures |Run(s, events).tasks| == |s.tasks|
    ensures forall i :: 0 <= i < |s.tasks| ==> Run(s, events).tasks[i].saves == s.tasks[i].saves
    decreases |events|
  {
    if events != [] {
      RunKeeps(db, s, events[..|events| - 1]);
      StepKeeps(db, Run(s, events[..|events| - 1]), events[|events| - 1]);
    }
  }

  /** The state after some events, from a database that seeding starts with. */
  ghost function Seeded(db: map<int, Row>, params: seq<Params>, events: seq<Event>): System {
    Run(Start(db, params), events)
  }

  lemma SeededKeeps(db: map<int, Row>, params: seq<Params>, events: seq<Event>)
    ensures
      var s := Seeded(db, params, events);
      && AllOnTrack(s) && Inv(db, s) && |s.tasks| == |params|
      && forall i :: 0 <= i < |params| ==> s.tasks[i].saves == Saves(params[i])
  {
    RunKeeps(db, Start(db, params), events);
  }

  // ---------------------------------------------------------------- isolation

  function RowOf(db: map<int, Row>): int -> Option<Row> {
    id => if id in db then Some(db[id]) else None
  }

  /** Every reference points at a row of the right kind, and every invocation target joins an
      invocation and a target of one and the same instance. */
  ghost predicate Joined(db: map<int, Row>) {
    forall id :: id in db ==> PointsWell(db[id], RowOf(db))
  }

  lemma {:induction false} OrderedRefs(saves: seq<seq<Row>>, bound: nat, k: nat)
    requires Ordered(saves, bound) && k < |Flatten(saves)|
    ensures RefsBelow(Flatten(saves)[k], bound + |Flatten(saves)|)
    decreases |saves|
  {
    assert saves == [saves[0]] + saves[1..];
    FlattenCons(saves[0], saves[1..]);
    if k >= |saves[0]| {
      OrderedRefs(saves[1..], bound + |saves[0]|, k - |saves[0]|);
    } else {
      assert RefsBelow(saves[0][k], bound);
    }
  }

  /** A reference of a stored row points where the program says. */
  lemma StoredPoints(db: map<int, Row>, ids: seq<int>, rows: seq<Row>, row: Row)
    requires |ids| <= |rows| && RefsBelow(row, |ids|)
    requires PointsWell(row, AtPosition(rows))
    requires forall k :: 0 <= k < |ids| ==> StoredAt(db, ids, rows, k)
    ensures PointsWell(Rename(row, ids), RowOf(db))
  {
    match row
    case Invocation(_, _, _) =>
    case Target(_, _, _) =>
    case ConnectionMetadata(i) => assert StoredAt(db, ids, rows, i);
    case EventMetadata(i) => assert StoredAt(db, ids, rows, i);
    case InvocationTarget(i, t) => assert StoredAt(db, ids, rows, i) && StoredAt(db, ids, rows, t);
    case TestTarget(t) => assert StoredAt(db, ids, rows, t);
    case TestSummary(k) => assert StoredAt(db, ids, rows, k);
    case TestResult(k) => assert StoredAt(db, ids, rows, k);
  }

  ghost predicate StoredAt(db: map<int, Row>, ids: seq<int>, rows: seq<Row>, k: int)
    requires |ids| <= |rows|
  {
    && 0 <= k < |ids| && RefsBelow(rows[k], |ids|) && ids[k] in db && db[ids[k]] == Rename(rows[k], ids)
  }

  lemma OwnRowJoins(db: map<int, Row>, t: Task, p: Params, k: nat)
    requires t.saves == Saves(p) && forall k :: 0 <= k < |t.ids| ==> Stored(db, t, k)
    requires k < |t.ids|
    ensures t.ids[k] in db && PointsWell(db[t.ids[k]], RowOf(db))
  {
    assert Stored(db, t, |t.ids| - 1);
    forall j | 0 <= j < |t.ids|
      ensures StoredAt(db, t.ids, Rows(p), j)
    {
      assert Stored(db, t, j);
    }
    ProgramPoints(p, k);
    StoredPoints(db, t.ids, Rows(p), Rows(p)[k]);
    assert StoredAt(db, t.ids, Rows(p), k);
  }

  lemma ProgramPoints(p: Params, k: nat)
    requires k < |Rows(p)|
    ensures PointsWell(Rows(p)[k], AtPosition(Rows(p)))
  {
    SavesOrdered(p);
    OrderedRefs(Saves(p), 0, k);
    ReferencesPointWell(p, k);
  }

  /** Whatever the schedule and whichever saves fail, at every moment every invocation target joins
      an invocation and a target of the same instance, every other reference points at a row of the
      right kind, and rows from before are untouched. */
  lemma PairsAlwaysJoin(db: map<int, Row>, params: seq<Params>, events: seq<Event>)
    requires Joined(db)
    ensures Joined(Seeded(db, params, events).db)
    ensures forall id :: id in db ==> id in Seeded(db, params, events).db && Seeded(db, params, events).db[id] == db[id]
  {
    SeededKeeps(db, params, events);
    var s := Seeded(db, params, events);
    forall id | id in s.db
      ensures PointsWell(s.db[id], RowOf(s.db))
    {
      if id in db {
        OldRowJoins(db, s.db, id);
      } else {
        var i, k :| OwnedBy(s, id, i, k);
        assert forall k :: 0 <= k < |s.tasks[i].ids| ==> Stored(s.db, s.tasks[i], k);
        OwnRowJoins(s.db, s.tasks[i], params[i], k);
      }
    }
  }

  lemma OldRowJoins(db: map<int, Row>, more: map<int, Row>, id: int)
    requires Joined(db) && id in db && forall id :: id in db ==> id in more && more[id] == db[id]
    ensures PointsWell(more[id], RowOf(more))
  {
    assert PointsWell(db[id], RowOf(db));
    assert forall r :: r in db ==> RowOf(db)(r) == RowOf(more)(r);
  }

  // ---------------------------------------------------------------- schedule independence

  /** The row with every reference r replaced by m[r]. */
  function Renamed(row: Row, m: map<int, int>): Row
    requires RefsIn(row, m.Keys)
  {
    match row
    case Invocation(_, _, _) => row
    case Target(_, _, _) => row
    case ConnectionMetadata(i) => ConnectionMetadata(m[i])
    case EventMetadata(i) => EventMetadata(m[i])
    case InvocationTarget(i, t) => InvocationTarget(m[i], m[t])
    case TestTarget(t) => TestTarget(m[t])
    case TestSummary(k) => TestSummary(m[k])
    case TestResult(k) => TestResult(m[k])
  }

  predicate RefsIn(row: Row, ids: set<int>) {
    match row
    case Invocation(_, _, _) => true
    case Target(_, _, _) => true
    case ConnectionMetadata(i) => i in ids
    case EventMetadata(i) => i in ids
    case InvocationTarget(i, t) => i in ids && t in ids
    case TestTarget(t) => t in ids
    case TestSummary(k) => k in ids
    case TestResult(k) => k in ids
  }

  /** The row with this id is in the other database under its new id, with references renamed. */
  ghost predicate CarriesOver(own1: map<int, Row>, own2: map<int, Row>, m: map<int, int>, id: int)
    requires id in own1
  {
    RefsIn(own1[id], m.Keys) && id in m && m[id] in own2 && own2[m[id]] == Renamed(own1[id], m)
  }

  ghost predicate Bijection(from: set<int>, to: set<int>, m: map<int, int>) {
    && m.Keys == from && (forall id :: id in m ==> m[id] in to)
    && (forall a, b :: a in m && b in m && m[a] == m[b] ==> a == b)
    && (forall id :: id in to ==> exists a :: a in m && m[a] == id)
  }

  /** m renames the first database into the second: a bijection of the ids that carries every row
      over, references included. */
  ghost predicate Isomorphism(db1: map<int, Row>, db2: map<int, Row>, m: map<int, int>) {
    Bijection(db1.Keys, db2.Keys, m) && forall id :: id in db1 ==> CarriesOver(db1, db2, m, id)
  }

  /** The rows of one task, by id. */
  ghost function Own(db: map<int, Row>, t: Task): map<int, Row> {
    map id | id in db && id in t.ids :: db[id]
  }

  /** From the ids of one task to those of another with as many rows. */
  ghost function Match(ids1: seq<int>, ids2: seq<int>): map<int, int>
    requires Distinct(ids1) && |ids1| == |ids2|
  {
    map k | 0 <= k < |ids1| :: ids1[k] := ids2[k]
  }

  lemma MatchAt(ids1: seq<int>, ids2: seq<int>, k: nat)
    requires Distinct(ids1) && |ids1| == |ids2| && k < |ids1|
    ensures ids1[k] in Match(ids1, ids2) && Match(ids1, ids2)[ids1[k]] == ids2[k]
  {
  }

  lemma RenameMatches(row: Row, ids1: seq<int>, ids2: seq<int>, m: map<int, int>)
    requires |ids1| == |ids2| && RefsBelow(row, |ids1|)
    requires forall k :: 0 <= k < |ids1| ==> ids1[k] in m && m[ids1[k]] == ids2[k]
    ensures RefsIn(Rename(row, ids1), m.Keys) && Renamed(Rename(row, ids1), m) == Rename(row, ids2)
  {
  }

  lemma ApartDistinct(s: System, i: nat)
    requires Apart(s) && i < |s.tasks|
    ensures Distinct(s.tasks[i].ids)
  {
    forall j, k | 0 <= j < |s.tasks[i].ids| && 0 <= k < |s.tasks[i].ids| && s.tasks[i].ids[j] == s.tasks[i].ids[k]
      ensures j == k
    {
      assert OwnedBy(s, s.tasks[i].ids[j], i, j) && OwnedBy(s, s.tasks[i].ids[j], i, k);
    }
  }

  /** own holds the rows under the ids and nothing else. */
  ghost predicate Placed(rows: seq<Row>, ids: seq<int>, own: map<int, Row>) {
    && |ids| <= |rows| && (forall id :: id in own ==> id in ids)
    && forall k :: 0 <= k < |ids| ==> PlacedAt(rows[k], ids, own, ids[k])
  }

  ghost predicate PlacedAt(row: Row, ids: seq<int>, own: map<int, Row>, id: int) {
    RefsBelow(row, |ids|) && id in own && own[id] == Rename(row, ids)
  }

  lemma MatchInto(ids1: seq<int>, ids2: seq<int>)
    requires |ids1| == |ids2| && Distinct(ids1) && Distinct(ids2)
    ensures
      var m := Match(ids1, ids2);
      && (forall id :: id in m <==> id in ids1) && (forall id :: id in m ==> m[id] in ids2)
      && forall a, b :: a in m && b in m && m[a] == m[b] ==> a == b
  {
    forall id | id in ids1
      ensures id in Match(ids1, ids2)
    {
      var k :| 0 <= k < |ids1| && ids1[k] == id;
      MatchAt(ids1, ids2, k);
    }
  }

  lemma MatchOnto(ids1: seq<int>, ids2: seq<int>, id: int) returns (a: int)
    requires |ids1| == |ids2| && Distinct(ids1) && id in ids2
    ensures a in Match(ids1, ids2) && Match(ids1, ids2)[a] == id
  {
    var k :| 0 <= k < |ids2| && ids2[k] == id;
    MatchAt(ids1, ids2, k);
    a := ids1[k];
  }

  lemma PlacedMatches(rows: seq<Row>, ids1: seq<int>, own1: map<int, Row>, ids2: seq<int>, own2: map<int, Row>, k: nat)
    requires Placed(rows, ids1, own1) && Placed(rows, ids2, own2) && k < |ids1|
    requires |ids1| == |ids2| && Distinct(ids1) && Distinct(ids2)
    ensures
      var m := Match(ids1, ids2);
      ids1[k] in own1 && RefsIn(own1[ids1[k]], m.Keys) && ids1[k] in m && m[ids1[k]] in own2
      && own2[m[ids1[k]]] == Renamed(own1[ids1[k]], m)
  {
    forall k | 0 <= k < |ids1|
      ensures ids1[k] in Match(ids1, ids2) && Match(ids1, ids2)[ids1[k]] == ids2[k]
    {
      MatchAt(ids1, ids2, k);
    }
    assert PlacedAt(rows[k], ids1, own1, ids1[k]) && PlacedAt(rows[k], ids2, own2, ids2[k]);
    RenameMatches(rows[k], ids1, ids2, Match(ids1, ids2));
  }

  lemma PlacedKeys(rows: seq<Row>, ids: seq<int>, own: map<int, Row>)
    requires Placed(rows, ids, own)
    ensures forall id :: id in own <==> id in ids
  {
    forall k | 0 <= k < |ids|
      ensures ids[k] in own
    {
      assert PlacedAt(rows[k], ids, own, ids[k]);
    }
  }

  lemma PlacedRenamed(rows: seq<Row>, ids1: seq<int>, own1: map<int, Row>, ids2: seq<int>, own2: map<int, Row>)
    requires Placed(rows, ids1, own1) && Placed(rows, ids2, own2)
    requires |ids1| == |ids2| && Distinct(ids1) && Distinct(ids2)
    ensures
      var m := Match(ids1, ids2);
      forall id :: id in own1 ==> CarriesOver(own1, own2, m, id)
  {
    forall id | id in own1
      ensures CarriesOver(own1, own2, Match(ids1, ids2), id)
    {
      var k :| 0 <= k < |ids1| && ids1[k] == id;
      PlacedMatches(rows, ids1, own1, ids2, own2, k);
    }
  }

  lemma PlacedIsomorphism(rows: seq<Row>, ids1: seq<int>, own1: map<int, Row>, ids2: seq<int>, own2: map<int, Row>)
    requires Placed(rows, ids1, own1) && Placed(rows, ids2, own2)
    requires |ids1| == |ids2| && Distinct(ids1) && Distinct(ids2)
    ensures Isomorphism(own1, own2, Match(ids1, ids2))
  {
    PlacedKeys(rows, ids1, own1);
    PlacedKeys(rows, ids2, own2);
    MatchKeys(ids1, ids2, own1.Keys, own2.Keys);
    PlacedRenamed(rows, ids1, own1, ids2, own2);
  }

  lemma MatchKeys(ids1: seq<int>, ids2: seq<int>, from: set<int>, to: set<int>)
    requires |ids1| == |ids2| && Distinct(ids1) && Distinct(ids2)
    requires (forall id :: id in from <==> id in ids1) && (forall id :: id in to <==> id in ids2)
    ensures Bijection(from, to, Match(ids1, ids2))
  {
    MatchInto(ids1, ids2);
    var m := Match(ids1, ids2);
    assert forall id :: id in m.Keys <==> id in from;
    forall id | id in to
      ensures exists a :: a in m && m[a] == id
    {
      var a := MatchOnto(ids1, ids2, id);
    }
  }

  lemma OwnPlaced(db: map<int, Row>, t: Task)
    requires OnTrack(t) && forall k :: 0 <= k < |t.ids| ==> Stored(db, t, k)
    ensures Placed(Flatten(t.saves), t.ids, Own(db, t))
  {
    assert |t.ids| > 0 ==> Stored(db, t, |t.ids| - 1);
    forall k | 0 <= k < |t.ids|
      ensures PlacedAt(Flatten(t.saves)[k], t.ids, Own(db, t), t.ids[k])
    {
      assert Stored(db, t, k);
    }
  }

  /** Two runs, from any databases, under any schedules and with any failures of the other
      instances: once an instance has made the same number of saves in both, in particular when it
      is complete, its rows are the same up to a renaming of ids. */
  lemma ScheduleIndependence(db1: map<int, Row>, events1: seq<Event>, db2: map<int, Row>, events2: seq<Event>,
                             params: seq<Params>, i: nat)
    returns (m: map<int, int>)
    requires i < |params| && |Seeded(db1, params, events1).tasks| == |params| == |Seeded(db2, params, events2).tasks|
    requires Seeded(db1, params, events1).tasks[i].pc == Seeded(db2, params, events2).tasks[i].pc
    ensures
      var s1, s2 := Seeded(db1, params, events1), Seeded(db2, params, events2);
      Isomorphism(Own(s1.db, s1.tasks[i]), Own(s2.db, s2.tasks[i]), m)
  {
    var s1, s2 := Seeded(db1, params, events1), Seeded(db2, params, events2);
    SeededKeeps(db1, params, events1);
    SeededKeeps(db2, params, events2);
    ApartDistinct(s1, i);
    ApartDistinct(s2, i);
    m := Match(s1.tasks[i].ids, s2.tasks[i].ids);
    assert OnTrack(s1.tasks[i]) && OnTrack(s2.tasks[i]);
    OwnPlaced(s1.db, s1.tasks[i]);
    OwnPlaced(s2.db, s2.tasks[i]);
    PlacedIsomorphism(Rows(params[i]), s1.tasks[i].ids, Own(s1.db, s1.tasks[i]), s2.tasks[i].ids, Own(s2.db, s2.tasks[i]));
  }

  // ---------------------------------------------------------------- exact counts in the database

  ghost predicate ExactlyOne(db: map<int, Row>, row: Row) {
    exists q :: HoldsAt(db, q, row) && forall q' :: HoldsAt(db, q', row) ==> q' == q
  }

  ghost predicate HoldsAt(db: map<int, Row>, q: int, row: Row) {
    q in db && db[q] == row
  }

  ghost predicate Absent(db: map<int, Row>, row: Row) {
    forall q :: !HoldsAt(db, q, row)
  }

  ghost predicate Complete(s: System, i: nat) {
    i < |s.tasks| && s.tasks[i].pc == |s.tasks[i].saves|
  }

  predicate References(row: Row) {
    !row.Invocation? && !row.Target?
  }

  /** A row that refers to a task's row was created by that task. */
  lemma SameTask(s: System, i: nat, row: Row, i': nat, row': Row)
    requires Apart(s) && i < |s.tasks| && i' < |s.tasks| && References(row)
    requires RefsBelow(row, |s.tasks[i].ids|) && RefsBelow(row', |s.tasks[i'].ids|)
    requires Rename(row, s.tasks[i].ids) == Rename(row', s.tasks[i'].ids)
    ensures i == i'
  {
    var k, k' := FirstRef(row), FirstRef(row');
    assert OwnedBy(s, s.tasks[i].ids[k], i, k) && OwnedBy(s, s.tasks[i].ids[k], i', k');
  }

  function FirstRef(row: Row): int
    requires References(row)
  {
    match row
    case ConnectionMetadata(i) => i
    case EventMetadata(i) => i
    case InvocationTarget(i, _) => i
    case TestTarget(t) => t
    case TestSummary(k) => k
    case TestResult(k) => k
  }

  lemma RenameInjective(row: Row, row': Row, ids: seq<int>)
    requires Distinct(ids) && RefsBelow(row, |ids|) && RefsBelow(row', |ids|) && Rename(row, ids) == Rename(row', ids)
    ensures row == row'
  {
  }

  /** Every reference of a row exists; its kind does not matter. */
  ghost predicate Intact(db: map<int, Row>) {
    forall id :: id in db ==> RefsIn(db[id], db.Keys)
  }

  /** A row that was there before seeding refers to no id that seeding handed out. */
  lemma NotFromBefore(db: map<int, Row>, s: System, i: nat, row: Row, q: int)
    requires Intact(db) && Accounted(db, s) && i < |s.tasks| && References(row) && RefsBelow(row, |s.tasks[i].ids|)
    requires HoldsAt(s.db, q, Rename(row, s.tasks[i].ids))
    ensures q !in db
  {
    if q in db {
      assert RefsIn(db[q], db.Keys);
      var id := FirstRef(Rename(row, s.tasks[i].ids));
      assert id in db && OwnedBy(s, id, i, FirstRef(row));
    }
  }

  /** Every database row that equals a program row with references is that program row's. */
  lemma HolderPosition(db: map<int, Row>, s: System, i: nat, row: Row, q: int) returns (k: nat)
    requires AllOnTrack(s) && Intact(db) && Inv(db, s)
    requires i < |s.tasks| && References(row) && RefsBelow(row, |s.tasks[i].ids|)
    requires HoldsAt(s.db, q, Rename(row, s.tasks[i].ids))
    ensures OwnedBy(s, q, i, k) && k < |Flatten(s.tasks[i].saves)| && Flatten(s.tasks[i].saves)[k] == row
  {
    NotFromBefore(db, s, i, row, q);
    var i', k' :| OwnedBy(s, q, i', k');
    k := k';
    assert Stored(s.db, s.tasks[i'], k');
    var row' := Flatten(s.tasks[i'].saves)[k'];
    SameTask(s, i, row, i', row');
    ApartDistinct(s, i);
    RenameInjective(row, row', s.tasks[i].ids);
  }

  /** What a program does exactly once, or never, is in the database exactly once, or never. */
  lemma CountInDatabase(db: map<int, Row>, s: System, i: nat, row: Row)
    requires AllOnTrack(s) && Intact(db) && Inv(db, s) && Complete(s, i)
    requires References(row) && RefsBelow(row, |s.tasks[i].ids|)
    ensures Count(Flatten(s.tasks[i].saves), row) == 1 ==> ExactlyOne(s.db, Rename(row, s.tasks[i].ids))
    ensures Count(Flatten(s.tasks[i].saves), row) == 0 ==> Absent(s.db, Rename(row, s.tasks[i].ids))
  {
    var t := s.tasks[i];
    var rows := Flatten(t.saves);
    assert OnTrack(t) && t.saves[..t.pc] == t.saves;
    CountAbsent(rows, row);
    if Count(rows, row) == 1 {
      var k := CountOnce(rows, row);
      assert Stored(s.db, t, k);
      var q := t.ids[k];
      assert HoldsAt(s.db, q, Rename(row, t.ids));
      forall q' | HoldsAt(s.db, q', Rename(row, t.ids))
        ensures q' == q
      {
        var k' := HolderPosition(db, s, i, row, q');
      }
    } else if Count(rows, row) == 0 {
      forall q | HoldsAt(s.db, q, Rename(row, t.ids))
        ensures false
      {
        var k' := HolderPosition(db, s, i, row, q);
      }
    }
  }

  /** The goroutine of an instance made all its saves. */
  ghost predicate Finished(db: map<int, Row>, s: System, i: nat, p: Params) {
    && AllOnTrack(s) && Intact(db) && Inv(db, s) && Complete(s, i) && s.tasks[i].saves == Saves(p)
    && |s.tasks[i].ids| == |Rows(p)|
  }

  lemma SeededFinished(db: map<int, Row>, params: seq<Params>, events: seq<Event>, i: nat)
    requires Intact(db) && i < |params| && Complete(Seeded(db, params, events), i)
    ensures Finished(db, Seeded(db, params, events), i, params[i])
  {
    var s := Seeded(db, params, events);
    SeededKeeps(db, params, events);
    assert OnTrack(s.tasks[i]) && s.tasks[i].saves[..s.tasks[i].pc] == s.tasks[i].saves;
  }

  ghost predicate MetadataExact(s: System, i: nat, p: Params, a: nat)
    requires i < |s.tasks|
  {
    && a < |s.tasks[i].ids| && s.tasks[i].ids[a] in s.db && IsInvocationOf(s.db[s.tasks[i].ids[a]], p, a)
    && ExactlyOne(s.db, ConnectionMetadata(s.tasks[i].ids[a]))
    && ExactlyOne(s.db, EventMetadata(s.tasks[i].ids[a]))
  }

  /** From any database whose references exist, and once an instance is complete: its
      invocation a is the row built for index a, with exactly one row of connection metadata and
      one of event metadata. */
  lemma MetadataInDatabase(db: map<int, Row>, params: seq<Params>, events: seq<Event>, i: nat, a: nat)
    requires Intact(db) && i < |params| && a < params[i].invocations && Complete(Seeded(db, params, events), i)
    ensures MetadataExact(Seeded(db, params, events), i, params[i], a)
  {
    SeededFinished(db, params, events, i);
    FinishedMetadata(db, Seeded(db, params, events), i, params[i], a);
  }

  lemma FinishedMetadata(db: map<int, Row>, s: System, i: nat, p: Params, a: nat)
    requires Finished(db, s, i, p) && a < p.invocations
    ensures MetadataExact(s, i, p, a)
  {
    MetadataOnce(p, a);
    assert Stored(s.db, s.tasks[i], a);
    CountInDatabase(db, s, i, ConnectionMetadata(a));
    CountInDatabase(db, s, i, EventMetadata(a));
  }

  lemma PairPositions(p: Params, a: nat, b: nat)
    requires a < p.invocations && b < p.targets
    ensures a < |Rows(p)| && TargetAt(p, b) < |Rows(p)|
  {
    RowsStartWithBase(p, a);
    RowsStartWithBase(p, TargetAt(p, b));
  }

  /** Invocation a and target b meet in one invocation target only, the one with this id. */
  ghost predicate PairExact(s: System, i: nat, p: Params, a: nat, b: nat, pair: int)
    requires i < |s.tasks|
  {
    && a < |s.tasks[i].ids| && 0 <= TargetAt(p, b) < |s.tasks[i].ids|
    && HoldsAt(s.db, pair, InvocationTarget(s.tasks[i].ids[a], s.tasks[i].ids[TargetAt(p, b)]))
    && ExactlyOne(s.db, InvocationTarget(s.tasks[i].ids[a], s.tasks[i].ids[TargetAt(p, b)]))
  }

  /** The pair has exactly one summary and that has exactly one result, or it has no summary. */
  ghost predicate SummaryExact(db: map<int, Row>, pair: int, test: bool) {
    if test then
      ExactlyOne(db, TestSummary(pair)) && exists q :: HoldsAt(db, q, TestSummary(pair)) && ExactlyOne(db, TestResult(q))
    else Absent(db, TestSummary(pair))
  }

  lemma FinishedPair(db: map<int, Row>, s: System, i: nat, p: Params, a: nat, b: nat) returns (k: nat)
    requires Finished(db, s, i, p) && a < p.invocations && b < p.targets
    ensures k < |Rows(p)| && Rows(p)[k] == InvocationTarget(a, TargetAt(p, b))
    ensures PairExact(s, i, p, a, b, s.tasks[i].ids[k])
  {
    PairPositions(p, a, b);
    var row := InvocationTarget(a, TargetAt(p, b));
    PairsOnce(p, row);
    CountInDatabase(db, s, i, row);
    k := CountOnce(Rows(p), row);
    assert Stored(s.db, s.tasks[i], k);
  }

  lemma FinishedSummary(db: map<int, Row>, s: System, i: nat, p: Params, k: nat)
    requires Finished(db, s, i, p) && k < |Rows(p)| && Rows(p)[k].InvocationTarget?
    ensures SummaryExact(s.db, s.tasks[i].ids[k], p.isTest(Rows(p)[k].target - TargetAt(p, 0)))
  {
    SummariesAndResults(p, k);
    CountInDatabase(db, s, i, TestSummary(k));
    if p.isTest(Rows(p)[k].target - TargetAt(p, 0)) {
      var n := CountOnce(Rows(p), TestSummary(k));
      assert Stored(s.db, s.tasks[i], n);
      SummariesAndResults(p, n);
      CountInDatabase(db, s, i, TestResult(n));
      assert HoldsAt(s.db, s.tasks[i].ids[n], TestSummary(s.tasks[i].ids[k]));
    }
  }

  lemma FinishedPairSummary(db: map<int, Row>, s: System, i: nat, p: Params, a: nat, b: nat) returns (pair: int)
    requires Finished(db, s, i, p) && a < p.invocations && b < p.targets
    ensures PairExact(s, i, p, a, b, pair) && SummaryExact(s.db, pair, p.isTest(b))
  {
    var k := FinishedPair(db, s, i, p, a, b);
    FinishedSummary(db, s, i, p, k);
    pair := s.tasks[i].ids[k];
  }

  /** From any database whose references exist, and once an instance is complete: its
      invocation a and target b meet in exactly one invocation target, which has exactly one test
      summary, with exactly one test result, if the target is a test rule, and none otherwise. */
  lemma PairInDatabase(db: map<int, Row>, params: seq<Params>, events: seq<Event>, i: nat, a: nat, b: nat)
    returns (pair: int)
    requires Intact(db) && i < |params| && a < params[i].invocations && b < params[i].targets
    requires Complete(Seeded(db, params, events), i)
    ensures PairExact(Seeded(db, params, events), i, params[i], a, b, pair)
    ensures SummaryExact(Seeded(db, params, events).db, pair, params[i].isTest(b))
  {
    SeededFinished(db, params, events, i);
    pair := FinishedPairSummary(db, Seeded(db, params, events), i, params[i], a, b);
  }
}
