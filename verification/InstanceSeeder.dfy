/** The imperative side of seeding one instance (cmd/bb_seed/main.go): loops that build rows from the
    ids of earlier ones, feed batchers and index back into the results, against the reference
    program - for any ids the database hands out, and whichever save fails. */
module InstanceSeeder {
  import opened Wrappers
  import opened OrderedSets
  import opened Batcher
  import opened SeedProgram
  import R = SeedRuns

  type Ids = int -> int

  /** References by position become references by id. */
  function RowBy(row: Row, ids: Ids): Row {
    match row
    case Invocation(_, _, _) => row
    case Target(_, _, _) => row
    case ConnectionMetadata(i) => ConnectionMetadata(ids(i))
    case EventMetadata(i) => EventMetadata(ids(i))
    case InvocationTarget(i, t) => InvocationTarget(ids(i), ids(t))
    case TestTarget(t) => TestTarget(ids(t))
    case TestSummary(k) => TestSummary(ids(k))
    case TestResult(k) => TestResult(ids(k))
  }

  function RowsBy(rows: seq<Row>, ids: Ids): seq<Row> {
    seq(|rows|, j requires 0 <= j < |rows| => RowBy(rows[j], ids))
  }

  function SavesBy(saves: seq<seq<Row>>, ids: Ids): seq<seq<Row>> {
    seq(|saves|, j requires 0 <= j < |saves| => RowsBy(saves[j], ids))
  }

  /** A row as a bulk save returns it. */
  datatype Entity = Entity(id: int, row: Row)

  /** The entities of rows created one after another from the given position on. */
  function Made(base: int, rows: seq<Row>, ids: Ids): seq<Entity> {
    seq(|rows|, j requires 0 <= j < |rows| => Entity(ids(base + j), rows[j]))
  }

  /** The saves after carrying out a plan, and whether none of them failed: the first failure stops
      it. */
  function Perform(fails: nat -> bool, before: seq<seq<Row>>, plan: seq<seq<Row>>): (seq<seq<Row>>, bool)
    decreases |plan|
  {
    if plan == [] then (before, true)
    else if fails(|before|) then (before, false)
    else Perform(fails, before + [plan[0]], plan[1..])
  }

  predicate Performed(fails: nat -> bool, before: seq<seq<Row>>, now: seq<seq<Row>>, plan: seq<seq<Row>>, ok: bool) {
    Perform(fails, before, plan) == (now, ok)
  }

  lemma {:induction false} PerformBoth(fails: nat -> bool, a: seq<seq<Row>>, first: seq<seq<Row>>, second: seq<seq<Row>>)
    ensures
      var (b, ok) := Perform(fails, a, first);
      Perform(fails, a, first + second) == if ok then Perform(fails, b, second) else (b, false)
    decreases |first|
  {
    if first == [] {
      assert first + second == second;
    } else if !fails(|a|) {
      assert (first + second)[1..] == first[1..] + second;
      PerformBoth(fails, a + [first[0]], first[1..], second);
    }
  }

  lemma PerformedThen(fails: nat -> bool, a: seq<seq<Row>>, b: seq<seq<Row>>, c: seq<seq<Row>>,
                      first: seq<seq<Row>>, second: seq<seq<Row>>, ok: bool)
    requires Performed(fails, a, b, first, true) && Performed(fails, b, c, second, ok)
    ensures Performed(fails, a, c, first + second, ok)
  {
    PerformBoth(fails, a, first, second);
  }

  lemma PerformedStop(fails: nat -> bool, a: seq<seq<Row>>, b: seq<seq<Row>>, first: seq<seq<Row>>, second: seq<seq<Row>>)
    requires Performed(fails, a, b, first, false)
    ensures Performed(fails, a, b, first + second, false)
  {
    PerformBoth(fails, a, first, second);
  }

  /** What is left is the plan up to the first save that fails. */
  lemma {:induction false} PerformedPart(fails: nat -> bool, before: seq<seq<Row>>, now: seq<seq<Row>>,
                                         plan: seq<seq<Row>>, ok: bool)
    requires Performed(fails, before, now, plan, ok)
    ensures |before| <= |now| <= |before| + |plan| && now == before + plan[..|now| - |before|]
    ensures forall k :: |before| <= k < |now| ==> !fails(k)
    ensures if ok then |now| == |before| + |plan| else |now| < |before| + |plan| && fails(|now|)
    decreases |plan|
  {
    if plan != [] && !fails(|before|) {
      PerformedPart(fails, before + [plan[0]], now, plan[1..], ok);
      assert plan == [plan[0]] + plan[1..];
      assert plan[..|now| - |before|] == [plan[0]] + plan[1..][..|now| - |before| - 1];
    }
  }

  lemma MadeConcat(base: int, a: seq<Row>, b: seq<Row>, ids: Ids)
    ensures Made(base, a + b, ids) == Made(base, a, ids) + Made(base + |a|, b, ids)
    ensures b == [] ==> Made(base, a + b, ids) == Made(base, a, ids)
  {
  }

  // ---------------------------------------------------------------- renaming the reference

  lemma RowsByConcat(a: seq<Row>, b: seq<Row>, ids: Ids)
    ensures RowsBy(a + b, ids) == RowsBy(a, ids) + RowsBy(b, ids)
  {
  }

  lemma SavesByConcat(a: seq<seq<Row>>, b: seq<seq<Row>>, ids: Ids)
    ensures SavesBy(a + b, ids) == SavesBy(a, ids) + SavesBy(b, ids)
  {
  }

  lemma {:induction false} ChunksBy(rows: seq<Row>, ids: Ids)
    ensures Chunks(RowsBy(rows, ids)) == SavesBy(Chunks(rows), ids)
    decreases |rows|
  {
    if |rows| > BATCH_SIZE {
      ChunksBy(rows[BATCH_SIZE..], ids);
      assert RowsBy(rows, ids)[..BATCH_SIZE] == RowsBy(rows[..BATCH_SIZE], ids);
      assert RowsBy(rows, ids)[BATCH_SIZE..] == RowsBy(rows[BATCH_SIZE..], ids);
    }
  }

  lemma {:induction false} FlattenBy(saves: seq<seq<Row>>, ids: Ids)
    ensures Flatten(SavesBy(saves, ids)) == RowsBy(Flatten(saves), ids)
    decreases |saves|
  {
    if saves != [] {
      var init, last := saves[..|saves| - 1], saves[|saves| - 1];
      FlattenBy(init, ids);
      assert SavesBy(saves, ids)[..|saves| - 1] == SavesBy(init, ids);
      RowsByConcat(Flatten(init), last, ids);
    }
  }

  lemma {:induction false} TestSavesSnoc(chunks: seq<seq<Row>>, base: int, c: seq<Row>)
    ensures TestSaves(chunks + [c], base) == TestSaves(chunks, base) + TestSaves([c], base + 3 * |Flatten(chunks)|)
    decreases |chunks|
  {
    if chunks == [] {
      assert chunks + [c] == [c];
    } else {
      assert (chunks + [c])[1..] == chunks[1..] + [c];
      assert chunks == [chunks[0]] + chunks[1..];
      FlattenCons(chunks[0], chunks[1..]);
      TestSavesSnoc(chunks[1..], base + 3 * |chunks[0]|, c);
    }
  }

  lemma OneTestSave(c: seq<Row>, base: int)
    ensures TestSaves([c], base) == [c, SummaryRows(base, |c|), ResultRows(base + |c|, |c|)]
  {
    assert [c][1..] == [];
  }

  lemma {:induction false} NoTargetsNoPairs(n: nat)
    ensures Cross(n, []) == []
    decreases n
  {
    if n > 0 {
      NoTargetsNoPairs(n - 1);
    }
  }

  lemma PairNext(before: seq<Row>, i: nat, positions: seq<int>, j: nat, ids: Ids)
    requires j < |positions|
    ensures RowsBy(before + Each(i, positions[..j + 1]), ids) ==
      RowsBy(before + Each(i, positions[..j]), ids) + [InvocationTarget(ids(i), ids(positions[j]))]
  {
    assert positions[..j + 1][..j] == positions[..j];
    RowsByConcat(before, Each(i, positions[..j]), ids);
    RowsByConcat(before + Each(i, positions[..j]), [InvocationTarget(i, positions[j])], ids);
    assert before + Each(i, positions[..j + 1]) == before + Each(i, positions[..j]) + [InvocationTarget(i, positions[j])];
  }

  /** A batcher that was given the items has executed the full chunks of done and holds chunk. */
  ghost predicate Batched(items: seq<Row>, done: seq<Row>, chunk: seq<Row>, full: nat) {
    items == done + chunk && |done| == BATCH_SIZE * full && |chunk| < BATCH_SIZE
  }

  lemma BatchedNext(items: seq<Row>, i: int, done: seq<Row>, chunk: seq<Row>, full: nat)
    requires 0 <= i < |items| && Batched(items[..i], done, chunk, full)
    ensures items[..i + 1] == done + (chunk + [items[i]])
    ensures items[..i + 1] == (done + (chunk + [items[i]])) + []
  {
  }

  /** Full chunks from the front are the first chunks of the whole. */
  lemma {:induction false} ChunksFront<T>(a: seq<T>, b: seq<T>, n: nat)
    requires |a| == BATCH_SIZE * n
    ensures |Chunks(a)| <= |Chunks(a + b)| && Chunks(a + b) == Chunks(a) + Chunks(b)
    decreases n
  {
    if n == 0 {
      assert a + b == b;
    } else if b == [] {
      assert a + b == a;
    } else if n == 1 {
      assert (a + b)[..BATCH_SIZE] == a && (a + b)[BATCH_SIZE..] == b;
    } else {
      assert (a + b)[..BATCH_SIZE] == a[..BATCH_SIZE] && (a + b)[BATCH_SIZE..] == a[BATCH_SIZE..] + b;
      ChunksFront(a[BATCH_SIZE..], b, n - 1);
    }
  }

  /** What a batcher has left to do once the chunks of done are saved. */
  lemma ChunksLeft(done: seq<Row>, chunk: seq<Row>, rest: seq<Row>, full: nat)
    requires |done| == BATCH_SIZE * full && |chunk| == BATCH_SIZE
    ensures Chunks(done + chunk + rest) == Chunks(done) + [chunk] + Chunks(rest)
    ensures Chunks(done + chunk) == Chunks(done) + [chunk]
  {
    ChunksAppend(done, chunk, full);
    ChunksFront(done + chunk, rest, full + 1);
  }

  lemma TestSavesLeft(done: seq<Row>, chunk: seq<Row>, rest: seq<Row>, full: nat, base: int)
    requires |done| == BATCH_SIZE * full && |chunk| == BATCH_SIZE
    ensures TestSaves(Chunks(done + chunk), base) ==
      TestSaves(Chunks(done), base) + TestSaves([chunk], base + 3 * |done|)
    ensures TestSaves(Chunks(done), base) + TestSaves([chunk], base + 3 * |done|)
      <= TestSaves(Chunks(done + chunk + rest), base)
  {
    ChunksLeft(done, chunk, rest, full);
    ChunksShape(done);
    TestSavesSnoc(Chunks(done), base, chunk);
    TestSavesPrefix(Chunks(done) + [chunk], Chunks(rest), base);
  }

  lemma {:induction false} TestSavesPrefix(a: seq<seq<Row>>, b: seq<seq<Row>>, base: int)
    ensures TestSaves(a, base) <= TestSaves(a + b, base)
    decreases |a|
  {
    if a != [] {
      assert (a + b)[1..] == a[1..] + b;
      TestSavesPrefix(a[1..], b, base + 3 * |a[0]|);
    }
  }

  lemma TestSavesLast(done: seq<Row>, chunk: seq<Row>, full: nat, base: int)
    requires |done| == BATCH_SIZE * full && 0 < |chunk| <= BATCH_SIZE
    ensures TestSaves(Chunks(done + chunk), base) ==
      TestSaves(Chunks(done), base) + TestSaves([chunk], base + 3 * |done|)
  {
    ChunksAppend(done, chunk, full);
    ChunksShape(done);
    TestSavesSnoc(Chunks(done), base, chunk);
  }

  lemma PrefixBy(a: seq<seq<Row>>, b: seq<seq<Row>>, ids: Ids) returns (rest: seq<seq<Row>>)
    requires a <= b
    ensures SavesBy(b, ids) == SavesBy(a, ids) + rest
  {
    rest := SavesBy(b[|a|..], ids);
    assert b == a + b[|a|..];
    SavesByConcat(a, b[|a|..], ids);
  }

  /** The goroutine of one instance. The database gives the k-th row it creates the id ids(k), and
      lets its k-th bulk save fail or not. */
  class InstanceSeeder {
    const p: Params
    const ids: Ids
    const fails: nat -> bool
    var created: nat
    var saves: seq<seq<Row>>

    ghost predicate Valid()
      reads this
    {
      created == |Flatten(saves)|
    }

    constructor (p: Params, ids: Ids, fails: nat -> bool)
      ensures this.p == p && this.ids == ids && this.fails == fails && saves == [] && Valid()
    {
      this.p, this.ids, this.fails := p, ids, fails;
      created, saves := 0, [];
    }

    /** CreateBulk(chunk...).Save: one row per builder with the ids in order, or an error and no
        row. */
    method CreateBulk(chunk: seq<Row>) returns (r: Option<seq<Entity>>)
      requires Valid()
      modifies this
      ensures Valid() && Performed(fails, old(saves), saves, [chunk], r.Some?)
      ensures r.Some? ==> created == old(created) + |chunk| && r.value == Made(old(created), chunk, ids)
    {
      assert [chunk][1..] == [] && (saves + [chunk])[..|saves|] == saves;
      if fails(|saves|) { return None; }
      r := Some(Made(created, chunk, ids));
      created, saves := created + |chunk|, saves + [chunk];
    }

    /** A batcher over CreateBulk, fed with all items and asked for its result. */
    method SaveAll(items: seq<Row>) returns (r: Option<seq<Entity>>)
      requires Valid()
      modifies this
      ensures Valid() && Performed(fails, old(saves), saves, Chunks(items), r.Some?)
      ensures r.Some? ==> created == old(created) + |items| && r.value == Made(old(created), items, ids)
    {
      var chunk: seq<Row>, output: seq<Entity> := [], [];
      ghost var done: seq<Row>, full := [], 0;
      for i := 0 to |items|
        invariant Valid() && Batched(items[..i], done, chunk, full)
        invariant Performed(fails, old(saves), saves, Chunks(done), true)
        invariant created == old(created) + |done| && output == Made(old(created), done, ids)
      {
        BatchedNext(items, i, done, chunk, full);
        chunk := chunk + [items[i]];
        if |chunk| >= BATCH_SIZE {
          ghost var before := saves;
          var o := CreateBulk(chunk);
          SaveStep(old(saves), before, saves, done, chunk, items[i + 1..], full, o.Some?);
          assert items == done + chunk + items[i + 1..];
          if o.None? { return None; }
          MadeConcat(old(created), done, chunk, ids);
          output := output + o.value;
          done, chunk, full := done + chunk, [], full + 1;
        }
      }
      assert items == items[..|items|] == done + chunk;
      MadeConcat(old(created), done, chunk, ids);
      ChunksAppend(done, chunk, full);
      if |chunk| > 0 {
        ghost var before := saves;
        var o := CreateBulk(chunk);
        PerformedThen(fails, old(saves), before, saves, Chunks(done), [chunk], o.Some?);
        if o.None? { return None; }
        output := output + o.value;
      }
      r := Some(output);
    }

    /** One executed chunk, within the whole plan. */
    lemma SaveStep(start: seq<seq<Row>>, before: seq<seq<Row>>, now: seq<seq<Row>>, done: seq<Row>, chunk: seq<Row>,
                   rest: seq<Row>, full: nat, ok: bool)
      requires |done| == BATCH_SIZE * full && |chunk| == BATCH_SIZE
      requires Performed(fails, start, before, Chunks(done), true) && Performed(fails, before, now, [chunk], ok)
      ensures ok ==> Performed(fails, start, now, Chunks(done + chunk), true)
      ensures !ok ==> Performed(fails, start, now, Chunks(done + chunk + rest), false)
    {
      ChunksLeft(done, chunk, rest, full);
      PerformedThen(fails, start, before, now, Chunks(done), [chunk], ok);
      if !ok {
        PerformedStop(fails, start, now, Chunks(done) + [chunk], Chunks(rest));
      }
    }

    /** The execute callback of the test pass: the pairs, a summary for each, a result for each. */
    method ExecuteTestChunk(chunk: seq<Row>, ghost plain: seq<Row>) returns (ok: bool)
      requires Valid() && chunk == RowsBy(plain, ids) && chunk != []
      modifies this
      ensures Valid() && Performed(fails, old(saves), saves, SavesBy(TestSaves([plain], old(created)), ids), ok)
      ensures ok ==> created == old(created) + 3 * |plain|
    {
      ghost var base, n := created, |plain|;
      ghost var summaryRows, resultRows := SummaryRows(base, n), ResultRows(base + n, n);
      OneTestSave(plain, base);
      ghost var plan := SavesBy([plain, summaryRows, resultRows], ids);
      assert plan == [chunk] + [RowsBy(summaryRows, ids)] + [RowsBy(resultRows, ids)];
      ghost var s0 := saves;
      var pairs := CreateBulk(chunk);
      if pairs.None? {
        PerformedStop(fails, s0, saves, [chunk], [RowsBy(summaryRows, ids)]);
        PerformedStop(fails, s0, saves, [chunk] + [RowsBy(summaryRows, ids)], [RowsBy(resultRows, ids)]);
        return false;
      }
      var builders := SummariesOf(pairs.value, chunk, base);
      ghost var s1 := saves;
      var summaries := CreateBulk(builders);
      PerformedThen(fails, s0, s1, saves, [chunk], [builders], summaries.Some?);
      if summaries.None? {
        PerformedStop(fails, s0, saves, [chunk] + [builders], [RowsBy(resultRows, ids)]);
        return false;
      }
      var results := ResultsOf(summaries.value, builders, base + n);
      ok := true;
      if |results| > 0 {
        ghost var s2 := saves;
        var o := CreateBulk(results);
        PerformedThen(fails, s0, s2, saves, [chunk] + [builders], [results], o.Some?);
        ok := o.Some?;
      }
    }

    method SummariesOf(pairs: seq<Entity>, ghost chunk: seq<Row>, ghost base: nat) returns (builders: seq<Row>)
      requires pairs == Made(base, chunk, ids)
      ensures builders == RowsBy(SummaryRows(base, |chunk|), ids)
    {
      builders := [];
      for j := 0 to |pairs|
        invariant builders == RowsBy(SummaryRows(base, |chunk|), ids)[..j]
      {
        builders := builders + [TestSummary(pairs[j].id)];
      }
    }

    method ResultsOf(summaries: seq<Entity>, ghost chunk: seq<Row>, ghost base: nat) returns (builders: seq<Row>)
      requires summaries == Made(base, chunk, ids)
      ensures builders == RowsBy(ResultRows(base, |chunk|), ids)
    {
      builders := [];
      for j := 0 to |summaries|
        invariant builders == RowsBy(ResultRows(base, |chunk|), ids)[..j]
      {
        builders := builders + [TestResult(summaries[j].id)];
      }
    }

    /** A batcher over ExecuteTestChunk. */
    method SaveTestPairs(items: seq<Row>, ghost plain: seq<Row>) returns (ok: bool)
      requires Valid() && items == RowsBy(plain, ids)
      modifies this
      ensures Valid() && Performed(fails, old(saves), saves, SavesBy(TestSaves(Chunks(plain), old(created)), ids), ok)
    {
      var chunk: seq<Row> := [];
      ghost var done: seq<Row>, held: seq<Row>, full := [], [], 0;
      ghost var base := created;
      for i := 0 to |items|
        invariant Valid() && Batched(plain[..i], done, held, full) && chunk == RowsBy(held, ids)
        invariant Performed(fails, old(saves), saves, SavesBy(TestSaves(Chunks(done), base), ids), true)
        invariant created == base + 3 * |done|
      {
        BatchedNext(plain, i, done, held, full);
        chunk, held := chunk + [items[i]], held + [plain[i]];
        if |chunk| >= BATCH_SIZE {
          ghost var before := saves;
          ok := ExecuteTestChunk(chunk, held);
          TestStep(old(saves), before, saves, done, held, plain[i + 1..], full, base, ok);
          assert plain == done + held + plain[i + 1..];
          if !ok { return; }
          done, chunk, held, full := done + held, [], [], full + 1;
        }
      }
      assert plain == plain[..|items|] == done + held;
      ok := true;
      if |chunk| > 0 {
        ghost var before := saves;
        ok := ExecuteTestChunk(chunk, held);
        TestSavesLast(done, held, full, base);
        SavesByConcat(TestSaves(Chunks(done), base), TestSaves([held], base + 3 * |done|), ids);
        PerformedThen(fails, old(saves), before, saves, SavesBy(TestSaves(Chunks(done), base), ids),
          SavesBy(TestSaves([held], base + 3 * |done|), ids), ok);
      } else {
        assert done + held == done;
      }
    }

    /** One executed chunk of the test pass, within the whole plan. */
    lemma TestStep(start: seq<seq<Row>>, before: seq<seq<Row>>, now: seq<seq<Row>>, done: seq<Row>, held: seq<Row>,
                   rest: seq<Row>, full: nat, base: nat, ok: bool)
      requires |done| == BATCH_SIZE * full && |held| == BATCH_SIZE
      requires Performed(fails, start, before, SavesBy(TestSaves(Chunks(done), base), ids), true)
      requires Performed(fails, before, now, SavesBy(TestSaves([held], base + 3 * |done|), ids), ok)
      ensures ok ==> Performed(fails, start, now, SavesBy(TestSaves(Chunks(done + held), base), ids), true)
      ensures !ok ==> Performed(fails, start, now, SavesBy(TestSaves(Chunks(done + held + rest), base), ids), false)
    {
      var first, second := TestSaves(Chunks(done), base), TestSaves([held], base + 3 * |done|);
      TestSavesLeft(done, held, rest, full, base);
      SavesByConcat(first, second, ids);
      PerformedThen(fails, start, before, now, SavesBy(first, ids), SavesBy(second, ids), ok);
      if !ok {
        var more := PrefixBy(first + second, TestSaves(Chunks(done + held + rest), base), ids);
        PerformedStop(fails, start, now, SavesBy(first + second, ids), more);
      }
    }

    /** The returned entities have the ids of the positions from base on. */
    ghost predicate IdsFrom(entities: seq<Entity>, base: int, n: nat) {
      |entities| == n && forall j :: 0 <= j < n ==> entities[j].id == ids(base + j)
    }

    method SeedBazelInvocations() returns (r: Option<seq<Entity>>)
      requires Valid() && saves == []
      modifies this
      ensures Valid() && Performed(fails, [], saves, SavesBy(InvocationSaves(p), ids), r.Some?)
      ensures r.Some? ==> created == 3 * p.invocations && IdsFrom(r.value, 0, p.invocations)
    {
      NoInvocations(p);
      if p.invocations == 0 { return Some([]); }
      var builders := Builders();
      var invocations := SaveAll(builders);
      InvocationPlan(p, ids);
      ghost var s1 := saves;
      if invocations.None? {
        PerformedStop(fails, [], saves, Chunks(builders), Chunks(RowsBy(ConnectionRows(p), ids)));
        PerformedStop(fails, [], saves, Chunks(builders) + Chunks(RowsBy(ConnectionRows(p), ids)),
          Chunks(RowsBy(EventRows(p), ids)));
        return None;
      }
      var connections := Connections(invocations.value);
      var c := SaveAll(connections);
      PerformedThen(fails, [], s1, saves, Chunks(builders), Chunks(connections), c.Some?);
      ghost var s2 := saves;
      if c.None? {
        PerformedStop(fails, [], saves, Chunks(builders) + Chunks(connections), Chunks(RowsBy(EventRows(p), ids)));
        return None;
      }
      var events := Events(invocations.value);
      var e := SaveAll(events);
      PerformedThen(fails, [], s2, saves, Chunks(builders) + Chunks(connections), Chunks(events), e.Some?);
      r := if e.Some? then invocations else None;
    }

    method Builders() returns (builders: seq<Row>)
      ensures builders == RowsBy(InvocationRows(p), ids)
    {
      builders := [];
      for i := 0 to p.invocations
        invariant builders == RowsBy(InvocationRows(p), ids)[..i]
      {
        builders := builders + [Invocation(p.instance, i, UserOf(p, i))];
      }
    }

    /** invocations[i] is in bounds and the row of index i. */
    method Connections(invocations: seq<Entity>) returns (builders: seq<Row>)
      requires IdsFrom(invocations, 0, p.invocations)
      ensures builders == RowsBy(ConnectionRows(p), ids)
    {
      builders := [];
      for i := 0 to p.invocations
        invariant builders == RowsBy(ConnectionRows(p), ids)[..i]
      {
        builders := builders + [ConnectionMetadata(invocations[i].id)];
      }
    }

    method Events(invocations: seq<Entity>) returns (builders: seq<Row>)
      requires IdsFrom(invocations, 0, p.invocations)
      ensures builders == RowsBy(EventRows(p), ids)
    {
      builders := [];
      for i := 0 to p.invocations
        invariant builders == RowsBy(EventRows(p), ids)[..i]
      {
        builders := builders + [EventMetadata(invocations[i].id)];
      }
    }

    method SeedTargets() returns (r: Option<seq<Entity>>)
      requires Valid()
      modifies this
      ensures Valid() && Performed(fails, old(saves), saves, SavesBy(Chunks(TargetRows(p)), ids), r.Some?)
      ensures r.Some? ==> created == old(created) + p.targets && r.value == Made(old(created), TargetRows(p), ids)
    {
      ChunksBy(TargetRows(p), ids);
      if p.targets == 0 {
        return Some([]);
      }
      var builders: seq<Row> := [];
      for j := 0 to p.targets
        invariant builders == TargetRows(p)[..j]
      {
        builders := builders + [Target(p.instance, j, p.isTest(j))];
      }
      assert builders == TargetRows(p) == RowsBy(TargetRows(p), ids);
      r := SaveAll(builders);
    }

    function Of(positions: seq<int>): seq<int> {
      seq(|positions|, j requires 0 <= j < |positions| => ids(positions[j]))
    }

    /** The partition loop of seedInvocationTargets, on the kind of each returned target. */
    method SplitTargets(targets: seq<Entity>) returns (build: seq<int>, test: seq<int>)
      requires targets == Made(TargetAt(p, 0), TargetRows(p), ids)
      ensures build == Of(BuildTargets(p)) && test == Of(TestTargets(p))
    {
      build, test := [], [];
      for j := 0 to |targets|
        invariant build == Of(TargetsWith(p, false, j)) && test == Of(TargetsWith(p, true, j))
      {
        assert targets[j] == Entity(ids(TargetAt(p, j)), Target(p.instance, j, p.isTest(j)));
        OfNext(p, ids, j);
        if targets[j].row.test {
          test := test + [targets[j].id];
        } else {
          build := build + [targets[j].id];
        }
      }
    }

    /** The two nested loops that build one invocation target per pair. */
    method Pairs(invocations: seq<Entity>, targets: seq<int>, ghost positions: seq<int>) returns (items: seq<Row>)
      requires IdsFrom(invocations, 0, p.invocations) && targets == Of(positions)
      ensures items == RowsBy(Cross(p.invocations, positions), ids)
    {
      items := [];
      for i := 0 to |invocations|
        invariant items == RowsBy(Cross(i, positions), ids)
      {
        for j := 0 to |targets|
          invariant items == RowsBy(Cross(i, positions) + Each(i, positions[..j]), ids)
        {
          PairNext(Cross(i, positions), i, positions, j, ids);
          items := items + [InvocationTarget(invocations[i].id, targets[j])];
        }
        assert positions[..|targets|] == positions;
      }
    }

    method SeedBuildInvocationTargets(invocations: seq<Entity>, targets: seq<int>) returns (ok: bool)
      requires Valid() && IdsFrom(invocations, 0, p.invocations) && targets == Of(BuildTargets(p))
      modifies this
      ensures Valid()
      ensures Performed(fails, old(saves), saves, SavesBy(Chunks(Cross(p.invocations, BuildTargets(p))), ids), ok)
      ensures ok ==> created == old(created) + |Cross(p.invocations, BuildTargets(p))|
    {
      ghost var pairs := Cross(p.invocations, BuildTargets(p));
      NoTargetsNoPairs(p.invocations);
      if |invocations| == 0 || |targets| == 0 {
        assert BuildTargets(p) == [] || p.invocations == 0;
        return true;
      }
      var items := Pairs(invocations, targets, BuildTargets(p));
      ChunksBy(pairs, ids);
      var o := SaveAll(items);
      ok := o.Some?;
    }

    method SeedTestInvocationTargets(invocations: seq<Entity>, targets: seq<int>) returns (ok: bool)
      requires Valid() && IdsFrom(invocations, 0, p.invocations) && targets == Of(TestTargets(p))
      modifies this
      ensures Valid() && Performed(fails, old(saves), saves, SavesBy(TestPlan(p, old(created)), ids), ok)
    {
      NoTestPlan(p, created);
      if |invocations| == 0 || |targets| == 0 {
        assert TestTargets(p) == [] || p.invocations == 0;
        return true;
      }
      ghost var first, second := TestPlanParts(p, created, ids);
      var markers := Markers(targets);
      var m := SaveAll(markers);
      ghost var s1 := saves;
      if m.None? {
        PerformedStop(fails, old(saves), saves, first, second);
        return false;
      }
      var pairs := Pairs(invocations, targets, TestTargets(p));
      ok := SaveTestPairs(pairs, Cross(p.invocations, TestTargets(p)));
      PerformedThen(fails, old(saves), s1, saves, first, second, ok);
    }

    method Markers(targets: seq<int>) returns (markers: seq<Row>)
      requires p.invocations > 0 && targets == Of(TestTargets(p))
      ensures markers == RowsBy(MarkerRows(p), ids)
    {
      markers := [];
      for j := 0 to |targets|
        invariant markers == RowsBy(MarkerRows(p), ids)[..j]
      {
        markers := markers + [TestTarget(targets[j])];
      }
    }

    method SeedInvocationTargets(invocations: seq<Entity>, targets: seq<Entity>) returns (ok: bool)
      requires Valid() && IdsFrom(invocations, 0, p.invocations) && targets == Made(TargetAt(p, 0), TargetRows(p), ids)
      requires created == TargetAt(p, p.targets)
      modifies this
      ensures Valid() && Performed(fails, old(saves), saves, SavesBy(PairPlan(p), ids), ok)
    {
      if |invocations| == 0 || |targets| == 0 {
        NoPairPlan(p);
        return true;
      }
      var build, test := SplitTargets(targets);
      ghost var first, second := PairPlanParts(p, created, ids);
      ghost var base := created + |Cross(p.invocations, BuildTargets(p))|;
      ok := SeedBuildInvocationTargets(invocations, build);
      if !ok {
        PerformedStop(fails, old(saves), saves, first, second);
        return;
      }
      ghost var s1 := saves;
      assert created == base && Performed(fails, old(saves), s1, first, true);
      ok := SeedTestInvocationTargets(invocations, test);
      assert Performed(fails, s1, saves, second, ok);
      PerformedThen(fails, old(saves), s1, saves, first, second, ok);
    }

    /** The goroutine of one instance: whatever ids the database hands out and whichever save fails,
        it performs exactly the reference program with its references renamed to those ids, up to
        the first save that fails. */
    method Seed() returns (ok: bool)
      requires Valid() && saves == []
      modifies this
      ensures Valid() && Performed(fails, [], saves, SavesBy(Saves(p), ids), ok)
    {
      PlanOf(p, ids);
      ghost var a, b, c := SavesBy(InvocationSaves(p), ids), SavesBy(Chunks(TargetRows(p)), ids), SavesBy(PairPlan(p), ids);
      var invocations := SeedBazelInvocations();
      if invocations.None? {
        PerformedStop(fails, [], saves, a, b);
        PerformedStop(fails, [], saves, a + b, c);
        return false;
      }
      ghost var s1 := saves;
      var targets := SeedTargets();
      PerformedThen(fails, [], s1, saves, a, b, targets.Some?);
      if targets.None? {
        PerformedStop(fails, [], saves, a + b, c);
        return false;
      }
      ghost var s2 := saves;
      ok := SeedInvocationTargets(invocations.value, targets.value);
      PerformedThen(fails, [], s2, saves, a + b, c, ok);
    }
  }

  // ---------------------------------------------------------------- the parts of the plan

  function InvocationSaves(p: Params): seq<seq<Row>> {
    Chunks(InvocationRows(p)) + Chunks(ConnectionRows(p)) + Chunks(EventRows(p))
  }

  function TestPlan(p: Params, base: int): seq<seq<Row>> {
    Chunks(MarkerRows(p)) + TestSaves(Chunks(Cross(p.invocations, TestTargets(p))), base + |MarkerRows(p)|)
  }

  function PairPlan(p: Params): seq<seq<Row>> {
    Chunks(Cross(p.invocations, BuildTargets(p)))
      + TestPlan(p, TargetAt(p, p.targets) + |Cross(p.invocations, BuildTargets(p))|)
  }

  lemma TestPlanParts(p: Params, base: int, ids: Ids) returns (first: seq<seq<Row>>, second: seq<seq<Row>>)
    ensures first == Chunks(RowsBy(MarkerRows(p), ids))
    ensures second ==
      SavesBy(TestSaves(Chunks(Cross(p.invocations, TestTargets(p))), base + |RowsBy(MarkerRows(p), ids)|), ids)
    ensures SavesBy(TestPlan(p, base), ids) == first + second
  {
    var rest := TestSaves(Chunks(Cross(p.invocations, TestTargets(p))), base + |MarkerRows(p)|);
    first, second := SavesBy(Chunks(MarkerRows(p)), ids), SavesBy(rest, ids);
    ChunksBy(MarkerRows(p), ids);
    SavesByConcat(Chunks(MarkerRows(p)), rest, ids);
  }

  lemma PairPlanParts(p: Params, base: int, ids: Ids) returns (first: seq<seq<Row>>, second: seq<seq<Row>>)
    requires base == TargetAt(p, p.targets)
    ensures first == SavesBy(Chunks(Cross(p.invocations, BuildTargets(p))), ids)
    ensures second == SavesBy(TestPlan(p, base + |Cross(p.invocations, BuildTargets(p))|), ids)
    ensures SavesBy(PairPlan(p), ids) == first + second
  {
    var a := Chunks(Cross(p.invocations, BuildTargets(p)));
    var b := TestPlan(p, base + |Cross(p.invocations, BuildTargets(p))|);
    first, second := SavesBy(a, ids), SavesBy(b, ids);
    SavesByConcat(a, b, ids);
  }

  lemma PlainSize(p: Params)
    ensures |Plain(p)| == TargetAt(p, p.targets) + |Cross(p.invocations, BuildTargets(p))| + |MarkerRows(p)|
  {
  }

  lemma FiveParts(a: seq<seq<Row>>, b: seq<seq<Row>>, c: seq<seq<Row>>, d: seq<seq<Row>>, e: seq<seq<Row>>)
    ensures a + b + c + d + e == (a + b) + (c + (d + e))
  {
  }

  lemma PlanIs(p: Params)
    ensures Saves(p) == InvocationSaves(p) + Chunks(TargetRows(p)) + PairPlan(p)
  {
    PlainSize(p);
    var e := TestSaves(Chunks(Cross(p.invocations, TestTargets(p))), |Plain(p)|);
    FiveParts(InvocationSaves(p), Chunks(TargetRows(p)), Chunks(Cross(p.invocations, BuildTargets(p))),
      Chunks(MarkerRows(p)), e);
  }

  lemma PlanOf(p: Params, ids: Ids)
    ensures SavesBy(Saves(p), ids) ==
      SavesBy(InvocationSaves(p), ids) + SavesBy(Chunks(TargetRows(p)), ids) + SavesBy(PairPlan(p), ids)
  {
    PlanIs(p);
    SavesByConcat(InvocationSaves(p) + Chunks(TargetRows(p)), PairPlan(p), ids);
    SavesByConcat(InvocationSaves(p), Chunks(TargetRows(p)), ids);
  }

  lemma InvocationPlan(p: Params, ids: Ids)
    ensures SavesBy(InvocationSaves(p), ids) == Chunks(RowsBy(InvocationRows(p), ids))
      + Chunks(RowsBy(ConnectionRows(p), ids)) + Chunks(RowsBy(EventRows(p), ids))
  {
    var a, b, c := InvocationRows(p), ConnectionRows(p), EventRows(p);
    ChunksBy(a, ids);
    ChunksBy(b, ids);
    ChunksBy(c, ids);
    SavesByConcat(Chunks(a) + Chunks(b), Chunks(c), ids);
    SavesByConcat(Chunks(a), Chunks(b), ids);
  }

  lemma NoInvocations(p: Params)
    ensures p.invocations == 0 ==> InvocationSaves(p) == []
  {
  }

  lemma NoTestPlan(p: Params, base: int)
    ensures p.invocations == 0 || TestTargets(p) == [] ==> TestPlan(p, base) == []
  {
    NoTargetsNoPairs(p.invocations);
    if p.invocations == 0 || TestTargets(p) == [] {
      assert MarkerRows(p) == [] && Cross(p.invocations, TestTargets(p)) == [];
    }
  }

  lemma NoPairPlan(p: Params)
    ensures p.invocations == 0 || p.targets == 0 ==> PairPlan(p) == []
  {
    NoTargetsNoPairs(p.invocations);
    NoTestPlan(p, TargetAt(p, p.targets) + |Cross(p.invocations, BuildTargets(p))|);
    if p.invocations == 0 || p.targets == 0 {
      assert Cross(p.invocations, BuildTargets(p)) == [];
    }
  }

  lemma OfNext(p: Params, ids: Ids, j: nat)
    ensures TargetsWith(p, p.isTest(j), j + 1) == TargetsWith(p, p.isTest(j), j) + [TargetAt(p, j)]
    ensures TargetsWith(p, !p.isTest(j), j + 1) == TargetsWith(p, !p.isTest(j), j)
  {
  }

  // ---------------------------------------------------------------- the goroutine among the others

  /** The goroutine as a task of the interleavings: its saves so far and the ids it was given. */
  function TaskOf(p: Params, ids: Ids, created: nat, done: nat, ok: bool): R.Task {
    R.Task(Saves(p), done, FirstIds(ids, 0, created), !ok)
  }

  lemma RenameIs(row: Row, ids: Ids, n: nat)
    requires RefsBelow(row, n)
    ensures R.Rename(row, FirstIds(ids, 0, n)) == RowBy(row, ids)
  {
  }

  lemma CreatedSize(plan: seq<seq<Row>>, ids: Ids, fails: nat -> bool, saves: seq<seq<Row>>, ok: bool)
    requires Performed(fails, [], saves, SavesBy(plan, ids), ok)
    ensures |saves| <= |plan| && |Flatten(saves)| == |Flatten(plan[..|saves|])| && (ok ==> |saves| == |plan|)
  {
    PerformedPart(fails, [], saves, SavesBy(plan, ids), ok);
    assert saves == SavesBy(plan[..|saves|], ids);
    FlattenBy(plan[..|saves|], ids);
  }

  /** What Seed leaves is a task on track: as many ids as rows in the saves done. */
  lemma GoroutineIsTask(p: Params, ids: Ids, fails: nat -> bool, saves: seq<seq<Row>>, created: nat, ok: bool)
    requires Performed(fails, [], saves, SavesBy(Saves(p), ids), ok) && created == |Flatten(saves)|
    ensures R.OnTrack(TaskOf(p, ids, created, |saves|, ok))
    ensures ok ==> |saves| == |Saves(p)|
  {
    SavesOrdered(p);
    CreatedSize(Saves(p), ids, fails, saves, ok);
  }

  function FirstIds(ids: Ids, from: int, n: nat): seq<int> {
    seq(n, k requires 0 <= k < n => ids(from + k))
  }

  /** And what its i-th save wrote is what a step of that task stores: under the j-th new id the
      j-th row of the save, with its references renamed to the ids known before. */
  lemma GoroutineStep(p: Params, ids: Ids, fails: nat -> bool, saves: seq<seq<Row>>, ok: bool, i: nat, j: nat)
    requires Performed(fails, [], saves, SavesBy(Saves(p), ids), ok) && i < |saves| && j < |saves[i]|
    ensures |saves| <= |Saves(p)| && |Saves(p)[i]| == |saves[i]|
    ensures StepWrites(Saves(p)[i], |Flatten(Saves(p)[..i])|, ids, j, saves[i][j])
  {
    SaveIs(Saves(p), ids, fails, saves, ok, i);
    SavesOrdered(p);
    R.NextSave(Saves(p), i);
    ChunkWritten(Saves(p)[i], |Flatten(Saves(p)[..i])|, ids, j);
  }

  lemma SaveIs(plan: seq<seq<Row>>, ids: Ids, fails: nat -> bool, saves: seq<seq<Row>>, ok: bool, i: nat)
    requires Performed(fails, [], saves, SavesBy(plan, ids), ok) && i < |saves|
    ensures |saves| <= |plan| && saves[i] == RowsBy(plan[i], ids)
  {
    PerformedPart(fails, [], saves, SavesBy(plan, ids), ok);
  }

  /** A step that saves the chunk, with n ids known and the next ones new, stores the row under the
      j-th new id. */
  ghost predicate StepWrites(chunk: seq<Row>, n: nat, ids: Ids, j: nat, row: Row)
    requires j < |chunk|
  {
    && AllBelow(chunk, n)
    && (Distinct(FirstIds(ids, n, |chunk|)) ==>
          var stored := R.NewRows(chunk, FirstIds(ids, 0, n), FirstIds(ids, n, |chunk|));
          ids(n + j) in stored && stored[ids(n + j)] == row)
  }

  lemma ChunkWritten(chunk: seq<Row>, n: nat, ids: Ids, j: nat)
    requires AllBelow(chunk, n) && j < |chunk|
    ensures StepWrites(chunk, n, ids, j, RowBy(chunk[j], ids))
  {
    var known, newIds := FirstIds(ids, 0, n), FirstIds(ids, n, |chunk|);
    assert newIds[j] == ids(n + j);
    assert RefsBelow(chunk[j], n);
    RenameIs(chunk[j], ids, n);
    if Distinct(newIds) {
      R.NewRowIs(chunk, known, newIds, j);
    }
  }
}
