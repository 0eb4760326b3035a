/** The seeder's batcher (cmd/bb_seed/main.go): items are collected into chunks of batchSize and
    handed to execute; what is left goes out with result. */
module Batcher {
  import opened Wrappers

  const BATCH_SIZE := 500

  /** The execute callback. Its answer may depend on all calls made before, failed ones included,
      as a callback that writes to a database does; None is its error. */
  type Execute<!T, +U> = (seq<seq<T>>, seq<T>) -> Option<seq<U>>

  /** The batcher's fields, the chunks that were executed with their results, and all calls. */
  datatype State<T, U> = State(
    chunk: seq<T>, output: seq<U>, processed: nat,
    executed: seq<seq<T>>, results: seq<seq<U>>, calls: seq<seq<T>>)

  function Empty<T, U>(): State<T, U> {
    State([], [], 0, [], [], [])
  }

  function Flush<T, U>(execute: Execute<T, U>, s: State<T, U>): (State<T, U>, bool) {
    if s.chunk == [] then (s, true) else
    match execute(s.calls, s.chunk)
    case None => (s.(calls := s.calls + [s.chunk]), false)
    case Some(o) =>
      (State([], s.output + o, s.processed + |s.chunk|, s.executed + [s.chunk], s.results + [o], s.calls + [s.chunk]), true)
  }

  function Add<T, U>(execute: Execute<T, U>, s: State<T, U>, item: T): (State<T, U>, bool) {
    var s' := s.(chunk := s.chunk + [item]);
    if |s'.chunk| >= BATCH_SIZE then Flush(execute, s') else (s', true)
  }

  function Flatten<T>(chunks: seq<seq<T>>): seq<T> {
    if chunks == [] then [] else Flatten(chunks[..|chunks| - 1]) + chunks[|chunks| - 1]
  }

  /** Every chunk of items so far was executed or is still waiting, in order, and the counters
      match: nothing is lost or repeated, errors or not. */
  ghost predicate Conserved<T, U>(s: State<T, U>, items: seq<T>) {
    && Flatten(s.executed) + s.chunk == items
    && s.processed == |Flatten(s.executed)|
    && |s.results| == |s.executed| && s.output == Flatten(s.results)
  }

  /** The last three fields only record what execute was asked and answered. */
  class Batcher<!T, U> {
    const execute: Execute<T, U>
    var chunk: seq<T>
    var output: seq<U>
    var processed: nat
    var executed: seq<seq<T>>
    var results: seq<seq<U>>
    var calls: seq<seq<T>>

    function Now(): State<T, U>
      reads this
    {
      State(chunk, output, processed, executed, results, calls)
    }

    constructor (execute: Execute<T, U>)
      ensures this.execute == execute && Now() == Empty()
    {
      this.execute := execute;
      chunk, output, processed := [], [], 0;
      executed, results, calls := [], [], [];
    }

    method AddItem(item: T) returns (ok: bool)
      modifies this
      ensures (Now(), ok) == Add(execute, old(Now()), item)
      ensures forall items :: Conserved(old(Now()), items) ==> Conserved(Now(), items + [item])
    {
      forall items | Conserved(Now(), items)
        ensures Conserved(Add(execute, Now(), item).0, items + [item])
      {
        AddConserves(execute, Now(), item, items);
      }
      chunk := chunk + [item];
      ok := true;
      if |chunk| >= BATCH_SIZE {
        ok := FlushChunk();
      }
    }

    method FlushChunk() returns (ok: bool)
      modifies this
      ensures (Now(), ok) == Flush(execute, old(Now()))
      ensures ok ==> chunk == []
    {
      if |chunk| > 0 {
        var o := execute(calls, chunk);
        calls := calls + [chunk];
        if o.None? { return false; }
        output := output + o.value;
        processed := processed + |chunk|;
        executed, results := executed + [chunk], results + [o.value];
        chunk := [];
      }
      ok := true;
    }

    method Result() returns (r: Option<seq<U>>)
      modifies this
      ensures Now() == Flush(execute, old(Now())).0
      ensures r == if Flush(execute, old(Now())).1 then Some(output) else None
    {
      var ok := FlushChunk();
      r := if ok then Some(output) else None;
    }
  }

  lemma FlushConserves<T, U>(execute: Execute<T, U>, s: State<T, U>, items: seq<T>)
    requires Conserved(s, items)
    ensures Conserved(Flush(execute, s).0, items)
  {
    var r := Flush(execute, s).0;
    if r.executed != s.executed {
      assert r.executed[..|s.executed|] == s.executed && r.results[..|s.results|] == s.results;
    }
  }

  lemma AddConserves<T, U>(execute: Execute<T, U>, s: State<T, U>, item: T, items: seq<T>)
    requires Conserved(s, items)
    ensures Conserved(Add(execute, s, item).0, items + [item])
  {
    var s' := s.(chunk := s.chunk + [item]);
    assert Flatten(s.executed) + (s.chunk + [item]) == items + [item];
    FlushConserves(execute, s', items + [item]);
  }

  // ---------------------------------------------------------------- runs

  /** All items added in order, retried errors included; the flag says that no add failed. */
  function AddAll<T, U>(execute: Execute<T, U>, items: seq<T>): (State<T, U>, bool) {
    if items == [] then (Empty(), true) else
    var (s, ok) := AddAll(execute, items[..|items| - 1]);
    var (s', ok') := Add(execute, s, items[|items| - 1]);
    (s', ok && ok')
  }

  /** Whatever execute answers, the executed chunks and the waiting one are the items in order. */
  lemma {:induction false} AlwaysConserved<T, U>(execute: Execute<T, U>, items: seq<T>)
    ensures Conserved(AddAll(execute, items).0, items)
    ensures Conserved(Flush(execute, AddAll(execute, items).0).0, items)
    decreases |items|
  {
    if items != [] {
      AlwaysConserved(execute, items[..|items| - 1]);
      AddConserves(execute, AddAll(execute, items[..|items| - 1]).0, items[|items| - 1], items[..|items| - 1]);
      assert items[..|items| - 1] + [items[|items| - 1]] == items;
    }
    FlushConserves(execute, AddAll(execute, items).0, items);
  }

  /** The reference: full chunks from the front, and a shorter last one if anything is left. */
  function Chunks<T>(items: seq<T>): seq<seq<T>> {
    if items == [] then []
    else if |items| <= BATCH_SIZE then [items]
    else [items[..BATCH_SIZE]] + Chunks(items[BATCH_SIZE..])
  }

  lemma {:induction false} ChunksAppend<T>(a: seq<T>, b: seq<T>, n: nat)
    requires |a| == BATCH_SIZE * n && |b| <= BATCH_SIZE
    ensures Chunks(a + b) == Chunks(a) + if b == [] then [] else [b]
    decreases n
  {
    if n == 0 {
      assert a + b == b;
    } else if b == [] {
      assert a + b == a;
    } else if n == 1 {
      assert (a + b)[..BATCH_SIZE] == a && (a + b)[BATCH_SIZE..] == b;
    } else {
      assert (a + b)[..BATCH_SIZE] == a[..BATCH_SIZE];
      assert (a + b)[BATCH_SIZE..] == a[BATCH_SIZE..] + b;
      ChunksAppend(a[BATCH_SIZE..], b, n - 1);
    }
  }

  /** Without an error the batcher has executed the full chunks so far and holds the rest. */
  lemma {:induction false} AddsChunks<T, U>(execute: Execute<T, U>, items: seq<T>) returns (done: seq<T>, n: nat)
    requires AddAll(execute, items).1
    ensures
      var s := AddAll(execute, items).0;
      && done + s.chunk == items && |done| == BATCH_SIZE * n && |s.chunk| < BATCH_SIZE
      && s.executed == Chunks(done) && s.calls == s.executed
    decreases |items|
  {
    if items == [] {
      done, n := [], 0;
    } else {
      var init, last := items[..|items| - 1], items[|items| - 1];
      done, n := AddsChunks(execute, init);
      var s := AddAll(execute, init).0;
      assert init + [last] == items;
      assert done + (s.chunk + [last]) == items;
      if |s.chunk| + 1 == BATCH_SIZE {
        ChunksAppend(done, s.chunk + [last], n);
        done, n := items, n + 1;
      }
    }
  }

  lemma LastChunk<T, U>(execute: Execute<T, U>, s: State<T, U>, done: seq<T>, n: nat)
    requires |done| == BATCH_SIZE * n && |s.chunk| < BATCH_SIZE
    requires s.executed == Chunks(done) && s.calls == s.executed && Flush(execute, s).1
    ensures Flush(execute, s).0.executed == Chunks(done + s.chunk)
    ensures Flush(execute, s).0.calls == Flush(execute, s).0.executed && Flush(execute, s).0.chunk == []
  {
    ChunksAppend(done, s.chunk, n);
  }

  lemma NothingWaiting<T, U>(s: State<T, U>, items: seq<T>)
    requires Conserved(s, items) && s.chunk == []
    ensures s.processed == |items| && Flatten(s.executed) == items && s.output == Flatten(s.results)
  {
    assert Flatten(s.executed) + [] == Flatten(s.executed);
  }

  /** Without an error the batcher executes exactly the reference chunks, and no other call. */
  lemma ResultChunks<T, U>(execute: Execute<T, U>, items: seq<T>)
    requires AddAll(execute, items).1 && Flush(execute, AddAll(execute, items).0).1
    ensures
      var s := Flush(execute, AddAll(execute, items).0).0;
      && s.executed == Chunks(items) && s.calls == s.executed && s.chunk == []
      && s.processed == |items| && s.output == Flatten(s.results)
  {
    var done, n := AddsChunks(execute, items);
    var s := AddAll(execute, items).0;
    LastChunk(execute, s, done, n);
    AlwaysConserved(execute, items);
    NothingWaiting(Flush(execute, s).0, items);
  }

  /** The reference chunks: none empty, none above the batch size, all but the last full, and
      together the items in order. */
  lemma {:induction false} ChunksShape<T>(items: seq<T>)
    ensures forall i :: 0 <= i < |Chunks(items)| ==> 0 < |Chunks(items)[i]| <= 500
    ensures forall i :: 0 <= i < |Chunks(items)| - 1 ==> |Chunks(items)[i]| == 500
    ensures Flatten(Chunks(items)) == items
    decreases |items|
  {
    if 0 < |items| <= BATCH_SIZE {
      assert [items][..0] == [];
    } else if |items| > BATCH_SIZE {
      ChunksShape(items[BATCH_SIZE..]);
      FlattenCons(items[..BATCH_SIZE], Chunks(items[BATCH_SIZE..]));
    }
  }

  lemma {:induction false} FlattenCons<T>(first: seq<T>, rest: seq<seq<T>>)
    ensures Flatten([first] + rest) == first + Flatten(rest)
    decreases |rest|
  {
    var all := [first] + rest;
    if rest == [] {
      assert all[..0] == [];
    } else {
      assert all[..|all| - 1] == [first] + rest[..|rest| - 1];
      FlattenCons(first, rest[..|rest| - 1]);
    }
  }

  // ---------------------------------------------------------------- positional results

  /** execute answers one result per item, in order, each related to its item. */
  ghost predicate Answers<T(!new), U>(execute: Execute<T, U>, rel: (T, U) -> bool) {
    forall calls, c {:trigger execute(calls, c)} :: execute(calls, c).Some? ==> Related(c, execute(calls, c).value, rel)
  }

  ghost predicate Related<T, U>(items: seq<T>, out: seq<U>, rel: (T, U) -> bool) {
    |out| == |items| && forall i :: 0 <= i < |items| ==> rel(items[i], out[i])
  }

  ghost predicate AllRelated<T, U>(s: State<T, U>, rel: (T, U) -> bool) {
    |s.results| == |s.executed| && Related(Flatten(s.executed), s.output, rel)
  }

  lemma FlushRelated<T(!new), U>(execute: Execute<T, U>, s: State<T, U>, rel: (T, U) -> bool)
    requires Answers(execute, rel) && AllRelated(s, rel)
    ensures AllRelated(Flush(execute, s).0, rel)
  {
    var r := Flush(execute, s).0;
    if r.executed != s.executed {
      assert r.executed[..|s.executed|] == s.executed;
      assert Related(s.chunk, execute(s.calls, s.chunk).value, rel);
    }
  }

  lemma {:induction false} AddsRelated<T(!new), U>(execute: Execute<T, U>, items: seq<T>, rel: (T, U) -> bool)
    requires Answers(execute, rel)
    ensures AllRelated(AddAll(execute, items).0, rel)
    decreases |items|
  {
    if items != [] {
      var init, last := items[..|items| - 1], items[|items| - 1];
      AddsRelated(execute, init, rel);
      var s := AddAll(execute, init).0;
      FlushRelated(execute, s.(chunk := s.chunk + [last]), rel);
    }
  }

  /** When execute answers positionally, so does the whole batcher: result i belongs to item i, so
      indexing the results by item number is in bounds. */
  lemma PositionalResults<T(!new), U>(execute: Execute<T, U>, items: seq<T>, rel: (T, U) -> bool)
    requires Answers(execute, rel) && AddAll(execute, items).1 && Flush(execute, AddAll(execute, items).0).1
    ensures Related(items, Flush(execute, AddAll(execute, items).0).0.output, rel)
  {
    AddsRelated(execute, items, rel);
    FlushRelated(execute, AddAll(execute, items).0, rel);
    AlwaysConserved(execute, items);
    var s := Flush(execute, AddAll(execute, items).0).0;
    assert s.chunk == [] && Flatten(s.executed) + [] == Flatten(s.executed);
  }
}
