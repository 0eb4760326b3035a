/** What seeding one instance creates (cmd/bb_seed/main.go, seedBazelInvocations, seedTargets and
    the three seed...InvocationTargets functions): the bulk saves of one goroutine, in order. */
module SeedProgram {
  import opened Wrappers
  import opened Batcher

  /** A row with its references to other rows of the same instance. Inside a program a reference
      is the position of the row among all rows the instance creates; in the database it is an
      id. Instance names and users exist before and are named by id. */
  datatype Row =
    | Invocation(instance: int, index: int, user: Option<int>)
    | ConnectionMetadata(invocation: int)
    | EventMetadata(invocation: int)
    | Target(instance: int, index: int, test: bool)
    | InvocationTarget(invocation: int, target: int)
    | TestTarget(target: int)
    | TestSummary(invocationTarget: int)
    | TestResult(summary: int)

  /** The parameters of one instance; random choices are seeded by its id, so they are functions. */
  datatype Params = Params(instance: int, invocations: nat, targets: nat, users: seq<int>,
                           pickUser: int -> nat, isTest: int -> bool)

  function UserOf(p: Params, i: int): Option<int> {
    if p.users == [] then None else Some(p.users[p.pickUser(i) % |p.users|])
  }

  function InvocationRows(p: Params): seq<Row> {
    seq(p.invocations, i requires 0 <= i < p.invocations => Invocation(p.instance, i, UserOf(p, i)))
  }

  /** One row per invocation, indexed by the invocation's position. */
  function ConnectionRows(p: Params): seq<Row> {
    seq(p.invocations, i requires 0 <= i < p.invocations => ConnectionMetadata(i))
  }

  function EventRows(p: Params): seq<Row> {
    seq(p.invocations, i requires 0 <= i < p.invocations => EventMetadata(i))
  }

  function TargetRows(p: Params): seq<Row> {
    seq(p.targets, j requires 0 <= j < p.targets => Target(p.instance, j, p.isTest(j)))
  }

  /** The position of target j: after the invocations and their two metadata rows each. */
  function TargetAt(p: Params, j: int): int {
    3 * p.invocations + j
  }

  /** The positions of the first n targets that are test rules, or that are not. */
  function TargetsWith(p: Params, test: bool, n: nat): seq<int> {
    if n == 0 then []
    else TargetsWith(p, test, n - 1) + if p.isTest(n - 1) == test then [TargetAt(p, n - 1)] else []
  }

  function Each(invocation: int, targets: seq<int>): seq<Row> {
    if targets == [] then []
    else Each(invocation, targets[..|targets| - 1]) + [InvocationTarget(invocation, targets[|targets| - 1])]
  }

  /** Every one of the first n invocations with every target. */
  function Cross(n: nat, targets: seq<int>): seq<Row> {
    if n == 0 then [] else Cross(n - 1, targets) + Each(n - 1, targets)
  }

  function TestTargetRows(targets: seq<int>): seq<Row> {
    seq(|targets|, j requires 0 <= j < |targets| => TestTarget(targets[j]))
  }

  function SummaryRows(base: int, n: nat): seq<Row> {
    seq(n, j requires 0 <= j < n => TestSummary(base + j))
  }

  function ResultRows(base: int, n: nat): seq<Row> {
    seq(n, j requires 0 <= j < n => TestResult(base + j))
  }

  /** The execute callback of the test pass: each chunk of invocation targets is followed by a
      summary for each of them and a result for each summary. */
  function TestSaves(chunks: seq<seq<Row>>, base: int): seq<seq<Row>> {
    if chunks == [] then [] else
    var n := |chunks[0]|;
    [chunks[0], SummaryRows(base, n), ResultRows(base + n, n)] + TestSaves(chunks[1..], base + 3 * n)
  }

  function BuildTargets(p: Params): seq<int> { TargetsWith(p, false, p.targets) }

  function TestTargets(p: Params): seq<int> { TargetsWith(p, true, p.targets) }

  /** The rows of invocations, their metadata and targets. */
  function Base(p: Params): seq<Row> {
    InvocationRows(p) + ConnectionRows(p) + EventRows(p) + TargetRows(p)
  }

  /** The rows created before the test pass. */
  function Plain(p: Params): seq<Row> {
    Base(p) + Cross(p.invocations, BuildTargets(p)) + MarkerRows(p)
  }

  function BaseSaves(p: Params): seq<seq<Row>> {
    Chunks(InvocationRows(p)) + Chunks(ConnectionRows(p)) + Chunks(EventRows(p)) + Chunks(TargetRows(p))
  }

  function MarkerRows(p: Params): seq<Row> {
    if p.invocations == 0 then [] else TestTargetRows(TestTargets(p))
  }

  function PlainSaves(p: Params): seq<seq<Row>> {
    BaseSaves(p) + Chunks(Cross(p.invocations, BuildTargets(p))) + Chunks(MarkerRows(p))
  }

  /** The bulk saves of one instance, in order. */
  function Saves(p: Params): seq<seq<Row>> {
    PlainSaves(p) + TestSaves(Chunks(Cross(p.invocations, TestTargets(p))), |Plain(p)|)
  }

  /** All rows of the instance, in creation order: a row's reference is its position here. */
  function Rows(p: Params): seq<Row> {
    Flatten(Saves(p))
  }

  // ---------------------------------------------------------------- shape of the program

  lemma {:induction false} FlattenConcat<T>(a: seq<seq<T>>, b: seq<seq<T>>)
    ensures Flatten(a + b) == Flatten(a) + Flatten(b)
    decreases |b|
  {
    if b == [] {
      assert a + b == a;
    } else {
      var init, last := b[..|b| - 1], b[|b| - 1];
      assert b == init + [last];
      FlattenConcat(a, init);
      Associate(a, init, [last]);
      FlattenSnoc(a + b, a + init, last);
      FlattenSnoc(b, init, last);
      Associate(Flatten(a), Flatten(init), last);
    }
  }

  lemma Associate<T>(a: seq<T>, b: seq<T>, c: seq<T>)
    ensures (a + b) + c == a + (b + c)
  {
  }

  lemma FlattenSnoc<T>(all: seq<seq<T>>, init: seq<seq<T>>, last: seq<T>)
    requires all == init + [last]
    ensures Flatten(all) == Flatten(init) + last
  {
    assert all[..|all| - 1] == init;
  }

  /** The rows of the test pass, chunk by chunk. */
  function TestRows(p: Params): seq<Row> {
    Flatten(TestSaves(Chunks(Cross(p.invocations, TestTargets(p))), |Plain(p)|))
  }

  lemma BaseSavesRows(p: Params)
    ensures Flatten(BaseSaves(p)) == Base(p)
  {
    var a, b, c, d := InvocationRows(p), ConnectionRows(p), EventRows(p), TargetRows(p);
    ChunksShape(a); ChunksShape(b); ChunksShape(c); ChunksShape(d);
    FlattenConcat(Chunks(a), Chunks(b));
    FlattenConcat(Chunks(a) + Chunks(b), Chunks(c));
    FlattenConcat(Chunks(a) + Chunks(b) + Chunks(c), Chunks(d));
  }

  lemma PlainSavesRows(p: Params)
    ensures Flatten(PlainSaves(p)) == Plain(p)
  {
    var a, e, f := BaseSaves(p), Cross(p.invocations, BuildTargets(p)), MarkerRows(p);
    BaseSavesRows(p);
    ChunksShape(e);
    ChunksShape(f);
    FlattenConcat(a, Chunks(e));
    FlattenConcat(a + Chunks(e), Chunks(f));
  }

  lemma RowsSplit(p: Params)
    ensures Rows(p) == Plain(p) + TestRows(p)
  {
    PlainSavesRows(p);
    FlattenConcat(PlainSaves(p), TestSaves(Chunks(Cross(p.invocations, TestTargets(p))), |Plain(p)|));
  }

  // ---------------------------------------------------------------- counting rows

  /** How often x occurs. */
  function Count<T(==)>(s: seq<T>, x: T): nat {
    if s == [] then 0 else Count(s[..|s| - 1], x) + if s[|s| - 1] == x then 1 else 0
  }

  lemma {:induction false} CountConcat<T>(a: seq<T>, b: seq<T>, x: T)
    ensures Count(a + b, x) == Count(a, x) + Count(b, x)
    decreases |b|
  {
    if b == [] {
      assert a + b == a;
    } else {
      assert (a + b)[..|a + b| - 1] == a + b[..|b| - 1];
      CountConcat(a, b[..|b| - 1], x);
    }
  }

  lemma {:induction false} CountAbsent<T>(s: seq<T>, x: T)
    ensures Count(s, x) == 0 <==> x !in s
    decreases |s|
  {
    if s != [] {
      CountAbsent(s[..|s| - 1], x);
      assert s == s[..|s| - 1] + [s[|s| - 1]];
    }
  }

  lemma CountWhole<T>(whole: seq<T>, a: seq<T>, b: seq<T>, x: T)
    requires whole == a + b
    ensures Count(whole, x) == Count(a, x) + Count(b, x)
  {
    CountConcat(a, b, x);
  }

  lemma CountThree<T>(whole: seq<T>, a: seq<T>, b: seq<T>, c: seq<T>, x: T)
    requires whole == a + b + c
    ensures Count(whole, x) == Count(a, x) + Count(b, x) + Count(c, x)
  {
    CountConcat(a + b, c, x);
    CountConcat(a, b, x);
  }

  lemma CountLast<T>(s: seq<T>, y: T, x: T)
    ensures Count(s + [y], x) == Count(s, x) + if y == x then 1 else 0
  {
    assert (s + [y])[..|s|] == s;
  }

  /** A value counted once is at one position only. */
  lemma CountOnce<T>(s: seq<T>, x: T) returns (k: nat)
    requires Count(s, x) == 1
    ensures k < |s| && s[k] == x && forall j :: 0 <= j < |s| && s[j] == x ==> j == k
  {
    CountAbsent(s, x);
    k :| k < |s| && s[k] == x;
    forall j | 0 <= j < |s| && s[j] == x
      ensures j == k
    {
      var lo, hi := if j < k then j else k, if j < k then k else j;
      if lo < hi {
        assert s == s[..hi] + s[hi..];
        CountConcat(s[..hi], s[hi..], x);
        assert s[..hi][lo] == x && s[hi..][0] == x;
        CountAbsent(s[..hi], x);
        CountAbsent(s[hi..], x);
      }
    }
  }

  lemma {:induction false} TargetsCount(p: Params, test: bool, n: nat, t: int)
    ensures Count(TargetsWith(p, test, n), t) ==
      if TargetAt(p, 0) <= t < TargetAt(p, n) && p.isTest(t - TargetAt(p, 0)) == test then 1 else 0
    decreases n
  {
    if n > 0 {
      TargetsCount(p, test, n - 1, t);
      CountLast(TargetsWith(p, test, n - 1), TargetAt(p, n - 1), t);
      assert TargetsWith(p, test, n - 1) + [] == TargetsWith(p, test, n - 1);
    }
  }

  lemma {:induction false} EachCount(i: int, targets: seq<int>, x: Row)
    ensures Count(Each(i, targets), x) ==
      if x.InvocationTarget? && x.invocation == i then Count(targets, x.target) else 0
    decreases |targets|
  {
    if targets != [] {
      EachCount(i, targets[..|targets| - 1], x);
      CountLast(Each(i, targets[..|targets| - 1]), InvocationTarget(i, targets[|targets| - 1]), x);
    }
  }

  lemma {:induction false} CrossCount(n: nat, targets: seq<int>, x: Row)
    ensures Count(Cross(n, targets), x) ==
      if x.InvocationTarget? && 0 <= x.invocation < n then Count(targets, x.target) else 0
    decreases n
  {
    if n > 0 {
      CrossCount(n - 1, targets, x);
      EachCount(n - 1, targets, x);
      CountWhole(Cross(n, targets), Cross(n - 1, targets), Each(n - 1, targets), x);
    }
  }

  lemma {:induction false} SummaryCount(base: int, n: nat, x: Row)
    ensures Count(SummaryRows(base, n), x) ==
      if x.TestSummary? && base <= x.invocationTarget < base + n then 1 else 0
    decreases n
  {
    if n > 0 {
      SummaryCount(base, n - 1, x);
      CountLast(SummaryRows(base, n - 1), TestSummary(base + n - 1), x);
      assert SummaryRows(base, n) == SummaryRows(base, n - 1) + [TestSummary(base + n - 1)];
    }
  }

  lemma {:induction false} ResultCount(base: int, n: nat, x: Row)
    ensures Count(ResultRows(base, n), x) == if x.TestResult? && base <= x.summary < base + n then 1 else 0
    decreases n
  {
    if n > 0 {
      ResultCount(base, n - 1, x);
      CountLast(ResultRows(base, n - 1), TestResult(base + n - 1), x);
      assert ResultRows(base, n) == ResultRows(base, n - 1) + [TestResult(base + n - 1)];
    }
  }

  ghost predicate OnlyPairs(rows: seq<Row>) {
    forall k :: 0 <= k < |rows| ==> rows[k].InvocationTarget?
  }

  /** The block of rows one chunk of the test pass creates. */
  function TestBlock(chunk: seq<Row>, base: int): (r: seq<Row>)
    ensures |r| == 3 * |chunk|
  {
    chunk + SummaryRows(base, |chunk|) + ResultRows(base + |chunk|, |chunk|)
  }

  lemma BlockSum(chunk: seq<Row>, base: int, x: Row)
    ensures Count(TestBlock(chunk, base), x) ==
      Count(chunk, x) + Count(SummaryRows(base, |chunk|), x) + Count(ResultRows(base + |chunk|, |chunk|), x)
  {
    CountThree(TestBlock(chunk, base), chunk, SummaryRows(base, |chunk|), ResultRows(base + |chunk|, |chunk|), x);
  }

  /** How often the second and third part of a block hold x. */
  function MadeFor(base: int, n: nat, x: Row): nat {
    match x
    case TestSummary(k) => if base <= k < base + n then 1 else 0
    case TestResult(k) => if base + n <= k < base + n + n then 1 else 0
    case _ => 0
  }

  lemma MadeCount(base: int, n: nat, x: Row)
    ensures Count(SummaryRows(base, n), x) + Count(ResultRows(base + n, n), x) == MadeFor(base, n, x)
  {
    SummaryCount(base, n, x);
    ResultCount(base + n, n, x);
  }

  lemma BlockCount(chunk: seq<Row>, base: int, x: Row)
    ensures Count(TestBlock(chunk, base), x) == Count(chunk, x) + MadeFor(base, |chunk|, x)
  {
    BlockSum(chunk, base, x);
    MadeCount(base, |chunk|, x);
  }

  lemma TestSavesCons(chunks: seq<seq<Row>>, base: int)
    requires chunks != []
    ensures Flatten(TestSaves(chunks, base)) ==
      TestBlock(chunks[0], base) + Flatten(TestSaves(chunks[1..], base + 3 * |chunks[0]|))
  {
    var n := |chunks[0]|;
    var head := [chunks[0], SummaryRows(base, n), ResultRows(base + n, n)];
    FlattenConcat(head, TestSaves(chunks[1..], base + 3 * n));
    FlattenThree(chunks[0], SummaryRows(base, n), ResultRows(base + n, n));
  }

  /** One chunk of the test pass more: its rows, their summaries and results. */
  lemma TestSavesCount(chunks: seq<seq<Row>>, base: int, x: Row)
    requires chunks != []
    ensures
      var rest := Flatten(TestSaves(chunks[1..], base + 3 * |chunks[0]|));
      Count(Flatten(TestSaves(chunks, base)), x) == Count(chunks[0], x) + MadeFor(base, |chunks[0]|, x) + Count(rest, x)
  {
    var rest := Flatten(TestSaves(chunks[1..], base + 3 * |chunks[0]|));
    TestSavesCons(chunks, base);
    BlockCount(chunks[0], base, x);
    CountConcat(TestBlock(chunks[0], base), rest, x);
  }

  lemma FlattenCount<T>(chunks: seq<seq<T>>, x: T)
    requires chunks != []
    ensures Count(Flatten(chunks), x) == Count(chunks[0], x) + Count(Flatten(chunks[1..]), x)
  {
    FlattenCons(chunks[0], chunks[1..]);
    assert chunks == [chunks[0]] + chunks[1..];
    CountConcat(chunks[0], Flatten(chunks[1..]), x);
  }

  lemma FlattenThree<T>(a: seq<T>, b: seq<T>, c: seq<T>)
    ensures Flatten([a, b, c]) == a + b + c
  {
    assert [a, b, c][..2] == [a, b] && [a, b][..1] == [a] && [a][..0] == [];
    assert Flatten([a]) == Flatten<T>([]) + a;
  }

  /** What row k - counted from base - of a list is, or false outside the list. */
  predicate PairAt(rows: seq<Row>, base: int, k: int) {
    base <= k < base + |rows| && rows[k - base].InvocationTarget?
  }

  predicate SummaryAt(rows: seq<Row>, base: int, k: int) {
    base <= k < base + |rows| && rows[k - base].TestSummary?
  }

  /** Row k has exactly one summary if it is an invocation target of the list and exactly one result
      if it is a summary of it, and none otherwise. */
  ghost predicate CountsAt(rows: seq<Row>, base: int, k: int) {
    && Count(rows, TestSummary(k)) == (if PairAt(rows, base, k) then 1 else 0)
    && Count(rows, TestResult(k)) == if SummaryAt(rows, base, k) then 1 else 0
  }

  lemma BlockCounts(chunk: seq<Row>, base: int, k: int)
    requires OnlyPairs(chunk)
    ensures CountsAt(TestBlock(chunk, base), base, k)
  {
    BlockCount(chunk, base, TestSummary(k));
    BlockCount(chunk, base, TestResult(k));
    CountAbsent(chunk, TestSummary(k));
    CountAbsent(chunk, TestResult(k));
  }

  lemma CountsConcat(a: seq<Row>, b: seq<Row>, base: int, k: int)
    requires CountsAt(a, base, k) && CountsAt(b, base + |a|, k)
    ensures CountsAt(a + b, base, k)
  {
    CountConcat(a, b, TestSummary(k));
    CountConcat(a, b, TestResult(k));
  }

  /** So in the rows of the test pass. */
  lemma {:induction false} TestSavesCounts(chunks: seq<seq<Row>>, base: int, k: int)
    requires forall c :: c in chunks ==> OnlyPairs(c)
    ensures CountsAt(Flatten(TestSaves(chunks, base)), base, k)
    decreases |chunks|
  {
    if chunks != [] {
      var c := chunks[0];
      assert c in chunks;
      TestSavesCons(chunks, base);
      BlockCounts(c, base, k);
      TestSavesCounts(chunks[1..], base + 3 * |c|, k);
      CountsConcat(TestBlock(c, base), Flatten(TestSaves(chunks[1..], base + 3 * |c|)), base, k);
    }
  }

  lemma {:induction false} TestSavesPairs(chunks: seq<seq<Row>>, base: int, x: Row)
    requires x.InvocationTarget?
    ensures Count(Flatten(TestSaves(chunks, base)), x) == Count(Flatten(chunks), x)
    decreases |chunks|
  {
    if chunks != [] {
      TestSavesPairs(chunks[1..], base + 3 * |chunks[0]|, x);
      TestSavesCount(chunks, base, x);
      FlattenCount(chunks, x);
    }
  }

  lemma CrossOnlyPairs(n: nat, targets: seq<int>)
    ensures OnlyPairs(Cross(n, targets))
  {
    var rows := Cross(n, targets);
    forall k | 0 <= k < |rows|
      ensures rows[k].InvocationTarget?
    {
      CrossCount(n, targets, rows[k]);
      CountAbsent(rows, rows[k]);
    }
  }

  lemma {:induction false} ChunksOnlyPairs(items: seq<Row>)
    requires OnlyPairs(items)
    ensures forall c :: c in Chunks(items) ==> OnlyPairs(c)
    decreases |items|
  {
    if |items| > BATCH_SIZE {
      ChunksOnlyPairs(items[BATCH_SIZE..]);
    }
  }

  lemma PlainCount(p: Params, x: Row)
    ensures Count(Plain(p), x) == Count(Base(p), x) + Count(Cross(p.invocations, BuildTargets(p)), x)
      + Count(MarkerRows(p), x)
  {
    CountThree(Plain(p), Base(p), Cross(p.invocations, BuildTargets(p)), MarkerRows(p), x);
  }

  lemma TestRowsFacts(p: Params, k: nat, x: Row)
    requires x.InvocationTarget?
    ensures Count(TestRows(p), x) == Count(Cross(p.invocations, TestTargets(p)), x)
    ensures Count(TestRows(p), TestSummary(k)) == if PairAt(TestRows(p), |Plain(p)|, k) then 1 else 0
    ensures Count(TestRows(p), TestResult(k)) == if SummaryAt(TestRows(p), |Plain(p)|, k) then 1 else 0
  {
    var pairs := Cross(p.invocations, TestTargets(p));
    CrossOnlyPairs(p.invocations, TestTargets(p));
    ChunksOnlyPairs(pairs);
    ChunksShape(pairs);
    TestSavesPairs(Chunks(pairs), |Plain(p)|, x);
    TestSavesCounts(Chunks(pairs), |Plain(p)|, k);
  }

  lemma BaseHasNone(p: Params, x: Row)
    requires x.InvocationTarget? || x.TestSummary? || x.TestResult?
    ensures Count(Base(p), x) == 0
    ensures Count(MarkerRows(p), x) == 0
  {
    CountAbsent(Base(p), x);
    CountAbsent(MarkerRows(p), x);
  }

  lemma PlainPairs(p: Params, x: Row)
    requires x.InvocationTarget?
    ensures Count(Plain(p), x) == if 0 <= x.invocation < p.invocations &&
      TargetAt(p, 0) <= x.target < TargetAt(p, p.targets) && !p.isTest(x.target - TargetAt(p, 0)) then 1 else 0
  {
    PlainCount(p, x);
    BaseHasNone(p, x);
    CrossCount(p.invocations, BuildTargets(p), x);
    TargetsCount(p, false, p.targets, x.target);
  }

  lemma TestPairs(p: Params, x: Row)
    requires x.InvocationTarget?
    ensures Count(TestRows(p), x) == if 0 <= x.invocation < p.invocations &&
      TargetAt(p, 0) <= x.target < TargetAt(p, p.targets) && p.isTest(x.target - TargetAt(p, 0)) then 1 else 0
  {
    TestRowsFacts(p, 0, x);
    CrossCount(p.invocations, TestTargets(p), x);
    TargetsCount(p, true, p.targets, x.target);
  }

  /** Every pair of an invocation and a target occurs in exactly one invocation target of the
      whole instance, whichever pass made it; nothing else occurs in one. */
  lemma PairsOnce(p: Params, x: Row)
    requires x.InvocationTarget?
    ensures Count(Rows(p), x) ==
      if 0 <= x.invocation < p.invocations && TargetAt(p, 0) <= x.target < TargetAt(p, p.targets) then 1 else 0
  {
    RowsSplit(p);
    CountWhole(Rows(p), Plain(p), TestRows(p), x);
    PlainPairs(p, x);
    TestPairs(p, x);
  }

  lemma PlainHasNone(p: Params, x: Row)
    requires x.TestSummary? || x.TestResult?
    ensures Count(Plain(p), x) == 0
  {
    PlainCount(p, x);
    BaseHasNone(p, x);
    CrossCount(p.invocations, BuildTargets(p), x);
  }

  lemma HalfOf<T>(whole: seq<T>, a: seq<T>, b: seq<T>, k: nat)
    requires whole == a + b && k < |whole|
    ensures if k < |a| then whole[k] in a else whole[k] in b
  {
    if k >= |a| {
      assert whole[k] == b[k - |a|];
    }
  }

  lemma InTestRows(p: Params, k: nat)
    requires k < |Rows(p)|
    ensures Rows(p)[k].InvocationTarget? ==>
      (k >= |Plain(p)| <==> p.isTest(Rows(p)[k].target - TargetAt(p, 0)))
    ensures Rows(p)[k].TestSummary? ==> k >= |Plain(p)|
  {
    var x := Rows(p)[k];
    RowsSplit(p);
    HalfOf(Rows(p), Plain(p), TestRows(p), k);
    if x.InvocationTarget? {
      InOnePass(p, x);
    } else if x.TestSummary? {
      PlainHasNone(p, x);
      CountAbsent(Plain(p), x);
    }
  }

  lemma InOnePass(p: Params, x: Row)
    requires x.InvocationTarget?
    ensures x in Plain(p) ==> !p.isTest(x.target - TargetAt(p, 0))
    ensures x in TestRows(p) ==> p.isTest(x.target - TargetAt(p, 0))
  {
    PlainPairs(p, x);
    TestPairs(p, x);
    CountAbsent(Plain(p), x);
    CountAbsent(TestRows(p), x);
  }

  /** The invocation target at position k has exactly one test summary if its target is a test
      rule and none otherwise; the summary at position k has exactly one test result. */
  lemma SummariesAndResults(p: Params, k: nat)
    requires k < |Rows(p)|
    ensures Rows(p)[k].InvocationTarget? ==>
      Count(Rows(p), TestSummary(k)) == (if p.isTest(Rows(p)[k].target - TargetAt(p, 0)) then 1 else 0)
    ensures Rows(p)[k].TestSummary? ==> Count(Rows(p), TestResult(k)) == 1
  {
    MadeInTestRows(p, k);
    InTestRows(p, k);
    RowsSplit(p);
    AtHalf(Rows(p), Plain(p), TestRows(p), k);
  }

  /** Summaries and results come from the test pass only. */
  lemma MadeInTestRows(p: Params, k: nat)
    ensures Count(Rows(p), TestSummary(k)) == if PairAt(TestRows(p), |Plain(p)|, k) then 1 else 0
    ensures Count(Rows(p), TestResult(k)) == if SummaryAt(TestRows(p), |Plain(p)|, k) then 1 else 0
  {
    RowsSplit(p);
    CountWhole(Rows(p), Plain(p), TestRows(p), TestSummary(k));
    CountWhole(Rows(p), Plain(p), TestRows(p), TestResult(k));
    PlainHasNone(p, TestSummary(k));
    PlainHasNone(p, TestResult(k));
    TestRowsFacts(p, k, InvocationTarget(0, 0));
  }

  lemma AtHalf(whole: seq<Row>, a: seq<Row>, b: seq<Row>, k: nat)
    requires whole == a + b && k < |whole|
    ensures PairAt(b, |a|, k) <==> k >= |a| && whole[k].InvocationTarget?
    ensures SummaryAt(b, |a|, k) <==> k >= |a| && whole[k].TestSummary?
  {
  }

  // ---------------------------------------------------------------- one row per invocation

  lemma {:induction false} MetadataCount(p: Params, x: Row)
    ensures Count(ConnectionRows(p), x) ==
      if x.ConnectionMetadata? && 0 <= x.invocation < p.invocations then 1 else 0
    ensures Count(EventRows(p), x) == if x.EventMetadata? && 0 <= x.invocation < p.invocations then 1 else 0
    decreases p.invocations
  {
    if p.invocations > 0 {
      var n := p.invocations - 1;
      var p' := p.(invocations := n);
      MetadataCount(p', x);
      CountLast(ConnectionRows(p'), ConnectionMetadata(n), x);
      CountLast(EventRows(p'), EventMetadata(n), x);
      assert ConnectionRows(p) == ConnectionRows(p') + [ConnectionMetadata(n)];
      assert EventRows(p) == EventRows(p') + [EventMetadata(n)];
    }
  }

  lemma {:induction false} MarkerCount(targets: seq<int>, x: Row)
    ensures Count(TestTargetRows(targets), x) == if x.TestTarget? then Count(targets, x.target) else 0
    decreases |targets|
  {
    if targets != [] {
      var init, last := targets[..|targets| - 1], targets[|targets| - 1];
      MarkerCount(init, x);
      CountLast(TestTargetRows(init), TestTarget(last), x);
      assert TestTargetRows(targets) == TestTargetRows(init) + [TestTarget(last)];
    }
  }

  lemma {:induction false} TestSavesMakeNo(chunks: seq<seq<Row>>, base: int, x: Row)
    requires forall c :: c in chunks ==> OnlyPairs(c)
    requires x.ConnectionMetadata? || x.EventMetadata? || x.TestTarget?
    ensures Count(Flatten(TestSaves(chunks, base)), x) == 0
    decreases |chunks|
  {
    if chunks != [] {
      var c := chunks[0];
      assert c in chunks;
      CountAbsent(c, x);
      TestSavesMakeNo(chunks[1..], base + 3 * |c|, x);
      TestSavesCount(chunks, base, x);
    }
  }

  lemma OutsideBase(p: Params, x: Row)
    requires x.ConnectionMetadata? || x.EventMetadata? || x.TestTarget?
    ensures Count(Rows(p), x) == Count(Base(p), x) + Count(MarkerRows(p), x)
  {
    var pairs := Cross(p.invocations, TestTargets(p));
    CrossOnlyPairs(p.invocations, TestTargets(p));
    ChunksOnlyPairs(pairs);
    TestSavesMakeNo(Chunks(pairs), |Plain(p)|, x);
    CrossCount(p.invocations, BuildTargets(p), x);
    PlainCount(p, x);
    RowsSplit(p);
    CountWhole(Rows(p), Plain(p), TestRows(p), x);
  }

  lemma BaseCount(p: Params, x: Row)
    requires x.ConnectionMetadata? || x.EventMetadata? || x.TestTarget?
    ensures Count(Base(p), x) == Count(ConnectionRows(p), x) + Count(EventRows(p), x)
  {
    var a, b, c, d := InvocationRows(p), ConnectionRows(p), EventRows(p), TargetRows(p);
    CountAbsent(a, x);
    CountAbsent(d, x);
    CountWhole(Base(p), a + b + c, d, x);
    CountThree(a + b + c, a, b, c, x);
  }

  /** The invocation of index i in its instance, by nobody if there are no users, else by the one the
      random choice falls on. */
  predicate IsInvocationOf(row: Row, p: Params, i: int) {
    && row.Invocation? && row.instance == p.instance && row.index == i
    && (row.user.None? <==> p.users == [])
    && (p.users != [] ==> row.user.value in p.users && row.user.value == p.users[p.pickUser(i) % |p.users|])
  }

  /** Row i is the invocation built for index i, with its user; every invocation has exactly one row of
      connection metadata and one of event metadata, and nothing else has one. */
  lemma MetadataOnce(p: Params, i: int)
    ensures 0 <= i < p.invocations ==>
      i < |Rows(p)| && IsInvocationOf(Rows(p)[i], p, i)
    ensures Count(Rows(p), ConnectionMetadata(i)) == if 0 <= i < p.invocations then 1 else 0
    ensures Count(Rows(p), EventMetadata(i)) == if 0 <= i < p.invocations then 1 else 0
  {
    if 0 <= i < p.invocations {
      RowsStartWithBase(p, i);
    }
    OutsideBase(p, ConnectionMetadata(i));
    OutsideBase(p, EventMetadata(i));
    BaseCount(p, ConnectionMetadata(i));
    BaseCount(p, EventMetadata(i));
    MetadataCount(p, ConnectionMetadata(i));
    MetadataCount(p, EventMetadata(i));
    MarkerCount(TestTargets(p), ConnectionMetadata(i));
    MarkerCount(TestTargets(p), EventMetadata(i));
  }

  /** Exactly the targets of test rules are marked as test targets, each once, and only when there
      are invocations. */
  lemma MarkersOnce(p: Params, t: int)
    ensures Count(Rows(p), TestTarget(t)) == if p.invocations > 0 &&
      TargetAt(p, 0) <= t < TargetAt(p, p.targets) && p.isTest(t - TargetAt(p, 0)) then 1 else 0
  {
    OutsideBase(p, TestTarget(t));
    BaseCount(p, TestTarget(t));
    MetadataCount(p, TestTarget(t));
    MarkerCount(TestTargets(p), TestTarget(t));
    TargetsCount(p, true, p.targets, t);
  }

  // ---------------------------------------------------------------- references

  /** The row's references are positions before the bound. */
  predicate RefsBelow(row: Row, bound: int) {
    match row
    case Invocation(_, _, _) => true
    case Target(_, _, _) => true
    case ConnectionMetadata(i) => 0 <= i < bound
    case EventMetadata(i) => 0 <= i < bound
    case InvocationTarget(i, t) => 0 <= i < bound && 0 <= t < bound
    case TestTarget(t) => 0 <= t < bound
    case TestSummary(k) => 0 <= k < bound
    case TestResult(k) => 0 <= k < bound
  }

  ghost predicate AllBelow(rows: seq<Row>, bound: int) {
    forall k :: 0 <= k < |rows| ==> RefsBelow(rows[k], bound)
  }

  /** Every save only refers to rows that earlier saves created; bound rows exist already. */
  ghost predicate Ordered(saves: seq<seq<Row>>, bound: nat) {
    saves == [] || (AllBelow(saves[0], bound) && Ordered(saves[1..], bound + |saves[0]|))
  }

  lemma {:induction false} OrderedConcat(a: seq<seq<Row>>, b: seq<seq<Row>>, bound: nat)
    requires Ordered(a, bound) && Ordered(b, bound + |Flatten(a)|)
    ensures Ordered(a + b, bound)
    decreases |a|
  {
    if a == [] {
      assert a + b == b;
    } else {
      assert (a + b)[1..] == a[1..] + b;
      FlattenCons(a[0], a[1..]);
      assert a == [a[0]] + a[1..];
      OrderedConcat(a[1..], b, bound + |a[0]|);
    }
  }

  lemma {:induction false} OrderedChunks(rows: seq<Row>, bound: nat)
    requires AllBelow(rows, bound)
    ensures Ordered(Chunks(rows), bound)
    decreases |rows|
  {
    if |rows| > BATCH_SIZE {
      forall k | 0 <= k < |rows[BATCH_SIZE..]|
        ensures RefsBelow(rows[BATCH_SIZE..][k], bound + BATCH_SIZE)
      {
        assert RefsBelow(rows[k + BATCH_SIZE], bound);
      }
      OrderedChunks(rows[BATCH_SIZE..], bound + BATCH_SIZE);
      assert Chunks(rows)[1..] == Chunks(rows[BATCH_SIZE..]);
    } else if rows != [] {
      assert [rows][1..] == [];
    }
  }

  lemma {:induction false} OrderedTestSaves(chunks: seq<seq<Row>>, base: nat, bound: nat)
    requires bound <= base && forall c :: c in chunks ==> AllBelow(c, bound)
    ensures Ordered(TestSaves(chunks, base), base)
    decreases |chunks|
  {
    if chunks != [] {
      var c := chunks[0];
      var n := |c|;
      assert c in chunks;
      var rest := TestSaves(chunks[1..], base + 3 * n);
      OrderedTestSaves(chunks[1..], base + 3 * n, bound);
      var saves := [c, SummaryRows(base, n), ResultRows(base + n, n)] + rest;
      assert saves[1..][1..][1..] == rest;
      assert AllBelow(saves[0], base);
      assert AllBelow(saves[1..][0], base + n);
      assert AllBelow(saves[1..][1..][0], base + n + n);
    }
  }

  lemma {:induction false} CrossBelow(n: nat, targets: seq<int>, bound: int)
    requires n <= bound && forall j :: 0 <= j < |targets| ==> 0 <= targets[j] < bound
    ensures AllBelow(Cross(n, targets), bound)
    decreases n
  {
    if n > 0 {
      CrossBelow(n - 1, targets, bound);
      EachBelow(n - 1, targets, bound);
    }
  }

  lemma {:induction false} EachBelow(i: int, targets: seq<int>, bound: int)
    requires 0 <= i < bound && forall j :: 0 <= j < |targets| ==> 0 <= targets[j] < bound
    ensures AllBelow(Each(i, targets), bound)
    decreases |targets|
  {
    if targets != [] {
      EachBelow(i, targets[..|targets| - 1], bound);
    }
  }

  lemma {:induction false} TargetsBelow(p: Params, test: bool, n: nat)
    ensures forall t :: t in TargetsWith(p, test, n) ==> TargetAt(p, 0) <= t < TargetAt(p, n)
    decreases n
  {
    if n > 0 {
      TargetsBelow(p, test, n - 1);
    }
  }

  lemma {:induction false} ChunksBelow(rows: seq<Row>, bound: int)
    requires AllBelow(rows, bound)
    ensures forall c :: c in Chunks(rows) ==> AllBelow(c, bound)
    decreases |rows|
  {
    if |rows| > BATCH_SIZE {
      ChunksBelow(rows[BATCH_SIZE..], bound);
    }
  }

  /** The saves, which together make n rows, refer to rows below the bound and to their own. */
  ghost predicate Block(saves: seq<seq<Row>>, bound: nat, n: nat) {
    Ordered(saves, bound) && |Flatten(saves)| == n
  }

  lemma BlockThen(a: seq<seq<Row>>, n: nat, b: seq<seq<Row>>, m: nat)
    requires Block(a, 0, n) && Block(b, n, m)
    ensures Block(a + b, 0, n + m)
  {
    OrderedConcat(a, b, 0);
    FlattenConcat(a, b);
  }

  lemma BlockOf(rows: seq<Row>, bound: nat)
    requires AllBelow(rows, bound)
    ensures Block(Chunks(rows), bound, |rows|)
  {
    OrderedChunks(rows, bound);
    ChunksShape(rows);
  }

  lemma FourBlocks(a: seq<seq<Row>>, i: nat, b: seq<seq<Row>>, j: nat, c: seq<seq<Row>>, k: nat, d: seq<seq<Row>>, n: nat)
    requires Block(a, 0, i) && Block(b, i, j) && Block(c, i + j, k) && Block(d, i + j + k, n)
    ensures Block(a + b + c + d, 0, i + j + k + n)
  {
    BlockThen(a, i, b, j);
    BlockThen(a + b, i + j, c, k);
    BlockThen(a + b + c, i + j + k, d, n);
  }

  lemma BaseSavesOrdered(p: Params)
    ensures Block(BaseSaves(p), 0, |Base(p)|)
  {
    var a, b, c, d := InvocationRows(p), ConnectionRows(p), EventRows(p), TargetRows(p);
    BlockOf(a, 0);
    BlockOf(b, |a|);
    BlockOf(c, |a| + |b|);
    BlockOf(d, |a| + |b| + |c|);
    FourBlocks(Chunks(a), |a|, Chunks(b), |b|, Chunks(c), |c|, Chunks(d), |d|);
  }

  lemma PairsBelow(p: Params, test: bool)
    ensures AllBelow(Cross(p.invocations, TargetsWith(p, test, p.targets)), |Base(p)|)
    ensures AllBelow(TestTargetRows(TargetsWith(p, test, p.targets)), |Base(p)|)
  {
    var targets := TargetsWith(p, test, p.targets);
    TargetsBelow(p, test, p.targets);
    assert forall j :: 0 <= j < |targets| ==> targets[j] in targets;
    CrossBelow(p.invocations, targets, |Base(p)|);
  }

  lemma PlainSavesOrdered(p: Params)
    ensures Block(PlainSaves(p), 0, |Plain(p)|)
  {
    var e, f := Cross(p.invocations, BuildTargets(p)), MarkerRows(p);
    BaseSavesOrdered(p);
    PairsBelow(p, false);
    PairsBelow(p, true);
    BelowLarger(f, |Base(p)|, |Base(p)| + |e|);
    BlockOf(e, |Base(p)|);
    BlockOf(f, |Base(p)| + |e|);
    BlockThen(BaseSaves(p), |Base(p)|, Chunks(e), |e|);
    BlockThen(BaseSaves(p) + Chunks(e), |Base(p)| + |e|, Chunks(f), |f|);
  }

  lemma TestPassOrdered(p: Params)
    ensures Ordered(TestSaves(Chunks(Cross(p.invocations, TestTargets(p))), |Plain(p)|), |Plain(p)|)
  {
    PairsBelow(p, true);
    ChunksBelow(Cross(p.invocations, TestTargets(p)), |Base(p)|);
    OrderedTestSaves(Chunks(Cross(p.invocations, TestTargets(p))), |Plain(p)|, |Base(p)|);
  }

  lemma BelowLarger(rows: seq<Row>, bound: int, larger: int)
    requires AllBelow(rows, bound) && bound <= larger
    ensures AllBelow(rows, larger)
  {
  }

  /** The whole program is well ordered: ids of referenced rows are known when they are needed. */
  lemma SavesOrdered(p: Params)
    ensures Ordered(Saves(p), 0)
  {
    var last := TestSaves(Chunks(Cross(p.invocations, TestTargets(p))), |Plain(p)|);
    PlainSavesOrdered(p);
    TestPassOrdered(p);
    BlockThen(PlainSaves(p), |Plain(p)|, last, |Flatten(last)|);
  }

  lemma BasePositions(p: Params, i: int, j: int)
    requires 0 <= i < p.invocations && 0 <= j < p.targets
    ensures |Base(p)| == 3 * p.invocations + p.targets
    ensures Base(p)[i] == Invocation(p.instance, i, UserOf(p, i))
    ensures Base(p)[TargetAt(p, j)] == Target(p.instance, j, p.isTest(j))
  {
  }

  lemma RowsStartWithBase(p: Params, k: int)
    requires 0 <= k < |Base(p)|
    ensures k < |Rows(p)| && Rows(p)[k] == Base(p)[k]
  {
    RowsSplit(p);
  }

  lemma PairInRange(p: Params, k: nat)
    requires k < |Rows(p)| && Rows(p)[k].InvocationTarget?
    ensures 0 <= Rows(p)[k].invocation < p.invocations
    ensures TargetAt(p, 0) <= Rows(p)[k].target < TargetAt(p, p.targets)
  {
    PairsOnce(p, Rows(p)[k]);
    CountAbsent(Rows(p), Rows(p)[k]);
  }

  /** Every invocation target joins an invocation and a target row of this instance, by position. */
  lemma PairsJoinInstance(p: Params, k: nat)
    requires k < |Rows(p)| && Rows(p)[k].InvocationTarget?
    ensures
      var x := Rows(p)[k];
      && 0 <= x.invocation < |Rows(p)| && 0 <= x.target < |Rows(p)|
      && Rows(p)[x.invocation] == Invocation(p.instance, x.invocation, UserOf(p, x.invocation))
      && Rows(p)[x.target] == Target(p.instance, x.target - TargetAt(p, 0), p.isTest(x.target - TargetAt(p, 0)))
  {
    var x := Rows(p)[k];
    PairInRange(p, k);
    BasePositions(p, x.invocation, x.target - TargetAt(p, 0));
    RowsStartWithBase(p, x.invocation);
    RowsStartWithBase(p, x.target);
  }

  /** Row x is where a reference of the given row may point: it is of the right kind; an invocation
      target refers to an invocation and a target of the same instance. */
  predicate PointsWell(row: Row, target: int -> Option<Row>) {
    match row
    case Invocation(_, _, _) => true
    case Target(_, _, _) => true
    case ConnectionMetadata(i) => IsInvocation(target(i))
    case EventMetadata(i) => IsInvocation(target(i))
    case InvocationTarget(i, t) => IsInvocation(target(i)) && IsTarget(target(t)) &&
      target(i).value.instance == target(t).value.instance
    case TestTarget(t) => IsTarget(target(t)) && target(t).value.test
    case TestSummary(k) => target(k).Some? && target(k).value.InvocationTarget?
    case TestResult(k) => target(k).Some? && target(k).value.TestSummary?
  }

  predicate IsInvocation(row: Option<Row>) { row.Some? && row.value.Invocation? }

  predicate IsTarget(row: Option<Row>) { row.Some? && row.value.Target? }

  function AtPosition(rows: seq<Row>): int -> Option<Row> {
    k => if 0 <= k < |rows| then Some(rows[k]) else None
  }

  lemma SummaryPointsWell(p: Params, j: nat, x: Row)
    requires x in Rows(p)
    ensures x == TestSummary(j) ==> j < |Rows(p)| && Rows(p)[j].InvocationTarget?
    ensures x == TestResult(j) ==> j < |Rows(p)| && Rows(p)[j].TestSummary?
  {
    if x == TestSummary(j) || x == TestResult(j) {
      RowsSplit(p);
      CountWhole(Rows(p), Plain(p), TestRows(p), x);
      CountAbsent(Rows(p), x);
      PlainHasNone(p, x);
      TestRowsFacts(p, j, InvocationTarget(0, 0));
    }
  }

  /** Every reference of the program points at an earlier row of the right kind, and every
      invocation target at two rows of this instance. */
  lemma ReferencesPointWell(p: Params, k: nat)
    requires k < |Rows(p)| && RefsBelow(Rows(p)[k], |Rows(p)|)
    ensures PointsWell(Rows(p)[k], AtPosition(Rows(p)))
  {
    var x := Rows(p)[k];
    CountAbsent(Rows(p), x);
    match x
    case Invocation(_, _, _) =>
    case Target(_, _, _) =>
    case ConnectionMetadata(i) => MetadataOnce(p, i);
    case EventMetadata(i) => MetadataOnce(p, i);
    case InvocationTarget(_, _) => PairsJoinInstance(p, k);
    case TestTarget(t) => MarkerPointsWell(p, t);
    case TestSummary(j) => SummaryPointsWell(p, j, x);
    case TestResult(j) => SummaryPointsWell(p, j, x);
  }

  lemma MarkerPointsWell(p: Params, t: int)
    requires TestTarget(t) in Rows(p)
    ensures 0 <= t < |Rows(p)| && Rows(p)[t].Target? && Rows(p)[t].test
  {
    CountAbsent(Rows(p), TestTarget(t));
    MarkersOnce(p, t);
    BasePositions(p, 0, t - TargetAt(p, 0));
    RowsStartWithBase(p, t);
  }
}
