/** Nested transactions emulated with savepoints inside one SQL transaction
    (internal/database/savepoint_driver.go, internal/database/transaction.go).

    The statements follow sections 16.4 (savepoint), 16.5 (release savepoint) and 16.7
    (rollback to savepoint) of ISO/IEC 9075-2:2003: naming a savepoint that does not exist
    is an error without effect. */
module Savepoints {

  type Id = nat

  datatype Savepoint<D> = Savepoint(id: Id, saved: D)

  /** One SQL transaction: what is committed, what the transaction sees, its savepoints
      (oldest first) and whether it is still running. */
  datatype Conn<D> = Conn(committed: D, work: D, stack: seq<Savepoint<D>>, open: bool)

  datatype SqlError = TxDone | InvalidSavepoint

  datatype Outcome = Done | Failed(error: SqlError)

  datatype Event<!D> =
    | Write(effect: D -> D)
    | Begin(id: Id)
    | Commit(id: Id)
    | Rollback(id: Id)
    | OuterCommit
    | OuterRollback

  function Find<D>(stack: seq<Savepoint<D>>, id: Id): (k: nat)
    ensures k <= |stack|
    ensures k < |stack| ==> stack[k].id == id
    ensures forall j :: 0 <= j < k ==> stack[j].id != id
  {
    if stack == [] then 0
    else if stack[0].id == id then 0
    else 1 + Find(stack[1..], id)
  }

  function Start<D>(d: D): Conn<D> {
    Conn(d, d, [], true)
  }

  function Step<D>(c: Conn<D>, e: Event<D>): (Conn<D>, Outcome) {
    if !c.open then (c, Failed(TxDone)) else
    match e
    case Write(effect) => (c.(work := effect(c.work)), Done)
    case Begin(id) => (c.(stack := c.stack + [Savepoint(id, c.work)]), Done)
    case Commit(id) =>
      var k := Find(c.stack, id);
      if k == |c.stack| then (c, Failed(InvalidSavepoint))
      else (c.(stack := c.stack[..k]), Done)
    case Rollback(id) =>
      var k := Find(c.stack, id);
      if k == |c.stack| then (c, Failed(InvalidSavepoint))
      else (c.(work := c.stack[k].saved, stack := c.stack[..k + 1]), Done)
    case OuterCommit => (c.(committed := c.work, stack := [], open := false), Done)
    case OuterRollback => (c.(work := c.committed, stack := [], open := false), Done)
  }

  // ---------------------------------------------------------------- the driver's objects

  /** The `tx` of transaction.go together with the savepoint driver wrapped around it. */
  class Transaction<!D> {
    var committed: D
    var work: D
    var stack: seq<Savepoint<D>>
    var open: bool

    function State(): Conn<D>
      reads this
    {
      Conn(committed, work, stack, open)
    }

    constructor (d: D)
      ensures State() == Start(d)
    {
      committed, work, stack, open := d, d, [], true;
    }

    method Exec(effect: D -> D) returns (r: Outcome)
      modifies this
      ensures (State(), r) == Step(old(State()), Write(effect))
    {
      if !open { return Failed(TxDone); }
      work := effect(work);
      r := Done;
    }

    /** savepointDriver.Tx: a handle is handed out only when the statement worked. */
    method Tx(id: Id) returns (r: Outcome, handle: SavepointTx?<D>)
      modifies this
      ensures (State(), r) == Step(old(State()), Begin(id))
      ensures handle != null <==> r.Done?
      ensures handle != null ==> fresh(handle) && handle.driver == this && handle.id == id
    {
      if !open { return Failed(TxDone), null; }
      stack := stack + [Savepoint(id, work)];
      r := Done;
      handle := new SavepointTx(this, id);
    }

    method OuterCommitTx() returns (r: Outcome)
      modifies this
      ensures (State(), r) == Step(old(State()), OuterCommit)
    {
      if !open { return Failed(TxDone); }
      committed, stack, open := work, [], false;
      r := Done;
    }

    method OuterRollbackTx() returns (r: Outcome)
      modifies this
      ensures (State(), r) == Step(old(State()), OuterRollback)
    {
      if !open { return Failed(TxDone); }
      work, stack, open := committed, [], false;
      r := Done;
    }
  }

  /** savepointTx: a handle remembers only the name of its savepoint. */
  class SavepointTx<!D> {
    const driver: Transaction<D>
    const id: Id

    constructor (driver: Transaction<D>, id: Id)
      ensures this.driver == driver && this.id == id
    {
      this.driver, this.id := driver, id;
    }

    method CommitTx() returns (r: Outcome)
      modifies driver
      ensures (driver.State(), r) == Step(old(driver.State()), Commit(id))
    {
      if !driver.open { return Failed(TxDone); }
      var k := Find(driver.stack, id);
      if k == |driver.stack| { return Failed(InvalidSavepoint); }
      driver.stack := driver.stack[..k];
      r := Done;
    }

    method RollbackTx() returns (r: Outcome)
      modifies driver
      ensures (driver.State(), r) == Step(old(driver.State()), Rollback(id))
    {
      if !driver.open { return Failed(TxDone); }
      var k := Find(driver.stack, id);
      if k == |driver.stack| { return Failed(InvalidSavepoint); }
      driver.work := driver.stack[k].saved;
      driver.stack := driver.stack[..k + 1];
      r := Done;
    }
  }

  // ---------------------------------------------------------------- runs and their history

  ghost function Run<D>(d: D, es: seq<Event<D>>): Conn<D> {
    if es == [] then Start(d) else Step(Run(d, es[..|es| - 1]), es[|es| - 1]).0
  }

  /** Whether the event at position p worked when it was reached. */
  ghost predicate Worked<D>(d: D, es: seq<Event<D>>, p: nat)
    requires p < |es|
  {
    Step(Run(d, es[..p]), es[p]).1.Done?
  }

  /** The id of every savepoint is drawn fresh (uuid.New). */
  ghost predicate FreshIds<D>(es: seq<Event<D>>) {
    forall i, j :: 0 <= i < j < |es| && es[i].Begin? && es[j].Begin? ==> es[i].id != es[j].id
  }

  ghost predicate OpenedAt<D>(d: D, es: seq<Event<D>>, p: nat, id: Id) {
    p < |es| && es[p].Begin? && es[p].id == id && Worked(d, es, p)
  }

  /** The event at q ends the savepoint opened at p: it releases that savepoint or an older
      one, or it rolls back to an older one. */
  ghost predicate Ends<D>(d: D, es: seq<Event<D>>, q: nat, p: nat)
    requires q < |es|
  {
    && Worked(d, es, q)
    && ((es[q].Commit? && exists r: nat :: r <= p && OpenedAt(d, es, r, es[q].id)) ||
        (es[q].Rollback? && exists r: nat :: r < p && OpenedAt(d, es, r, es[q].id)))
  }

  ghost predicate AliveFrom<D>(d: D, es: seq<Event<D>>, p: nat) {
    && p < |es| && es[p].Begin? && Worked(d, es, p)
    && forall q :: p < q < |es| ==> !Ends(d, es, q, p)
  }

  /** Said of the history only: the handle was opened, its savepoint was not released, and no
      older savepoint was released or rolled back to since. */
  ghost predicate Alive<D>(d: D, es: seq<Event<D>>, id: Id) {
    exists p: nat :: AliveFrom(d, es, p) && es[p].id == id
  }

  /** ps lists the positions in the history where the stack's savepoints were opened. */
  ghost predicate StackFrom<D>(d: D, es: seq<Event<D>>, stack: seq<Savepoint<D>>, ps: seq<nat>) {
    && |ps| == |stack|
    && (forall k :: 0 <= k < |ps| ==> OpenedAt(d, es, ps[k], stack[k].id))
    && (forall k :: 0 <= k < |ps| ==> stack[k].saved == Run(d, es[..ps[k]]).work)
    && (forall j, k :: 0 <= j < k < |ps| ==> ps[j] < ps[k])
  }

  ghost predicate AllAlive<D>(d: D, es: seq<Event<D>>, ps: seq<nat>) {
    forall p: nat :: p in ps <==> AliveFrom(d, es, p)
  }

  ghost predicate Mirrors<D>(d: D, es: seq<Event<D>>, ps: seq<nat>) {
    && StackFrom(d, es, Run(d, es).stack, ps)
    && (Run(d, es).open ==> AllAlive(d, es, ps))
  }

  lemma PrefixFacts<D>(d: D, es: seq<Event<D>>, e: Event<D>)
    ensures Run(d, es + [e]) == Step(Run(d, es), e).0
    ensures forall p: nat :: p < |es| ==> (es + [e])[..p] == es[..p]
    ensures forall p: nat :: p < |es| ==> (Worked(d, es + [e], p) <==> Worked(d, es, p))
    ensures Worked(d, es + [e], |es|) <==> Step(Run(d, es), e).1.Done?
    ensures forall p: nat, id :: OpenedAt(d, es, p, id) ==> OpenedAt(d, es + [e], p, id)
    ensures forall p: nat, id :: OpenedAt(d, es + [e], p, id) && p < |es| ==> OpenedAt(d, es, p, id)
  {
    var es' := es + [e];
    assert es'[..|es'| - 1] == es;
    assert es'[..|es|] == es;
    assert forall p: nat :: p < |es| ==> es'[..p] == es[..p];
  }

  lemma EndsPrefix<D>(d: D, es: seq<Event<D>>, e: Event<D>, q: nat, p: nat)
    requires p < q < |es|
    ensures Ends(d, es + [e], q, p) <==> Ends(d, es, q, p)
  {
    PrefixFacts(d, es, e);
    var es' := es + [e];
    assert forall r: nat, id :: r < |es| ==> (OpenedAt(d, es', r, id) <==> OpenedAt(d, es, r, id));
  }

  /** A savepoint stays alive over one more event unless that event ends it. */
  lemma AlivePrefix<D>(d: D, es: seq<Event<D>>, e: Event<D>, p: nat)
    requires p < |es|
    ensures AliveFrom(d, es + [e], p) <==> AliveFrom(d, es, p) && !Ends(d, es + [e], |es|, p)
  {
    PrefixFacts(d, es, e);
    forall q: nat | p < q < |es|
      ensures Ends(d, es + [e], q, p) <==> Ends(d, es, q, p)
    {
      EndsPrefix(d, es, e, q, p);
    }
    if AliveFrom(d, es, p) && !Ends(d, es + [e], |es|, p) {
      forall q | p < q < |es + [e]|
        ensures !Ends(d, es + [e], q, p)
      {
        if q < |es| { EndsPrefix(d, es, e, q, p); }
      }
    }
  }

  lemma OpenedOnce<D>(d: D, es: seq<Event<D>>, p: nat, q: nat, id: Id)
    requires FreshIds(es) && OpenedAt(d, es, p, id) && OpenedAt(d, es, q, id)
    ensures p == q
  {
  }

  lemma HitWorks<D>(d: D, es: seq<Event<D>>, e: Event<D>, k: nat)
    requires Run(d, es).open && (e.Commit? || e.Rollback?)
    requires k < |Run(d, es).stack| && Run(d, es).stack[k].id == e.id
    ensures Worked(d, es + [e], |es|)
  {
    PrefixFacts(d, es, e);
    assert (es + [e])[|es|] == e;
    assert Find(Run(d, es).stack, e.id) <= k;
  }

  /** When the stack mirrors the history, the event that hits stack entry k ends exactly the
      savepoints from k on (a release) or after k (a rollback). */
  lemma EndsExactly<D>(d: D, es: seq<Event<D>>, e: Event<D>, ps: seq<nat>, k: nat)
    requires FreshIds(es) && Mirrors(d, es, ps) && Run(d, es).open
    requires e.Commit? || e.Rollback?
    requires k < |ps| && Run(d, es).stack[k].id == e.id
    ensures forall p: nat :: p < |es| ==>
      (Ends(d, es + [e], |es|, p) <==> if e.Commit? then ps[k] <= p else ps[k] < p)
  {
    PrefixFacts(d, es, e);
    var es' := es + [e];
    assert es'[|es|] == e;
    HitWorks(d, es, e, k);
    assert OpenedAt(d, es', ps[k], e.id);
    forall r: nat | OpenedAt(d, es', r, e.id)
      ensures r == ps[k]
    {
      assert r != |es|;
      OpenedOnce(d, es, r, ps[k], e.id);
    }
  }

  /** An event that releases or rolls back nothing ends no savepoint. */
  lemma EndsNothing<D>(d: D, es: seq<Event<D>>, e: Event<D>)
    requires !(e.Commit? || e.Rollback?) || !Step(Run(d, es), e).1.Done?
    ensures forall p: nat :: p < |es| ==> !Ends(d, es + [e], |es|, p)
  {
    PrefixFacts(d, es, e);
    assert (es + [e])[|es|] == e;
  }

  lemma {:induction false} StackIds<D>(d: D, es: seq<Event<D>>, ps: seq<nat>)
    requires FreshIds(es) && Mirrors(d, es, ps)
    ensures forall j, k :: 0 <= j < k < |ps| ==> Run(d, es).stack[j].id != Run(d, es).stack[k].id
  {
    forall j, k | 0 <= j < k < |ps|
      ensures Run(d, es).stack[j].id != Run(d, es).stack[k].id
    {
      assert es[ps[j]].id != es[ps[k]].id;
    }
  }

  /** What one more event does to the savepoints that were alive before it. */
  ghost predicate Carries<D>(d: D, es: seq<Event<D>>, e: Event<D>) {
    forall p: nat :: p < |es| ==>
      (AliveFrom(d, es + [e], p) <==> AliveFrom(d, es, p) && !Ends(d, es + [e], |es|, p))
  }

  lemma AllCarry<D>(d: D, es: seq<Event<D>>, e: Event<D>)
    ensures Carries(d, es, e)
  {
    forall p: nat | p < |es|
      ensures AliveFrom(d, es + [e], p) <==> AliveFrom(d, es, p) && !Ends(d, es + [e], |es|, p)
    {
      AlivePrefix(d, es, e, p);
    }
  }

  lemma StackFromLonger<D>(d: D, es: seq<Event<D>>, e: Event<D>, stack: seq<Savepoint<D>>, ps: seq<nat>)
    requires StackFrom(d, es, stack, ps)
    ensures StackFrom(d, es + [e], stack, ps)
  {
    PrefixFacts(d, es, e);
    forall k | 0 <= k < |ps|
      ensures stack[k].saved == Run(d, (es + [e])[..ps[k]]).work
    {
      assert (es + [e])[..ps[k]] == es[..ps[k]];
    }
  }

  lemma MirrorsKeep<D>(d: D, es: seq<Event<D>>, e: Event<D>, ps: seq<nat>)
    requires FreshIds(es) && Mirrors(d, es, ps) && Run(d, es).open
    requires e.Write? || !Step(Run(d, es), e).1.Done?
    ensures Mirrors(d, es + [e], ps)
  {
    StackFromLonger(d, es, e, Run(d, es).stack, ps);
    PrefixFacts(d, es, e);
    EndsNothing(d, es, e);
    AllCarry(d, es, e);
    assert (es + [e])[|es|] == e;
    assert !AliveFrom(d, es + [e], |es|);
  }

  /** One more savepoint, opened by the last event. */
  lemma StackFromSnoc<D>(d: D, es: seq<Event<D>>, stack: seq<Savepoint<D>>, ps: seq<nat>, top: Savepoint<D>, p: nat)
    requires StackFrom(d, es, stack, ps) && OpenedAt(d, es, p, top.id) && top.saved == Run(d, es[..p]).work
    requires forall k :: 0 <= k < |ps| ==> ps[k] < p
    ensures StackFrom(d, es, stack + [top], ps + [p])
  {
  }

  lemma BeginStack<D>(d: D, es: seq<Event<D>>, e: Event<D>, ps: seq<nat>)
    requires StackFrom(d, es, Run(d, es).stack, ps) && Run(d, es).open && e.Begin?
    ensures StackFrom(d, es + [e], Run(d, es + [e]).stack, ps + [|es|])
  {
    var c := Run(d, es);
    StackFromLonger(d, es, e, c.stack, ps);
    PrefixFacts(d, es, e);
    assert (es + [e])[|es|] == e && (es + [e])[..|es|] == es;
    forall k | 0 <= k < |ps|
      ensures ps[k] < |es|
    {
      assert OpenedAt(d, es, ps[k], c.stack[k].id);
    }
    StackFromSnoc(d, es + [e], c.stack, ps, Savepoint(e.id, c.work), |es|);
  }

  lemma BeginAliveAt<D>(d: D, es: seq<Event<D>>, e: Event<D>, p: nat)
    requires e.Begin? && Run(d, es).open
    ensures AliveFrom(d, es + [e], p) <==> p == |es| || (p < |es| && AliveFrom(d, es, p))
  {
    PrefixFacts(d, es, e);
    assert (es + [e])[|es|] == e;
    if p < |es| {
      EndsNothing(d, es, e);
      AlivePrefix(d, es, e, p);
    }
  }

  lemma BeginAlive<D>(d: D, es: seq<Event<D>>, e: Event<D>, ps: seq<nat>)
    requires AllAlive(d, es, ps) && Run(d, es).open && e.Begin?
    ensures AllAlive(d, es + [e], ps + [|es|])
  {
    forall p: nat
      ensures p in ps + [|es|] <==> AliveFrom(d, es + [e], p)
    {
      BeginAliveAt(d, es, e, p);
      assert p in ps <==> AliveFrom(d, es, p);
    }
  }

  lemma CutAlive<D>(d: D, es: seq<Event<D>>, e: Event<D>, ps: seq<nat>, k: nat, n: nat)
    requires FreshIds(es) && Mirrors(d, es, ps) && Run(d, es).open
    requires (e.Commit? && n == k) || (e.Rollback? && n == k + 1)
    requires k < |ps| && Run(d, es).stack[k].id == e.id
    ensures AllAlive(d, es + [e], ps[..n])
  {
    EndsExactly(d, es, e, ps, k);
    AllCarry(d, es, e);
    assert (es + [e])[|es|] == e;
    assert !AliveFrom(d, es + [e], |es|);
    CutMembers(ps, k);
    forall p: nat
      ensures p in ps[..n] <==> AliveFrom(d, es + [e], p)
    {
      assert p in ps <==> AliveFrom(d, es, p);
    }
  }

  lemma CutMembers(ps: seq<nat>, k: nat)
    requires k < |ps| && forall i, j :: 0 <= i < j < |ps| ==> ps[i] < ps[j]
    ensures forall p: nat :: p in ps[..k] <==> p in ps && p < ps[k]
    ensures forall p: nat :: p in ps[..k + 1] <==> p in ps && p <= ps[k]
  {
    assert forall i :: 0 <= i < |ps| ==> (ps[i] < ps[k] <==> i < k);
    assert forall i :: 0 <= i < k ==> ps[..k][i] == ps[i];
    assert forall i :: 0 <= i < k + 1 ==> ps[..k + 1][i] == ps[i];
  }

  lemma MirrorsCut<D>(d: D, es: seq<Event<D>>, e: Event<D>, ps: seq<nat>) returns (n: nat)
    requires FreshIds(es) && Mirrors(d, es, ps) && Run(d, es).open
    requires (e.Commit? || e.Rollback?) && Step(Run(d, es), e).1.Done?
    ensures n <= |ps| && Mirrors(d, es + [e], ps[..n])
  {
    var stack := Run(d, es).stack;
    var k := Find(stack, e.id);
    n := if e.Commit? then k else k + 1;
    CutAlive(d, es, e, ps, k, n);
    StackFromLonger(d, es, e, stack, ps);
    PrefixFacts(d, es, e);
    assert StackFrom(d, es + [e], stack[..n], ps[..n]);
  }

  /** One more event keeps the stack a mirror of the history. */
  lemma MirrorsStep<D>(d: D, es: seq<Event<D>>, e: Event<D>, ps: seq<nat>) returns (ps': seq<nat>)
    requires FreshIds(es) && Mirrors(d, es, ps)
    ensures Mirrors(d, es + [e], ps')
  {
    var c := Run(d, es);
    PrefixFacts(d, es, e);
    if !c.open {
      StackFromLonger(d, es, e, c.stack, ps);
      ps' := ps;
    } else if e.OuterCommit? || e.OuterRollback? {
      ps' := [];
    } else if e.Begin? {
      BeginStack(d, es, e, ps);
      BeginAlive(d, es, e, ps);
      ps' := ps + [|es|];
    } else if e.Write? || !Step(c, e).1.Done? {
      MirrorsKeep(d, es, e, ps);
      ps' := ps;
    } else {
      var n := MirrorsCut(d, es, e, ps);
      ps' := ps[..n];
    }
  }

  lemma {:induction false} History<D>(d: D, es: seq<Event<D>>) returns (ps: seq<nat>)
    requires FreshIds(es)
    ensures Mirrors(d, es, ps)
    decreases |es|
  {
    if es == [] {
      ps := [];
    } else {
      var init, e := es[..|es| - 1], es[|es| - 1];
      assert init + [e] == es;
      var qs := History(d, init);
      ps := MirrorsStep(d, init, e, qs);
    }
  }

  // ---------------------------------------------------------------- what handles do

  /** A statement that does not work leaves the connection as it was; it fails because the transaction
      is over, or because the savepoint is not there. */
  lemma FailsWithoutEffect<D>(c: Conn<D>, e: Event<D>)
    requires !Step(c, e).1.Done?
    ensures Step(c, e).0 == c
    ensures Step(c, e).1 == Failed(if c.open then InvalidSavepoint else TxDone)
  {
  }

  ghost predicate OnStack<D>(c: Conn<D>, id: Id) {
    exists k :: 0 <= k < |c.stack| && c.stack[k].id == id
  }

  lemma WorksIff<D>(c: Conn<D>, id: Id)
    ensures Step(c, Commit(id)).1.Done? <==> c.open && OnStack(c, id)
    ensures Step(c, Rollback(id)).1.Done? <==> c.open && OnStack(c, id)
  {
  }

  lemma OnStackIffAlive<D>(d: D, es: seq<Event<D>>, ps: seq<nat>, id: Id)
    requires Mirrors(d, es, ps) && Run(d, es).open
    ensures OnStack(Run(d, es), id) <==> Alive(d, es, id)
  {
    var c := Run(d, es);
    if k :| 0 <= k < |ps| && c.stack[k].id == id {
      assert ps[k] in ps;
      assert AliveFrom(d, es, ps[k]) && es[ps[k]].id == id;
    }
    if Alive(d, es, id) {
      var p: nat :| AliveFrom(d, es, p) && es[p].id == id;
      var i :| 0 <= i < |ps| && ps[i] == p;
      assert c.stack[i].id == id;
    }
  }

  /** Over every run, with handles used in any order: ids on the stack are distinct, and a
      handle's Commit or Rollback works exactly when the transaction is open and the history
      says the handle is alive. */
  lemma HandleOutcome<D>(d: D, es: seq<Event<D>>, id: Id)
    requires FreshIds(es)
    ensures forall j, k :: 0 <= j < k < |Run(d, es).stack| ==>
      Run(d, es).stack[j].id != Run(d, es).stack[k].id
    ensures Step(Run(d, es), Commit(id)).1.Done? <==> Run(d, es).open && Alive(d, es, id)
    ensures Step(Run(d, es), Rollback(id)).1.Done? <==> Run(d, es).open && Alive(d, es, id)
  {
    var ps := History(d, es);
    StackIds(d, es, ps);
    WorksIff(Run(d, es), id);
    if Run(d, es).open {
      OnStackIffAlive(d, es, ps, id);
    }
  }

  /** Rolling back a live handle brings back exactly the data its Tx call saw, and leaves the
      handle itself alive, so it can be rolled back or committed again. */
  lemma RollbackRestores<D>(d: D, es: seq<Event<D>>, p: nat)
    requires FreshIds(es) && Run(d, es).open && AliveFrom(d, es, p)
    ensures Run(d, es + [Rollback(es[p].id)]).work == Run(d, es[..p]).work
    ensures Step(Run(d, es + [Rollback(es[p].id)]), Rollback(es[p].id)).1.Done?
  {
    var ps := History(d, es);
    StackIds(d, es, ps);
    var k :| 0 <= k < |ps| && ps[k] == p;
    PrefixFacts(d, es, Rollback(es[p].id));
    RollbackTwice(Run(d, es), k, es[p].id);
  }

  /** A rollback to the savepoint at k restores its data and can be repeated. */
  lemma RollbackTwice<D>(c: Conn<D>, k: nat, id: Id)
    requires c.open && k < |c.stack| && c.stack[k].id == id
    requires forall i, j :: 0 <= i < j < |c.stack| ==> c.stack[i].id != c.stack[j].id
    ensures Step(c, Rollback(id)).0.work == c.stack[k].saved
    ensures Step(Step(c, Rollback(id)).0, Rollback(id)).1.Done?
  {
    assert Find(c.stack, id) == k;
    assert Step(c, Rollback(id)).0.stack[k].id == id;
  }

  /** Nothing the handles do reaches the database before the outer commit: until then the
      committed data is the starting data, and an outer rollback leaves it there. */
  lemma {:induction false} OuterAtomicity<D>(d: D, es: seq<Event<D>>)
    ensures Run(d, es).open ==> Run(d, es).committed == d
    ensures (forall e :: e in es ==> !e.OuterCommit?) ==> Run(d, es).committed == d
    ensures Run(d, es).open ==> Run(d, es + [OuterRollback]).committed == d
    ensures Run(d, es).open ==> Run(d, es + [OuterCommit]).committed == Run(d, es).work
    decreases |es|
  {
    PrefixFacts(d, es, OuterRollback);
    PrefixFacts(d, es, OuterCommit);
    if es != [] {
      var init := es[..|es| - 1];
      OuterAtomicity(d, init);
      assert forall e :: e in init ==> e in es;
      assert es[|es| - 1] in es;
    }
  }

  // ---------------------------------------------------------------- nested transactions

  /** A client's code: writes and nested Tx blocks. A block ends in Commit or Rollback, as
      decided from the data it sees at its end. */
  datatype Prog<!D> =
    | Stop
    | Put(effect: D -> D, rest: Prog<D>)
    | Block(id: Id, body: Prog<D>, commits: D -> bool, rest: Prog<D>)

  /** Ordinary nested transactions: a committed block's effects stay, a rolled-back block
      contributes nothing. */
  function Meaning<D>(p: Prog<D>, d: D): D {
    match p
    case Stop => d
    case Put(effect, rest) => Meaning(rest, effect(d))
    case Block(_, body, commits, rest) =>
      var inner := Meaning(body, d);
      Meaning(rest, if commits(inner) then inner else d)
  }

  /** The same code run through the savepoint driver; the flag says that no call failed. */
  function Exec<D>(c: Conn<D>, p: Prog<D>): (Conn<D>, bool)
    decreases p
  {
    match p
    case Stop => (c, true)
    case Put(effect, rest) =>
      var (c1, o1) := Step(c, Write(effect));
      var (c2, ok) := Exec(c1, rest);
      (c2, o1.Done? && ok)
    case Block(id, body, commits, rest) =>
      var (c1, o1) := Step(c, Begin(id));
      var (c2, ok2) := Exec(c1, body);
      var (c3, o3) := Step(c2, if commits(c2.work) then Commit(id) else Rollback(id));
      var (c4, ok4) := Exec(c3, rest);
      (c4, o1.Done? && ok2 && o3.Done? && ok4)
  }

  function Ids<D>(p: Prog<D>): set<Id> {
    match p
    case Stop => {}
    case Put(_, rest) => Ids(rest)
    case Block(id, body, _, rest) => {id} + Ids(body) + Ids(rest)
  }

  ghost predicate FreshBlocks<D>(p: Prog<D>) {
    match p
    case Stop => true
    case Put(_, rest) => FreshBlocks(rest)
    case Block(id, body, _, rest) =>
      && id !in Ids(body) + Ids(rest) && Ids(body) !! Ids(rest)
      && FreshBlocks(body) && FreshBlocks(rest)
  }

  ghost function StackNames<D>(stack: seq<Savepoint<D>>): set<Id> {
    set s | s in stack :: s.id
  }

  lemma FindInPrefix<D>(stack: seq<Savepoint<D>>, id: Id, longer: seq<Savepoint<D>>, d: D)
    requires id !in StackNames(stack)
    requires stack + [Savepoint(id, d)] <= longer
    ensures Find(longer, id) == |stack|
  {
    assert longer[|stack|] == Savepoint(id, d);
    assert forall j :: 0 <= j < |stack| ==> longer[j] == stack[j] && stack[j] in stack;
    assert forall j :: 0 <= j < |stack| ==> longer[j].id in StackNames(stack);
  }

  /** The savepoint driver refines nested transactions: every call works, the data is what true
      nesting gives, nothing is committed, and the enclosing savepoints are untouched - the only
      thing left behind is a tail of savepoints named by this code's own rolled-back blocks. */
  lemma {:induction false} SavepointsRefineNesting<D>(c: Conn<D>, p: Prog<D>)
    requires c.open && FreshBlocks(p) && Ids(p) !! StackNames(c.stack)
    ensures Exec(c, p).1
    ensures Exec(c, p).0.work == Meaning(p, c.work)
    ensures Exec(c, p).0.committed == c.committed && Exec(c, p).0.open
    ensures c.stack <= Exec(c, p).0.stack
    ensures StackNames(Exec(c, p).0.stack[|c.stack|..]) <= Ids(p)
    decreases p
  {
    match p
    case Stop =>
    case Put(effect, rest) =>
      SavepointsRefineNesting(Step(c, Write(effect)).0, rest);
    case Block(id, body, commits, rest) =>
      var c1 := Step(c, Begin(id)).0;
      BlockBegins(c, id);
      SavepointsRefineNesting(c1, body);
      var c2 := Exec(c1, body).0;
      var c3 := Step(c2, if commits(c2.work) then Commit(id) else Rollback(id)).0;
      BlockEnds(c, id, c2);
      SavepointsRefineNesting(c3, rest);
      TailNames(c.stack, c3.stack, Exec(c3, rest).0.stack, Savepoint(id, c.work));
  }

  lemma BlockBegins<D>(c: Conn<D>, id: Id)
    requires c.open
    ensures StackNames(Step(c, Begin(id)).0.stack) <= StackNames(c.stack) + {id}
  {
  }

  /** The end of a block finds the block's own savepoint at its place, whatever the body left
      above it: a commit restores the enclosing stack, a rollback keeps the savepoint. */
  lemma BlockEnds<D>(c: Conn<D>, id: Id, c2: Conn<D>)
    requires c2.open && id !in StackNames(c.stack) && c.stack + [Savepoint(id, c.work)] <= c2.stack
    ensures Step(c2, Commit(id)) == (c2.(stack := c.stack), Done)
    ensures Step(c2, Rollback(id)) == (c2.(work := c.work, stack := c.stack + [Savepoint(id, c.work)]), Done)
    ensures StackNames(c.stack + [Savepoint(id, c.work)]) <= StackNames(c.stack) + {id}
  {
    FindInPrefix(c.stack, id, c2.stack, c.work);
    assert c2.stack[|c.stack|] == Savepoint(id, c.work);
    assert c2.stack[..|c.stack|] == c.stack;
    assert c2.stack[..|c.stack| + 1] == c.stack + [Savepoint(id, c.work)];
  }

  lemma TailNames<D>(base: seq<Savepoint<D>>, mid: seq<Savepoint<D>>, end: seq<Savepoint<D>>, own: Savepoint<D>)
    requires (mid == base || mid == base + [own]) && mid <= end
    ensures base <= end
    ensures StackNames(end[|base|..]) <= StackNames(end[|mid|..]) + {own.id}
  {
    forall s | s in end[|base|..]
      ensures s in end[|mid|..] || s == own
    {
      if mid != base {
        assert end[|base|..] == [own] + end[|mid|..];
      }
    }
  }

  /** A whole transaction: after the outer commit the database holds what nested transactions
      give, after the outer rollback it holds the starting data. */
  lemma WholeTransaction<D>(d: D, p: Prog<D>)
    requires FreshBlocks(p)
    ensures Step(Exec(Start(d), p).0, OuterCommit).0.committed == Meaning(p, d)
    ensures Step(Exec(Start(d), p).0, OuterRollback).0.committed == d
  {
    SavepointsRefineNesting(Start(d), p);
  }
}
