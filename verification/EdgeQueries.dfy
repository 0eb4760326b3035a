/** Neighbour queries of the eager loaders (ent/gen/ent/action_query.go): what one batched query
    returns, what one query per key would return, and when the two agree. */
module EdgeQueries {
  import opened OrderedSets
  import opened Pages
  import opened Wrappers

  /** A row of a neighbouring table. */
  datatype Entity = Entity(id: int, data: string)

  predicate Passes(n: Entity, filters: seq<seq<int>>) {
    forall f :: f in filters ==> n.id in f
  }

  function PassesBy(filters: seq<seq<int>>): Entity -> bool {
    n => Passes(n, filters)
  }

  /** The rows that every id filter lets through, in order. */
  function Select(visible: seq<Entity>, filters: seq<seq<int>>): seq<Entity> {
    Keep(visible, PassesBy(filters))
  }

  /** The builder of a neighbour query: the rows its own predicates let through, in its order, the
      id filters added so far, offset and limit. Each With call makes its own builder, so builders
      are values here. */
  datatype EdgeQuery = EdgeQuery(visible: seq<Entity>, filters: seq<seq<int>>, offset: nat, limit: nat) {
    function Where(ids: seq<int>): EdgeQuery {
      this.(filters := filters + [ids])
    }

    function Matching(): seq<Entity> {
      Select(visible, filters)
    }

    function All(): seq<Entity> {
      Page(Matching(), offset, limit)
    }
  }

  /** The first row with the id. */
  function Lookup(rows: seq<Entity>, id: int): (r: Option<Entity>)
    ensures r.None? <==> forall n :: n in rows ==> n.id != id
    ensures r.Some? ==> r.value in rows && r.value.id == id
  {
    if rows == [] then None
    else if rows[0].id == id then Some(rows[0])
    else Lookup(rows[1..], id)
  }

  /** One query for one key alone: what eager loading replaces. */
  function Own(q: EdgeQuery, id: int): Option<Entity> {
    Lookup(q.Where([id]).All(), id)
  }

  /** One query for all keys, looked up for one of them. */
  function Batched(q: EdgeQuery, keys: seq<int>, id: int): Option<Entity> {
    Lookup(q.Where(keys).All(), id)
  }

  ghost predicate UniqueIds(rows: seq<Entity>) {
    forall i, j :: 0 <= i < j < |rows| ==> rows[i].id != rows[j].id
  }

  // ---------------------------------------------------------------- filtering and paging

  lemma SelectMembers(visible: seq<Entity>, filters: seq<seq<int>>)
    ensures forall n :: n in Select(visible, filters) <==> n in visible && Passes(n, filters)
  {
    KeepMembers(visible, PassesBy(filters));
  }

  lemma {:induction false} KeepUnique(visible: seq<Entity>, p: Entity -> bool)
    requires UniqueIds(visible)
    ensures UniqueIds(Keep(visible, p))
    decreases |visible|
  {
    if visible != [] {
      var init, last := visible[..|visible| - 1], visible[|visible| - 1];
      KeepUnique(init, p);
      KeepMembers(init, p);
      UniqueLast(visible);
      forall n | n in Keep(init, p)
        ensures n.id != last.id
      {
      }
      UniqueSnoc(Keep(init, p), last);
    }
  }

  lemma UniqueLast(rows: seq<Entity>)
    requires UniqueIds(rows) && rows != []
    ensures forall n :: n in rows[..|rows| - 1] ==> n.id != rows[|rows| - 1].id
  {
  }

  lemma UniqueSnoc(rows: seq<Entity>, n: Entity)
    requires UniqueIds(rows) && forall m :: m in rows ==> m.id != n.id
    ensures UniqueIds(rows + [n])
  {
  }

  lemma UniqueIsDistinct(rows: seq<Entity>)
    requires UniqueIds(rows)
    ensures Distinct(rows)
  {
  }

  /** Filters that say the same about every row select the same rows. */
  lemma SelectAgree(visible: seq<Entity>, f: seq<seq<int>>, g: seq<seq<int>>)
    requires forall n :: n in visible ==> (Passes(n, f) <==> Passes(n, g))
    ensures Select(visible, f) == Select(visible, g)
  {
    KeepAgree(visible, PassesBy(f), PassesBy(g));
  }

  lemma PassesMore(n: Entity, filters: seq<seq<int>>, ids: seq<int>)
    ensures Passes(n, filters + [ids]) <==> Passes(n, filters) && n.id in ids
  {
    assert forall f :: f in filters + [ids] <==> f in filters || f == ids;
  }

  lemma PageUnique(rows: seq<Entity>, offset: nat, limit: nat)
    requires UniqueIds(rows)
    ensures UniqueIds(Page(rows, offset, limit))
  {
  }

  lemma LookupUnique(rows: seq<Entity>, n: Entity)
    requires UniqueIds(rows) && n in rows
    ensures Lookup(rows, n.id) == Some(n)
  {
    var r := Lookup(rows, n.id).value;
    var i :| 0 <= i < |rows| && rows[i] == n;
    var j :| 0 <= j < |rows| && rows[j] == r;
    assert !(i < j) && !(j < i);
  }

  /** The last of the rows with the given id: what is left after assigning them in order. */
  function Latest(rows: seq<Entity>, id: int): Option<Entity> {
    if rows == [] then None
    else if rows[|rows| - 1].id == id then Some(rows[|rows| - 1])
    else Latest(rows[..|rows| - 1], id)
  }

  lemma {:induction false} LatestMember(rows: seq<Entity>, id: int)
    ensures Latest(rows, id).None? <==> forall n :: n in rows ==> n.id != id
    ensures Latest(rows, id).Some? ==> Latest(rows, id).value in rows && Latest(rows, id).value.id == id
    decreases |rows|
  {
    if rows != [] {
      LatestMember(rows[..|rows| - 1], id);
      assert rows == rows[..|rows| - 1] + [rows[|rows| - 1]];
    }
  }

  lemma LatestIsLookup(rows: seq<Entity>, id: int)
    requires UniqueIds(rows)
    ensures Latest(rows, id) == Lookup(rows, id)
  {
    LatestMember(rows, id);
    if Latest(rows, id).Some? {
      LookupUnique(rows, Latest(rows, id).value);
    }
  }

  ghost predicate SameMembers(ids: seq<int>, keys: seq<int>) {
    forall k :: k in ids <==> k in keys
  }

  lemma EmptyTogether(ids: seq<int>, keys: seq<int>)
    requires SameMembers(ids, keys)
    ensures ids == [] <==> keys == []
  {
    if ids != [] {
      var k := ids[0];
      assert k in ids && k in keys;
    }
    if keys != [] {
      var k := keys[0];
      assert k in keys && k in ids;
    }
  }

  /** Only the set of keys matters for the batched query. */
  lemma SameBatch(q: EdgeQuery, ids: seq<int>, keys: seq<int>)
    requires SameMembers(ids, keys)
    ensures q.Where(ids).All() == q.Where(keys).All()
  {
    forall n
      ensures Passes(n, q.filters + [ids]) <==> Passes(n, q.filters + [keys])
    {
      PassesMore(n, q.filters, ids);
      PassesMore(n, q.filters, keys);
    }
    SelectAgree(q.visible, q.filters + [ids], q.filters + [keys]);
  }

  /** The batched query returns rows of the asked ids only, none twice. */
  lemma BatchRows(q: EdgeQuery, ids: seq<int>)
    requires UniqueIds(q.visible)
    ensures forall n :: n in q.Where(ids).Matching() ==> n.id in ids && n in q.visible
    ensures forall n :: n in q.Where(ids).All() ==> n.id in ids
    ensures UniqueIds(q.Where(ids).Matching()) && UniqueIds(q.Where(ids).All())
  {
    var rows := q.Where(ids).Matching();
    SelectMembers(q.visible, q.filters + [ids]);
    KeepUnique(q.visible, PassesBy(q.filters + [ids]));
    forall n | n in rows
      ensures n.id in ids
    {
      PassesMore(n, q.filters, ids);
    }
    PageMembers(rows, q.offset, q.limit);
    PageUnique(rows, q.offset, q.limit);
  }

  // ---------------------------------------------------------------- batched against one by one

  /** The page holds every row the batched query matches; with an offset, which hides the one row
      of every single query, it must be empty instead. */
  predicate FitsPage(q: EdgeQuery, keys: seq<int>) {
    var m := |q.Where(keys).Matching()|;
    if q.offset > 0 then m <= q.offset else q.limit == 0 || m <= q.limit
  }

  /** The query for one key matches the row the batched query matches for it, or none. */
  lemma OwnMatching(q: EdgeQuery, keys: seq<int>, id: int)
    requires UniqueIds(q.visible) && id in keys
    ensures
      var found := Lookup(q.Where(keys).Matching(), id);
      q.Where([id]).Matching() == if found.Some? then [found.value] else []
  {
    var rows, one := q.Where(keys).Matching(), q.Where([id]).Matching();
    BatchRows(q, keys);
    BatchRows(q, [id]);
    assert one == [] || one[0] in one;
    assert |one| <= 1 || (one[0] in one && one[1] in one && one[0].id != one[1].id);
    SelectMembers(q.visible, q.filters + [keys]);
    SelectMembers(q.visible, q.filters + [[id]]);
    forall n
      ensures n in one <==> n in rows && n.id == id
    {
      PassesMore(n, q.filters, keys);
      PassesMore(n, q.filters, [id]);
    }
    if one != [] {
      LookupUnique(rows, one[0]);
    }
  }

  lemma OwnIs(q: EdgeQuery, keys: seq<int>, id: int)
    requires UniqueIds(q.visible) && id in keys
    ensures Own(q, id) == if q.offset > 0 then None else Lookup(q.Where(keys).Matching(), id)
  {
    OwnMatching(q, keys, id);
    var found := Lookup(q.Where(keys).Matching(), id);
    if found.Some? {
      assert Page([found.value], q.offset, q.limit) == if q.offset > 0 then [] else [found.value];
    }
  }

  ghost predicate BatchAgrees(q: EdgeQuery, keys: seq<int>) {
    forall id :: id in keys ==> Batched(q, keys, id) == Own(q, id)
  }

  lemma BehindPrefix(rows: seq<Entity>, k: nat, j: nat)
    requires UniqueIds(rows) && k <= j < |rows|
    ensures Lookup(rows[..k], rows[j].id).None?
  {
    forall n | n in rows[..k]
      ensures n.id != rows[j].id
    {
      var i :| 0 <= i < k && rows[..k][i] == n;
      assert rows[i] == n;
    }
  }

  /** A row behind the page is found by its own query only. */
  lemma HiddenRow(q: EdgeQuery, keys: seq<int>, j: nat)
    requires UniqueIds(q.visible) && q.offset == 0 && 0 < q.limit <= j < |q.Where(keys).Matching()|
    ensures
      var n := q.Where(keys).Matching()[j];
      n.id in keys && Batched(q, keys, n.id).None? && Own(q, n.id) == Some(n)
  {
    var rows := q.Where(keys).Matching();
    BatchRows(q, keys);
    var n := rows[j];
    assert n in rows;
    OwnIs(q, keys, n.id);
    LookupUnique(rows, n);
    assert q.Where(keys).All() == rows[..q.limit];
    BehindPrefix(rows, q.limit, j);
  }

  /** The row just behind the page is lost. */
  lemma LostRow(q: EdgeQuery, keys: seq<int>)
    requires UniqueIds(q.visible) && q.offset == 0 && 0 < q.limit < |q.Where(keys).Matching()|
    ensures !BatchAgrees(q, keys)
  {
    HiddenRow(q, keys, q.limit);
    var id := q.Where(keys).Matching()[q.limit].id;
    assert Batched(q, keys, id) != Own(q, id);
  }

  /** One batched query gives every key what its own query gives exactly when the matching rows fit
      the page. */
  lemma BatchExact(q: EdgeQuery, keys: seq<int>)
    requires UniqueIds(q.visible)
    ensures BatchAgrees(q, keys) <==> FitsPage(q, keys)
  {
    var rows, page := q.Where(keys).Matching(), q.Where(keys).All();
    BatchRows(q, keys);
    PageMembers(rows, q.offset, q.limit);
    forall id | id in keys
      ensures Own(q, id) == if q.offset > 0 then None else Lookup(rows, id)
    {
      OwnIs(q, keys, id);
    }
    if q.offset > 0 {
      if page != [] {
        assert page[0] in page;
        LookupUnique(page, page[0]);
      }
    } else if 0 < q.limit < |rows| {
      LostRow(q, keys);
    } else {
      assert page == rows;
    }
  }

  /** Two actions with different files, and WithStdout limited to one row: the first loads its
      file, the second is told there is none. */
  lemma LimitLosesEdge() returns (q: EdgeQuery)
    ensures UniqueIds(q.visible) && !BatchAgrees(q, [1, 2])
  {
    q := EdgeQuery([Entity(1, "out"), Entity(2, "err")], [], 0, 1);
    var rows := q.Where([1, 2]).Matching();
    SelectMembers(q.visible, q.filters + [[1, 2]]);
    PassesMore(q.visible[0], [], [1, 2]);
    PassesMore(q.visible[1], [], [1, 2]);
    assert q.visible[0] in rows && q.visible[1] in rows;
    assert |rows| > 1;
    LostRow(q, [1, 2]);
  }

  // ---------------------------------------------------------------- NULL keys

  /** One query for a nullable key: a NULL key has no neighbour. */
  function OwnNullable(q: EdgeQuery, key: Option<int>): Option<Entity> {
    match key
    case None => None
    case Some(id) => Own(q, id)
  }

  /** The keys as an integer field shows them: NULL reads as 0. */
  function Plain(keys: seq<Option<int>>): seq<int> {
    seq(|keys|, i requires 0 <= i < |keys| => keys[i].GetOr(0))
  }

  ghost predicate NullableAgrees(q: EdgeQuery, keys: seq<Option<int>>) {
    forall key :: key in keys ==> Batched(q, Plain(keys), key.GetOr(0)) == OwnNullable(q, key)
  }

  /** A NULL key meets a row with id 0. */
  ghost predicate ZeroMatched(q: EdgeQuery, keys: seq<Option<int>>) {
    None in keys && q.offset == 0 && exists n :: n in q.Where(Plain(keys)).Matching() && n.id == 0
  }

  /** The row with id 0 is the only one behind the page, and nobody has the key 0. */
  ghost predicate ZeroCutOff(q: EdgeQuery, keys: seq<Option<int>>) {
    var m := q.Where(Plain(keys)).Matching();
    Some(0) !in keys && q.limit > 0 && |m| == q.limit + 1 && m[q.limit].id == 0
  }

  ghost predicate FitsNullable(q: EdgeQuery, keys: seq<Option<int>>) {
    if ZeroMatched(q, keys) then ZeroCutOff(q, keys) else FitsPage(q, Plain(keys))
  }

  lemma PlainMembers(keys: seq<Option<int>>)
    ensures forall key :: key in keys ==> key.GetOr(0) in Plain(keys)
    ensures forall id :: id in Plain(keys) ==> Some(id) in keys || (id == 0 && None in keys)
  {
    forall key | key in keys
      ensures key.GetOr(0) in Plain(keys)
    {
      var i :| 0 <= i < |keys| && keys[i] == key;
      assert Plain(keys)[i] == key.GetOr(0);
    }
    forall id | id in Plain(keys)
      ensures Some(id) in keys || (id == 0 && None in keys)
    {
      var i :| 0 <= i < |keys| && Plain(keys)[i] == id;
      assert keys[i] in keys;
    }
  }

  /** Where no NULL key meets a row, the nullable keys agree as the plain ones do. */
  lemma NoZeroAgrees(q: EdgeQuery, keys: seq<Option<int>>)
    requires UniqueIds(q.visible) && !ZeroMatched(q, keys)
    ensures NullableAgrees(q, keys) <==> BatchAgrees(q, Plain(keys))
  {
    PlainMembers(keys);
    if None in keys {
      OwnIs(q, Plain(keys), 0);
      assert Own(q, 0) == None;
    }
    if NullableAgrees(q, keys) {
      forall id | id in Plain(keys)
        ensures Batched(q, Plain(keys), id) == Own(q, id)
      {
        assert Some(id) in keys || None in keys;
      }
    }
  }

  lemma BeforeAndAt(rows: seq<Entity>, k: nat, n: Entity)
    requires k < |rows| && n in rows && n != rows[k] && |rows| == k + 1
    ensures n in rows[..k]
  {
    var i :| 0 <= i < |rows| && rows[i] == n;
    assert rows[..k][i] == n;
  }

  /** Cutting off just that row keeps what the other keys find and hides what NULL would. */
  lemma CutOffAgrees(q: EdgeQuery, keys: seq<Option<int>>)
    requires UniqueIds(q.visible) && ZeroMatched(q, keys) && ZeroCutOff(q, keys)
    ensures NullableAgrees(q, keys)
  {
    var plain := Plain(keys);
    var m, page := q.Where(plain).Matching(), q.Where(plain).All();
    BatchRows(q, plain);
    PlainMembers(keys);
    assert page == m[..q.limit];
    BehindPrefix(m, q.limit, q.limit);
    forall key | key in keys
      ensures Batched(q, plain, key.GetOr(0)) == OwnNullable(q, key)
    {
      if key.Some? {
        OwnIs(q, plain, key.value);
        InPage(m, page, q.limit, key.value);
      }
    }
  }

  lemma InPage(m: seq<Entity>, page: seq<Entity>, k: nat, id: int)
    requires UniqueIds(m) && UniqueIds(page) && |m| == k + 1 && page == m[..k] && id != m[k].id
    ensures Lookup(page, id) == Lookup(m, id)
  {
    var found := Lookup(m, id);
    if found.Some? {
      BeforeAndAt(m, k, found.value);
      LookupUnique(page, found.value);
    }
  }

  lemma InFront<T>(front: seq<T>, all: seq<T>, k: nat)
    requires k < |front| && front <= all
    ensures all[k] in front
  {
    assert front[k] == all[k];
  }

  /** When NULL finds nothing although a row has id 0, that row lies behind the page. */
  lemma ZeroBehind(m: seq<Entity>, k: nat, limit: nat)
    requires k < |m| && m[k].id == 0 && Lookup(Page(m, 0, limit), 0).None?
    ensures 0 < limit <= k
  {
    var page := Page(m, 0, limit);
    assert page == if 0 < limit < |m| then m[..limit] else m;
    if k < |page| {
      InFront(page, m, k);
    }
  }

  /** Then nothing else may lie there, and no key may ask for id 0. */
  lemma OnlyZeroBehind(q: EdgeQuery, keys: seq<Option<int>>, j: nat)
    requires UniqueIds(q.visible) && q.offset == 0 && NullableAgrees(q, keys)
    requires 0 < q.limit <= j < |q.Where(Plain(keys)).Matching()|
    ensures q.Where(Plain(keys)).Matching()[j].id == 0 && Some(0) !in keys
  {
    HiddenRow(q, Plain(keys), j);
    PlainMembers(keys);
    var id := q.Where(Plain(keys)).Matching()[j].id;
    assert Some(id).GetOr(0) == id && OwnNullable(q, Some(id)) == Own(q, id);
    assert Some(id) !in keys;
  }

  lemma AgreesCutOff(q: EdgeQuery, keys: seq<Option<int>>)
    requires UniqueIds(q.visible) && ZeroMatched(q, keys) && NullableAgrees(q, keys)
    ensures ZeroCutOff(q, keys)
  {
    var m := q.Where(Plain(keys)).Matching();
    BatchRows(q, Plain(keys));
    var k: nat :| k < |m| && m[k].id == 0;
    var none: Option<int> := None;
    assert none in keys && none.GetOr(0) == 0;
    ZeroBehind(m, k, q.limit);
    OnlyZeroBehind(q, keys, q.limit);
    if |m| > q.limit + 1 {
      OnlyZeroBehind(q, keys, q.limit + 1);
    }
  }

  /** One batched query over keys where NULL reads as 0 gives every row what its own query would -
      nothing for a NULL key - exactly if the matching rows fit the page and none of them has id 0
      where a key is NULL; or if the page cuts off just that row and no key asks for it. */
  lemma NullableExact(q: EdgeQuery, keys: seq<Option<int>>)
    requires UniqueIds(q.visible)
    ensures NullableAgrees(q, keys) <==> FitsNullable(q, keys)
  {
    if ZeroMatched(q, keys) {
      if ZeroCutOff(q, keys) {
        CutOffAgrees(q, keys);
      } else if NullableAgrees(q, keys) {
        AgreesCutOff(q, keys);
      }
    } else {
      NoZeroAgrees(q, keys);
      BatchExact(q, Plain(keys));
    }
  }

  lemma OneAndZero() returns (q: EdgeQuery, keys: seq<Option<int>>)
    ensures UniqueIds(q.visible) && q.offset == 0 && q.limit == 1 && keys == [Some(1), None]
    ensures |q.Where(Plain(keys)).Matching()| == 2 && q.Where(Plain(keys)).Matching()[1].id == 0
  {
    q, keys := EdgeQuery([Entity(1, "out"), Entity(0, "log")], [], 0, 1), [Some(1), None];
    assert Plain(keys) == [1, 0];
    SelectEvery(q.visible, [1, 0]);
  }

  /** The case in which a page too small for the batch is right nevertheless: the keys 1 and NULL,
      the rows 1 and 0, and a limit of one. */
  lemma LimitHidesZero() returns (q: EdgeQuery, keys: seq<Option<int>>)
    ensures UniqueIds(q.visible) && !FitsPage(q, Plain(keys)) && NullableAgrees(q, keys)
  {
    q, keys := OneAndZero();
    var m := q.Where(Plain(keys)).Matching();
    assert m[1] in m && keys[1] in keys;
    NullableExact(q, keys);
  }

  lemma SelectEvery(rows: seq<Entity>, ids: seq<int>)
    requires forall i :: 0 <= i < |rows| ==> rows[i].id in ids
    ensures Select(rows, [] + [ids]) == rows
  {
    KeepAll(rows, PassesBy([] + [ids]));
  }

  // ---------------------------------------------------------------- running a builder again

  function Asks(ids: seq<int>): Entity -> bool {
    (n: Entity) => n.id in ids
  }

  /** The rows of a second run, up to the end of its page, were all asked for in the first run. */
  ghost predicate Covered(q: EdgeQuery, first: seq<int>, second: seq<int>) {
    Covers(q.Where(second).Matching(), Asks(first), q.offset, q.limit)
  }

  ghost predicate SameLookups(a: seq<Entity>, b: seq<Entity>, keys: seq<int>) {
    forall id :: id in keys ==> Lookup(a, id) == Lookup(b, id)
  }

  /** The batched query of a builder that still carries the filter of a first run selects from what
      a once one would match. */
  lemma AgainMatching(q: EdgeQuery, first: seq<int>, second: seq<int>)
    ensures q.Where(first).Where(second).Matching() == Keep(q.Where(second).Matching(), Asks(first))
  {
    var once, again := q.filters + [second], q.filters + [first] + [second];
    forall n
      ensures Passes(n, again) <==> Passes(n, once) && n.id in first
    {
      PassesMore(n, q.filters + [first], second);
      PassesMore(n, q.filters, first);
      PassesMore(n, q.filters, second);
    }
    KeepTwice(q.visible, PassesBy(once), Asks(first), PassesBy(again));
  }

  lemma SameMembership(a: seq<Entity>, b: seq<Entity>, keys: seq<int>)
    requires UniqueIds(a) && SameLookups(b, a, keys) && forall n :: n in a ==> n.id in keys
    ensures forall n :: n in a ==> n in b
  {
    forall n | n in a
      ensures n in b
    {
      LookupUnique(a, n);
    }
  }

  lemma AgainPages(rows: seq<Entity>, first: seq<int>, second: seq<int>, offset: nat, limit: nat)
    requires UniqueIds(rows) && forall n :: n in rows ==> n.id in second
    ensures SameLookups(Page(Keep(rows, Asks(first)), offset, limit), Page(rows, offset, limit), second) <==>
      Covers(rows, Asks(first), offset, limit)
  {
    var page, again := Page(rows, offset, limit), Page(Keep(rows, Asks(first)), offset, limit);
    UniqueIsDistinct(rows);
    FilterExact(rows, Asks(first), offset, limit);
    if Covers(rows, Asks(first), offset, limit) {
      CoversSame(rows, Asks(first), offset, limit);
    }
    if SameLookups(again, page, second) {
      PageMembers(rows, offset, limit);
      PageUnique(rows, offset, limit);
      SameMembership(page, again, second);
    }
  }

  /** A second run of a builder gives the keys of its rows what a fresh builder gives exactly if
      the first run asked for every row up to the end of the page. */
  lemma AgainExact(q: EdgeQuery, first: seq<int>, second: seq<int>)
    requires UniqueIds(q.visible)
    ensures SameLookups(q.Where(first).Where(second).All(), q.Where(second).All(), second) <==> Covered(q, first, second)
  {
    AgainMatching(q, first, second);
    BatchRows(q, second);
    AgainPages(q.Where(second).Matching(), first, second, q.offset, q.limit);
  }
}
