/** Child rows of several parents under an offset and a limit
    (ent/gen/ent/actionsummary_query.go): when one batched page splits into the pages that each
    parent's own query would give. */
module ChildPages {
  import opened Wrappers
  import opened Pages

  /** A scanned child: the foreign key is only there when the query asked for it. */
  datatype Child = Child(id: int, fk: Option<int>, data: string)

  /** The children with one foreign key, in query order. */
  function ChildrenOf(children: seq<Child>, fk: int): seq<Child> {
    if children == [] then []
    else
      var init, last := children[..|children| - 1], children[|children| - 1];
      ChildrenOf(init, fk) + if last.fk == Some(fk) then [last] else []
  }

  ghost predicate UniqueChildren(rows: seq<Child>) {
    forall i, j :: 0 <= i < j < |rows| ==> rows[i].id != rows[j].id
  }

  ghost predicate KeysIn(rows: seq<Child>, ids: seq<int>) {
    forall i :: 0 <= i < |rows| ==> rows[i].fk.Some? && rows[i].fk.value in ids
  }

  lemma {:induction false} ChildrenConcat(a: seq<Child>, b: seq<Child>, id: int)
    ensures ChildrenOf(a + b, id) == ChildrenOf(a, id) + ChildrenOf(b, id)
    decreases |b|
  {
    if b == [] {
      assert a + b == a;
    } else {
      assert (a + b)[..|a + b| - 1] == a + b[..|b| - 1];
      ChildrenConcat(a, b[..|b| - 1], id);
    }
  }

  lemma {:induction false} ChildrenMembers(rows: seq<Child>, id: int)
    ensures forall c :: c in ChildrenOf(rows, id) <==> c in rows && c.fk == Some(id)
    decreases |rows|
  {
    if rows != [] {
      var init, last := rows[..|rows| - 1], rows[|rows| - 1];
      ChildrenMembers(init, id);
      assert rows == init + [last];
    }
  }

  lemma {:induction false} ChildrenSize(rows: seq<Child>, id: int)
    ensures |ChildrenOf(rows, id)| <= |rows|
    ensures |ChildrenOf(rows, id)| == |rows| ==> forall i :: 0 <= i < |rows| ==> rows[i].fk == Some(id)
    decreases |rows|
  {
    if rows != [] {
      ChildrenSize(rows[..|rows| - 1], id);
    }
  }

  lemma {:induction false} AllChildren(rows: seq<Child>, id: int)
    requires forall i :: 0 <= i < |rows| ==> rows[i].fk == Some(id)
    ensures ChildrenOf(rows, id) == rows
    decreases |rows|
  {
    if rows != [] {
      AllChildren(rows[..|rows| - 1], id);
      assert rows == rows[..|rows| - 1] + [rows[|rows| - 1]];
    }
  }

  lemma {:induction false} ChildrenUnique(rows: seq<Child>, id: int)
    requires UniqueChildren(rows)
    ensures UniqueChildren(ChildrenOf(rows, id))
    decreases |rows|
  {
    if rows != [] {
      var init, last := rows[..|rows| - 1], rows[|rows| - 1];
      var kept := ChildrenOf(init, id);
      ChildrenUnique(init, id);
      ChildrenMembers(init, id);
      forall i | 0 <= i < |kept|
        ensures kept[i].id != last.id
      {
        assert kept[i] in kept;
        var j :| 0 <= j < |init| && init[j] == kept[i];
        assert rows[j] == kept[i];
      }
    }
  }

  lemma OneChild(c: Child, id: int)
    ensures ChildrenOf([c], id) == if c.fk == Some(id) then [c] else []
  {
    assert [c][..0] == [];
  }

  /** Where a child stands in its parent's list. */
  lemma ChildAt(rows: seq<Child>, k: nat, id: int)
    requires k < |rows| && rows[k].fk == Some(id)
    ensures
      var front := ChildrenOf(rows[..k], id);
      |front| < |ChildrenOf(rows, id)| && ChildrenOf(rows, id)[|front|] == rows[k]
  {
    assert rows == rows[..k] + ([rows[k]] + rows[k + 1..]);
    ChildrenConcat(rows[..k], [rows[k]] + rows[k + 1..], id);
    ChildrenConcat([rows[k]], rows[k + 1..], id);
    OneChild(rows[k], id);
  }

  // ---------------------------------------------------------------- splitting a page

  /** The parent's share of the batched page is the page of its own children. */
  ghost predicate SplitsAt(rows: seq<Child>, offset: nat, limit: nat, id: int) {
    ChildrenOf(Page(rows, offset, limit), id) == Page(ChildrenOf(rows, id), offset, limit)
  }

  ghost predicate Splits(rows: seq<Child>, ids: seq<int>, offset: nat, limit: nat) {
    forall id :: id in ids ==> SplitsAt(rows, offset, limit, id)
  }

  /** Up to the end of the page there are children of one parent only, and no other parent has more
      children than the offset hides. */
  ghost predicate OneParent(rows: seq<Child>, ids: seq<int>, offset: nat, limit: nat, a: int) {
    && (forall i :: 0 <= i < PageEnd(rows, offset, limit) ==> rows[i].fk == Some(a))
    && (forall b :: b in ids && b != a ==> |ChildrenOf(rows, b)| <= offset)
  }

  /** The page holds all rows, or none, or those of a single parent. */
  ghost predicate FitsParents(rows: seq<Child>, ids: seq<int>, offset: nat, limit: nat) {
    || |rows| <= offset
    || (offset == 0 && (limit == 0 || |rows| <= limit))
    || exists a :: OneParent(rows, ids, offset, limit, a)
  }

  /** A list that starts with a parent's rows up to the end of the page splits for that parent. */
  lemma FrontSplits(front: seq<Child>, back: seq<Child>, offset: nat, limit: nat, a: int)
    requires offset < |front| && (back == [] || (limit > 0 && |front| == offset + limit))
    requires limit > 0 ==> |front| <= offset + limit
    requires forall i :: 0 <= i < |front| ==> front[i].fk == Some(a)
    ensures SplitsAt(front + back, offset, limit, a)
  {
    PageOfLonger(front, back, offset, limit);
    PageOfLonger(front, ChildrenOf(back, a), offset, limit);
    ChildrenConcat(front, back, a);
    AllChildren(front, a);
    AllChildren(front[offset..], a);
  }

  lemma OneParentSplits(rows: seq<Child>, ids: seq<int>, offset: nat, limit: nat, a: int, id: int)
    requires |rows| > offset && OneParent(rows, ids, offset, limit, a) && id in ids
    ensures SplitsAt(rows, offset, limit, id)
  {
    var e := PageEnd(rows, offset, limit);
    var front, back := rows[..e], rows[e..];
    assert rows == front + back;
    if id == a {
      FrontSplits(front, back, offset, limit, a);
    } else {
      PageOfLonger(front, back, offset, limit);
      NoneOf(front[offset..], a, id);
    }
  }

  lemma {:induction false} NoneOf(rows: seq<Child>, a: int, id: int)
    requires id != a && forall i :: 0 <= i < |rows| ==> rows[i].fk == Some(a)
    ensures ChildrenOf(rows, id) == []
    decreases |rows|
  {
    if rows != [] {
      NoneOf(rows[..|rows| - 1], a, id);
    }
  }

  lemma FitsSplits(rows: seq<Child>, ids: seq<int>, offset: nat, limit: nat)
    requires FitsParents(rows, ids, offset, limit)
    ensures Splits(rows, ids, offset, limit)
  {
    forall id | id in ids
      ensures SplitsAt(rows, offset, limit, id)
    {
      ChildrenSize(rows, id);
      if |rows| <= offset {
        assert ChildrenOf([], id) == [];
      } else if offset == 0 && (limit == 0 || |rows| <= limit) {
        assert rows[0..] == rows && ChildrenOf(rows, id)[0..] == ChildrenOf(rows, id);
      } else {
        var a :| OneParent(rows, ids, offset, limit, a);
        OneParentSplits(rows, ids, offset, limit, a, id);
      }
    }
  }

  /** Without an offset: the first row behind the page belongs to the parent that fills it. */
  lemma LimitedOneParent(rows: seq<Child>, ids: seq<int>, limit: nat)
    requires KeysIn(rows, ids) && 0 < limit < |rows| && Splits(rows, ids, 0, limit)
    ensures OneParent(rows, ids, 0, limit, rows[limit].fk.value)
  {
    var a := rows[limit].fk.value;
    var front := rows[..limit];
    assert Page(rows, 0, limit) == front;
    ChildAt(rows, limit, a);
    ChildrenSize(front, a);
    assert SplitsAt(rows, 0, limit, a);
    assert |ChildrenOf(front, a)| == limit;
    forall i | 0 <= i < limit
      ensures rows[i].fk == Some(a)
    {
      assert front[i] == rows[i];
    }
    forall b | b in ids && b != a
      ensures |ChildrenOf(rows, b)| <= 0
    {
      NoneOf(front, a, b);
      assert SplitsAt(rows, 0, limit, b);
    }
  }

  lemma UniqueAt(rows: seq<Child>, i: nat, j: nat)
    requires UniqueChildren(rows) && i < |rows| && j < |rows| && rows[i] == rows[j]
    ensures i == j
  {
    assert !(i < j) && !(j < i);
  }

  /** With an offset: the rows it hides belong to the parent of the first row of the page. */
  lemma HiddenOneParent(rows: seq<Child>, offset: nat, limit: nat, a: int)
    requires UniqueChildren(rows) && offset < |rows| && rows[offset].fk == Some(a)
    requires SplitsAt(rows, offset, limit, a)
    ensures forall i :: 0 <= i < offset ==> rows[i].fk == Some(a)
  {
    var page, own, front := Page(rows, offset, limit), ChildrenOf(rows, a), ChildrenOf(rows[..offset], a);
    assert page[0] == rows[offset] && page[0] in page;
    ChildrenMembers(page, a);
    var j := OnPage(own, offset, limit, rows[offset]);
    ChildAt(rows, offset, a);
    ChildrenUnique(rows, a);
    UniqueAt(own, |front|, j);
    ChildrenSize(rows[..offset], a);
    assert forall i :: 0 <= i < offset ==> rows[..offset][i] == rows[i];
  }

  lemma PageSplitsRest(rows: seq<Child>, offset: nat, limit: nat, id: int)
    requires offset < |rows|
    ensures
      var page := Page(rows, offset, limit);
      ChildrenOf(page, id) <= ChildrenOf(rows[offset..], id)
  {
    var page := Page(rows, offset, limit);
    assert rows[offset..] == page + rows[offset..][|page|..];
    ChildrenConcat(page, rows[offset..][|page|..], id);
  }

  /** Another parent has no child on the page and not more than the offset hides. */
  lemma OtherParents(rows: seq<Child>, offset: nat, limit: nat, a: int, b: int)
    requires UniqueChildren(rows) && 0 < offset < |rows| && b != a
    requires forall i :: 0 <= i < offset ==> rows[i].fk == Some(a)
    requires SplitsAt(rows, offset, limit, b)
    ensures |ChildrenOf(rows, b)| <= offset && ChildrenOf(Page(rows, offset, limit), b) == []
  {
    var own, part := ChildrenOf(rows, b), ChildrenOf(Page(rows, offset, limit), b);
    assert rows == rows[..offset] + rows[offset..];
    ChildrenConcat(rows[..offset], rows[offset..], b);
    NoneOf(rows[..offset], a, b);
    PageSplitsRest(rows, offset, limit, b);
    ChildrenUnique(rows, b);
    HeadsMeet(own, part, offset, limit);
  }

  /** A page behind an offset that starts like the whole list is empty. */
  lemma HeadsMeet(own: seq<Child>, part: seq<Child>, offset: nat, limit: nat)
    requires UniqueChildren(own) && part <= own && part == Page(own, offset, limit) && offset > 0
    ensures |own| <= offset && part == []
  {
    PageMembers(own, offset, limit);
    if |own| > offset {
      UniqueAt(own, 0, offset);
    }
  }

  lemma SplitsOneParent(rows: seq<Child>, ids: seq<int>, offset: nat, limit: nat)
    requires KeysIn(rows, ids) && UniqueChildren(rows) && 0 < offset < |rows| && Splits(rows, ids, offset, limit)
    ensures OneParent(rows, ids, offset, limit, rows[offset].fk.value)
  {
    var a, page := rows[offset].fk.value, Page(rows, offset, limit);
    assert SplitsAt(rows, offset, limit, a);
    HiddenOneParent(rows, offset, limit, a);
    forall b | b in ids && b != a
      ensures |ChildrenOf(rows, b)| <= offset && ChildrenOf(page, b) == []
    {
      assert SplitsAt(rows, offset, limit, b);
      OtherParents(rows, offset, limit, a, b);
    }
    forall i | offset <= i < PageEnd(rows, offset, limit)
      ensures rows[i].fk == Some(a)
    {
      assert page[i - offset] == rows[i] && rows[i] in page;
      ChildrenMembers(page, rows[i].fk.value);
    }
  }

  /** One batched page splits into the parents' own pages exactly if it fits: it holds all rows, or
      none, or up to its end the children of a single parent. */
  lemma SplitExact(rows: seq<Child>, ids: seq<int>, offset: nat, limit: nat)
    requires KeysIn(rows, ids) && UniqueChildren(rows)
    ensures Splits(rows, ids, offset, limit) <==> FitsParents(rows, ids, offset, limit)
  {
    if FitsParents(rows, ids, offset, limit) {
      FitsSplits(rows, ids, offset, limit);
    }
    if Splits(rows, ids, offset, limit) && |rows| > offset {
      if offset > 0 {
        SplitsOneParent(rows, ids, offset, limit);
      } else if 0 < limit < |rows| {
        LimitedOneParent(rows, ids, limit);
      }
    }
  }

  /** Two parents with a child each and a limit of one: the second parent's list stays empty. */
  lemma LimitLosesChild() returns (rows: seq<Child>)
    ensures KeysIn(rows, [1, 2]) && UniqueChildren(rows) && !Splits(rows, [1, 2], 0, 1)
  {
    rows := [Child(10, Some(1), "a"), Child(11, Some(2), "b")];
    SplitExact(rows, [1, 2], 0, 1);
    forall a
      ensures !OneParent(rows, [1, 2], 0, 1, a)
    {
      ChildAt(rows, 1, 2);
      assert 2 in [1, 2] && rows[0].fk == Some(1);
    }
  }
}
