/** Pages of query results (ent/gen/ent, querySpec): offset and limit on a list of rows, and what a
    further filter in front of them does to the page. */
module Pages {
  import opened OrderedSets
  import opened Wrappers

  /** Offset and limit of a query; 0, the zero value of the spec's fields, stands for none. */
  function Page<T>(rows: seq<T>, offset: nat, limit: nat): seq<T> {
    var rest := if offset <= |rows| then rows[offset..] else [];
    if 0 < limit < |rest| then rest[..limit] else rest
  }

  lemma PageMembers<T>(rows: seq<T>, offset: nat, limit: nat)
    ensures forall x :: x in Page(rows, offset, limit) ==> x in rows
    ensures Page(rows, offset, limit) == [] <==> |rows| <= offset
  {
  }

  /** The page is the stretch of rows from the offset on, to the end or until it is full. */
  lemma PageExact<T>(rows: seq<T>, offset: nat, limit: nat)
    ensures
      var page := Page(rows, offset, limit);
      && (page == [] || (offset + |page| <= |rows| && page == rows[offset..offset + |page|]))
      && (limit == 0 || |page| <= limit)
      && (offset + |page| >= |rows| || (limit > 0 && |page| == limit))
  {
  }

  /** Where the page of a result ends. */
  function PageEnd<T>(rows: seq<T>, offset: nat, limit: nat): nat {
    if limit == 0 || offset + limit >= |rows| then |rows| else offset + limit
  }

  lemma PageOfLonger<T>(a: seq<T>, b: seq<T>, offset: nat, limit: nat)
    requires offset < |a| && (b == [] || (limit > 0 && |a| == offset + limit))
    requires limit > 0 ==> |a| <= offset + limit
    ensures Page(a + b, offset, limit) == a[offset..]
  {
    assert (a + b)[offset..] == a[offset..] + b;
  }

  lemma OnPage<T>(rows: seq<T>, offset: nat, limit: nat, n: T) returns (i: nat)
    requires n in Page(rows, offset, limit)
    ensures offset <= i < |rows| && rows[i] == n
  {
    var page := Page(rows, offset, limit);
    var j :| 0 <= j < |page| && page[j] == n;
    i := offset + j;
  }

  // ---------------------------------------------------------------- filtering

  /** The rows a predicate lets through, in order. */
  function Keep<T>(rows: seq<T>, p: T -> bool): seq<T> {
    if rows == [] then []
    else Keep(rows[..|rows| - 1], p) + if p(rows[|rows| - 1]) then [rows[|rows| - 1]] else []
  }

  lemma {:induction false} KeepMembers<T>(rows: seq<T>, p: T -> bool)
    ensures forall x :: x in Keep(rows, p) <==> x in rows && p(x)
    decreases |rows|
  {
    if rows != [] {
      KeepMembers(rows[..|rows| - 1], p);
      assert rows == rows[..|rows| - 1] + [rows[|rows| - 1]];
    }
  }

  lemma {:induction false} KeepAgree<T>(rows: seq<T>, p: T -> bool, q: T -> bool)
    requires forall x :: x in rows ==> (p(x) <==> q(x))
    ensures Keep(rows, p) == Keep(rows, q)
    decreases |rows|
  {
    if rows != [] {
      assert rows[|rows| - 1] in rows && forall x :: x in rows[..|rows| - 1] ==> x in rows;
      KeepAgree(rows[..|rows| - 1], p, q);
    }
  }

  /** Two filters one after the other are both at once. */
  lemma {:induction false} KeepTwice<T>(rows: seq<T>, p: T -> bool, q: T -> bool, both: T -> bool)
    requires forall x :: x in rows ==> (both(x) <==> p(x) && q(x))
    ensures Keep(rows, both) == Keep(Keep(rows, p), q)
    decreases |rows|
  {
    if rows != [] {
      var init, last := rows[..|rows| - 1], rows[|rows| - 1];
      assert last in rows && forall x :: x in init ==> x in rows;
      KeepTwice(init, p, q, both);
      if p(last) {
        assert (Keep(init, p) + [last])[..|Keep(init, p)|] == Keep(init, p);
      } else {
        assert Keep(init, p) + [] == Keep(init, p);
      }
    }
  }

  lemma {:induction false} KeepConcat<T>(a: seq<T>, b: seq<T>, p: T -> bool)
    ensures Keep(a + b, p) == Keep(a, p) + Keep(b, p)
    decreases |b|
  {
    if b == [] {
      assert a + b == a;
    } else {
      assert (a + b)[..|a + b| - 1] == a + b[..|b| - 1];
      KeepConcat(a, b[..|b| - 1], p);
    }
  }

  lemma KeepCons<T>(x: T, rest: seq<T>, p: T -> bool)
    ensures Keep([x] + rest, p) == (if p(x) then [x] else []) + Keep(rest, p)
  {
    KeepConcat([x], rest, p);
    assert [x][..0] == [];
  }

  lemma {:induction false} KeepSize<T>(rows: seq<T>, p: T -> bool)
    ensures |Keep(rows, p)| <= |rows|
    ensures |Keep(rows, p)| == |rows| ==> forall i :: 0 <= i < |rows| ==> p(rows[i])
    decreases |rows|
  {
    if rows != [] {
      KeepSize(rows[..|rows| - 1], p);
    }
  }

  lemma {:induction false} KeepAll<T>(rows: seq<T>, p: T -> bool)
    requires forall i :: 0 <= i < |rows| ==> p(rows[i])
    ensures Keep(rows, p) == rows
    decreases |rows|
  {
    if rows != [] {
      KeepAll(rows[..|rows| - 1], p);
      assert rows == rows[..|rows| - 1] + [rows[|rows| - 1]];
    }
  }

  lemma {:induction false} KeepDistinct<T>(rows: seq<T>, p: T -> bool)
    requires Distinct(rows)
    ensures Distinct(Keep(rows, p))
    decreases |rows|
  {
    if rows != [] {
      var init, last := rows[..|rows| - 1], rows[|rows| - 1];
      KeepDistinct(init, p);
      KeepMembers(init, p);
      LastApart(rows);
      assert last !in Keep(init, p);
    }
  }

  lemma LastApart<T>(rows: seq<T>)
    requires Distinct(rows) && rows != []
    ensures rows[|rows| - 1] !in rows[..|rows| - 1]
  {
  }

  /** Where a kept row stands in the filtered result. */
  lemma KeptAt<T>(rows: seq<T>, p: T -> bool, k: nat)
    requires k < |rows| && p(rows[k])
    ensures
      var front := Keep(rows[..k], p);
      |front| < |Keep(rows, p)| && Keep(rows, p)[|front|] == rows[k]
  {
    TakeNext(rows, k);
    assert rows == rows[..k + 1] + rows[k + 1..];
    KeepConcat(rows[..k + 1], rows[k + 1..], p);
    KeepConcat(rows[..k], [rows[k]], p);
    assert Keep([rows[k]], p) == [rows[k]] by { assert [rows[k]][..0] == []; }
  }

  // ---------------------------------------------------------------- a filter before the page

  /** The filter keeps every row up to the end of the page. */
  ghost predicate Covers<T>(rows: seq<T>, p: T -> bool, offset: nat, limit: nat) {
    |rows| <= offset || forall i :: 0 <= i < PageEnd(rows, offset, limit) ==> p(rows[i])
  }

  lemma CoversSame<T>(rows: seq<T>, p: T -> bool, offset: nat, limit: nat)
    requires Covers(rows, p, offset, limit)
    ensures Page(Keep(rows, p), offset, limit) == Page(rows, offset, limit)
  {
    if |rows| <= offset {
      KeepSize(rows, p);
    } else {
      var e := PageEnd(rows, offset, limit);
      var a, b := rows[..e], rows[e..];
      assert rows == a + b;
      KeepConcat(a, b, p);
      KeepAll(a, p);
      PageOfLonger(a, b, offset, limit);
      PageOfLonger(a, Keep(b, p), offset, limit);
    }
  }

  lemma DistinctAt<T>(rows: seq<T>, i: nat, j: nat)
    requires Distinct(rows) && i < |rows| && j < |rows| && rows[i] == rows[j]
    ensures i == j
  {
    assert !(i < j) && !(j < i);
  }

  /** The first row of the page, still on the page after filtering: no row before it was dropped. */
  lemma PrefixKept<T>(rows: seq<T>, p: T -> bool, offset: nat, limit: nat)
    requires Distinct(rows) && offset < |rows| && rows[offset] in Page(Keep(rows, p), offset, limit)
    ensures forall i :: 0 <= i < offset ==> p(rows[i])
  {
    var kept, front := Keep(rows, p), Keep(rows[..offset], p);
    var j := OnPage(kept, offset, limit, rows[offset]);
    KeepMembers(rows, p);
    KeepDistinct(rows, p);
    assert rows[offset] in kept;
    KeptAt(rows, p, offset);
    DistinctAt(kept, |front|, j);
    KeepSize(rows[..offset], p);
    assert forall i :: 0 <= i < offset ==> rows[..offset][i] == rows[i];
  }

  lemma StillCovers<T>(rows: seq<T>, p: T -> bool, offset: nat, limit: nat)
    requires Distinct(rows)
    requires forall x :: x in Page(rows, offset, limit) ==> x in Page(Keep(rows, p), offset, limit)
    ensures Covers(rows, p, offset, limit)
  {
    if |rows| > offset {
      var page := Page(rows, offset, limit);
      assert page[0] == rows[offset] && page[0] in page;
      PrefixKept(rows, p, offset, limit);
      PageMembers(Keep(rows, p), offset, limit);
      KeepMembers(rows, p);
      forall i | offset <= i < PageEnd(rows, offset, limit)
        ensures p(rows[i])
      {
        assert page[i - offset] == rows[i] && rows[i] in page;
      }
    }
  }

  /** A filter before the page takes no row off it exactly if it keeps every row up to its end. */
  lemma FilterExact<T>(rows: seq<T>, p: T -> bool, offset: nat, limit: nat)
    requires Distinct(rows)
    ensures (forall x :: x in Page(rows, offset, limit) ==> x in Page(Keep(rows, p), offset, limit)) <==>
      Covers(rows, p, offset, limit)
  {
    if Covers(rows, p, offset, limit) {
      CoversSame(rows, p, offset, limit);
    }
    if forall x :: x in Page(rows, offset, limit) ==> x in Page(Keep(rows, p), offset, limit) {
      StillCovers(rows, p, offset, limit);
    }
  }
}
