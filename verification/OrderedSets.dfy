/** Sets that remember the order in which their members were first added, as the JavaScript
    Set does; kept here as sequences without duplicates. */
module OrderedSets {

  function Add<T(==)>(s: seq<T>, x: T): seq<T> {
    if x in s then s else s + [x]
  }

  function AddAll<T(==)>(s: seq<T>, xs: seq<T>): seq<T>
    decreases |xs|
  {
    if xs == [] then s else AddAll(Add(s, xs[0]), xs[1..])
  }

  /** The loop that adds the members one by one. */
  method AddEach(s: seq<string>, xs: seq<string>) returns (r: seq<string>)
    ensures r == AddAll(s, xs)
  {
    r := s;
    for i := 0 to |xs|
      invariant AddAll(s, xs) == AddAll(r, xs[i..])
    {
      r := Add(r, xs[i]);
    }
  }

  function Dedup<T(==)>(xs: seq<T>): seq<T> {
    AddAll([], xs)
  }

  ghost predicate Distinct<T>(s: seq<T>) {
    forall i, j :: 0 <= i < j < |s| ==> s[i] != s[j]
  }

  function FirstIndex<T(==)>(xs: seq<T>, x: T): (i: nat)
    requires x in xs
    ensures i < |xs| && xs[i] == x && x !in xs[..i]
  {
    if xs[0] == x then 0 else
    var i := FirstIndex(xs[1..], x);
    assert xs[..i + 1] == [xs[0]] + xs[1..][..i];
    i + 1
  }

  lemma {:induction false} AddAllConcat<T>(s: seq<T>, xs: seq<T>, ys: seq<T>)
    ensures AddAll(s, xs + ys) == AddAll(AddAll(s, xs), ys)
    decreases |xs|
  {
    if xs == [] {
      assert xs + ys == ys;
    } else {
      assert (xs + ys)[1..] == xs[1..] + ys;
      AddAllConcat(Add(s, xs[0]), xs[1..], ys);
    }
  }

  lemma {:induction false} AddAllMembers<T>(s: seq<T>, xs: seq<T>)
    ensures forall x :: x in AddAll(s, xs) <==> x in s || x in xs
    ensures Distinct(s) ==> Distinct(AddAll(s, xs))
    ensures s <= AddAll(s, xs)
    decreases |xs|
  {
    if xs != [] {
      AddAllMembers(Add(s, xs[0]), xs[1..]);
      assert xs == [xs[0]] + xs[1..];
    }
  }

  /** The members of d occur in xs, in this order of first occurrence. */
  ghost predicate InFirstOrder<T>(d: seq<T>, xs: seq<T>) {
    && (forall i :: 0 <= i < |d| ==> d[i] in xs)
    && (forall i, j :: 0 <= i < j < |d| ==> FirstIndex(xs, d[i]) < FirstIndex(xs, d[j]))
  }

  lemma FirstOrderNext<T>(d: seq<T>, xs: seq<T>, y: T)
    requires InFirstOrder(d, xs) && forall x :: x in d <==> x in xs
    ensures InFirstOrder(Add(d, y), xs + [y])
  {
    var d', xs' := Add(d, y), xs + [y];
    forall i | 0 <= i < |d|
      ensures d[i] in xs' && FirstIndex(xs', d[i]) == FirstIndex(xs, d[i])
    {
      assert xs'[..|xs|] == xs;
      FirstIndexLonger(xs, y, d[i]);
    }
    if y !in d {
      FirstIndexUnique(xs', y, |xs|);
    }
  }

  lemma FirstIndexLonger<T>(xs: seq<T>, y: T, x: T)
    requires x in xs
    ensures x in xs + [y] && FirstIndex(xs + [y], x) == FirstIndex(xs, x)
  {
    var i := FirstIndex(xs, x);
    assert (xs + [y])[i] == x && (xs + [y])[..i] == xs[..i];
    FirstIndexUnique(xs + [y], x, i);
  }

  /** Dedup keeps each member once, in the order of first occurrence. */
  lemma {:induction false} DedupOrder<T>(xs: seq<T>)
    ensures Distinct(Dedup(xs)) && InFirstOrder(Dedup(xs), xs)
    ensures forall x :: x in Dedup(xs) <==> x in xs
    decreases |xs|
  {
    AddAllMembers<T>([], xs);
    if xs != [] {
      var init, last := xs[..|xs| - 1], xs[|xs| - 1];
      assert xs == init + [last];
      AddAllConcat<T>([], init, [last]);
      assert Dedup(xs) == Add(Dedup(init), last);
      DedupOrder(init);
      FirstOrderNext(Dedup(init), init, last);
    }
  }

  /** More members come after those that are there, in the order in which they first occur. */
  lemma {:induction false} AddAllOrder<T>(s: seq<T>, xs: seq<T>)
    requires Distinct(s)
    ensures s <= AddAll(s, xs)
    ensures forall i :: |s| <= i < |AddAll(s, xs)| ==> AddAll(s, xs)[i] in xs && AddAll(s, xs)[i] !in s
    ensures forall i, j :: |s| <= i < j < |AddAll(s, xs)| ==>
      AddAll(s, xs)[i] in xs && AddAll(s, xs)[j] in xs &&
      FirstIndex(xs, AddAll(s, xs)[i]) < FirstIndex(xs, AddAll(s, xs)[j])
    decreases |xs|
  {
    AddAllMembers(s, xs);
    if xs != [] {
      var init, last := xs[..|xs| - 1], xs[|xs| - 1];
      assert xs == init + [last];
      AddAllConcat(s, init, [last]);
      assert AddAll(s, xs) == Add(AddAll(s, init), last);
      AddAllOrder(s, init);
      AddAllMembers(s, init);
      AddOrderNext(s, AddAll(s, init), init, last);
    }
  }

  lemma AddOrderNext<T>(s: seq<T>, d: seq<T>, xs: seq<T>, y: T)
    requires s <= d && forall x :: x in d <==> x in s || x in xs
    requires forall i :: |s| <= i < |d| ==> d[i] in xs && d[i] !in s
    requires forall i, j :: |s| <= i < j < |d| ==> FirstIndex(xs, d[i]) < FirstIndex(xs, d[j])
    ensures forall i :: |s| <= i < |Add(d, y)| ==> Add(d, y)[i] in xs + [y] && Add(d, y)[i] !in s
    ensures forall i, j :: |s| <= i < j < |Add(d, y)| ==>
      FirstIndex(xs + [y], Add(d, y)[i]) < FirstIndex(xs + [y], Add(d, y)[j])
  {
    var d', xs' := Add(d, y), xs + [y];
    forall i | |s| <= i < |d'|
      ensures d'[i] in xs' && d'[i] !in s
      ensures FirstIndex(xs', d'[i]) == if i < |d| then FirstIndex(xs, d[i]) else |xs|
    {
      FirstIndexNext(s, d, xs, y, i);
    }
    forall i | |s| <= i < |d|
      ensures FirstIndex(xs, d[i]) < |xs|
    {
    }
  }

  lemma FirstIndexNext<T>(s: seq<T>, d: seq<T>, xs: seq<T>, y: T, i: nat)
    requires s <= d && forall x :: x in d <==> x in s || x in xs
    requires forall i :: |s| <= i < |d| ==> d[i] in xs && d[i] !in s
    requires |s| <= i < |Add(d, y)|
    ensures Add(d, y)[i] in xs + [y] && Add(d, y)[i] !in s
    ensures FirstIndex(xs + [y], Add(d, y)[i]) == if i < |d| then FirstIndex(xs, d[i]) else |xs|
  {
    if i < |d| {
      FirstIndexLonger(xs, y, d[i]);
    } else {
      assert (xs + [y])[..|xs|] == xs && y !in d;
      FirstIndexUnique(xs + [y], y, |xs|);
      assert forall x :: x in s ==> x in d;
    }
  }

  lemma FirstIndexUnique<T>(xs: seq<T>, x: T, i: nat)
    requires i < |xs| && xs[i] == x && x !in xs[..i]
    ensures FirstIndex(xs, x) == i
  {
    var j := FirstIndex(xs, x);
    assert forall k :: 0 <= k < i ==> xs[k] == xs[..i][k];
    assert forall k :: 0 <= k < j ==> xs[k] == xs[..j][k];
  }

  /** A further member, ranked behind all others. */
  lemma RankedNext(n: nat, before: string -> nat, after: string -> nat, members: seq<string>, x: string)
    requires (forall y :: y in members <==> before(y) < n)
    requires forall i, j :: 0 <= i < j < |members| ==> before(members[i]) < before(members[j])
    requires forall y :: after(y) == if y in members then before(y) else if y == x then n else n + 1
    ensures forall y :: y in Add(members, x) <==> after(y) < n + 1
    ensures forall i, j :: 0 <= i < j < |Add(members, x)| ==> after(Add(members, x)[i]) < after(Add(members, x)[j])
  {
  }
}
