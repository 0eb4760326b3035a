/** What scanning has in common for all entities (ent/gen/ent): the columns a query selects, the
    cells of a row, and the loop of assignValues over one switch. */
module Scanning {
  import opened Wrappers

  /** The selected fields besides the id, which is always selected first. */
  function Without<C(==)>(fields: seq<C>, id: C): seq<C> {
    if fields == [] then []
    else (if fields[0] == id then [] else [fields[0]]) + Without(fields[1..], id)
  }

  lemma {:induction false} WithoutMembers<C>(fields: seq<C>, id: C)
    ensures forall c :: c in Without(fields, id) <==> c in fields && c != id
  {
    if fields != [] {
      WithoutMembers(fields[1..], id);
      assert fields == [fields[0]] + fields[1..];
    }
  }

  /** The values of a row for some columns. */
  function Cells<C, S>(row: C -> S, columns: seq<C>): (r: seq<S>)
    ensures |r| == |columns| && forall i :: 0 <= i < |r| ==> r[i] == row(columns[i])
  {
    if columns == [] then [] else [row(columns[0])] + Cells(row, columns[1..])
  }

  /** The first n columns assigned in order, stopping at the first error. */
  function Fold<F, C, S, E>(step: (F, C, S) -> Result<F, E>, f: F, columns: seq<C>, values: seq<S>, n: nat): Result<F, E>
    requires n <= |columns| <= |values|
  {
    if n == 0 then Ok(f) else
    match Fold(step, f, columns, values, n - 1)
    case Ok(g) => step(g, columns[n - 1], values[n - 1])
    case Err(e) => Err(e)
  }

  lemma {:induction false} FoldStops<F, C, S, E>(step: (F, C, S) -> Result<F, E>, f: F, columns: seq<C>, values: seq<S>,
                                                 k: nat, n: nat)
    requires k <= n <= |columns| <= |values| && Fold(step, f, columns, values, k).Err?
    ensures Fold(step, f, columns, values, n) == Fold(step, f, columns, values, k)
    decreases n
  {
    if k < n {
      FoldStops(step, f, columns, values, k, n - 1);
    }
  }

  /** The position just after the last occurrence of a column among the first n, 0 if none. */
  function LastAt<C(==)>(columns: seq<C>, c: C, n: nat): (k: nat)
    requires n <= |columns|
    ensures k <= n && (k > 0 ==> columns[k - 1] == c) && forall j :: k <= j < n ==> columns[j] != c
  {
    if n == 0 then 0 else if columns[n - 1] == c then n else LastAt(columns, c, n - 1)
  }

  /** The last non-null value of a column among the first n, if any. */
  function LastPresent<C(==), S>(columns: seq<C>, values: seq<S>, c: C, present: S -> bool, n: nat): Option<S>
    requires n <= |columns| <= |values|
  {
    if n == 0 then None
    else if columns[n - 1] == c && present(values[n - 1]) then Some(values[n - 1])
    else LastPresent(columns, values, c, present, n - 1)
  }

  /** In the cells of a row a selected column has the row's value, as often as it is selected. */
  lemma {:induction false} LastCell<C, S>(row: C -> S, columns: seq<C>, c: C, present: S -> bool, n: nat)
    requires n <= |columns|
    ensures LastPresent(columns, Cells(row, columns), c, present, n) ==
      if c in columns[..n] && present(row(c)) then Some(row(c)) else None
    decreases n
  {
    if n > 0 {
      LastCell(row, columns, c, present, n - 1);
      TakeNext(columns, n - 1);
    }
  }
}
