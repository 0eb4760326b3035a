/** Scanning ActionSummary rows (ent/gen/ent/actionsummary.go, scanValues and assignValues;
    ent/gen/ent/actionsummary_query.go, querySpec and the foreign keys sqlAll adds). The key of the
    metrics edge is a hidden, nullable field. */
module SummaryScan {
  import opened Wrappers
  import opened Scanning

  datatype Column =
    | Id | ActionsCreated | ActionsCreatedNotIncludingAspects | ActionsExecuted | RemoteCacheHits
    | MetricsKey | Other(name: string)

  datatype Slot = IntSlot(num: Option<int>) | UnknownSlot(raw: Option<string>)

  datatype ScanError = Mismatch | UnexpectedType(column: Column)

  datatype Fields = Fields(
    id: int, created: int, createdNoAspects: int, executed: int, cacheHits: int,
    metricsFk: Option<int>, selectValues: map<Column, Slot>)

  const ZERO := Fields(0, 0, 0, 0, 0, None, map[])

  const ALL_COLUMNS: seq<Column> :=
    [Id, ActionsCreated, ActionsCreatedNotIncludingAspects, ActionsExecuted, RemoteCacheHits]

  /** The columns of a query: all of them, or the id and the selected fields, and with the foreign
      keys the hidden one. */
  function SpecColumns(fields: seq<Column>, withFKs: bool): seq<Column> {
    (if fields == [] then ALL_COLUMNS else [Id] + Without(fields, Id)) + if withFKs then [MetricsKey] else []
  }

  function NewSlot(c: Column): Slot {
    if c.Other? then UnknownSlot(None) else IntSlot(None)
  }

  method ScanValues(columns: seq<Column>) returns (values: seq<Slot>)
    ensures |values| == |columns| && forall i :: 0 <= i < |columns| ==> values[i] == NewSlot(columns[i])
  {
    values := [];
    for i := 0 to |columns|
      invariant |values| == i && forall j :: 0 <= j < i ==> values[j] == NewSlot(columns[j])
    {
      values := values + [NewSlot(columns[i])];
    }
  }

  /** One case of the switch in assignValues. */
  function Assign(f: Fields, c: Column, v: Slot): Result<Fields, ScanError> {
    if c.Other? then Ok(f.(selectValues := f.selectValues[c := v]))
    else if !v.IntSlot? then Err(UnexpectedType(c))
    else match c
      case Id => Ok(f.(id := v.num.GetOr(0)))
      case ActionsCreated => Ok(f.(created := v.num.GetOr(f.created)))
      case ActionsCreatedNotIncludingAspects => Ok(f.(createdNoAspects := v.num.GetOr(f.createdNoAspects)))
      case ActionsExecuted => Ok(f.(executed := v.num.GetOr(f.executed)))
      case RemoteCacheHits => Ok(f.(cacheHits := v.num.GetOr(f.cacheHits)))
      case MetricsKey => Ok(if v.num.Some? then f.(metricsFk := v.num) else f)
  }

  function AssignFirst(f: Fields, columns: seq<Column>, values: seq<Slot>, n: nat): Result<Fields, ScanError>
    requires n <= |columns| <= |values|
  {
    Fold(Assign, f, columns, values, n)
  }

  function AssignAll(f: Fields, columns: seq<Column>, values: seq<Slot>): Result<Fields, ScanError> {
    if |values| < |columns| then Err(Mismatch) else AssignFirst(f, columns, values, |columns|)
  }

  /** A row of the action_summaries table: for each column the value the database holds. */
  type Row = Column -> Slot

  ghost predicate ValidRow(row: Row) {
    forall c: Column :: row(c).IntSlot? <==> NewSlot(c).IntSlot?
  }

  /** The hidden key as the database holds it. */
  function NullableKey(row: Row): Option<int> {
    if row(MetricsKey).IntSlot? then row(MetricsKey).num else None
  }

  function RowId(row: Row): int {
    if row(Id).IntSlot? then row(Id).num.GetOr(0) else 0
  }

  /** assignValues writes field by field and stops at the first error. */
  method AssignValues(columns: seq<Column>, values: seq<Slot>) returns (r: Result<Fields, ScanError>)
    ensures r == AssignAll(ZERO, columns, values)
  {
    if |values| < |columns| { return Err(Mismatch); }
    var f := ZERO;
    for i := 0 to |columns|
      invariant AssignFirst(ZERO, columns, values, i) == Ok(f)
    {
      var next := Assign(f, columns[i], values[i]);
      if next.Err? {
        FoldStops(Assign, ZERO, columns, values, i + 1, |columns|);
        return Err(next.error);
      }
      f := next.value;
    }
    r := Ok(f);
  }

  // ---------------------------------------------------------------- what the fields end with

  /** The driver fills the allocated slots without changing their kind. */
  ghost predicate Filled(columns: seq<Column>, values: seq<Slot>) {
    |values| == |columns| && forall i :: 0 <= i < |columns| ==> (values[i].IntSlot? <==> NewSlot(columns[i]).IntSlot?)
  }

  /** What scanValues allocated is always accepted, duplicate and unknown columns included. */
  lemma {:induction false} AcceptsScanned(f: Fields, columns: seq<Column>, values: seq<Slot>, n: nat)
    requires Filled(columns, values) && n <= |columns|
    ensures AssignFirst(f, columns, values, n).Ok?
    decreases n
  {
    if n > 0 {
      AcceptsScanned(f, columns, values, n - 1);
      assert values[n - 1].IntSlot? <==> NewSlot(columns[n - 1]).IntSlot?;
    }
  }

  /** A known column takes a number, an unknown one anything. */
  ghost predicate Assignable(columns: seq<Column>, values: seq<Slot>, k: nat)
    requires |columns| <= |values|
  {
    k < |columns| && (values[k].IntSlot? || columns[k].Other?)
  }

  /** Whatever the driver delivers: the first value of another kind decides the error, ... */
  lemma {:induction false} FirstError(f: Fields, columns: seq<Column>, values: seq<Slot>, n: nat) returns (k: nat)
    requires n <= |columns| <= |values|
    ensures k <= n && forall j :: 0 <= j < k ==> Assignable(columns, values, j)
    ensures AssignFirst(f, columns, values, n).Ok? <==> k == n
    ensures k < n ==> !Assignable(columns, values, k)
    ensures k < n ==> AssignFirst(f, columns, values, n) == Err(UnexpectedType(columns[k]))
    decreases n
  {
    k := 0;
    if n > 0 {
      k := FirstError(f, columns, values, n - 1);
      if k == n - 1 && Assignable(columns, values, k) {
        k := n;
      }
    }
  }

  /** ... after the one for too few values. */
  lemma AssignExact(f: Fields, columns: seq<Column>, values: seq<Slot>)
    ensures AssignAll(f, columns, values) == Err(Mismatch) <==> |values| < |columns|
    ensures AssignAll(f, columns, values).Ok? <==>
      |columns| <= |values| && forall k :: 0 <= k < |columns| ==> Assignable(columns, values, k)
  {
    if |columns| <= |values| {
      var k := FirstError(f, columns, values, |columns|);
    }
  }

  predicate Present(v: Slot) {
    v.IntSlot? ==> v.num.Some?
  }

  /** The last non-null value of a column among the first n, if any. */
  function LastValid(columns: seq<Column>, values: seq<Slot>, c: Column, n: nat): Option<Slot>
    requires n <= |columns| <= |values|
  {
    LastPresent(columns, values, c, Present, n)
  }

  /** A counter, or the hidden key, as the slot a row would hold for it. */
  function Read(f: Fields, c: Column): Slot
    requires !c.Id? && !c.Other?
  {
    match c
    case ActionsCreated => IntSlot(Some(f.created))
    case ActionsCreatedNotIncludingAspects => IntSlot(Some(f.createdNoAspects))
    case ActionsExecuted => IntSlot(Some(f.executed))
    case RemoteCacheHits => IntSlot(Some(f.cacheHits))
    case MetricsKey => IntSlot(f.metricsFk)
  }

  lemma AssignReads(f: Fields, c: Column, v: Slot, d: Column)
    requires !d.Id? && !d.Other? && Assign(f, c, v).Ok?
    ensures Read(Assign(f, c, v).value, d) == if c == d && Present(v) then v else Read(f, d)
  {
  }

  /** Every counter and the hidden key end with their last non-null value, or keep what they had. */
  lemma {:induction false} LastValue(f: Fields, columns: seq<Column>, values: seq<Slot>, n: nat, c: Column)
    requires n <= |columns| <= |values| && AssignFirst(f, columns, values, n).Ok? && !c.Id? && !c.Other?
    ensures
      var last := LastValid(columns, values, c, n);
      Read(AssignFirst(f, columns, values, n).value, c) == if last.Some? then last.value else Read(f, c)
    decreases n
  {
    if n > 0 {
      LastValue(f, columns, values, n - 1, c);
      AssignReads(AssignFirst(f, columns, values, n - 1).value, columns[n - 1], values[n - 1], c);
    }
  }

  lemma AssignRest(f: Fields, c: Column, v: Slot)
    requires Assign(f, c, v).Ok?
    ensures Assign(f, c, v).value.id == if c.Id? && v.IntSlot? then v.num.GetOr(0) else f.id
    ensures Assign(f, c, v).value.selectValues == if c.Other? then f.selectValues[c := v] else f.selectValues
    ensures c.Id? ==> v.IntSlot?
  {
  }

  /** The id is again the exception: its last occurrence counts even when it is null. */
  lemma {:induction false} LastId(f: Fields, columns: seq<Column>, values: seq<Slot>, n: nat)
    requires n <= |columns| <= |values| && AssignFirst(f, columns, values, n).Ok?
    ensures
      var k := LastAt(columns, Id, n);
      AssignFirst(f, columns, values, n).value.id ==
        if k == 0 then f.id else if values[k - 1].IntSlot? then values[k - 1].num.GetOr(0) else 0
    ensures LastAt(columns, Id, n) > 0 ==> values[LastAt(columns, Id, n) - 1].IntSlot?
    decreases n
  {
    if n > 0 {
      LastId(f, columns, values, n - 1);
      AssignRest(AssignFirst(f, columns, values, n - 1).value, columns[n - 1], values[n - 1]);
    }
  }

  /** An unknown column ends in selectValues with its last value; a known one never gets there. */
  lemma {:induction false} SelectedValues(f: Fields, columns: seq<Column>, values: seq<Slot>, n: nat, c: Column)
    requires n <= |columns| <= |values| && AssignFirst(f, columns, values, n).Ok?
    ensures
      var g := AssignFirst(f, columns, values, n).value;
      var k := LastAt(columns, c, n);
      if c.Other? && k > 0 then c in g.selectValues && g.selectValues[c] == values[k - 1]
      else (c in g.selectValues <==> c in f.selectValues) &&
           (c in f.selectValues ==> g.selectValues[c] == f.selectValues[c])
    decreases n
  {
    if n > 0 {
      SelectedValues(f, columns, values, n - 1, c);
      AssignRest(AssignFirst(f, columns, values, n - 1).value, columns[n - 1], values[n - 1]);
    }
  }

  /** Unknown columns change nothing else and never fail. */
  lemma {:induction false} OnlyUnknownColumns(f: Fields, columns: seq<Column>, values: seq<Slot>, n: nat)
    requires n <= |columns| <= |values| && forall i :: 0 <= i < n ==> columns[i].Other?
    ensures AssignFirst(f, columns, values, n).Ok?
    ensures AssignFirst(f, columns, values, n).value.(selectValues := f.selectValues) == f
    decreases n
  {
    if n > 0 {
      OnlyUnknownColumns(f, columns, values, n - 1);
    }
  }

  // ---------------------------------------------------------------- what a scanned row carries

  function Scanned(row: Row, columns: seq<Column>): Result<Fields, ScanError> {
    AssignAll(ZERO, columns, Cells(row, columns))
  }

  lemma ScannedMetrics(row: Row, columns: seq<Column>)
    requires ValidRow(row)
    ensures Scanned(row, columns).Ok?
    ensures Scanned(row, columns).value.metricsFk == if MetricsKey in columns then NullableKey(row) else None
  {
    var values, n := Cells(row, columns), |columns|;
    AcceptsScanned(ZERO, columns, values, n);
    LastValue(ZERO, columns, values, n, MetricsKey);
    LastCell(row, columns, MetricsKey, Present, n);
    assert columns[..n] == columns;
  }

  lemma ScannedId(row: Row, columns: seq<Column>)
    requires Id in columns && Scanned(row, columns).Ok?
    ensures Scanned(row, columns).value.id == RowId(row)
  {
    var k :| 0 <= k < |columns| && columns[k] == Id;
    LastId(ZERO, columns, Cells(row, columns), |columns|);
    assert LastAt(columns, Id, |columns|) > k;
  }

  /** Whatever fields the caller selects, a scanned summary has its id, and its hidden key if the
      foreign keys were added; without them the key is missing unless its column was selected. */
  lemma ScannedKey(row: Row, fields: seq<Column>, withFKs: bool)
    requires ValidRow(row)
    ensures
      var r := Scanned(row, SpecColumns(fields, withFKs));
      && r.Ok? && r.value.id == RowId(row)
      && r.value.metricsFk == if withFKs || MetricsKey in fields then NullableKey(row) else None
  {
    KeyColumn(fields, withFKs);
    IdColumn(fields, withFKs);
    ScannedMetrics(row, SpecColumns(fields, withFKs));
    ScannedId(row, SpecColumns(fields, withFKs));
  }

  lemma IdColumn(fields: seq<Column>, withFKs: bool)
    ensures Id in SpecColumns(fields, withFKs)
  {
    assert SpecColumns(fields, withFKs)[0] == Id;
  }

  lemma KeyColumn(fields: seq<Column>, withFKs: bool)
    ensures MetricsKey in SpecColumns(fields, withFKs) <==> withFKs || MetricsKey in fields
  {
    WithoutMembers(fields, Id);
    var plain := if fields == [] then ALL_COLUMNS else [Id] + Without(fields, Id);
    assert SpecColumns(fields, withFKs) == plain + if withFKs then [MetricsKey] else [];
    assert MetricsKey !in ALL_COLUMNS;
  }

  function NumAt(row: Row, c: Column): int {
    if row(c).IntSlot? then row(c).num.GetOr(0) else 0
  }

  /** The entity's field for the column holds the row's value: a NULL counter as 0, a NULL key as
      no key. */
  ghost predicate Carries(f: Fields, row: Row, c: Column) {
    match c
    case Id => f.id == NumAt(row, Id)
    case ActionsCreated => f.created == NumAt(row, ActionsCreated)
    case ActionsCreatedNotIncludingAspects => f.createdNoAspects == NumAt(row, ActionsCreatedNotIncludingAspects)
    case ActionsExecuted => f.executed == NumAt(row, ActionsExecuted)
    case RemoteCacheHits => f.cacheHits == NumAt(row, RemoteCacheHits)
    case MetricsKey => row(MetricsKey).IntSlot? && f.metricsFk == row(MetricsKey).num
    case Other(_) => c in f.selectValues && f.selectValues[c] == row(c)
  }

  ghost predicate Untouched(f: Fields, c: Column) {
    match c
    case Id => f.id == 0
    case ActionsCreated => f.created == 0
    case ActionsCreatedNotIncludingAspects => f.createdNoAspects == 0
    case ActionsExecuted => f.executed == 0
    case RemoteCacheHits => f.cacheHits == 0
    case MetricsKey => f.metricsFk.None?
    case Other(_) => c !in f.selectValues
  }

  /** What a caller asks for: every visible column of the entity, or the id and the chosen fields;
      and the hidden key if the foreign keys are added. */
  ghost predicate Asked(fields: seq<Column>, withFKs: bool, c: Column) {
    || (if fields == [] then !c.Other? && !c.MetricsKey? else c == Id || c in fields)
    || (withFKs && c == MetricsKey)
  }

  /** The entity carries of its row exactly what was asked for. */
  ghost predicate CarriesAsked(f: Fields, row: Row, fields: seq<Column>, withFKs: bool) {
    forall c: Column :: if Asked(fields, withFKs, c) then Carries(f, row, c) else Untouched(f, c)
  }

  lemma AllSelected(c: Column)
    ensures c in ALL_COLUMNS <==> !c.Other? && !c.MetricsKey?
  {
    assert ALL_COLUMNS[0] == Id && ALL_COLUMNS[1] == ActionsCreated;
    assert ALL_COLUMNS[2] == ActionsCreatedNotIncludingAspects;
    assert ALL_COLUMNS[3] == ActionsExecuted && ALL_COLUMNS[4] == RemoteCacheHits;
  }

  lemma AskedIsSelected(fields: seq<Column>, withFKs: bool, c: Column)
    ensures c in SpecColumns(fields, withFKs) <==> Asked(fields, withFKs, c)
  {
    AllSelected(c);
    WithoutMembers(fields, Id);
    var plain := if fields == [] then ALL_COLUMNS else [Id] + Without(fields, Id);
    assert SpecColumns(fields, withFKs) == plain + if withFKs then [MetricsKey] else [];
  }

  /** A counter or the hidden key: the last of its equal cells, or the zero value. */
  lemma PlainCarried(row: Row, columns: seq<Column>, c: Column)
    requires ValidRow(row) && !c.Id? && !c.Other? && Scanned(row, columns).Ok?
    ensures
      var f := Scanned(row, columns).value;
      if c in columns then Carries(f, row, c) else Untouched(f, c)
  {
    var n := |columns|;
    assert columns[..n] == columns;
    LastCell(row, columns, c, Present, n);
    LastValue(ZERO, columns, Cells(row, columns), n, c);
    assert row(c).IntSlot? <==> NewSlot(c).IntSlot?;
  }

  lemma RestCarried(row: Row, columns: seq<Column>, c: Column)
    requires (c.Id? || c.Other?) && Scanned(row, columns).Ok?
    ensures
      var f := Scanned(row, columns).value;
      if c in columns then Carries(f, row, c) else Untouched(f, c)
  {
    var n := |columns|;
    if c.Id? {
      LastId(ZERO, columns, Cells(row, columns), n);
    } else {
      SelectedValues(ZERO, columns, Cells(row, columns), n, c);
    }
    if k :| 0 <= k < n && columns[k] == c {
      assert LastAt(columns, c, n) > k;
    }
  }

  /** Whatever is selected, a valid row scans, and the summary carries exactly what was asked for. */
  lemma RowCarried(row: Row, fields: seq<Column>, withFKs: bool)
    requires ValidRow(row)
    ensures Scanned(row, SpecColumns(fields, withFKs)).Ok?
    ensures CarriesAsked(Scanned(row, SpecColumns(fields, withFKs)).value, row, fields, withFKs)
  {
    var columns := SpecColumns(fields, withFKs);
    ScannedMetrics(row, columns);
    forall c: Column
      ensures
        var f := Scanned(row, columns).value;
        if Asked(fields, withFKs, c) then Carries(f, row, c) else Untouched(f, c)
    {
      AskedIsSelected(fields, withFKs, c);
      if c.Id? || c.Other? {
        RestCarried(row, columns, c);
      } else {
        PlainCarried(row, columns, c);
      }
    }
  }
}
