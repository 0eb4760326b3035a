/** Many-to-one eager loading of Action edges (ent/gen/ent/action_query.go, querySpec, sqlAll and
    the four load functions; ent/gen/ent/action.go, the edge accessors). One batched query per
    requested edge replaces one lookup per row. */
module EagerLoading {
  import opened Wrappers
  import opened Scanning
  import opened ActionScan
  import opened EdgeQueries
  import opened Pages

  datatype Edge = BazelInvocation | Configuration | Stdout | Stderr

  datatype LoadError = Scan(error: ScanError) | UnexpectedForeignKey(edge: Edge, id: int)

  function FkColumn(e: Edge): Column {
    match e
    case BazelInvocation => BazelInvocationId
    case Configuration => ConfigurationId
    case Stdout => StdoutFileId
    case Stderr => StderrFileId
  }

  function KeyField(f: Fields, e: Edge): int {
    match e
    case BazelInvocation => f.bazelInvocationId
    case Configuration => f.configurationId
    case Stdout => f.stdoutFileId
    case Stderr => f.stderrFileId
  }

  // ---------------------------------------------------------------- column selection

  const ALL_COLUMNS: seq<Column> := [Id, BazelInvocationId, ConfigurationId, Label, Type, Success, ExitCode,
    CommandLine, StartTime, EndTime, FailureCode, FailureMessage, StdoutFileId, StderrFileId]

  function AddColumnOnce(columns: seq<Column>, c: Column): seq<Column> {
    if c in columns then columns else columns + [c]
  }

  function AddKey(columns: seq<Column>, with: set<Edge>, e: Edge): seq<Column> {
    if e in with then AddColumnOnce(columns, FkColumn(e)) else columns
  }

  function AddKeys(columns: seq<Column>, with: set<Edge>): seq<Column> {
    AddKey(AddKey(AddKey(AddKey(columns, with, BazelInvocation), with, Configuration), with, Stdout), with, Stderr)
  }

  /** The columns of querySpec: all of them, or the id, the selected fields and the foreign key
      of every edge that is to be loaded. */
  function SpecColumns(fields: seq<Column>, with: set<Edge>): seq<Column> {
    if fields == [] then ALL_COLUMNS else AddKeys([Id] + Without(fields, Id), with)
  }

  lemma KeyAdded(columns: seq<Column>, with: set<Edge>, e: Edge, c: Column)
    ensures c in AddKey(columns, with, e) <==> c in columns || (e in with && c == FkColumn(e))
  {
  }

  ghost predicate KeyOfRequested(with: set<Edge>, c: Column) {
    exists e :: e in with && c == FkColumn(e)
  }

  lemma KeysAdded(columns: seq<Column>, with: set<Edge>, c: Column)
    ensures c in AddKeys(columns, with) <==> c in columns || KeyOfRequested(with, c)
  {
    var c1 := AddKey(columns, with, BazelInvocation);
    var c2 := AddKey(c1, with, Configuration);
    var c3 := AddKey(c2, with, Stdout);
    KeyAdded(columns, with, BazelInvocation, c);
    KeyAdded(c1, with, Configuration, c);
    KeyAdded(c2, with, Stdout, c);
    KeyAdded(c3, with, Stderr, c);
    FourKeys(with, c);
  }

  lemma FourKeys(with: set<Edge>, c: Column)
    ensures KeyOfRequested(with, c) <==>
      || (BazelInvocation in with && c == FkColumn(BazelInvocation))
      || (Configuration in with && c == FkColumn(Configuration))
      || (Stdout in with && c == FkColumn(Stdout)) || (Stderr in with && c == FkColumn(Stderr))
  {
  }

  /** Narrowing selects the id, the chosen fields and the keys of the requested edges, and no other
      column. */
  lemma SpecColumnsExact(fields: seq<Column>, with: set<Edge>, c: Column)
    requires fields != []
    ensures c in SpecColumns(fields, with) <==> c == Id || c in fields || KeyOfRequested(with, c)
  {
    WithoutMembers(fields, Id);
    KeysAdded([Id] + Without(fields, Id), with, c);
  }

  lemma FkSelected(fields: seq<Column>, with: set<Edge>, e: Edge)
    requires e in with
    ensures FkColumn(e) in SpecColumns(fields, with)
  {
    if fields == [] {
      assert ALL_COLUMNS[1] == BazelInvocationId && ALL_COLUMNS[2] == ConfigurationId;
      assert ALL_COLUMNS[12] == StdoutFileId && ALL_COLUMNS[13] == StderrFileId;
    } else {
      SpecColumnsExact(fields, with, FkColumn(e));
    }
  }

  /** A row of the actions table: for each column the value the database holds. */
  type Row = Column -> Slot

  ghost predicate ValidRow(row: Row) {
    forall c: Column :: SameKind(NewSlot(c), row(c))
  }

  /** The foreign key as the database holds it, and as the entity's integer field shows it. */
  function NullableFk(row: Row, e: Edge): Option<int> {
    if row(FkColumn(e)).IntSlot? then row(FkColumn(e)).num else None
  }

  function Fk(row: Row, e: Edge): int {
    NullableFk(row, e).GetOr(0)
  }

  function Scanned(row: Row, columns: seq<Column>, decode: Decoder): Result<Fields, ScanError> {
    AssignAll(ZERO, columns, Cells(row, columns), decode)
  }

  lemma KeyCell(row: Row, e: Edge)
    requires ValidRow(row)
    ensures row(FkColumn(e)).IntSlot?
  {
    assert SameKind(NewSlot(FkColumn(e)), row(FkColumn(e)));
  }

  lemma ColumnScanned(row: Row, columns: seq<Column>, decode: Decoder, c: Column)
    requires PlainColumn(c) && c in columns && Scanned(row, columns, decode).Ok?
    ensures Read(Scanned(row, columns, decode).value, c) == if Present(row(c)) then Stored(c, row(c)) else Read(ZERO, c)
  {
    var values := Cells(row, columns);
    LastCell(row, columns, c, Present, |columns|);
    assert columns[..|columns|] == columns;
    LastValue(ZERO, columns, values, decode, |columns|, c);
  }

  /** Whatever fields the caller selects, a scanned row carries the foreign key of every edge
      that is going to be loaded. */
  lemma ScannedFk(row: Row, fields: seq<Column>, with: set<Edge>, e: Edge, decode: Decoder)
    requires ValidRow(row) && e in with && Scanned(row, SpecColumns(fields, with), decode).Ok?
    ensures KeyField(Scanned(row, SpecColumns(fields, with), decode).value, e) == Fk(row, e)
  {
    FkSelected(fields, with, e);
    ScannedKey(row, SpecColumns(fields, with), e, decode);
  }

  lemma ScannedKey(row: Row, columns: seq<Column>, e: Edge, decode: Decoder)
    requires ValidRow(row) && FkColumn(e) in columns && Scanned(row, columns, decode).Ok?
    ensures KeyField(Scanned(row, columns, decode).value, e) == Fk(row, e)
  {
    KeyCell(row, e);
    ColumnScanned(row, columns, decode, FkColumn(e));
  }

  // ---------------------------------------------------------------- what a scanned row carries

  function NumAt(row: Row, c: Column): int {
    if row(c).IntSlot? then row(c).num.GetOr(0) else 0
  }

  function TextAt(row: Row, c: Column): string {
    if row(c).StringSlot? then row(c).str.GetOr("") else ""
  }

  function MomentAt(row: Row, c: Column): int {
    if row(c).TimeSlot? then row(c).time.GetOr(0) else 0
  }

  /** The entity's field for the column holds the row's value, a NULL as the zero value. */
  ghost predicate Carries(f: Fields, row: Row, c: Column, decode: Decoder) {
    match c
    case Id => f.id == NumAt(row, Id)
    case BazelInvocationId => f.bazelInvocationId == NumAt(row, BazelInvocationId)
    case ConfigurationId => f.configurationId == NumAt(row, ConfigurationId)
    case Label => f.labelText == TextAt(row, Label)
    case Type => f.kind == TextAt(row, Type)
    case Success => f.success == (row(Success) == BoolSlot(Some(true)))
    case ExitCode => CutTo32(NumAt(row, ExitCode), f.exitCode)
    case CommandLine =>
      row(CommandLine).BytesSlot? &&
      if row(CommandLine).bytes == "" then f.commandLine == [] else decode(row(CommandLine).bytes) == Some(f.commandLine)
    case StartTime => f.startTime == MomentAt(row, StartTime)
    case EndTime => f.endTime == MomentAt(row, EndTime)
    case FailureCode => f.failureCode == TextAt(row, FailureCode)
    case FailureMessage => f.failureMessage == TextAt(row, FailureMessage)
    case StdoutFileId => f.stdoutFileId == NumAt(row, StdoutFileId)
    case StderrFileId => f.stderrFileId == NumAt(row, StderrFileId)
    case Other(_) => c in f.selectValues && f.selectValues[c] == row(c)
  }

  ghost predicate Untouched(f: Fields, c: Column) {
    match c
    case Id => f.id == 0
    case BazelInvocationId => f.bazelInvocationId == 0
    case ConfigurationId => f.configurationId == 0
    case Label => f.labelText == ""
    case Type => f.kind == ""
    case Success => !f.success
    case ExitCode => f.exitCode == 0
    case CommandLine => f.commandLine == []
    case StartTime => f.startTime == 0
    case EndTime => f.endTime == 0
    case FailureCode => f.failureCode == ""
    case FailureMessage => f.failureMessage == ""
    case StdoutFileId => f.stdoutFileId == 0
    case StderrFileId => f.stderrFileId == 0
    case Other(_) => c !in f.selectValues
  }

  /** What a caller asks for: every column of the entity, or the id, the chosen fields and the keys
      of the edges to load. */
  ghost predicate Asked(fields: seq<Column>, with: set<Edge>, c: Column) {
    if fields == [] then !c.Other?
    else
      || c == Id || c in fields
      || (BazelInvocation in with && c == BazelInvocationId) || (Configuration in with && c == ConfigurationId)
      || (Stdout in with && c == StdoutFileId) || (Stderr in with && c == StderrFileId)
  }

  /** The entity carries of its row exactly what was asked for. */
  ghost predicate CarriesAsked(f: Fields, row: Row, fields: seq<Column>, with: set<Edge>, decode: Decoder) {
    forall c: Column :: if Asked(fields, with, c) then Carries(f, row, c, decode) else Untouched(f, c)
  }

  /** The command line, if asked for, is missing or can be decoded. */
  ghost predicate Decodable(row: Row, fields: seq<Column>, with: set<Edge>, decode: Decoder) {
    Asked(fields, with, CommandLine) && row(CommandLine).BytesSlot? && row(CommandLine).bytes != "" ==>
      decode(row(CommandLine).bytes).Some?
  }

  lemma AllSelected(c: Column)
    ensures c in ALL_COLUMNS <==> !c.Other?
  {
    assert ALL_COLUMNS[0] == Id && ALL_COLUMNS[1] == BazelInvocationId && ALL_COLUMNS[2] == ConfigurationId;
    assert ALL_COLUMNS[3] == Label && ALL_COLUMNS[4] == Type && ALL_COLUMNS[5] == Success;
    assert ALL_COLUMNS[6] == ExitCode && ALL_COLUMNS[7] == CommandLine && ALL_COLUMNS[8] == StartTime;
    assert ALL_COLUMNS[9] == EndTime && ALL_COLUMNS[10] == FailureCode && ALL_COLUMNS[11] == FailureMessage;
    assert ALL_COLUMNS[12] == StdoutFileId && ALL_COLUMNS[13] == StderrFileId;
  }

  lemma AskedIsSelected(fields: seq<Column>, with: set<Edge>, c: Column)
    ensures c in SpecColumns(fields, with) <==> Asked(fields, with, c)
  {
    if fields == [] {
      AllSelected(c);
    } else {
      SpecColumnsExact(fields, with, c);
      FourKeys(with, c);
    }
  }

  /** The field that holds what a plain cell says carries the row's value. */
  lemma CellCarried(f: Fields, row: Row, decode: Decoder, c: Column)
    requires PlainColumn(c) && SameKind(NewSlot(c), row(c))
    requires Read(f, c) == if Present(row(c)) then Stored(c, row(c)) else Read(ZERO, c)
    ensures Carries(f, row, c, decode)
  {
    if c.ExitCode? {
      CutValue(NumAt(row, ExitCode));
    }
  }

  lemma NotRead(f: Fields, c: Column)
    requires PlainColumn(c) && Read(f, c) == Read(ZERO, c)
    ensures Untouched(f, c)
  {
  }

  /** A plain column: the last of its equal cells, or the zero value. */
  lemma PlainCarried(row: Row, columns: seq<Column>, decode: Decoder, c: Column)
    requires ValidRow(row) && PlainColumn(c) && Scanned(row, columns, decode).Ok?
    ensures
      var f := Scanned(row, columns, decode).value;
      if c in columns then Carries(f, row, c, decode) else Untouched(f, c)
  {
    if c in columns {
      ColumnScanned(row, columns, decode, c);
      assert SameKind(NewSlot(c), row(c));
      CellCarried(Scanned(row, columns, decode).value, row, decode, c);
    } else {
      ColumnSkipped(row, columns, decode, c);
      NotRead(Scanned(row, columns, decode).value, c);
    }
  }

  lemma ColumnSkipped(row: Row, columns: seq<Column>, decode: Decoder, c: Column)
    requires PlainColumn(c) && c !in columns && Scanned(row, columns, decode).Ok?
    ensures Read(Scanned(row, columns, decode).value, c) == Read(ZERO, c)
  {
    var values := Cells(row, columns);
    LastCell(row, columns, c, Present, |columns|);
    LastValue(ZERO, columns, values, decode, |columns|, c);
  }

  lemma CommandCarried(row: Row, columns: seq<Column>, decode: Decoder)
    requires ValidRow(row) && Scanned(row, columns, decode).Ok?
    ensures
      var f := Scanned(row, columns, decode).value;
      if CommandLine in columns then Carries(f, row, CommandLine, decode) else Untouched(f, CommandLine)
  {
    var n := |columns|;
    assert columns[..n] == columns;
    LastCell(row, columns, CommandLine, Present, n);
    LastCommand(ZERO, columns, Cells(row, columns), decode, n);
    assert SameKind(NewSlot(CommandLine), row(CommandLine));
  }

  lemma RestCarried(row: Row, columns: seq<Column>, decode: Decoder, c: Column)
    requires (c.Id? || c.Other?) && Scanned(row, columns, decode).Ok?
    ensures
      var f := Scanned(row, columns, decode).value;
      if c in columns then Carries(f, row, c, decode) else Untouched(f, c)
  {
    var n := |columns|;
    if c.Id? {
      LastId(ZERO, columns, Cells(row, columns), decode, n);
    } else {
      UnknownColumns(ZERO, columns, Cells(row, columns), decode, n, c);
    }
    if k :| 0 <= k < n && columns[k] == c {
      assert LastAt(columns, c, n) > k;
    }
  }

  /** Whatever is selected, a scanned row carries exactly what was asked for. */
  lemma RowCarried(row: Row, fields: seq<Column>, with: set<Edge>, decode: Decoder)
    requires ValidRow(row) && Scanned(row, SpecColumns(fields, with), decode).Ok?
    ensures CarriesAsked(Scanned(row, SpecColumns(fields, with), decode).value, row, fields, with, decode)
  {
    var columns := SpecColumns(fields, with);
    forall c: Column
      ensures
        var f := Scanned(row, columns, decode).value;
        if Asked(fields, with, c) then Carries(f, row, c, decode) else Untouched(f, c)
    {
      AskedIsSelected(fields, with, c);
      if PlainColumn(c) {
        PlainCarried(row, columns, decode, c);
      } else if c.CommandLine? {
        CommandCarried(row, columns, decode);
      } else {
        RestCarried(row, columns, decode, c);
      }
    }
  }

  /** A valid row scans exactly if it is decodable. */
  lemma ScansExact(row: Row, fields: seq<Column>, with: set<Edge>, decode: Decoder)
    requires ValidRow(row)
    ensures Scanned(row, SpecColumns(fields, with), decode).Ok? <==> Decodable(row, fields, with, decode)
  {
    var columns := SpecColumns(fields, with);
    var values := Cells(row, columns);
    AskedIsSelected(fields, with, CommandLine);
    assert Filled(columns, values) by {
      assert forall i :: 0 <= i < |columns| ==> SameKind(NewSlot(columns[i]), row(columns[i]));
    }
    AcceptsScanned(ZERO, columns, values, decode, |columns|);
    if CommandLine in columns {
      var k :| 0 <= k < |columns| && columns[k] == CommandLine;
      assert values[k] == row(CommandLine);
    }
  }

  // ---------------------------------------------------------------- entities

  class Action {
    var fields: Fields
    var edges: map<Edge, Entity>
    var loadedTypes: set<Edge>

    constructor (loadedTypes: set<Edge>)
      ensures fields == ZERO && edges == map[] && this.loadedTypes == loadedTypes
    {
      fields, edges, this.loadedTypes := ZERO, map[], loadedTypes;
    }

    function Key(e: Edge): int
      reads `fields
    {
      KeyField(fields, e)
    }

    /** assignValues writes field by field and stops at the first error. */
    method AssignValues(columns: seq<Column>, values: seq<Slot>, decode: Decoder) returns (r: Option<ScanError>)
      modifies `fields
      ensures r.None? <==> AssignAll(old(fields), columns, values, decode).Ok?
      ensures r.None? ==> fields == AssignAll(old(fields), columns, values, decode).value
      ensures r.Some? ==> AssignAll(old(fields), columns, values, decode) == Err(r.value)
    {
      if |values| < |columns| { return Some(Mismatch); }
      for i := 0 to |columns|
        invariant AssignFirst(old(fields), columns, values, decode, i) == Ok(fields)
      {
        var next := Assign(fields, columns[i], values[i], decode);
        if next.Err? {
          FoldStops(Step(decode), old(fields), columns, values, i + 1, |columns|);
          return Some(next.error);
        }
        fields := next.value;
      }
      r := None;
    }
  }

  ghost predicate DistinctNodes(nodes: seq<Action>) {
    forall i, j :: 0 <= i < j < |nodes| ==> nodes[i] != nodes[j]
  }

  // ---------------------------------------------------------------- the load functions

  /** keys names the foreign key of every node. */
  ghost predicate Keyed(nodes: seq<Action>, e: Edge, keys: seq<int>)
    reads nodes`fields
  {
    |keys| == |nodes| && forall i :: 0 <= i < |nodes| ==> nodes[i].Key(e) == keys[i]
  }

  /** The first n nodes are in the bucket of their key, and buckets hold nothing else. */
  ghost predicate Buckets(nodes: seq<Action>, keys: seq<int>, n: nat, nodeids: map<int, seq<Action>>)
    requires n <= |nodes| == |keys|
  {
    && (forall i :: 0 <= i < n ==> keys[i] in nodeids && nodes[i] in nodeids[keys[i]])
    && (forall k, j :: k in nodeids && 0 <= j < |nodeids[k]| ==> HasKey(nodes, keys, n, k, nodeids[k][j]))
  }

  ghost predicate HasKey(nodes: seq<Action>, keys: seq<int>, n: nat, k: int, a: Action)
    requires n <= |nodes| == |keys|
  {
    exists i :: 0 <= i < n && nodes[i] == a && keys[i] == k
  }

  function Bucket(nodeids: map<int, seq<Action>>, k: int): seq<Action> {
    if k in nodeids then nodeids[k] else []
  }

  /** One more node in the bucket of its key. */
  lemma BucketsNext(nodes: seq<Action>, keys: seq<int>, n: nat, nodeids: map<int, seq<Action>>)
    requires n < |nodes| == |keys| && Buckets(nodes, keys, n, nodeids)
    ensures Buckets(nodes, keys, n + 1, nodeids[keys[n] := Bucket(nodeids, keys[n]) + [nodes[n]]])
  {
    var was, more := Bucket(nodeids, keys[n]), nodeids[keys[n] := Bucket(nodeids, keys[n]) + [nodes[n]]];
    forall i | 0 <= i < n + 1
      ensures keys[i] in more && nodes[i] in more[keys[i]]
    {
      if i == n {
        assert more[keys[n]][|was|] == nodes[n];
      } else {
        assert keys[i] in nodeids && nodes[i] in nodeids[keys[i]];
      }
    }
    forall k, j | k in more && 0 <= j < |more[k]|
      ensures HasKey(nodes, keys, n + 1, k, more[k][j])
    {
      if k == keys[n] && j == |was| {
        assert nodes[n] == more[k][j];
      } else {
        assert k in nodeids && nodeids[k][j] == more[k][j] && HasKey(nodes, keys, n, k, nodeids[k][j]);
      }
    }
  }

  lemma IdsNext(ids: seq<int>, keys: seq<int>, k: int)
    requires SameMembers(ids, keys)
    ensures SameMembers(if k in ids then ids else ids + [k], keys + [k])
  {
  }

  method BucketByKey(nodes: seq<Action>, e: Edge, ghost keys: seq<int>)
    returns (ids: seq<int>, nodeids: map<int, seq<Action>>)
    requires Keyed(nodes, e, keys)
    ensures Buckets(nodes, keys, |nodes|, nodeids) && SameMembers(ids, keys)
    ensures forall k :: k in nodeids <==> k in ids
  {
    ids, nodeids := [], map[];
    ghost var seen: seq<int> := [];
    for i := 0 to |nodes|
      invariant seen == keys[..i] && Buckets(nodes, keys, i, nodeids) && SameMembers(ids, seen)
      invariant forall k :: k in nodeids <==> k in ids
    {
      TakeNext(keys, i);
      BucketsNext(nodes, keys, i, nodeids);
      IdsNext(ids, seen, keys[i]);
      var fk := nodes[i].Key(e);
      if fk !in nodeids {
        ids := ids + [fk];
      }
      nodeids := nodeids[fk := Bucket(nodeids, fk) + [nodes[i]]];
      seen := seen + [fk];
    }
    assert seen == keys;
  }

  /** The inner loop: every node of one bucket gets the neighbour. */
  method AssignEdge(bucket: seq<Action>, e: Edge, n: Entity)
    modifies bucket`edges
    ensures forall a :: a in bucket ==> a.edges == old(a.edges)[e := n]
  {
    for i := 0 to |bucket|
      invariant forall a :: a in bucket[..i] ==> a.edges == old(a.edges)[e := n]
      invariant forall a :: a in bucket && a !in bucket[..i] ==> a.edges == old(a.edges)
    {
      bucket[i].edges := bucket[i].edges[e := n];
      assert bucket[..i + 1] == bucket[..i] + [bucket[i]];
    }
  }

  function Put(edges: map<Edge, Entity>, e: Edge, found: Option<Entity>): map<Edge, Entity> {
    if found.Some? then edges[e := found.value] else edges
  }

  /** The edges of every node, one map per node. */
  type Snapshot = seq<map<Edge, Entity>>

  ghost predicate EdgesAre(nodes: seq<Action>, edges: Snapshot)
    reads nodes`edges
  {
    |edges| == |nodes| && forall i :: 0 <= i < |nodes| ==> nodes[i].edges == edges[i]
  }

  /** What the nodes hold after some neighbours. */
  ghost function Dealt(before: Snapshot, e: Edge, rows: seq<Entity>, keys: seq<int>): Snapshot
    requires |before| == |keys|
  {
    seq(|keys|, i requires 0 <= i < |keys| => Put(before[i], e, Latest(rows, keys[i])))
  }

  /** One more neighbour changes exactly the nodes with its key. */
  lemma DealtNext(before: Snapshot, e: Edge, rows: seq<Entity>, n: Entity, keys: seq<int>, i: nat)
    requires |before| == |keys| && i < |keys|
    ensures Dealt(before, e, rows + [n], keys)[i] ==
      if keys[i] == n.id then Dealt(before, e, rows, keys)[i][e := n] else Dealt(before, e, rows, keys)[i]
  {
    assert (rows + [n])[..|rows|] == rows;
  }

  lemma DealtNone(before: Snapshot, e: Edge, keys: seq<int>)
    requires |before| == |keys|
    ensures Dealt(before, e, [], keys) == before
  {
  }

  /** The body of the loop over the neighbours. */
  method HandOut(n: Entity, nodes: seq<Action>, e: Edge, nodeids: map<int, seq<Action>>, ghost keys: seq<int>,
                 ghost before: Snapshot, ghost rows: seq<Entity>)
    returns (r: Option<LoadError>)
    requires DistinctNodes(nodes) && |keys| == |nodes| == |before| && Buckets(nodes, keys, |nodes|, nodeids)
    requires n.id in nodeids && EdgesAre(nodes, Dealt(before, e, rows, keys))
    modifies nodes`edges
    ensures r.None? && EdgesAre(nodes, Dealt(before, e, rows + [n], keys))
  {
    if n.id !in nodeids {
      return Some(UnexpectedForeignKey(e, n.id));
    }
    AssignEdge(nodeids[n.id], e, n);
    forall i | 0 <= i < |nodes|
      ensures nodes[i].edges == Dealt(before, e, rows + [n], keys)[i]
    {
      DealtNext(before, e, rows, n, keys, i);
    }
    r := None;
  }

  /** The loop over the neighbours. */
  method Distribute(neighbors: seq<Entity>, nodes: seq<Action>, e: Edge, nodeids: map<int, seq<Action>>,
                    ghost keys: seq<int>, ghost before: Snapshot)
    returns (r: Option<LoadError>)
    requires DistinctNodes(nodes) && |keys| == |nodes| && Buckets(nodes, keys, |nodes|, nodeids)
    requires forall n :: n in neighbors ==> n.id in nodeids
    requires EdgesAre(nodes, before)
    modifies nodes`edges
    ensures r.None? && EdgesAre(nodes, Dealt(before, e, neighbors, keys))
  {
    r := None;
    DealtNone(before, e, keys);
    ghost var rows: seq<Entity> := [];
    for j := 0 to |neighbors|
      invariant r.None? && rows == neighbors[..j] && EdgesAre(nodes, Dealt(before, e, rows, keys))
    {
      TakeNext(neighbors, j);
      r := HandOut(neighbors[j], nodes, e, nodeids, keys, before, rows);
      if r.Some? { return; }
      rows := rows + [neighbors[j]];
    }
    assert rows == neighbors;
  }

  /** The query after loading: one more filter, exactly the foreign keys of the nodes. */
  ghost predicate Narrowed(before: EdgeQuery, after: EdgeQuery, keys: seq<int>) {
    exists ids :: after == before.Where(ids) && SameMembers(ids, keys)
  }

  /** loadBazelInvocation, loadConfiguration, loadStdout and loadStderr, which differ only in the
      foreign key they read and the edge they write. */
  method LoadEdge(query: EdgeQuery, nodes: seq<Action>, e: Edge, ghost keys: seq<int>, ghost before: Snapshot)
    returns (r: Option<LoadError>, query': EdgeQuery)
    requires UniqueIds(query.visible) && DistinctNodes(nodes) && Keyed(nodes, e, keys) && EdgesAre(nodes, before)
    modifies nodes`edges
    ensures r.None? && EdgesAre(nodes, Loads(before, e, query, keys))
    ensures if keys == [] then query' == query else Narrowed(query, query', keys)
  {
    var ids, nodeids := BucketByKey(nodes, e, keys);
    EmptyTogether(ids, keys);
    if |ids| == 0 { return None, query; }
    query' := query.Where(ids);
    var neighbors := query'.All();
    BatchRows(query, ids);
    SameBatch(query, ids, keys);
    LoadsIsDealt(before, e, query, neighbors, keys);
    r := Distribute(neighbors, nodes, e, nodeids, keys, before);
  }

  /** Every node gets what the batched query gives for its key. */
  ghost function Loads(before: Snapshot, e: Edge, query: EdgeQuery, keys: seq<int>): Snapshot
    requires |before| == |keys|
  {
    seq(|keys|, i requires 0 <= i < |keys| => Put(before[i], e, Batched(query, keys, keys[i])))
  }

  lemma LoadsIsDealt(before: Snapshot, e: Edge, query: EdgeQuery, neighbors: seq<Entity>, keys: seq<int>)
    requires |before| == |keys| && UniqueIds(neighbors) && neighbors == query.Where(keys).All()
    ensures Dealt(before, e, neighbors, keys) == Loads(before, e, query, keys)
  {
    forall i | 0 <= i < |keys|
      ensures Latest(neighbors, keys[i]) == Batched(query, keys, keys[i])
    {
      LatestIsLookup(neighbors, keys[i]);
    }
  }

  // ---------------------------------------------------------------- the whole query

  /** The Assign callback: one more node, filled from one row. */
  method ScanRow(row: Row, columns: seq<Column>, with: set<Edge>, decode: Decoder) returns (r: Result<Action, LoadError>)
    ensures r.Ok? <==> Scanned(row, columns, decode).Ok?
    ensures r.Ok? ==> fresh(r.value) && r.value.fields == Scanned(row, columns, decode).value
    ensures r.Ok? ==> r.value.edges == map[] && r.value.loadedTypes == with
  {
    var node := new Action(with);
    var e := node.AssignValues(columns, Cells(row, columns), decode);
    r := if e.Some? then Err(Scan(e.value)) else Ok(node);
  }

  ghost predicate AllScan(rows: seq<Row>, columns: seq<Column>, decode: Decoder) {
    forall i :: 0 <= i < |rows| ==> Scanned(rows[i], columns, decode).Ok?
  }

  /** The node carries what was scanned of its row and knows the requested edges. */
  ghost predicate ScannedAt(node: Action, row: Row, columns: seq<Column>, with: set<Edge>, decode: Decoder)
    reads node`fields, node`loadedTypes
  {
    Scanned(row, columns, decode) == Ok(node.fields) && node.loadedTypes == with
  }

  ghost predicate ScannedFirst(nodes: seq<Action>, rows: seq<Row>, n: nat, columns: seq<Column>, with: set<Edge>,
                               decode: Decoder)
    reads nodes`fields, nodes`loadedTypes
  {
    && |nodes| == n <= |rows|
    && forall i :: 0 <= i < n ==> ScannedAt(nodes[i], rows[i], columns, with, decode)
  }

  ghost predicate ScannedNodes(nodes: seq<Action>, rows: seq<Row>, columns: seq<Column>, with: set<Edge>, decode: Decoder)
    reads nodes`fields, nodes`loadedTypes
  {
    ScannedFirst(nodes, rows, |rows|, columns, with, decode)
  }

  lemma LoadedTypes(nodes: seq<Action>, rows: seq<Row>, columns: seq<Column>, with: set<Edge>, decode: Decoder)
    requires ScannedNodes(nodes, rows, columns, with, decode)
    ensures forall a :: a in nodes ==> a.loadedTypes == with
  {
    forall a | a in nodes
      ensures a.loadedTypes == with
    {
      var i :| 0 <= i < |nodes| && nodes[i] == a;
      assert ScannedAt(nodes[i], rows[i], columns, with, decode);
    }
  }

  lemma ScannedNext(nodes: seq<Action>, node: Action, rows: seq<Row>, n: nat, columns: seq<Column>, with: set<Edge>,
                    decode: Decoder)
    requires n < |rows| && ScannedFirst(nodes, rows, n, columns, with, decode)
    requires ScannedAt(node, rows[n], columns, with, decode)
    ensures ScannedFirst(nodes + [node], rows, n + 1, columns, with, decode)
  {
  }

  lemma AnotherNode(nodes: seq<Action>, node: Action)
    requires DistinctNodes(nodes) && NothingLoaded(nodes) && node !in nodes && node.edges == map[]
    ensures DistinctNodes(nodes + [node]) && NothingLoaded(nodes + [node])
  {
    assert forall i :: 0 <= i < |nodes| ==> nodes[i] in nodes;
  }

  ghost predicate NothingLoaded(nodes: seq<Action>)
    reads nodes`edges
  {
    forall i :: 0 <= i < |nodes| ==> nodes[i].edges == map[]
  }

  /** QueryNodes: every row becomes a node of its own, or the first error is returned. */
  method ScanRows(rows: seq<Row>, columns: seq<Column>, with: set<Edge>, decode: Decoder)
    returns (r: Result<seq<Action>, LoadError>)
    ensures r.Ok? <==> AllScan(rows, columns, decode)
    ensures r.Ok? ==> fresh(r.value) && DistinctNodes(r.value)
    ensures r.Ok? ==> ScannedNodes(r.value, rows, columns, with, decode) && NothingLoaded(r.value)
  {
    var nodes: seq<Action> := [];
    for i := 0 to |rows|
      invariant fresh(nodes) && DistinctNodes(nodes) && NothingLoaded(nodes)
      invariant ScannedFirst(nodes, rows, i, columns, with, decode)
    {
      var node := ScanRow(rows[i], columns, with, decode);
      if node.Err? { return Err(node.error); }
      ScannedNext(nodes, node.value, rows, i, columns, with, decode);
      AnotherNode(nodes, node.value);
      nodes := nodes + [node.value];
    }
    r := Ok(nodes);
  }

  type Queries = map<Edge, EdgeQuery>

  /** What the batched query of an edge gives for one of the keys; edges without a query are not
      looked up. */
  function Wanted(with: Queries, e: Edge, keys: seq<int>, fk: int): Option<Entity> {
    if e in with then Batched(with[e], keys, fk) else None
  }

  function FourPuts(one: Edge -> Option<Entity>): map<Edge, Entity> {
    Put(Put(Put(Put(map[], BazelInvocation, one(BazelInvocation)), Configuration, one(Configuration)),
      Stdout, one(Stdout)), Stderr, one(Stderr))
  }

  function WantedBy(with: Queries, rows: seq<Row>, row: Row): Edge -> Option<Entity> {
    e => Wanted(with, e, Fks(rows, e), Fk(row, e))
  }

  function OwnBy(with: Queries, row: Row): Edge -> Option<Entity> {
    e => if e in with then OwnNullable(with[e], NullableFk(row, e)) else None
  }

  /** The edges of one of the rows, from one batched query per requested edge. */
  function AllEdges(with: Queries, rows: seq<Row>, row: Row): map<Edge, Entity> {
    FourPuts(WantedBy(with, rows, row))
  }

  /** The reference: one query per requested edge for this row alone, and none for a NULL key. */
  function NaiveEdges(with: Queries, row: Row): map<Edge, Entity> {
    FourPuts(OwnBy(with, row))
  }

  function EdgeIn(edges: map<Edge, Entity>, e: Edge): Option<Entity> {
    if e in edges then Some(edges[e]) else None
  }

  function Fks(rows: seq<Row>, e: Edge): seq<int> {
    seq(|rows|, i requires 0 <= i < |rows| => Fk(rows[i], e))
  }

  function NullableFks(rows: seq<Row>, e: Edge): seq<Option<int>> {
    seq(|rows|, i requires 0 <= i < |rows| => NullableFk(rows[i], e))
  }

  lemma FksArePlain(rows: seq<Row>, e: Edge)
    ensures Plain(NullableFks(rows, e)) == Fks(rows, e)
  {
  }

  ghost predicate ValidQueries(with: Queries) {
    forall e :: e in with ==> UniqueIds(with[e].visible)
  }

  /** The builders after a run: each neighbour query keeps the id filter the run added to it. */
  ghost predicate RanOver(before: Queries, after: Queries, rows: seq<Row>) {
    after.Keys == before.Keys && forall e :: e in before ==> Narrowed(before[e], after[e], Fks(rows, e))
  }

  ghost predicate RanOne(before: Queries, after: Queries, e: Edge, keys: seq<int>) {
    && after.Keys == before.Keys
    && (forall g :: g in before && g != e ==> after[g] == before[g])
    && (e in before ==> Narrowed(before[e], after[e], keys))
  }

  lemma QueryRan(before: Queries, e: Edge, query: EdgeQuery, keys: seq<int>)
    requires ValidQueries(before) && e in before && Narrowed(before[e], query, keys)
    ensures RanOne(before, before[e := query], e, keys) && ValidQueries(before[e := query])
  {
  }

  ghost predicate Loaded(before: Snapshot, after: Snapshot, with: Queries, e: Edge, keys: seq<int>) {
    && |after| == |before| == |keys|
    && forall i :: 0 <= i < |keys| ==> after[i] == Put(before[i], e, Wanted(with, e, keys, keys[i]))
  }

  lemma LoadedBy(before: Snapshot, with: Queries, e: Edge, keys: seq<int>)
    requires |before| == |keys|
    ensures Loaded(before, if e in with then Loads(before, e, with[e], keys) else before, with, e, keys)
  {
  }

  /** Loading the four edges one after the other reads each query as it was at the start, ... */
  lemma FourEdges(w0: Queries, w1: Queries, w2: Queries, w3: Queries, rows: seq<Row>,
                  s0: Snapshot, s1: Snapshot, s2: Snapshot, s3: Snapshot, s4: Snapshot, i: nat)
    requires RanOne(w0, w1, BazelInvocation, Fks(rows, BazelInvocation))
    requires RanOne(w1, w2, Configuration, Fks(rows, Configuration))
    requires RanOne(w2, w3, Stdout, Fks(rows, Stdout))
    requires Loaded(s0, s1, w0, BazelInvocation, Fks(rows, BazelInvocation))
    requires Loaded(s1, s2, w1, Configuration, Fks(rows, Configuration))
    requires Loaded(s2, s3, w2, Stdout, Fks(rows, Stdout))
    requires Loaded(s3, s4, w3, Stderr, Fks(rows, Stderr))
    requires i < |rows| && s0[i] == map[]
    ensures s4[i] == AllEdges(w0, rows, rows[i])
  {
  }

  /** ... and leaves each of them with its one new filter. */
  lemma FourLoads(w0: Queries, w1: Queries, w2: Queries, w3: Queries, w4: Queries, rows: seq<Row>)
    requires RanOne(w0, w1, BazelInvocation, Fks(rows, BazelInvocation))
    requires RanOne(w1, w2, Configuration, Fks(rows, Configuration))
    requires RanOne(w2, w3, Stdout, Fks(rows, Stdout))
    requires RanOne(w3, w4, Stderr, Fks(rows, Stderr))
    ensures RanOver(w0, w4, rows)
  {
  }

  /** Every node has the edges the batched queries give. */
  ghost predicate BatchLoaded(nodes: seq<Action>, with: Queries, rows: seq<Row>)
    reads nodes`edges
  {
    |nodes| == |rows| && forall i :: 0 <= i < |rows| ==> nodes[i].edges == AllEdges(with, rows, rows[i])
  }

  /** Every node has the edges of its own queries. */
  ghost predicate NaivelyLoaded(nodes: seq<Action>, with: Queries, rows: seq<Row>)
    reads nodes`edges
  {
    |nodes| == |rows| && forall i :: 0 <= i < |rows| ==> nodes[i].edges == NaiveEdges(with, rows[i])
  }

  lemma LoadedIsNaive(nodes: seq<Action>, with: Queries, rows: seq<Row>)
    requires ValidQueries(with) && BatchLoaded(nodes, with, rows)
    ensures NaivelyLoaded(nodes, with, rows) <==> AllFit(with, rows)
  {
    EagerIsNaive(with, rows);
  }

  /** Every node carries of its row exactly what was asked for. */
  ghost predicate AllCarry(nodes: seq<Action>, rows: seq<Row>, fields: seq<Column>, with: set<Edge>, decode: Decoder)
    reads nodes`fields
  {
    |nodes| == |rows| && forall i :: 0 <= i < |rows| ==> CarriesAsked(nodes[i].fields, rows[i], fields, with, decode)
  }

  lemma ScannedCarry(nodes: seq<Action>, rows: seq<Row>, fields: seq<Column>, with: set<Edge>, decode: Decoder)
    requires ScannedNodes(nodes, rows, SpecColumns(fields, with), with, decode)
    requires forall i :: 0 <= i < |rows| ==> ValidRow(rows[i])
    ensures AllCarry(nodes, rows, fields, with, decode)
  {
    forall i | 0 <= i < |rows|
      ensures CarriesAsked(nodes[i].fields, rows[i], fields, with, decode)
    {
      assert ScannedAt(nodes[i], rows[i], SpecColumns(fields, with), with, decode);
      RowCarried(rows[i], fields, with, decode);
    }
  }

  lemma AllDecodable(rows: seq<Row>, fields: seq<Column>, with: set<Edge>, decode: Decoder)
    requires forall i :: 0 <= i < |rows| ==> ValidRow(rows[i])
    ensures AllScan(rows, SpecColumns(fields, with), decode) <==>
      forall i :: 0 <= i < |rows| ==> Decodable(rows[i], fields, with, decode)
  {
    forall i | 0 <= i < |rows|
      ensures Scanned(rows[i], SpecColumns(fields, with), decode).Ok? <==> Decodable(rows[i], fields, with, decode)
    {
      ScansExact(rows[i], fields, with, decode);
    }
  }

  lemma ScannedKeys(nodes: seq<Action>, rows: seq<Row>, fields: seq<Column>, with: set<Edge>, e: Edge, decode: Decoder)
    requires ScannedNodes(nodes, rows, SpecColumns(fields, with), with, decode) && e in with
    requires forall i :: 0 <= i < |rows| ==> ValidRow(rows[i])
    ensures Keyed(nodes, e, Fks(rows, e))
  {
    forall i | 0 <= i < |rows|
      ensures nodes[i].Key(e) == Fk(rows[i], e)
    {
      ScannedFk(rows[i], fields, with, e, decode);
    }
  }

  class ActionQuery {
    const fields: seq<Column>
    var with: Queries

    constructor (fields: seq<Column>, with: Queries)
      ensures this.fields == fields && this.with == with
    {
      this.fields, this.with := fields, with;
    }

    /** One `if query := ...; query != nil` of sqlAll. */
    method LoadIfRequested(nodes: seq<Action>, e: Edge, ghost rows: seq<Row>, ghost before: Snapshot)
      returns (r: Option<LoadError>, ghost after: Snapshot)
      requires DistinctNodes(nodes) && nodes != [] && ValidQueries(with) && KeysFit(nodes, rows)
      requires EdgesAre(nodes, before)
      modifies `with, nodes`edges
      ensures r.None?
      ensures ValidQueries(with) && KeysFit(nodes, rows)
      ensures EdgesAre(nodes, after) && Loaded(before, after, old(with), e, Fks(rows, e))
      ensures RanOne(old(with), with, e, Fks(rows, e))
    {
      r, after := None, before;
      LoadedBy(before, with, e, Fks(rows, e));
      if e in with {
        var query;
        after := Loads(before, e, with[e], Fks(rows, e));
        r, query := LoadEdge(with[e], nodes, e, Fks(rows, e), before);
        assert |Fks(rows, e)| > 0;
        QueryRan(with, e, query, Fks(rows, e));
        with := with[e := query];
      }
    }

    ghost predicate KeysFit(nodes: seq<Action>, rows: seq<Row>)
      reads `with, nodes`fields
    {
      |nodes| == |rows| && forall e :: e in with ==> Keyed(nodes, e, Fks(rows, e))
    }

    /** The four loads of sqlAll, one after the other. */
    method LoadAll(nodes: seq<Action>, ghost rows: seq<Row>) returns (r: Option<LoadError>)
      requires DistinctNodes(nodes) && nodes != [] && KeysFit(nodes, rows) && ValidQueries(with)
      requires NothingLoaded(nodes)
      modifies `with, nodes`edges
      ensures r.None? && BatchLoaded(nodes, old(with), rows)
      ensures RanOver(old(with), with, rows)
    {
      ghost var s0: Snapshot := seq(|nodes|, i => map[]);
      ghost var s1, s2, s3, s4, w1, w2, w3;
      r, s1 := LoadIfRequested(nodes, BazelInvocation, rows, s0);
      if r.Some? { return; }
      w1 := with;
      r, s2 := LoadIfRequested(nodes, Configuration, rows, s1);
      if r.Some? { return; }
      w2 := with;
      r, s3 := LoadIfRequested(nodes, Stdout, rows, s2);
      if r.Some? { return; }
      w3 := with;
      r, s4 := LoadIfRequested(nodes, Stderr, rows, s3);
      FourLoads(old(with), w1, w2, w3, with, rows);
      forall i | 0 <= i < |nodes|
        ensures nodes[i].edges == AllEdges(old(with), rows, rows[i])
      {
        FourEdges(old(with), w1, w2, w3, rows, s0, s1, s2, s3, s4, i);
      }
    }

    /** sqlAll after the rows have been scanned; loading leaves the scanned fields alone. */
    method LoadScanned(nodes: seq<Action>, rows: seq<Row>, columns: seq<Column>, decode: Decoder)
      returns (r: Option<LoadError>)
      requires DistinctNodes(nodes) && KeysFit(nodes, rows) && ValidQueries(with) && NothingLoaded(nodes)
      requires ScannedNodes(nodes, rows, columns, with.Keys, decode)
      modifies `with, nodes`edges
      ensures r.None? && BatchLoaded(nodes, old(with), rows)
      ensures ScannedNodes(nodes, rows, columns, old(with.Keys), decode)
      ensures if rows != [] then RanOver(old(with), with, rows) else with == old(with)
    {
      r := None;
      if |nodes| > 0 {
        r := LoadAll(nodes, rows);
      }
    }

    method SqlAll(rows: seq<Row>, decode: Decoder) returns (r: Result<seq<Action>, LoadError>)
      requires ValidQueries(with) && forall i :: 0 <= i < |rows| ==> ValidRow(rows[i])
      modifies `with
      ensures r.Ok? <==> forall i :: 0 <= i < |rows| ==> Decodable(rows[i], fields, old(with.Keys), decode)
      ensures r.Ok? ==> fresh(r.value) && DistinctNodes(r.value)
      ensures r.Ok? ==> AllCarry(r.value, rows, fields, old(with.Keys), decode)
      ensures r.Ok? ==> forall a :: a in r.value ==> a.loadedTypes == old(with.Keys)
      ensures r.Ok? ==> BatchLoaded(r.value, old(with), rows)
      ensures r.Ok? ==> (NaivelyLoaded(r.value, old(with), rows) <==> AllFit(old(with), rows))
      ensures if r.Ok? && rows != [] then RanOver(old(with), with, rows) else with == old(with)
    {
      var columns := SpecColumns(fields, with.Keys);
      ghost var with0 := with;
      AllDecodable(rows, fields, with.Keys, decode);
      r := ScanRows(rows, columns, with.Keys, decode);
      if r.Err? { return; }
      var nodes := r.value;
      forall e | e in with
        ensures Keyed(nodes, e, Fks(rows, e))
      {
        ScannedKeys(nodes, rows, fields, with.Keys, e, decode);
      }
      var err := LoadScanned(nodes, rows, columns, decode);
      match err {
        case Some(error) => r := Err(error);
        case None =>
      }
      LoadedIsNaive(nodes, with0, rows);
      ScannedCarry(nodes, rows, fields, with0.Keys, decode);
      LoadedTypes(nodes, rows, columns, with0.Keys, decode);
    }
  }

  // ---------------------------------------------------------------- accessors and boundaries

  datatype EdgeError = NotFound | NotLoaded

  /** BazelInvocationOrErr, ConfigurationOrErr, StdoutOrErr and StderrOrErr. */
  function EdgeOrErr(edges: map<Edge, Entity>, loadedTypes: set<Edge>, e: Edge): Result<Entity, EdgeError> {
    if e in edges then Ok(edges[e])
    else if e in loadedTypes then Err(NotFound)
    else Err(NotLoaded)
  }

  /** On the nodes sqlAll returns, the three outcomes are exact: "not loaded" for the edges that
      were not requested, and otherwise the answer of the batched query. */
  lemma AccessorExact(with: Queries, rows: seq<Row>, row: Row, e: Edge)
    ensures
      var r := EdgeOrErr(AllEdges(with, rows, row), with.Keys, e);
      if e !in with then r == Err(NotLoaded)
      else match Batched(with[e], Fks(rows, e), Fk(row, e))
        case Some(n) => r == Ok(n)
        case None => r == Err(NotFound)
  {
    FourIn(WantedBy(with, rows, row), e);
  }

  lemma FourIn(one: Edge -> Option<Entity>, e: Edge)
    ensures EdgeIn(FourPuts(one), e) == one(e)
  {
  }

  lemma FourAgree(one: Edge -> Option<Entity>, two: Edge -> Option<Entity>)
    ensures FourPuts(one) == FourPuts(two) <==> forall e :: one(e) == two(e)
  {
    var a, b := FourPuts(one), FourPuts(two);
    forall e: Edge
      ensures EdgeIn(a, e) == one(e) && EdgeIn(b, e) == two(e)
    {
      FourIn(one, e);
      FourIn(two, e);
    }
    if forall e :: EdgeIn(a, e) == EdgeIn(b, e) {
      SameEdges(a, b);
    }
  }

  lemma SameEdges(a: map<Edge, Entity>, b: map<Edge, Entity>)
    requires forall e :: EdgeIn(a, e) == EdgeIn(b, e)
    ensures a == b
  {
    assert forall e :: (e in a <==> EdgeIn(a, e).Some?) && (e in b <==> EdgeIn(b, e).Some?);
  }

  /** The keys of all rows in one column, a NULL as 0. */
  function KeysAt(rows: seq<Row>, c: Column): seq<int> {
    seq(|rows|, i requires 0 <= i < |rows| => NumAt(rows[i], c))
  }

  ghost predicate AskedBy(with: Queries, rows: seq<Row>, row: Row, e: Edge, c: Column) {
    && row(c).IntSlot?
    && EdgeIn(AllEdges(with, rows, row), e) ==
       (if e in with then Lookup(with[e].Where(KeysAt(rows, c)).All(), NumAt(row, c)) else None)
    && EdgeIn(NaiveEdges(with, row), e) == if e in with then OwnNullable(with[e], row(c).num) else None
  }

  /** Each edge is asked for by its own column, in the batch and in the reference. */
  lemma EdgesByColumn(with: Queries, rows: seq<Row>, row: Row)
    requires ValidRow(row)
    ensures AskedBy(with, rows, row, BazelInvocation, BazelInvocationId)
    ensures AskedBy(with, rows, row, Configuration, ConfigurationId)
    ensures AskedBy(with, rows, row, Stdout, StdoutFileId)
    ensures AskedBy(with, rows, row, Stderr, StderrFileId)
  {
    forall e: Edge
      ensures AskedBy(with, rows, row, e, FkColumn(e))
    {
      KeyCell(row, e);
      assert Fks(rows, e) == KeysAt(rows, FkColumn(e));
      FourIn(WantedBy(with, rows, row), e);
      FourIn(OwnBy(with, row), e);
    }
    assert FkColumn(BazelInvocation) == BazelInvocationId && FkColumn(Configuration) == ConfigurationId;
    assert FkColumn(Stdout) == StdoutFileId && FkColumn(Stderr) == StderrFileId;
  }

  /** Every row gets the edges its own queries would give. */
  ghost predicate EdgesAgree(with: Queries, rows: seq<Row>) {
    forall i :: 0 <= i < |rows| ==> AllEdges(with, rows, rows[i]) == NaiveEdges(with, rows[i])
  }

  /** The batched query gives the row what a query for its nullable key would. */
  ghost predicate KeyAgrees(q: EdgeQuery, rows: seq<Row>, e: Edge, row: Row) {
    Batched(q, Fks(rows, e), Fk(row, e)) == OwnNullable(q, NullableFk(row, e))
  }

  lemma AgreeByEdge(with: Queries, rows: seq<Row>, row: Row)
    ensures AllEdges(with, rows, row) == NaiveEdges(with, row) <==>
      forall e :: e in with ==> KeyAgrees(with[e], rows, e, row)
  {
    var batched, own := WantedBy(with, rows, row), OwnBy(with, row);
    FourAgree(batched, own);
    forall e
      ensures batched(e) == own(e) <==> (e in with ==> KeyAgrees(with[e], rows, e, row))
    {
    }
  }

  /** A NULL foreign key is scanned as 0 and loaded as key 0. One edge is loaded into all rows as
      their own nullable keys say exactly if the matching rows fit the page and none of them has id
      0 while a key is NULL; or if the page cuts off just that one, for which no key asks. */
  lemma NullKeyExact(q: EdgeQuery, rows: seq<Row>, e: Edge)
    requires UniqueIds(q.visible)
    ensures (forall i :: 0 <= i < |rows| ==> KeyAgrees(q, rows, e, rows[i])) <==> FitsNullable(q, NullableFks(rows, e))
  {
    var keys := NullableFks(rows, e);
    FksArePlain(rows, e);
    NullableExact(q, keys);
    forall i | 0 <= i < |rows|
      ensures keys[i] in keys && (KeyAgrees(q, rows, e, rows[i]) <==>
        Batched(q, Plain(keys), keys[i].GetOr(0)) == OwnNullable(q, keys[i]))
    {
      assert keys[i] == NullableFk(rows[i], e);
    }
  }

  ghost predicate AllFit(with: Queries, rows: seq<Row>) {
    forall e :: e in with ==> FitsNullable(with[e], NullableFks(rows, e))
  }

  /** Eager loading is one query per row and edge, for any table contents, any NULL keys and any
      With options, exactly if every batch fits in that sense. */
  lemma EagerIsNaive(with: Queries, rows: seq<Row>)
    requires ValidQueries(with)
    ensures EdgesAgree(with, rows) <==> AllFit(with, rows)
  {
    forall i | 0 <= i < |rows|
      ensures AllEdges(with, rows, rows[i]) == NaiveEdges(with, rows[i]) <==>
        forall e :: e in with ==> KeyAgrees(with[e], rows, e, rows[i])
    {
      AgreeByEdge(with, rows, rows[i]);
    }
    forall e | e in with
      ensures FitsNullable(with[e], NullableFks(rows, e)) <==>
        forall i :: 0 <= i < |rows| ==> KeyAgrees(with[e], rows, e, rows[i])
    {
      NullKeyExact(with[e], rows, e);
    }
  }

  /** No row with a NULL key for the edge, or no neighbour with id 0. */
  ghost predicate ZeroFree(q: EdgeQuery, rows: seq<Row>, e: Edge) {
    (exists i :: 0 <= i < |rows| && NullableFk(rows[i], e).None?) ==> forall n :: n in q.Matching() ==> n.id != 0
  }

  lemma NullListed(rows: seq<Row>, e: Edge)
    ensures None in NullableFks(rows, e) <==> exists i :: 0 <= i < |rows| && NullableFk(rows[i], e).None?
  {
    var keys := NullableFks(rows, e);
    assert forall i :: 0 <= i < |rows| ==> keys[i] == NullableFk(rows[i], e);
    if i :| 0 <= i < |rows| && NullableFk(rows[i], e).None? {
      assert keys[i] in keys;
    }
  }

  /** Without offsets and limits only the NULL keys matter. */
  lemma UnpagedIsNaive(with: Queries, rows: seq<Row>)
    requires ValidQueries(with) && forall e :: e in with ==> with[e].offset == 0 && with[e].limit == 0
    ensures EdgesAgree(with, rows) <==> forall e :: e in with ==> ZeroFree(with[e], rows, e)
  {
    EagerIsNaive(with, rows);
    forall e | e in with
      ensures FitsNullable(with[e], NullableFks(rows, e)) <==> ZeroFree(with[e], rows, e)
    {
      UnpagedZero(with[e], rows, e);
    }
  }

  lemma UnpagedZero(q: EdgeQuery, rows: seq<Row>, e: Edge)
    requires UniqueIds(q.visible) && q.offset == 0 && q.limit == 0
    ensures FitsNullable(q, NullableFks(rows, e)) <==> ZeroFree(q, rows, e)
  {
    var keys := NullableFks(rows, e);
    PlainMembers(keys);
    SelectMembers(q.visible, q.filters);
    SelectMembers(q.visible, q.filters + [Plain(keys)]);
    forall n
      ensures n in q.Where(Plain(keys)).Matching() <==> n in q.Matching() && n.id in Plain(keys)
    {
      PassesMore(n, q.filters, Plain(keys));
    }
    NullListed(rows, e);
    if None in keys {
      assert Option<int>.None.GetOr(0) in Plain(keys);
    }
  }

  lemma ZeroFound(q: EdgeQuery, n: Entity)
    requires q.offset == 0 && q.limit == 0 && n in q.Matching() && n.id == 0
    ensures Batched(q, [0], 0).Some?
  {
    SelectMembers(q.visible, q.filters);
    SelectMembers(q.visible, q.filters + [[0]]);
    PassesMore(n, q.filters, [0]);
    var m := q.Where([0]).Matching();
    assert n in m && Page(m, 0, 0) == m;
  }

  lemma ZeroLoads(q: EdgeQuery, row: Row)
    requires NullableFk(row, Stdout).None? && Batched(q, [0], 0).Some?
    ensures Stdout in AllEdges(map[Stdout := q], [row], row) && Stdout !in NaiveEdges(map[Stdout := q], row)
  {
    assert Fks([row], Stdout) == [0];
    FourIn(WantedBy(map[Stdout := q], [row], row), Stdout);
    FourIn(OwnBy(map[Stdout := q], row), Stdout);
  }

  lemma ZeroFile() returns (q: EdgeQuery)
    ensures UniqueIds(q.visible) && Batched(q, [0], 0).Some?
  {
    q := EdgeQuery([Entity(0, "log")], [], 0, 0);
    SelectMembers(q.visible, q.filters);
    ZeroFound(q, q.visible[0]);
  }

  /** An action without stdout and a file with id 0: the action shows the file. */
  lemma NullKeyLoads() returns (with: Queries, row: Row)
    ensures ValidQueries(with) && ValidRow(row) && NullableFk(row, Stdout).None?
    ensures Stdout in AllEdges(with, [row], row) && Stdout !in NaiveEdges(with, row)
  {
    var q := ZeroFile();
    with, row := map[Stdout := q], NewSlot;
    ZeroLoads(q, row);
  }

  /** Running a query builder again over other rows: the id filter of the first run stays in every
      neighbour query, so the second run gives its rows the edges of a fresh builder exactly when
      the first run asked for every neighbour up to the end of the second page. */
  lemma ReuseExact(w0: Queries, w1: Queries, rows1: seq<Row>, rows2: seq<Row>)
    requires ValidQueries(w0) && RanOver(w0, w1, rows1)
    ensures
      (forall i :: 0 <= i < |rows2| ==> AllEdges(w1, rows2, rows2[i]) == AllEdges(w0, rows2, rows2[i]))
      <==> forall e :: e in w0 ==> Covered(w0[e], Fks(rows1, e), Fks(rows2, e))
  {
    forall i | 0 <= i < |rows2|
      ensures AllEdges(w1, rows2, rows2[i]) == AllEdges(w0, rows2, rows2[i]) <==> RowSame(w0, w1, rows2, rows2[i])
    {
      AgainByEdge(w0, w1, rows2, rows2[i]);
    }
    forall e | e in w0
      ensures Covered(w0[e], Fks(rows1, e), Fks(rows2, e)) <==> EdgeSame(w0[e], w1[e], rows2, e)
    {
      AgainCovered(w0[e], w1[e], Fks(rows1, e), rows2, e);
    }
    RowsOrEdges(w0, w1, rows2);
  }

  ghost predicate RowSame(w0: Queries, w1: Queries, rows: seq<Row>, row: Row)
    requires w1.Keys == w0.Keys
  {
    forall e :: e in w0 ==> SameAt(w0[e], w1[e], Fks(rows, e), Fk(row, e))
  }

  ghost predicate EdgeSame(before: EdgeQuery, after: EdgeQuery, rows: seq<Row>, e: Edge) {
    forall i :: 0 <= i < |rows| ==> SameAt(before, after, Fks(rows, e), Fk(rows[i], e))
  }

  lemma RowsOrEdges(w0: Queries, w1: Queries, rows: seq<Row>)
    requires w1.Keys == w0.Keys
    ensures (forall i :: 0 <= i < |rows| ==> RowSame(w0, w1, rows, rows[i])) <==>
      forall e :: e in w0 ==> EdgeSame(w0[e], w1[e], rows, e)
  {
  }

  ghost predicate SameAt(before: EdgeQuery, after: EdgeQuery, keys: seq<int>, fk: int) {
    Batched(after, keys, fk) == Batched(before, keys, fk)
  }

  lemma AgainByEdge(w0: Queries, w1: Queries, rows: seq<Row>, row: Row)
    requires w1.Keys == w0.Keys
    ensures AllEdges(w1, rows, row) == AllEdges(w0, rows, row) <==> RowSame(w0, w1, rows, row)
  {
    var again, once := WantedBy(w1, rows, row), WantedBy(w0, rows, row);
    FourAgree(again, once);
    assert forall e :: e in w1 <==> e in w1.Keys;
    forall e
      ensures again(e) == once(e) <==> (e in w0 ==> SameAt(w0[e], w1[e], Fks(rows, e), Fk(row, e)))
    {
    }
  }

  lemma AgainCovered(before: EdgeQuery, after: EdgeQuery, first: seq<int>, rows: seq<Row>, e: Edge)
    requires UniqueIds(before.visible) && Narrowed(before, after, first)
    ensures Covered(before, first, Fks(rows, e)) <==> EdgeSame(before, after, rows, e)
  {
    var second := Fks(rows, e);
    var ids :| after == before.Where(ids) && SameMembers(ids, first);
    AgainExact(before, ids, second);
    assert Covered(before, ids, second) <==> Covered(before, first, second);
    SameByRow(after.Where(second).All(), before.Where(second).All(), rows, e);
  }

  lemma SameByRow(a: seq<Entity>, b: seq<Entity>, rows: seq<Row>, e: Edge)
    ensures SameLookups(a, b, Fks(rows, e)) <==>
      forall i :: 0 <= i < |rows| ==> Lookup(a, Fk(rows[i], e)) == Lookup(b, Fk(rows[i], e))
  {
    var keys := Fks(rows, e);
    assert SameLookups(a, b, keys) <==> forall i :: 0 <= i < |keys| ==> Lookup(a, keys[i]) == Lookup(b, keys[i]);
    assert forall i :: 0 <= i < |rows| ==> keys[i] == Fk(rows[i], e);
  }

  /** The same builder run first over an action with file 1, then over one with file 2: the second
      action has no file. */
  lemma ReuseLoses() returns (q: EdgeQuery)
    ensures UniqueIds(q.visible) && Batched(q, [2], 2).Some? && Batched(q.Where([1]), [2], 2).None?
  {
    q := EdgeQuery([Entity(1, "out"), Entity(2, "err")], [], 0, 0);
    var rows := q.Where([2]).Matching();
    SelectMembers(q.visible, q.filters + [[2]]);
    PassesMore(q.visible[1], [], [2]);
    assert q.visible[1] in rows;
    SelectMembers(q.visible, q.filters + [[1]] + [[2]]);
    forall n
      ensures n !in q.Where([1]).Where([2]).Matching()
    {
      PassesMore(n, q.filters + [[1]], [2]);
      PassesMore(n, q.filters, [1]);
    }
    PageMembers(q.Where([1]).Where([2]).Matching(), 0, 0);
  }
}
