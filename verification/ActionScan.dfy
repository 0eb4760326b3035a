/** Scanning database rows into Action entities (ent/gen/ent/action.go, scanValues and
    assignValues). */
module ActionScan {
  import opened Wrappers
  import opened Scanning

  datatype Column =
    | Id | BazelInvocationId | ConfigurationId | Label | Type | Success | ExitCode | CommandLine
    | StartTime | EndTime | FailureCode | FailureMessage | StdoutFileId | StderrFileId
    | Other(name: string)

  /** The scan targets: nullable integers, strings, booleans and times, raw bytes, and the
      target for a column the entity does not know. A NULL integer reads as 0. */
  datatype Slot =
    | IntSlot(num: Option<int>)
    | StringSlot(str: Option<string>)
    | BoolSlot(flag: Option<bool>)
    | TimeSlot(time: Option<int>)
    | BytesSlot(bytes: string)
    | UnknownSlot(raw: Option<string>)

  datatype ScanError = Mismatch | UnexpectedType(column: Column) | Unmarshal

  type Decoder = string -> Option<seq<string>>

  datatype Fields = Fields(
    id: int, bazelInvocationId: int, configurationId: int, labelText: string, kind: string,
    success: bool, exitCode: int, commandLine: seq<string>, startTime: int, endTime: int,
    failureCode: string, failureMessage: string, stdoutFileId: int, stderrFileId: int,
    selectValues: map<Column, Slot>)

  const ZERO := Fields(0, 0, 0, "", "", false, 0, [], 0, 0, "", "", 0, 0, map[])

  /** The conversion int32(v). */
  function ToInt32(v: int): int {
    (v + 0x8000_0000) % 0x1_0000_0000 - 0x8000_0000
  }

  function NewSlot(c: Column): Slot {
    match c
    case CommandLine => BytesSlot("")
    case Success => BoolSlot(None)
    case Id | BazelInvocationId | ConfigurationId | ExitCode | StdoutFileId | StderrFileId => IntSlot(None)
    case Label | Type | FailureCode | FailureMessage => StringSlot(None)
    case StartTime | EndTime => TimeSlot(None)
    case Other(_) => UnknownSlot(None)
  }

  predicate SameKind(a: Slot, b: Slot) {
    || (a.IntSlot? && b.IntSlot?) || (a.StringSlot? && b.StringSlot?) || (a.BoolSlot? && b.BoolSlot?)
    || (a.TimeSlot? && b.TimeSlot?) || (a.BytesSlot? && b.BytesSlot?) || (a.UnknownSlot? && b.UnknownSlot?)
  }

  method ScanValues(columns: seq<Column>) returns (values: seq<Slot>)
    ensures |values| == |columns|
    ensures forall i :: 0 <= i < |columns| ==> values[i] == NewSlot(columns[i])
  {
    values := [];
    for i := 0 to |columns|
      invariant |values| == i
      invariant forall j :: 0 <= j < i ==> values[j] == NewSlot(columns[j])
    {
      values := values + [NewSlot(columns[i])];
    }
  }

  /** The driver fills the allocated slots without changing their kind. */
  ghost predicate Filled(columns: seq<Column>, values: seq<Slot>) {
    |values| == |columns| && forall i :: 0 <= i < |columns| ==> SameKind(NewSlot(columns[i]), values[i])
  }

  /** One case of the switch in assignValues. */
  function Assign(f: Fields, c: Column, v: Slot, decode: Decoder): Result<Fields, ScanError> {
    match c
    case Id => if v.IntSlot? then Ok(f.(id := v.num.GetOr(0))) else Err(UnexpectedType(c))
    case BazelInvocationId =>
      if v.IntSlot? then Ok(f.(bazelInvocationId := v.num.GetOr(f.bazelInvocationId))) else Err(UnexpectedType(c))
    case ConfigurationId =>
      if v.IntSlot? then Ok(f.(configurationId := v.num.GetOr(f.configurationId))) else Err(UnexpectedType(c))
    case Label => if v.StringSlot? then Ok(f.(labelText := v.str.GetOr(f.labelText))) else Err(UnexpectedType(c))
    case Type => if v.StringSlot? then Ok(f.(kind := v.str.GetOr(f.kind))) else Err(UnexpectedType(c))
    case Success => if v.BoolSlot? then Ok(f.(success := v.flag.GetOr(f.success))) else Err(UnexpectedType(c))
    case ExitCode =>
      if v.IntSlot? then Ok(if v.num.Some? then f.(exitCode := ToInt32(v.num.value)) else f)
      else Err(UnexpectedType(c))
    case CommandLine =>
      if !v.BytesSlot? then Err(UnexpectedType(c))
      else if v.bytes == "" then Ok(f)
      else if decode(v.bytes).None? then Err(Unmarshal)
      else Ok(f.(commandLine := decode(v.bytes).value))
    case StartTime => if v.TimeSlot? then Ok(f.(startTime := v.time.GetOr(f.startTime))) else Err(UnexpectedType(c))
    case EndTime => if v.TimeSlot? then Ok(f.(endTime := v.time.GetOr(f.endTime))) else Err(UnexpectedType(c))
    case FailureCode =>
      if v.StringSlot? then Ok(f.(failureCode := v.str.GetOr(f.failureCode))) else Err(UnexpectedType(c))
    case FailureMessage =>
      if v.StringSlot? then Ok(f.(failureMessage := v.str.GetOr(f.failureMessage))) else Err(UnexpectedType(c))
    case StdoutFileId =>
      if v.IntSlot? then Ok(f.(stdoutFileId := v.num.GetOr(f.stdoutFileId))) else Err(UnexpectedType(c))
    case StderrFileId =>
      if v.IntSlot? then Ok(f.(stderrFileId := v.num.GetOr(f.stderrFileId))) else Err(UnexpectedType(c))
    case Other(_) => Ok(f.(selectValues := f.selectValues[c := v]))
  }

  function Step(decode: Decoder): (Fields, Column, Slot) -> Result<Fields, ScanError> {
    (f, c, v) => Assign(f, c, v, decode)
  }

  /** The first n columns assigned in order, stopping at the first error. */
  function AssignFirst(f: Fields, columns: seq<Column>, values: seq<Slot>, decode: Decoder, n: nat)
    : Result<Fields, ScanError>
    requires n <= |columns| <= |values|
  {
    Fold(Step(decode), f, columns, values, n)
  }

  function AssignAll(f: Fields, columns: seq<Column>, values: seq<Slot>, decode: Decoder): Result<Fields, ScanError> {
    if |values| < |columns| then Err(Mismatch) else AssignFirst(f, columns, values, decode, |columns|)
  }

  // ---------------------------------------------------------------- what the fields end with

  ghost predicate Undecodable(c: Column, v: Slot, decode: Decoder) {
    c == CommandLine && v.BytesSlot? && v.bytes != "" && decode(v.bytes).None?
  }

  /** What scanValues allocated never meets a type error, duplicate and unknown columns included:
      the only failure is a command line that is not valid JSON. */
  lemma {:induction false} AcceptsScanned(f: Fields, columns: seq<Column>, values: seq<Slot>, decode: Decoder, n: nat)
    requires Filled(columns, values) && n <= |columns|
    ensures AssignFirst(f, columns, values, decode, n).Err? <==>
      exists i :: 0 <= i < n && Undecodable(columns[i], values[i], decode)
    ensures AssignFirst(f, columns, values, decode, n).Err? ==>
      AssignFirst(f, columns, values, decode, n) == Err(Unmarshal)
    decreases n
  {
    if n > 0 {
      AcceptsScanned(f, columns, values, decode, n - 1);
      assert SameKind(NewSlot(columns[n - 1]), values[n - 1]);
    }
  }

  /** The kind of value a column takes; an unknown one takes any. */
  ghost predicate Takes(c: Column, v: Slot) {
    match c
    case Id | BazelInvocationId | ConfigurationId | ExitCode | StdoutFileId | StderrFileId => v.IntSlot?
    case Label | Type | FailureCode | FailureMessage => v.StringSlot?
    case Success => v.BoolSlot?
    case CommandLine => v.BytesSlot?
    case StartTime | EndTime => v.TimeSlot?
    case Other(_) => true
  }

  ghost predicate Assignable(columns: seq<Column>, values: seq<Slot>, decode: Decoder, k: nat)
    requires |columns| <= |values|
  {
    k < |columns| && Takes(columns[k], values[k]) && !Undecodable(columns[k], values[k], decode)
  }

  /** Whatever the driver delivers: the first value that cannot be assigned decides the error, ... */
  lemma {:induction false} FirstError(f: Fields, columns: seq<Column>, values: seq<Slot>, decode: Decoder, n: nat)
    returns (k: nat)
    requires n <= |columns| <= |values|
    ensures k <= n && forall j :: 0 <= j < k ==> Assignable(columns, values, decode, j)
    ensures AssignFirst(f, columns, values, decode, n).Ok? <==> k == n
    ensures k < n ==> !Assignable(columns, values, decode, k)
    ensures k < n ==>
      AssignFirst(f, columns, values, decode, n) ==
      Err(if Takes(columns[k], values[k]) then Unmarshal else UnexpectedType(columns[k]))
    decreases n
  {
    k := 0;
    if n > 0 {
      k := FirstError(f, columns, values, decode, n - 1);
      if k == n - 1 && Assignable(columns, values, decode, k) {
        k := n;
      }
    }
  }

  /** ... after the one for too few values. */
  lemma AssignExact(f: Fields, columns: seq<Column>, values: seq<Slot>, decode: Decoder)
    ensures AssignAll(f, columns, values, decode) == Err(Mismatch) <==> |values| < |columns|
    ensures AssignAll(f, columns, values, decode).Ok? <==>
      |columns| <= |values| && forall k :: 0 <= k < |columns| ==> Assignable(columns, values, decode, k)
  {
    if |columns| <= |values| {
      var k := FirstError(f, columns, values, decode, |columns|);
    }
  }

  /** Not null; for raw bytes, empty counts as null. */
  predicate Present(v: Slot) {
    match v
    case IntSlot(num) => num.Some?
    case StringSlot(str) => str.Some?
    case BoolSlot(flag) => flag.Some?
    case TimeSlot(time) => time.Some?
    case BytesSlot(bytes) => bytes != ""
    case UnknownSlot(_) => true
  }

  /** The last non-null value of a column among the first n, if any. */
  function LastValid(columns: seq<Column>, values: seq<Slot>, c: Column, n: nat): Option<Slot>
    requires n <= |columns| <= |values|
  {
    LastPresent(columns, values, c, Present, n)
  }

  /** The columns with one plain value; ids, command lines and unknown columns are special. */
  predicate PlainColumn(c: Column) {
    !c.Id? && !c.CommandLine? && !c.Other?
  }

  /** A plain field as the slot a row would hold for it. */
  function Read(f: Fields, c: Column): Slot
    requires PlainColumn(c)
  {
    match c
    case BazelInvocationId => IntSlot(Some(f.bazelInvocationId))
    case ConfigurationId => IntSlot(Some(f.configurationId))
    case StdoutFileId => IntSlot(Some(f.stdoutFileId))
    case StderrFileId => IntSlot(Some(f.stderrFileId))
    case ExitCode => IntSlot(Some(f.exitCode))
    case Label => StringSlot(Some(f.labelText))
    case Type => StringSlot(Some(f.kind))
    case FailureCode => StringSlot(Some(f.failureCode))
    case FailureMessage => StringSlot(Some(f.failureMessage))
    case Success => BoolSlot(Some(f.success))
    case StartTime => TimeSlot(Some(f.startTime))
    case EndTime => TimeSlot(Some(f.endTime))
  }

  /** Only the exit code changes on its way into the field: it is cut to 32 bits. */
  function Stored(c: Column, v: Slot): Slot {
    if c.ExitCode? && v.IntSlot? && v.num.Some? then IntSlot(Some(ToInt32(v.num.value))) else v
  }

  /** One column writes its own field, if it is not null, and no other plain field. */
  lemma AssignReads(f: Fields, c: Column, v: Slot, decode: Decoder, d: Column)
    requires PlainColumn(d) && Assign(f, c, v, decode).Ok?
    ensures Read(Assign(f, c, v, decode).value, d) == if c == d && Present(v) then Stored(c, v) else Read(f, d)
  {
  }

  /** Every key, string, time, flag and exit code field ends with its last non-null value, or keeps
      what it had; the exit code is cut to 32 bits. */
  lemma {:induction false} LastValue(f: Fields, columns: seq<Column>, values: seq<Slot>, decode: Decoder,
                                      n: nat, c: Column)
    requires n <= |columns| <= |values| && AssignFirst(f, columns, values, decode, n).Ok?
    requires PlainColumn(c)
    ensures
      var last := LastValid(columns, values, c, n);
      Read(AssignFirst(f, columns, values, decode, n).value, c) ==
        if last.Some? then Stored(c, last.value) else Read(f, c)
    decreases n
  {
    if n > 0 {
      LastValue(f, columns, values, decode, n - 1, c);
      var g := AssignFirst(f, columns, values, decode, n - 1).value;
      AssignReads(g, columns[n - 1], values[n - 1], decode, c);
    }
  }

  /** The 32-bit integer that agrees with the value modulo 2^32. */
  predicate CutTo32(v: int, x: int) {
    -0x8000_0000 <= x < 0x8000_0000 && (x - v) % 0x1_0000_0000 == 0
  }

  lemma CutValue(v: int)
    ensures CutTo32(v, ToInt32(v)) && (CutTo32(v, v) ==> ToInt32(v) == v)
  {
    var q := (v + 0x8000_0000) / 0x1_0000_0000;
    assert v + 0x8000_0000 == 0x1_0000_0000 * q + (v + 0x8000_0000) % 0x1_0000_0000;
    assert ToInt32(v) - v == 0x1_0000_0000 * (-q);
    Multiple(-q);
  }

  lemma Multiple(q: int)
    ensures (0x1_0000_0000 * q) % 0x1_0000_0000 == 0
  {
  }

  /** The exit code ends as the 32-bit integer congruent to its last non-null value, which is that
      value itself if it fits. */
  lemma ExitCodeExact(f: Fields, columns: seq<Column>, values: seq<Slot>, decode: Decoder, n: nat)
    requires n <= |columns| <= |values| && AssignFirst(f, columns, values, decode, n).Ok?
    ensures
      var x := AssignFirst(f, columns, values, decode, n).value.exitCode;
      match LastValid(columns, values, ExitCode, n)
      case Some(IntSlot(Some(v))) => CutTo32(v, x) && (-0x8000_0000 <= v < 0x8000_0000 ==> x == v)
      case None => x == f.exitCode
      case _ => false
  {
    LastValue(f, columns, values, decode, n, ExitCode);
    LastIsInt(f, columns, values, decode, n);
    match LastValid(columns, values, ExitCode, n)
    case Some(IntSlot(Some(v))) => CutValue(v);
    case _ =>
  }

  lemma {:induction false} LastIsInt(f: Fields, columns: seq<Column>, values: seq<Slot>, decode: Decoder, n: nat)
    requires n <= |columns| <= |values| && AssignFirst(f, columns, values, decode, n).Ok?
    ensures
      var last := LastValid(columns, values, ExitCode, n);
      last.Some? ==> last.value.IntSlot? && last.value.num.Some?
    decreases n
  {
    if n > 0 {
      LastIsInt(f, columns, values, decode, n - 1);
    }
  }

  lemma AssignCommand(f: Fields, c: Column, v: Slot, decode: Decoder)
    requires Assign(f, c, v, decode).Ok?
    ensures
      var g := Assign(f, c, v, decode).value;
      if c.CommandLine? && Present(v) then v.BytesSlot? && decode(v.bytes) == Some(g.commandLine)
      else g.commandLine == f.commandLine
    ensures Assign(f, c, v, decode).value.id ==
      if c.Id? then (if v.IntSlot? then v.num.GetOr(0) else 0) else f.id
    ensures c.Id? ==> v.IntSlot?
  {
  }

  /** The command line ends as the decoding of its last non-empty value, or as it was. */
  lemma {:induction false} LastCommand(f: Fields, columns: seq<Column>, values: seq<Slot>, decode: Decoder, n: nat)
    requires n <= |columns| <= |values| && AssignFirst(f, columns, values, decode, n).Ok?
    ensures
      var g := AssignFirst(f, columns, values, decode, n).value;
      var last := LastValid(columns, values, CommandLine, n);
      if last.Some? then last.value.BytesSlot? && decode(last.value.bytes) == Some(g.commandLine)
      else g.commandLine == f.commandLine
    decreases n
  {
    if n > 0 {
      LastCommand(f, columns, values, decode, n - 1);
      var g := AssignFirst(f, columns, values, decode, n - 1).value;
      AssignCommand(g, columns[n - 1], values[n - 1], decode);
    }
  }

  /** The id is the exception: its last occurrence counts even when it is null, and reads as 0. */
  lemma {:induction false} LastId(f: Fields, columns: seq<Column>, values: seq<Slot>, decode: Decoder, n: nat)
    requires n <= |columns| <= |values| && AssignFirst(f, columns, values, decode, n).Ok?
    ensures
      var k := LastAt(columns, Id, n);
      AssignFirst(f, columns, values, decode, n).value.id ==
        if k == 0 then f.id else if values[k - 1].IntSlot? then values[k - 1].num.GetOr(0) else 0
    ensures LastAt(columns, Id, n) > 0 ==> values[LastAt(columns, Id, n) - 1].IntSlot?
    decreases n
  {
    if n > 0 {
      LastId(f, columns, values, decode, n - 1);
      var g := AssignFirst(f, columns, values, decode, n - 1).value;
      AssignCommand(g, columns[n - 1], values[n - 1], decode);
    }
  }

  /** The last non-null id, or the one that was there. */
  function LastNonNullId(f: Fields, columns: seq<Column>, values: seq<Slot>, n: nat): int
    requires n <= |columns| <= |values|
  {
    match LastValid(columns, values, Id, n)
    case Some(IntSlot(Some(id))) => id
    case _ => f.id
  }

  /** So the id ends with its last non-null value exactly when its last occurrence is not null,
      or nothing but nulls came before and the field was 0. */
  lemma IdLastNonNullExact(f: Fields, columns: seq<Column>, values: seq<Slot>, decode: Decoder)
    requires |columns| <= |values| && AssignAll(f, columns, values, decode).Ok?
    ensures
      var k := LastAt(columns, Id, |columns|);
      var last := LastNonNullId(f, columns, values, |columns|);
      AssignAll(f, columns, values, decode).value.id == last <==>
        k == 0 || (values[k - 1].IntSlot? && values[k - 1].num.Some?) || last == 0
  {
    LastId(f, columns, values, decode, |columns|);
    LastValidAt(columns, values, |columns|);
  }

  lemma {:induction false} LastValidAt(columns: seq<Column>, values: seq<Slot>, n: nat)
    requires n <= |columns| <= |values|
    ensures
      var k := LastAt(columns, Id, n);
      && (k == 0 ==> LastValid(columns, values, Id, n).None?)
      && (k > 0 && Present(values[k - 1]) ==> LastValid(columns, values, Id, n) == Some(values[k - 1]))
    decreases n
  {
    if n > 0 {
      LastValidAt(columns, values, n - 1);
    }
  }

  /** The id 5 followed by a NULL ends as 0. */
  lemma IdLost(decode: Decoder)
    ensures
      var columns, values := [Id, Id], [IntSlot(Some(5)), IntSlot(None)];
      && AssignAll(ZERO, columns, values, decode).Ok?
      && AssignAll(ZERO, columns, values, decode).value.id == 0 && LastNonNullId(ZERO, columns, values, 2) == 5
  {
    var columns, values := [Id, Id], [IntSlot(Some(5)), IntSlot(None)];
    assert AssignFirst(ZERO, columns, values, decode, 0) == Ok(ZERO);
    assert AssignFirst(ZERO, columns, values, decode, 1) == Ok(ZERO.(id := 5));
    assert LastValid(columns, values, Id, 1) == Some(IntSlot(Some(5)));
  }

  lemma AssignSelects(f: Fields, c: Column, v: Slot, decode: Decoder)
    requires Assign(f, c, v, decode).Ok?
    ensures Assign(f, c, v, decode).value.selectValues ==
      if c.Other? then f.selectValues[c := v] else f.selectValues
  {
  }

  /** An unknown column ends in selectValues with its last value ... */
  lemma {:induction false} UnknownColumns(f: Fields, columns: seq<Column>, values: seq<Slot>, decode: Decoder,
                                      n: nat, c: Column)
    requires n <= |columns| <= |values| && AssignFirst(f, columns, values, decode, n).Ok?
    requires c.Other?
    ensures
      var g := AssignFirst(f, columns, values, decode, n).value;
      var k := LastAt(columns, c, n);
      if k > 0 then c in g.selectValues && g.selectValues[c] == values[k - 1]
      else (c in g.selectValues <==> c in f.selectValues) &&
           (c in f.selectValues ==> g.selectValues[c] == f.selectValues[c])
    decreases n
  {
    if n > 0 {
      UnknownColumns(f, columns, values, decode, n - 1, c);
      var g := AssignFirst(f, columns, values, decode, n - 1).value;
      AssignSelects(g, columns[n - 1], values[n - 1], decode);
    }
  }

  /** ... a known column never gets there ... */
  lemma {:induction false} KnownColumns(f: Fields, columns: seq<Column>, values: seq<Slot>, decode: Decoder,
                                      n: nat, c: Column)
    requires n <= |columns| <= |values| && AssignFirst(f, columns, values, decode, n).Ok?
    requires !c.Other?
    ensures
      var g := AssignFirst(f, columns, values, decode, n).value;
      (c in g.selectValues <==> c in f.selectValues) &&
        (c in f.selectValues ==> g.selectValues[c] == f.selectValues[c])
    decreases n
  {
    if n > 0 {
      KnownColumns(f, columns, values, decode, n - 1, c);
      var g := AssignFirst(f, columns, values, decode, n - 1).value;
      AssignSelects(g, columns[n - 1], values[n - 1], decode);
    }
  }

  /** ... and unknown columns change nothing else. */
  lemma {:induction false} OnlyUnknownColumns(f: Fields, columns: seq<Column>, values: seq<Slot>, decode: Decoder, n: nat)
    requires n <= |columns| <= |values|
    requires forall i :: 0 <= i < n ==> columns[i].Other?
    ensures AssignFirst(f, columns, values, decode, n).Ok?
    ensures AssignFirst(f, columns, values, decode, n).value.(selectValues := f.selectValues) == f
    decreases n
  {
    if n > 0 {
      OnlyUnknownColumns(f, columns, values, decode, n - 1);
    }
  }
}
