/** The extraction orchestrator (hooks/useOcr.ts): `processImages` runs the
    files one after another, dispatching progress actions, tags every row
    with its file name, de-duplicates the collected rows with a `Map` and
    ends with exactly one terminal action.

    The encoder and the recognition service are not part of this model: what
    they do for each file arrives as an `Outcome`. Dispatched actions are
    returned in order instead of being sent to `dispatch`, and every log
    entry carries the same opaque `clock` text in place of the local time. */
module Ocr {
  import opened Seqs
  import opened Types
  import opened Reducer

  /** A value thrown by the encoder or the recognition service: an `Error`
      with its message, or any other value with its JavaScript truthiness. */
  datatype Thrown = ErrorObject(message: string) | OtherValue(truthy: bool)

  /** What happened to one file: encoding threw, extraction threw, or
      extraction returned these rows. */
  datatype Outcome =
    | EncodeFail(encodeError: Thrown)
    | ExtractFail(extractError: Thrown)
    | Extracted(rows: seq<Row>)

  predicate Truthy(t: Thrown) {
    t.ErrorObject? || t.truthy
  }

  /** `err instanceof Error ? err.message : "An unknown error occurred."` */
  function MessageOf(t: Thrown): string {
    if t.ErrorObject? then t.message else "An unknown error occurred."
  }

  function ThrownBy(o: Outcome): Option<Thrown> {
    match o
    case EncodeFail(t) => Some(t)
    case ExtractFail(t) => Some(t)
    case Extracted(_) => None
  }

  const NoFilesAlert: AppError :=
    AppError(WarningAlert, "No files", "Please select at least one image file to process.")

  const NoDataAlert: AppError :=
    AppError(InfoAlert, "No Data Extracted",
             "Finished processing, but no structured data could be extracted from the selected files.")

  function FailedAlert(t: Thrown): AppError {
    AppError(ErrorAlert, "Processing Failed",
             "Could not extract data from any files. Last error: " + MessageOf(t))
  }

  /** `dispatch({ type: 'ADD_PROGRESS_LOG', payload: createLog(message, kind) })` */
  function Log(clock: string, message: string, kind: LogType): AppAction {
    AddProgressLog(ProgressLogEntry(clock, message, kind))
  }

  function Quoted(name: string): string {
    "\"" + name + "\""
  }

  /** Decimal text of a count, as a template literal prints it. */
  function NatToString(n: nat): string
    decreases n
  {
    if n < 10 then ["0123456789"[n]] else NatToString(n / 10) + ["0123456789"[n % 10]]
  }

  // ---------------------------------------------------------------------
  // Tagging: `{ source_file: file.name, ...row }`.

  /** Property assignment on an object: an existing key keeps its place and
      takes the new value, a new key goes last. */
  function Assign(obj: Row, k: string, v: Json): Row
  {
    if obj == [] then [(k, v)]
    else if obj[0].0 == k then [(k, v)] + obj[1..]
    else [obj[0]] + Assign(obj[1..], k, v)
  }

  /** Object spread: the own properties of `row`, in order, assigned onto `obj`. */
  function SpreadInto(obj: Row, row: Row): Row
    decreases row
  {
    if row == [] then obj else SpreadInto(Assign(obj, row[0].0, row[0].1), row[1..])
  }

  function Tag(name: string, row: Row): Row {
    SpreadInto([(SourceFile, JStr(name))], row)
  }

  function TagAll(name: string, rows: seq<Row>): (tagged: seq<Row>)
    ensures |tagged| == |rows|
  {
    seq(|rows|, i requires 0 <= i < |rows| => Tag(name, rows[i]))
  }

  /** `row` without the pairs whose key is `k`. */
  function RemoveKey(row: Row, k: string): (r: Row)
    ensures forall x :: x in Keys(r) <==> x in Keys(row) && x != k
  {
    if row == [] then []
    else
      var tail := RemoveKey(row[1..], k);
      assert row == [row[0]] + row[1..];
      KeysCons(row[0], row[1..]);
      KeysCons(row[0], tail);
      if row[0].0 == k then tail else [row[0]] + tail
  }

  /** The value of the first pair with key `k`, or `default`. */
  function ValueOr(row: Row, k: string, default: Json): Json
  {
    if row == [] then default else if row[0].0 == k then row[0].1 else ValueOr(row[1..], k, default)
  }

  lemma KeysCons(p: (string, Json), row: Row)
    ensures Keys([p] + row) == [p.0] + Keys(row)
  {
  }

  lemma {:induction false} AssignNewKey(obj: Row, k: string, v: Json)
    requires k !in Keys(obj)
    ensures Assign(obj, k, v) == obj + [(k, v)]
  {
    if obj != [] {
      KeysCons(obj[0], obj[1..]);
      assert obj == [obj[0]] + obj[1..];
      AssignNewKey(obj[1..], k, v);
    }
  }

  lemma {:induction false} SpreadAfterSourceFile(v: Json, rest: Row, row: Row)
    requires SourceFile !in Keys(rest)
    requires forall x :: x in Keys(row) ==> x !in Keys(rest)
    requires DistinctKeys(row)
    ensures SpreadInto([(SourceFile, v)] + rest, row)
         == [(SourceFile, ValueOr(row, SourceFile, v))] + rest + RemoveKey(row, SourceFile)
    decreases row
  {
    if row != [] {
      var k0, v0 := row[0].0, row[0].1;
      var tail := row[1..];
      HeadAndTailKeys(row);
      if k0 == SourceFile {
        SpreadAfterSourceFile(v0, rest, tail);
        SpreadSourceFileFirst(v, rest, row);
      } else {
        var rest' := rest + [(k0, v0)];
        assert Keys(rest') == Keys(rest) + [k0];
        SpreadAfterSourceFile(v, rest', tail);
        SpreadOtherFirst(v, rest, row);
      }
    }
  }

  /** The first key of a row with distinct keys is not among the others,
      which are distinct too. */
  lemma HeadAndTailKeys(row: Row)
    requires row != [] && DistinctKeys(row)
    ensures Keys(row) == [row[0].0] + Keys(row[1..])
    ensures row[0].0 !in Keys(row[1..]) && DistinctKeys(row[1..])
  {
    var tail := row[1..];
    KeysCons(row[0], tail);
    assert row == [row[0]] + tail;
    forall i, j | 0 <= i < j < |tail| ensures Keys(tail)[i] != Keys(tail)[j] {
      assert Keys(tail)[i] == Keys(row)[i + 1] && Keys(tail)[j] == Keys(row)[j + 1];
    }
  }

  /** Spreading a row whose first key is `source_file`: that value replaces
      the one in front and the rest of the row is spread after. */
  lemma SpreadSourceFileFirst(v: Json, rest: Row, row: Row)
    requires row != [] && row[0].0 == SourceFile && DistinctKeys(row)
    requires SpreadInto([(SourceFile, row[0].1)] + rest, row[1..])
          == [(SourceFile, ValueOr(row[1..], SourceFile, row[0].1))] + rest + RemoveKey(row[1..], SourceFile)
    ensures SpreadInto([(SourceFile, v)] + rest, row)
         == [(SourceFile, ValueOr(row, SourceFile, v))] + rest + RemoveKey(row, SourceFile)
  {
    HeadAndTailKeys(row);
    assert Assign([(SourceFile, v)] + rest, SourceFile, row[0].1) == [(SourceFile, row[0].1)] + rest;
    ValueOrAbsent(row[1..], SourceFile, row[0].1);
  }

  /** Spreading a row whose first key is another one: it goes after `rest`. */
  lemma SpreadOtherFirst(v: Json, rest: Row, row: Row)
    requires row != [] && row[0].0 != SourceFile && row[0].0 !in Keys(rest)
    requires SpreadInto([(SourceFile, v)] + (rest + [row[0]]), row[1..])
          == [(SourceFile, ValueOr(row[1..], SourceFile, v))] + (rest + [row[0]]) + RemoveKey(row[1..], SourceFile)
    ensures SpreadInto([(SourceFile, v)] + rest, row)
         == [(SourceFile, ValueOr(row, SourceFile, v))] + rest + RemoveKey(row, SourceFile)
  {
    AssignAfterSourceFile(v, rest, row[0]);
    assert RemoveKey(row, SourceFile) == [row[0]] + RemoveKey(row[1..], SourceFile);
    assert ValueOr(row, SourceFile, v) == ValueOr(row[1..], SourceFile, v);
    ReassociatePairs([(SourceFile, ValueOr(row, SourceFile, v))], rest, [row[0]], RemoveKey(row[1..], SourceFile));
  }

  /** A new key other than `source_file` is assigned at the end. */
  lemma AssignAfterSourceFile(v: Json, rest: Row, p: (string, Json))
    requires p.0 != SourceFile && p.0 !in Keys(rest)
    ensures Assign([(SourceFile, v)] + rest, p.0, p.1) == [(SourceFile, v)] + (rest + [p])
  {
    AssignNewKey(rest, p.0, p.1);
    var obj := [(SourceFile, v)] + rest;
    assert obj[0].0 != p.0 && obj[1..] == rest;
    assert [p] == [(p.0, p.1)];
  }

  lemma ReassociatePairs(a: Row, b: Row, c: Row, d: Row)
    ensures a + (b + c) + d == a + b + (c + d)
  {
  }

  lemma {:induction false} ValueOrAbsent(row: Row, k: string, default: Json)
    requires k !in Keys(row)
    ensures ValueOr(row, k, default) == default
  {
    if row != [] {
      KeysCons(row[0], row[1..]);
      assert row == [row[0]] + row[1..];
      ValueOrAbsent(row[1..], k, default);
    }
  }

  /** A tagged row has `source_file` as its first key, with the row's own
      `source_file` value when it had one and the file name otherwise,
      followed by all of the row's other pairs in their order. */
  lemma TagShape(name: string, row: Row)
    requires DistinctKeys(row)
    ensures Tag(name, row)
         == [(SourceFile, ValueOr(row, SourceFile, JStr(name)))] + RemoveKey(row, SourceFile)
    ensures Tag(name, row)[0].0 == SourceFile
  {
    SpreadAfterSourceFile(JStr(name), [], row);
    assert [(SourceFile, JStr(name))] + [] == [(SourceFile, JStr(name))];
  }

  // ---------------------------------------------------------------------
  // De-duplication: `new Map(allData.map(row => [JSON.stringify(rest), row]))`.

  /** `const { source_file, ...rest } = row`: the de-duplication key.
      Distinct keys stand for distinct `JSON.stringify` texts. */
  function Strip(row: Row): Row {
    RemoveKey(row, SourceFile)
  }

  function Strips(rows: seq<Row>): (keys: seq<Row>)
    ensures |keys| == |rows|
    ensures forall i :: 0 <= i < |rows| ==> keys[i] == Strip(rows[i])
  {
    seq(|rows|, i requires 0 <= i < |rows| => Strip(rows[i]))
  }

  /** What `Array.from(map.values())` yields: one row per distinct key, in
      the order of the key's first occurrence, each the LAST row with that
      key (a `Map` keeps a key's first position and its latest value). */
  function Dedup(rows: seq<Row>): (unique: seq<Row>)
    ensures |unique| == |Distinct(Strips(rows))|
  {
    var keys := Distinct(Strips(rows));
    seq(|keys|, j requires 0 <= j < |keys| => rows[LastIndex(Strips(rows), keys[j])])
  }

  /** `new Map(entries)`: successive insert-or-overwrite. The map is kept as
      its keys in insertion order and its key-to-value table. */
  method BuildMap(rows: seq<Row>) returns (order: seq<Row>, latest: map<Row, Row>)
    ensures order == Distinct(Strips(rows))
    ensures forall k :: k in latest <==> k in Strips(rows)
    ensures forall k :: k in latest ==> latest[k] == rows[LastIndex(Strips(rows), k)]
  {
    ghost var keys := Strips(rows);
    order := [];
    latest := map[];
    for i := 0 to |rows|
      invariant MapOf(keys, rows, i, order, latest)
    {
      var key := Strip(rows[i]);
      MapStep(keys, i, order, latest, rows);
      if key !in latest {
        order := order + [key];
      }
      latest := latest[key := rows[i]];
    }
    WholePrefix(keys);
  }

  /** The map after the first `n` rows: keys in first-insertion order, each
      holding the last of those rows with that key. */
  ghost predicate MapOf(keys: seq<Row>, rows: seq<Row>, n: nat, order: seq<Row>, latest: map<Row, Row>)
    requires n <= |keys| == |rows|
  {
    && order == Distinct(keys[..n])
    && (forall k :: k in latest <==> k in keys[..n])
    && (forall k :: k in latest ==> latest[k] == rows[LastIndex(keys[..n], k)])
  }

  /** `Array.from(map.values())` over the map built from the rows. */
  method DedupRows(rows: seq<Row>) returns (unique: seq<Row>)
    ensures unique == Dedup(rows)
  {
    var order, latest := BuildMap(rows);
    ghost var expected := Dedup(rows);
    assert forall m :: 0 <= m < |order| ==> order[m] in latest && latest[order[m]] == expected[m];
    unique := [];
    for j := 0 to |order|
      invariant unique == expected[..j]
    {
      PrefixSnoc(expected, j + 1);
      unique := unique + [latest[order[j]]];
    }
  }

  /** One insert-or-overwrite of the map in `DedupRows`. */
  lemma MapStep(keys: seq<Row>, i: nat, order: seq<Row>, latest: map<Row, Row>, rows: seq<Row>)
    requires |keys| == |rows| && i < |rows| && keys == Strips(rows)
    requires MapOf(keys, rows, i, order, latest)
    ensures var key := Strip(rows[i]);
      MapOf(keys, rows, i + 1, if key !in latest then order + [key] else order, latest[key := rows[i]])
  {
    var key := Strip(rows[i]);
    PrefixSnoc(keys, i + 1);
    DistinctSnoc(keys[..i], key);
    forall k | k in keys[..i + 1]
      ensures LastIndex(keys[..i + 1], k) == if k == key then i else LastIndex(keys[..i], k)
    {
      LastIndexSnoc(keys[..i], key, k);
    }
  }

  /** No two surviving rows have the same key, i.e. are equal once
      `source_file` is removed (key order included). */
  lemma DedupUniqueKeys(rows: seq<Row>)
    ensures |Dedup(rows)| <= |rows|
    ensures forall i, j :: 0 <= i < j < |Dedup(rows)| ==> Strip(Dedup(rows)[i]) != Strip(Dedup(rows)[j])
  {
    var keys := Distinct(Strips(rows));
    forall j | 0 <= j < |keys| ensures Strip(Dedup(rows)[j]) == keys[j] {
    }
  }

  /** Every input row's key is the key of some surviving row. */
  lemma DedupCoversEveryKey(rows: seq<Row>)
    ensures forall i :: 0 <= i < |rows| ==> exists j :: 0 <= j < |Dedup(rows)| && Strip(Dedup(rows)[j]) == Strip(rows[i])
  {
    var keys := Distinct(Strips(rows));
    forall i | 0 <= i < |rows| ensures exists j :: 0 <= j < |Dedup(rows)| && Strip(Dedup(rows)[j]) == Strip(rows[i]) {
      assert Strips(rows)[i] == Strip(rows[i]);
      assert Strip(rows[i]) in keys;
      var j :| 0 <= j < |keys| && keys[j] == Strip(rows[i]);
      assert Strip(Dedup(rows)[j]) == keys[j];
    }
  }

  /** No later row of `rows` has the key of `rows[i]`. */
  predicate LastOfKey(rows: seq<Row>, i: nat)
    requires i < |rows|
  {
    forall m :: i < m < |rows| ==> Strip(rows[m]) != Strip(rows[i])
  }

  /** Each survivor is the last input row with its key. */
  lemma DedupKeepsLastOfKey(rows: seq<Row>, j: nat)
    requires j < |Dedup(rows)|
    ensures exists i :: 0 <= i < |rows| && Dedup(rows)[j] == rows[i] && LastOfKey(rows, i)
  {
    var keys := Distinct(Strips(rows));
    assert keys[j] in Strips(rows);
    var i := LastIndex(Strips(rows), keys[j]);
    forall m | i < m < |rows| ensures Strip(rows[m]) != Strip(rows[i]) {
      assert Strips(rows)[m] != keys[j];
    }
    assert Dedup(rows)[j] == rows[i] && LastOfKey(rows, i);
  }

  /** Survivors come in the order of their keys' first occurrences. */
  lemma DedupFollowsFirstOccurrence(rows: seq<Row>)
    ensures forall i, j :: 0 <= i < j < |Dedup(rows)| ==>
      Strip(Dedup(rows)[i]) in Strips(rows) && Strip(Dedup(rows)[j]) in Strips(rows) &&
      FirstIndex(Strips(rows), Strip(Dedup(rows)[i])) < FirstIndex(Strips(rows), Strip(Dedup(rows)[j]))
  {
    var keys := Distinct(Strips(rows));
    DistinctFollowsFirstOccurrence(Strips(rows));
    forall j | 0 <= j < |keys| ensures Strip(Dedup(rows)[j]) == keys[j] && keys[j] in Strips(rows) {
    }
    forall i, j | 0 <= i < j < |keys|
      ensures FirstIndex(Strips(rows), Strip(Dedup(rows)[i])) < FirstIndex(Strips(rows), Strip(Dedup(rows)[j]))
    {
      assert FirstIndex(Strips(rows), keys[i]) < FirstIndex(Strips(rows), keys[j]);
    }
    assert |keys| == |Dedup(rows)|;
  }

  /** De-duplicating twice is de-duplicating once. */
  lemma DedupIdempotent(rows: seq<Row>)
    ensures Dedup(Dedup(rows)) == Dedup(rows)
  {
    var d := Dedup(rows);
    DedupUniqueKeys(rows);
    var ks := Strips(d);
    assert NoDups(ks);
    DistinctOfNoDups(ks);
    forall j | 0 <= j < |d| ensures Dedup(d)[j] == d[j] {
      LastIndexOfNoDups(ks, j);
    }
  }

  /** Two rows that differ only in `source_file` (rows from two files, say)
      leave one survivor, carrying the later row's `source_file`. */
  lemma DuplicateKeepsLaterRow(first: Row, later: Row)
    requires Strip(first) == Strip(later)
    ensures Dedup([first, later]) == [later]
  {
    var rows := [first, later];
    assert Strips(rows) == [Strip(first), Strip(first)];
    assert Distinct(Strips(rows)) == [Strip(first)] by {
      assert DropLast(Strips(rows)) == [Strip(first)];
      assert Distinct([Strip(first)]) == [Strip(first)] by {
        assert DropLast([Strip(first)]) == [];
      }
    }
  }

  // ---------------------------------------------------------------------
  // What `processImages` dispatches.

  function StartingMessage(name: string): string {
    "Starting to process " + Quoted(name) + "..."
  }

  function ConvertingMessage(name: string): string {
    "Converting " + Quoted(name) + " to base64..."
  }

  function SendingMessage(name: string): string {
    "Sending " + Quoted(name) + " to Gemini API for data extraction..."
  }

  function ExtractedMessage(count: nat, name: string): string {
    "Successfully extracted " + NatToString(count) + " row(s) from " + Quoted(name) + "."
  }

  function NoDataMessage(name: string): string {
    "No structured data found in " + Quoted(name) + "."
  }

  function FailureMessage(name: string, t: Thrown): string {
    "Error processing " + Quoted(name) + ": " + MessageOf(t)
  }

  function DedupMessage(count: nat): string {
    "De-duplication complete. Found " + NatToString(count) + " unique rows."
  }

  function StartActions(f: File, clock: string): seq<AppAction> {
    [ Log(clock, StartingMessage(f.name), LogInfo),
      SetFileStatus(f.name, FileProcessing),
      Log(clock, ConvertingMessage(f.name), LogInfo) ]
  }

  function SendAction(f: File, clock: string): AppAction {
    Log(clock, SendingMessage(f.name), LogInfo)
  }

  /** The `catch` block of the loop body. */
  function FailureActions(f: File, t: Thrown, clock: string): seq<AppAction> {
    [ Log(clock, FailureMessage(f.name, t), LogError),
      SetFileStatus(f.name, FileError) ]
  }

  function ExtractedActions(f: File, count: nat, clock: string): seq<AppAction> {
    if count > 0 then
      [ Log(clock, ExtractedMessage(count, f.name), LogSuccess),
        SetFileStatus(f.name, FileSuccess) ]
    else
      [ Log(clock, NoDataMessage(f.name), LogWarning),
        SetFileStatus(f.name, FileSuccess) ]
  }

  /** The actions dispatched for one file. */
  function FileActions(f: File, o: Outcome, clock: string): seq<AppAction> {
    match o
    case EncodeFail(t) => StartActions(f, clock) + FailureActions(f, t, clock)
    case ExtractFail(t) => StartActions(f, clock) + [SendAction(f, clock)] + FailureActions(f, t, clock)
    case Extracted(rows) => StartActions(f, clock) + [SendAction(f, clock)] + ExtractedActions(f, |rows|, clock)
  }

  /** The rows one file adds to `allData`. */
  function FileRows(f: File, o: Outcome): seq<Row> {
    if o.Extracted? && |o.rows| > 0 then TagAll(f.name, o.rows) else []
  }

  /** The actions dispatched by the loop for the first `n` files. */
  function LoopActions(files: seq<File>, outcomes: seq<Outcome>, clock: string, n: nat): seq<AppAction>
    requires |files| == |outcomes| && n <= |files|
  {
    if n == 0 then []
    else LoopActions(files, outcomes, clock, n - 1) + FileActions(files[n - 1], outcomes[n - 1], clock)
  }

  /** `allData` after the first `n` files. */
  function CollectedRows(files: seq<File>, outcomes: seq<Outcome>, n: nat): seq<Row>
    requires |files| == |outcomes| && n <= |files|
  {
    if n == 0 then []
    else CollectedRows(files, outcomes, n - 1) + FileRows(files[n - 1], outcomes[n - 1])
  }

  /** `processingError` after the first `n` files: a thrown value is
      recorded unless a truthy one already is (`if (!processingError)`). */
  function RecordedError(outcomes: seq<Outcome>, n: nat): Option<Thrown>
    requires n <= |outcomes|
  {
    if n == 0 then None
    else
      var previous := RecordedError(outcomes, n - 1);
      if ThrownBy(outcomes[n - 1]).Some? && !(previous.Some? && Truthy(previous.value))
      then ThrownBy(outcomes[n - 1])
      else previous
  }

  /** The actions after the loop. */
  function TerminalActions(allData: seq<Row>, recorded: Option<Thrown>, clock: string): seq<AppAction> {
    if |allData| > 0 then
      var unique := Dedup(allData);
      [ Log(clock, DedupMessage(|unique|), LogSuccess),
        ProcessingSuccess(unique) ]
    else if recorded.Some? && Truthy(recorded.value) then
      [ProcessingError(FailedAlert(recorded.value))]
    else
      [ProcessingError(NoDataAlert)]
  }

  /** Everything `processImages(files)` dispatches. */
  function Emitted(files: seq<File>, outcomes: seq<Outcome>, clock: string): (actions: seq<AppAction>)
    requires |files| == |outcomes|
    ensures |actions| >= 1
    ensures |files| == 0 <==> actions == [SetError(NoFilesAlert)]
    ensures |files| > 0 ==> actions[0] == ProcessingStart
  {
    if |files| == 0 then [SetError(NoFilesAlert)]
    else
      [ProcessingStart] + LoopActions(files, outcomes, clock, |files|)
      + TerminalActions(CollectedRows(files, outcomes, |files|), RecordedError(outcomes, |outcomes|), clock)
  }

  predicate IsTerminal(a: AppAction) {
    a.ProcessingSuccess? || a.ProcessingError?
  }

  function TerminalsOf(actions: seq<AppAction>): seq<AppAction>
  {
    if actions == [] then []
    else (if IsTerminal(actions[0]) then [actions[0]] else []) + TerminalsOf(actions[1..])
  }

  /** `processImages`: the loop and the terminal decision. */
  method ProcessImages(files: seq<File>, outcomes: seq<Outcome>, clock: string) returns (actions: seq<AppAction>)
    requires |outcomes| == |files|
    ensures actions == Emitted(files, outcomes, clock)
    ensures |files| == 0 ==> actions == [SetError(NoFilesAlert)]
    ensures |files| > 0 ==>
      |actions| >= 2 && actions[0] == ProcessingStart && ProcessingStart !in actions[1..]
      && TerminalsOf(actions) == [Last(actions)] && IsTerminal(Last(actions))
  {
    if |files| == 0 {
      actions := [SetError(NoFilesAlert)];
      return;
    }
    actions := [ProcessingStart];
    var loopActions, allData, processingError := ProcessFiles(files, outcomes, clock);
    actions := actions + loopActions;
    var conclusion := Conclude(allData, processingError, clock);
    actions := actions + conclusion;
    EmittedShape(files, outcomes, clock);
  }

  /** The `for` loop over the files: its dispatched actions, `allData` and
      `processingError` when it ends. */
  method ProcessFiles(files: seq<File>, outcomes: seq<Outcome>, clock: string)
    returns (actions: seq<AppAction>, allData: seq<Row>, processingError: Option<Thrown>)
    requires |outcomes| == |files|
    ensures actions == LoopActions(files, outcomes, clock, |files|)
    ensures allData == CollectedRows(files, outcomes, |files|)
    ensures processingError == RecordedError(outcomes, |outcomes|)
  {
    actions := [];
    allData := [];
    processingError := None;
    for i := 0 to |files|
      invariant actions == LoopActions(files, outcomes, clock, i)
      invariant allData == CollectedRows(files, outcomes, i)
      invariant processingError == RecordedError(outcomes, i)
    {
      actions, allData, processingError := VisitFile(files, outcomes, clock, i, actions, allData, processingError);
    }
  }

  /** One iteration of the loop: the `try`/`catch` for `files[i]`, then
      `allData` grows by its tagged rows and `processingError` takes what was
      thrown unless a truthy value is already recorded. */
  method VisitFile(files: seq<File>, outcomes: seq<Outcome>, clock: string, i: nat,
                   actions: seq<AppAction>, allData: seq<Row>, processingError: Option<Thrown>)
    returns (actions': seq<AppAction>, allData': seq<Row>, processingError': Option<Thrown>)
    requires |outcomes| == |files| && i < |files|
    requires actions == LoopActions(files, outcomes, clock, i)
    requires allData == CollectedRows(files, outcomes, i)
    requires processingError == RecordedError(outcomes, i)
    ensures actions' == LoopActions(files, outcomes, clock, i + 1)
    ensures allData' == CollectedRows(files, outcomes, i + 1)
    ensures processingError' == RecordedError(outcomes, i + 1)
  {
    var fileActions, dataWithSource, caught := ProcessFile(files[i], outcomes[i], clock);
    LoopStep(files, outcomes, clock, i);
    actions' := actions + fileActions;
    allData' := allData + dataWithSource;
    processingError' := processingError;
    if caught.Some? && !(processingError.Some? && Truthy(processingError.value)) {
      processingError' := caught;
    }
  }

  /** One more file: the prefix specifications grow by that file's part. */
  lemma LoopStep(files: seq<File>, outcomes: seq<Outcome>, clock: string, i: nat)
    requires |files| == |outcomes| && i < |files|
    ensures LoopActions(files, outcomes, clock, i + 1)
         == LoopActions(files, outcomes, clock, i) + FileActions(files[i], outcomes[i], clock)
    ensures CollectedRows(files, outcomes, i + 1)
         == CollectedRows(files, outcomes, i) + FileRows(files[i], outcomes[i])
    ensures var previous := RecordedError(outcomes, i);
      RecordedError(outcomes, i + 1)
        == if ThrownBy(outcomes[i]).Some? && !(previous.Some? && Truthy(previous.value))
           then ThrownBy(outcomes[i]) else previous
  {
  }

  /** The code after the loop: de-duplicate and succeed if any rows were
      collected, otherwise fail with an alert chosen by `processingError`. */
  method Conclude(allData: seq<Row>, processingError: Option<Thrown>, clock: string) returns (actions: seq<AppAction>)
    ensures actions == TerminalActions(allData, processingError, clock)
  {
    if |allData| > 0 {
      var uniqueData := DedupRows(allData);
      actions := [
        Log(clock, DedupMessage(|uniqueData|), LogSuccess),
        ProcessingSuccess(uniqueData)];
    } else if processingError.Some? && Truthy(processingError.value) {
      actions := [ProcessingError(FailedAlert(processingError.value))];
    } else {
      actions := [ProcessingError(NoDataAlert)];
    }
  }

  /** One pass of the loop body: the `try` block for `file` and, when
      something was thrown, the `catch` block's log and status. Returns the
      actions dispatched, the tagged rows to add to `allData` and what was
      thrown, if anything. */
  method ProcessFile(file: File, outcome: Outcome, clock: string)
    returns (actions: seq<AppAction>, dataWithSource: seq<Row>, caught: Option<Thrown>)
    ensures actions == FileActions(file, outcome, clock)
    ensures dataWithSource == FileRows(file, outcome)
    ensures caught == ThrownBy(outcome)
  {
    actions := [
      Log(clock, StartingMessage(file.name), LogInfo),
      SetFileStatus(file.name, FileProcessing),
      Log(clock, ConvertingMessage(file.name), LogInfo)];
    dataWithSource := [];
    caught := None;
    match outcome {
      case EncodeFail(err) =>
        caught := Some(err);
      case ExtractFail(err) =>
        actions := actions + [Log(clock, SendingMessage(file.name), LogInfo)];
        caught := Some(err);
      case Extracted(data) =>
        actions := actions + [Log(clock, SendingMessage(file.name), LogInfo)];
        if |data| > 0 {
          dataWithSource := TagAll(file.name, data);
          actions := actions + [
            Log(clock, ExtractedMessage(|data|, file.name), LogSuccess),
            SetFileStatus(file.name, FileSuccess)];
        } else {
          actions := actions + [
            Log(clock, NoDataMessage(file.name), LogWarning),
            SetFileStatus(file.name, FileSuccess)];
        }
    }
    if caught.Some? {
      actions := actions + [
        Log(clock, FailureMessage(file.name, caught.value), LogError),
        SetFileStatus(file.name, FileError)];
    }
  }

  // ---------------------------------------------------------------------
  // Properties of a run.

  predicate IsProgress(a: AppAction) {
    a.AddProgressLog? || a.SetFileStatus?
  }

  /** Every action is a log entry or a status update. */
  predicate AllProgress(actions: seq<AppAction>) {
    forall i :: 0 <= i < |actions| ==> IsProgress(actions[i])
  }

  lemma {:induction false} LoopActionsAreProgress(files: seq<File>, outcomes: seq<Outcome>, clock: string, n: nat)
    requires |files| == |outcomes| && n <= |files|
    ensures AllProgress(LoopActions(files, outcomes, clock, n))
  {
    if n > 0 {
      var previous := LoopActions(files, outcomes, clock, n - 1);
      var step := FileActions(files[n - 1], outcomes[n - 1], clock);
      LoopActionsAreProgress(files, outcomes, clock, n - 1);
      FileActionsAreProgress(files[n - 1], outcomes[n - 1], clock);
      ProgressAppend(previous, step);
    }
  }

  lemma ProgressAppend(a: seq<AppAction>, b: seq<AppAction>)
    requires AllProgress(a) && AllProgress(b)
    ensures AllProgress(a + b)
  {
  }

  lemma FileActionsAreProgress(f: File, o: Outcome, clock: string)
    ensures AllProgress(FileActions(f, o, clock))
  {
  }

  lemma {:induction false} TerminalsOfAppend(a: seq<AppAction>, b: seq<AppAction>)
    ensures TerminalsOf(a + b) == TerminalsOf(a) + TerminalsOf(b)
  {
    if a != [] {
      assert (a + b)[0] == a[0] && (a + b)[1..] == a[1..] + b;
      TerminalsOfAppend(a[1..], b);
    } else {
      assert a + b == b;
    }
  }

  lemma {:induction false} NoTerminalsInProgress(actions: seq<AppAction>)
    requires AllProgress(actions)
    ensures TerminalsOf(actions) == []
  {
    if actions != [] {
      NoTerminalsInProgress(actions[1..]);
    }
  }

  /** With at least one file the run starts with `PROCESSING_START`, never
      repeats it, and ends with its only terminal action. */
  lemma EmittedShape(files: seq<File>, outcomes: seq<Outcome>, clock: string)
    requires |files| == |outcomes| && |files| > 0
    ensures var actions := Emitted(files, outcomes, clock);
      |actions| >= 2 && actions[0] == ProcessingStart && ProcessingStart !in actions[1..]
      && TerminalsOf(actions) == [Last(actions)] && IsTerminal(Last(actions))
  {
    StartAndLoop(files, outcomes, clock);
    TerminalActionsShape(CollectedRows(files, outcomes, |files|), RecordedError(outcomes, |outcomes|), clock);
    ShapeOfRun(LoopActions(files, outcomes, clock, |files|),
      TerminalActions(CollectedRows(files, outcomes, |files|), RecordedError(outcomes, |outcomes|), clock));
  }

  /** A start, actions without a start or a terminal, then a tail whose only
      terminal action is its last: the start is first and never repeated,
      and the last action is the only terminal one. */
  lemma ShapeOfRun(loop: seq<AppAction>, tail: seq<AppAction>)
    requires TerminalsOf([ProcessingStart] + loop) == [] && ProcessingStart !in loop
    requires |tail| >= 1 && ProcessingStart !in tail
    requires TerminalsOf(tail) == [Last(tail)] && IsTerminal(Last(tail))
    ensures var actions := [ProcessingStart] + loop + tail;
      |actions| >= 2 && actions[0] == ProcessingStart && ProcessingStart !in actions[1..]
      && TerminalsOf(actions) == [Last(actions)] && IsTerminal(Last(actions))
  {
    var actions := [ProcessingStart] + loop + tail;
    TerminalsOfAppend([ProcessingStart] + loop, tail);
    assert actions[1..] == loop + tail;
  }

  lemma StartAndLoop(files: seq<File>, outcomes: seq<Outcome>, clock: string)
    requires |files| == |outcomes|
    ensures var loop := LoopActions(files, outcomes, clock, |files|);
      TerminalsOf([ProcessingStart] + loop) == [] && ProcessingStart !in loop
  {
    var loop := LoopActions(files, outcomes, clock, |files|);
    LoopActionsAreProgress(files, outcomes, clock, |files|);
    NoTerminalsInProgress(loop);
    assert TerminalsOf([ProcessingStart]) == [];
    TerminalsOfAppend([ProcessingStart], loop);
  }

  lemma TerminalActionsShape(allData: seq<Row>, recorded: Option<Thrown>, clock: string)
    ensures var tail := TerminalActions(allData, recorded, clock);
      |tail| >= 1 && ProcessingStart !in tail
      && TerminalsOf(tail) == [Last(tail)] && IsTerminal(Last(tail))
  {
    if |allData| > 0 {
      var unique := Dedup(allData);
      TerminalsOfPair(Log(clock, DedupMessage(|unique|), LogSuccess), ProcessingSuccess(unique));
    } else if recorded.Some? && Truthy(recorded.value) {
      TerminalsOfSingle(ProcessingError(FailedAlert(recorded.value)));
    } else {
      TerminalsOfSingle(ProcessingError(NoDataAlert));
    }
  }

  lemma TerminalsOfSingle(b: AppAction)
    requires IsTerminal(b)
    ensures TerminalsOf([b]) == [b]
  {
    assert [b][1..] == [];
  }

  lemma TerminalsOfPair(a: AppAction, b: AppAction)
    requires !IsTerminal(a) && IsTerminal(b)
    ensures TerminalsOf([a, b]) == [b]
  {
    assert [a, b][1..] == [b];
    TerminalsOfSingle(b);
  }

  /** The status updates of a list of actions, in order. */
  function StatusUpdates(actions: seq<AppAction>): seq<(string, FileStatus)>
  {
    if actions == [] then []
    else (if actions[0].SetFileStatus? then [(actions[0].fileName, actions[0].fileStatus)] else [])
         + StatusUpdates(actions[1..])
  }

  lemma {:induction false} StatusUpdatesAppend(a: seq<AppAction>, b: seq<AppAction>)
    ensures StatusUpdates(a + b) == StatusUpdates(a) + StatusUpdates(b)
  {
    if a != [] {
      assert (a + b)[0] == a[0] && (a + b)[1..] == a[1..] + b;
      StatusUpdatesAppend(a[1..], b);
    } else {
      assert a + b == b;
    }
  }

  /** The status a file ends in: `success` whenever extraction returned,
      even with zero rows; `error` when anything threw. */
  function FinalStatus(o: Outcome): FileStatus {
    if o.Extracted? then FileSuccess else FileError
  }

  /** The expected trace: each file in input order, `processing` then its final status. */
  function ExpectedTrace(files: seq<File>, outcomes: seq<Outcome>): seq<(string, FileStatus)>
    requires |files| == |outcomes|
    decreases |files|
  {
    if files == [] then []
    else [(files[0].name, FileProcessing), (files[0].name, FinalStatus(outcomes[0]))]
         + ExpectedTrace(files[1..], outcomes[1..])
  }

  lemma StatusUpdatesOfTwo(a: AppAction, b: AppAction)
    ensures StatusUpdates([a, b]) == StatusUpdates([a]) + StatusUpdates([b])
  {
    assert [a, b][1..] == [b];
  }

  lemma StatusUpdatesOfThree(a: AppAction, b: AppAction, c: AppAction)
    ensures StatusUpdates([a, b, c]) == StatusUpdates([a]) + StatusUpdates([b]) + StatusUpdates([c])
  {
    assert [a, b, c][1..] == [b, c];
    StatusUpdatesOfTwo(b, c);
  }

  lemma FileStatusUpdates(f: File, o: Outcome, clock: string)
    ensures StatusUpdates(FileActions(f, o, clock)) == [(f.name, FileProcessing), (f.name, FinalStatus(o))]
  {
    var start := StartActions(f, clock);
    StartStatusUpdates(f, clock);
    match o {
      case EncodeFail(t) =>
        FailureStatusUpdates(f, t, clock);
        StatusUpdatesAppend(start, FailureActions(f, t, clock));
      case ExtractFail(t) =>
        SendStatusUpdates(f, clock);
        FailureStatusUpdates(f, t, clock);
        StatusUpdatesAppend(start, [SendAction(f, clock)]);
        StatusUpdatesAppend(start + [SendAction(f, clock)], FailureActions(f, t, clock));
      case Extracted(rows) =>
        SendStatusUpdates(f, clock);
        ExtractedStatusUpdates(f, |rows|, clock);
        StatusUpdatesAppend(start, [SendAction(f, clock)]);
        StatusUpdatesAppend(start + [SendAction(f, clock)], ExtractedActions(f, |rows|, clock));
    }
  }

  lemma StartStatusUpdates(f: File, clock: string)
    ensures StatusUpdates(StartActions(f, clock)) == [(f.name, FileProcessing)]
  {
    var start := StartActions(f, clock);
    StatusUpdatesOfThree(start[0], start[1], start[2]);
  }

  lemma SendStatusUpdates(f: File, clock: string)
    ensures StatusUpdates([SendAction(f, clock)]) == []
  {
    assert [SendAction(f, clock)][1..] == [];
  }

  lemma FailureStatusUpdates(f: File, t: Thrown, clock: string)
    ensures StatusUpdates(FailureActions(f, t, clock)) == [(f.name, FileError)]
  {
    var fail := FailureActions(f, t, clock);
    StatusUpdatesOfTwo(fail[0], fail[1]);
  }

  lemma ExtractedStatusUpdates(f: File, count: nat, clock: string)
    ensures StatusUpdates(ExtractedActions(f, count, clock)) == [(f.name, FileSuccess)]
  {
    var done := ExtractedActions(f, count, clock);
    StatusUpdatesOfTwo(done[0], done[1]);
  }

  lemma {:induction false} ExpectedTraceAppend(f1: seq<File>, o1: seq<Outcome>, f2: seq<File>, o2: seq<Outcome>)
    requires |f1| == |o1| && |f2| == |o2|
    ensures ExpectedTrace(f1 + f2, o1 + o2) == ExpectedTrace(f1, o1) + ExpectedTrace(f2, o2)
    decreases |f1|
  {
    if f1 == [] {
      assert f1 + f2 == f2 && o1 + o2 == o2;
    } else {
      assert (f1 + f2)[0] == f1[0] && (f1 + f2)[1..] == f1[1..] + f2;
      assert (o1 + o2)[0] == o1[0] && (o1 + o2)[1..] == o1[1..] + o2;
      ExpectedTraceAppend(f1[1..], o1[1..], f2, o2);
    }
  }

  /** Appending one file's actions to a run of the loop extends its status
      trace by that file's two updates. */
  lemma TraceStep(previous: seq<AppAction>, current: seq<AppAction>, fs: seq<File>, os: seq<Outcome>, f: File, o: Outcome)
    requires |fs| == |os|
    requires StatusUpdates(previous) == ExpectedTrace(fs, os)
    requires StatusUpdates(current) == [(f.name, FileProcessing), (f.name, FinalStatus(o))]
    ensures StatusUpdates(previous + current) == ExpectedTrace(fs + [f], os + [o])
  {
    StatusUpdatesAppend(previous, current);
    ExpectedTraceAppend(fs, os, [f], [o]);
    assert [f][1..] == [] && [o][1..] == [];
  }

  /** The loop over the first `n` files updates statuses as `ExpectedTrace`
      of those files says. */
  lemma {:induction false} LoopStatusTrace(files: seq<File>, outcomes: seq<Outcome>, clock: string, n: nat)
    requires |files| == |outcomes| && n <= |files|
    ensures StatusUpdates(LoopActions(files, outcomes, clock, n)) == ExpectedTrace(files[..n], outcomes[..n])
  {
    if n > 0 {
      var f, o := files[n - 1], outcomes[n - 1];
      LoopStatusTrace(files, outcomes, clock, n - 1);
      FileStatusUpdates(f, o, clock);
      PrefixSnoc(files, n);
      PrefixSnoc(outcomes, n);
      TraceStep(LoopActions(files, outcomes, clock, n - 1), FileActions(f, o, clock), files[..n - 1], outcomes[..n - 1], f, o);
    }
  }

  /** Files are visited in input order; each goes to `processing` and then
      to exactly one final status, whatever happened to the files before it.
      No other action of a run touches a status. */
  lemma StatusTrace(files: seq<File>, outcomes: seq<Outcome>, clock: string)
    requires |files| == |outcomes|
    ensures StatusUpdates(Emitted(files, outcomes, clock)) == ExpectedTrace(files, outcomes)
  {
    if |files| > 0 {
      var loop := LoopActions(files, outcomes, clock, |files|);
      var tail := TerminalActions(CollectedRows(files, outcomes, |files|), RecordedError(outcomes, |outcomes|), clock);
      LoopStatusTrace(files, outcomes, clock, |files|);
      WholePrefix(files);
      WholePrefix(outcomes);
      assert StatusUpdates([ProcessingStart]) == [];
      TerminalStatusUpdates(CollectedRows(files, outcomes, |files|), RecordedError(outcomes, |outcomes|), clock);
      StatusUpdatesAppend([ProcessingStart], loop);
      StatusUpdatesAppend([ProcessingStart] + loop, tail);
    }
  }

  /** The actions after the loop touch no status. */
  lemma TerminalStatusUpdates(allData: seq<Row>, recorded: Option<Thrown>, clock: string)
    ensures StatusUpdates(TerminalActions(allData, recorded, clock)) == []
  {
    var tail := TerminalActions(allData, recorded, clock);
    if |allData| > 0 {
      StatusUpdatesOfTwo(tail[0], tail[1]);
    }
  }

  /** Some file returned at least one row. */
  predicate SomeRows(outcomes: seq<Outcome>) {
    exists i :: 0 <= i < |outcomes| && outcomes[i].Extracted? && |outcomes[i].rows| > 0
  }

  lemma {:induction false} CollectedRowsNonEmpty(files: seq<File>, outcomes: seq<Outcome>, n: nat)
    requires |files| == |outcomes| && n <= |files|
    ensures |CollectedRows(files, outcomes, n)| > 0
        <==> exists i :: 0 <= i < n && outcomes[i].Extracted? && |outcomes[i].rows| > 0
  {
    if n > 0 {
      CollectedRowsNonEmpty(files, outcomes, n - 1);
    }
  }

  /** A failure whose thrown value is truthy. */
  predicate TruthyFailure(o: Outcome) {
    ThrownBy(o).Some? && Truthy(ThrownBy(o).value)
  }

  /** After `n` files the recorded error is truthy exactly when one of them
      threw a truthy value, and it is then the FIRST such value. */
  lemma {:induction false} RecordedErrorIsFirst(outcomes: seq<Outcome>, n: nat)
    requires n <= |outcomes|
    ensures var r := RecordedError(outcomes, n);
      (r.Some? && Truthy(r.value)) <==> (exists i :: 0 <= i < n && TruthyFailure(outcomes[i]))
    ensures var r := RecordedError(outcomes, n);
      r.Some? && Truthy(r.value) ==>
        exists i :: 0 <= i < n && TruthyFailure(outcomes[i]) && r == ThrownBy(outcomes[i])
          && forall j :: 0 <= j < i ==> !TruthyFailure(outcomes[j])
  {
    if n > 0 {
      RecordedErrorIsFirst(outcomes, n - 1);
    }
  }

  /** The terminal decision: any rows give `PROCESSING_SUCCESS` with the
      de-duplicated rows, even if files failed; otherwise a truthy thrown
      value gives an `error` alert embedding the first one's message;
      otherwise an `info` alert. */
  lemma TerminalDecision(files: seq<File>, outcomes: seq<Outcome>, clock: string)
    requires |files| == |outcomes| && |files| > 0
    ensures var last := Last(Emitted(files, outcomes, clock));
      && (SomeRows(outcomes) ==> last == ProcessingSuccess(Dedup(CollectedRows(files, outcomes, |files|))))
      && (!SomeRows(outcomes) && (exists i :: 0 <= i < |outcomes| && TruthyFailure(outcomes[i])) ==>
            last.ProcessingError? && last.failure.kind == ErrorAlert
            && exists i :: 0 <= i < |outcomes| && TruthyFailure(outcomes[i])
                 && (forall j :: 0 <= j < i ==> !TruthyFailure(outcomes[j]))
                 && last.failure == FailedAlert(ThrownBy(outcomes[i]).value))
      && (!SomeRows(outcomes) && !(exists i :: 0 <= i < |outcomes| && TruthyFailure(outcomes[i])) ==>
            last == ProcessingError(NoDataAlert))
  {
    CollectedRowsNonEmpty(files, outcomes, |files|);
    RecordedErrorIsFirst(outcomes, |outcomes|);
    LastOfEmitted(files, outcomes, clock);
  }

  /** The last action of a run with files is the last of the terminal actions. */
  lemma LastOfEmitted(files: seq<File>, outcomes: seq<Outcome>, clock: string)
    requires |files| == |outcomes| && |files| > 0
    ensures Last(Emitted(files, outcomes, clock))
         == Last(TerminalActions(CollectedRows(files, outcomes, |files|), RecordedError(outcomes, |outcomes|), clock))
  {
    TerminalActionsShape(CollectedRows(files, outcomes, |files|), RecordedError(outcomes, |outcomes|), clock);
  }

  // ---------------------------------------------------------------------
  // Folding a run through the reducer.

  lemma {:induction false} RunProgressIsIdentity(state: AppState, actions: seq<AppAction>)
    requires AllProgress(actions)
    ensures Run(state, actions) == state
    decreases actions
  {
    if actions != [] {
      RunProgressIsIdentity(Apply(state, actions[0]), actions[1..]);
    }
  }

  /** With no files only the warning is set; nothing else changes. */
  lemma RunWithoutFiles(state: AppState, clock: string)
    ensures Run(state, Emitted([], [], clock)) == state.(error := Some(NoFilesAlert))
  {
  }

  /** Folding a run with files: the start action, then the loop, which the
      reducer ignores, then the terminal actions. */
  lemma RunOfEmitted(state: AppState, files: seq<File>, outcomes: seq<Outcome>, clock: string)
    requires |files| == |outcomes| && |files| > 0
    ensures Run(state, Emitted(files, outcomes, clock))
         == Run(Apply(state, ProcessingStart),
                TerminalActions(CollectedRows(files, outcomes, |files|), RecordedError(outcomes, |outcomes|), clock))
  {
    var loop := LoopActions(files, outcomes, clock, |files|);
    var tail := TerminalActions(CollectedRows(files, outcomes, |files|), RecordedError(outcomes, |outcomes|), clock);
    LoopActionsAreProgress(files, outcomes, clock, |files|);
    RunAppend(state, [ProcessingStart], loop);
    RunAppend(state, [ProcessingStart] + loop, tail);
    RunProgressIsIdentity(Apply(state, ProcessingStart), loop);
  }

  /** The terminal actions act on the state through their last action only:
      the de-duplication log before `PROCESSING_SUCCESS` changes nothing. */
  lemma RunTerminalActions(state: AppState, allData: seq<Row>, recorded: Option<Thrown>, clock: string)
    ensures var tail := TerminalActions(allData, recorded, clock);
      |tail| > 0 && Run(state, tail) == Apply(state, Last(tail))
  {
    if |allData| > 0 {
      var unique := Dedup(allData);
      RunLogThen(state, Log(clock, DedupMessage(|unique|), LogSuccess), ProcessingSuccess(unique));
    } else if recorded.Some? && Truthy(recorded.value) {
      RunSingle(state, ProcessingError(FailedAlert(recorded.value)));
    } else {
      RunSingle(state, ProcessingError(NoDataAlert));
    }
  }

  lemma RunSingle(state: AppState, a: AppAction)
    ensures Run(state, [a]) == Apply(state, a)
  {
    assert [a][1..] == [];
  }

  /** A log entry followed by another action acts as that action alone. */
  lemma RunLogThen(state: AppState, log: AppAction, a: AppAction)
    requires log.AddProgressLog?
    ensures Run(state, [log, a]) == Apply(state, a)
  {
    assert [log, a][1..] == [a];
    assert Apply(state, log) == state;
    RunSingle(state, a);
  }

  /** A run that collected rows ends on the results view with the
      de-duplicated rows, their headers, no files and no error. */
  lemma RunWithRows(state: AppState, files: seq<File>, outcomes: seq<Outcome>, clock: string)
    requires |files| == |outcomes| && SomeRows(outcomes)
    ensures var rows := Dedup(CollectedRows(files, outcomes, |files|));
      Run(state, Emitted(files, outcomes, clock))
        == state.(view := Results, status := Success, extractedData := rows,
                  headers := Headers(rows), files := [], error := None)
    ensures |Run(state, Emitted(files, outcomes, clock)).extractedData| > 0
  {
    var all := CollectedRows(files, outcomes, |files|);
    CollectedRowsNonEmpty(files, outcomes, |files|);
    RunOfEmitted(state, files, outcomes, clock);
    RunWithRowsConcludes(Apply(state, ProcessingStart), all, RecordedError(outcomes, |outcomes|), clock);
  }

  /** The terminal actions of a run with rows, on the state after the start. */
  lemma RunWithRowsConcludes(started: AppState, allData: seq<Row>, recorded: Option<Thrown>, clock: string)
    requires |allData| > 0
    ensures var rows := Dedup(allData);
      |rows| > 0
      && Run(started, TerminalActions(allData, recorded, clock))
         == started.(view := Results, status := Success, extractedData := rows, headers := Headers(rows), files := [])
  {
    RunTerminalActions(started, allData, recorded, clock);
    assert Strips(allData)[0] in Distinct(Strips(allData));
  }

  /** A run that collected no rows returns to the upload view in the error
      status with an `error` alert if something truthy was thrown and an
      `info` alert otherwise; the files stay selected. */
  lemma RunWithoutRows(state: AppState, files: seq<File>, outcomes: seq<Outcome>, clock: string)
    requires |files| == |outcomes| && |files| > 0 && !SomeRows(outcomes)
    ensures var s := Run(state, Emitted(files, outcomes, clock));
      s.view == Upload && s.status == Error && s.extractedData == [] && s.headers == []
      && s.files == state.files && s.error.Some?
      && (s.error.value.kind == ErrorAlert <==> exists i :: 0 <= i < |outcomes| && TruthyFailure(outcomes[i]))
      && (s.error.value.kind != ErrorAlert ==> s.error == Some(NoDataAlert))
  {
    var recorded := RecordedError(outcomes, |outcomes|);
    CollectedRowsNonEmpty(files, outcomes, |files|);
    RecordedErrorIsFirst(outcomes, |outcomes|);
    RunOfEmitted(state, files, outcomes, clock);
    RunWithoutRowsConcludes(Apply(state, ProcessingStart), recorded, clock);
  }

  /** The terminal action of a run without rows, on the state after the start. */
  lemma RunWithoutRowsConcludes(started: AppState, recorded: Option<Thrown>, clock: string)
    ensures var alert := if recorded.Some? && Truthy(recorded.value) then FailedAlert(recorded.value) else NoDataAlert;
      Run(started, TerminalActions([], recorded, clock))
        == started.(view := Upload, status := Error, error := Some(alert))
  {
    RunTerminalActions(started, [], recorded, clock);
  }
}
