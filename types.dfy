/** The application's data model (state/types.ts): parsed JSON values and
    table rows, uploaded files, the application state and the actions of
    its reducer. */
module Types {
  import opened Seqs

  /** A value produced by `JSON.parse`. A number is kept as the text that
      ECMAScript's Number::toString gives for it, so that `String(n)` and
      the number's `JSON.stringify` text are both that text. */
  datatype Json =
    | JStr(str: string)
    | JNum(repr: string)
    | JBool(b: bool)
    | JNull
    | JObj(fields: seq<(string, Json)>)
    | JArr(items: seq<Json>)

  /** `TableRow`: an object, as its own keys with their values in insertion order. */
  type Row = seq<(string, Json)>

  /** The provenance column every extracted row carries. */
  const SourceFile: string := "source_file"

  /** `Object.keys(row)`. */
  function Keys(row: Row): (ks: seq<string>)
    ensures |ks| == |row|
    ensures forall i :: 0 <= i < |row| ==> ks[i] == row[i].0
  {
    seq(|row|, i requires 0 <= i < |row| => row[i].0)
  }

  /** A JavaScript object never holds the same key twice. */
  predicate DistinctKeys(row: Row) {
    NoDups(Keys(row))
  }

  /** `rows.flatMap(obj => Object.keys(obj))`. */
  function AllKeys(rows: seq<Row>): (ks: seq<string>)
    ensures forall k :: k in ks <==> exists r :: r in rows && k in Keys(r)
  {
    if rows == [] then []
    else
      assert forall r :: r in rows <==> r == rows[0] || r in rows[1..];
      Keys(rows[0]) + AllKeys(rows[1..])
  }

  /** A browser `File`, by the two attributes the core reads. */
  datatype File = File(name: string, mimeType: string)

  datatype AppStatus = Idle | Processing | Success | Error

  datatype AppView = Upload | Results

  datatype ErrorType = ErrorAlert | WarningAlert | InfoAlert

  datatype FileStatus = Pending | FileProcessing | FileSuccess | FileError

  datatype AppError = AppError(kind: ErrorType, title: string, message: string)

  datatype LogType = LogInfo | LogError | LogSuccess | LogWarning

  datatype ProgressLogEntry = ProgressLogEntry(time: string, message: string, kind: LogType)

  /** `AppState`. `fileStatuses` and `progressLog` are `None` while the
      JavaScript object has no such property (is `undefined`); `error` is
      `None` for `null`. */
  datatype AppState = AppState(
    view: AppView,
    status: AppStatus,
    files: seq<File>,
    fileStatuses: Option<map<string, FileStatus>>,
    progressLog: Option<seq<ProgressLogEntry>>,
    extractedData: seq<Row>,
    headers: seq<string>,
    error: Option<AppError>)

  /** `AppAction`, the tagged union dispatched to the reducer. */
  datatype AppAction =
    | SetFiles(newFiles: seq<File>)
    | ProcessingStart
    | AddProgressLog(entry: ProgressLogEntry)
    | SetFileStatus(fileName: string, fileStatus: FileStatus)
    | ProcessingSuccess(rows: seq<Row>)
    | ProcessingError(failure: AppError)
    | SetError(alert: AppError)
    | Reset
}
