/** The application reducer (state/reducer.ts): a pure function from a
    state and an action to the next state. */
module Reducer {
  import opened Seqs
  import opened Types

  /** `initialState`. It sets neither `fileStatuses` nor `progressLog`. */
  function InitialState(): (s: AppState)
    ensures s.view == Upload && s.status == Idle && s.error == None
    ensures s.fileStatuses == None && s.progressLog == None
  {
    AppState(Upload, Idle, [], None, None, [], [], None)
  }

  /** The result columns computed on `PROCESSING_SUCCESS`: `source_file`,
      then the distinct keys of all rows other than `source_file`, sorted. */
  function Headers(rows: seq<Row>): (h: seq<string>)
    ensures |h| >= 1 && h[0] == SourceFile
    ensures forall k :: k in h <==> k == SourceFile || k in AllKeys(rows)
  {
    var tail := Without(Distinct(AllKeys(rows)), SourceFile);
    assert forall k :: k in Sort(tail) <==> k in multiset(Sort(tail));
    [SourceFile] + Sort(tail)
  }

  /** `reducer(state, action)`. Actions without a case of their own
      (`ADD_PROGRESS_LOG`, `SET_FILE_STATUS`) reach `default`. */
  function Apply(state: AppState, action: AppAction): (next: AppState)
    ensures next.fileStatuses == if action.Reset? then None else state.fileStatuses
    ensures next.progressLog == if action.Reset? then None else state.progressLog
    ensures action.AddProgressLog? || action.SetFileStatus? ==> next == state
  {
    match action
    case SetFiles(files) =>
      state.(files := files, error := None)
    case ProcessingStart =>
      state.(status := Processing, error := None, extractedData := [], headers := [])
    case ProcessingSuccess(rows) =>
      state.(view := Results, status := Success, extractedData := rows,
             headers := Headers(rows), files := [])
    case ProcessingError(failure) =>
      state.(view := Upload, status := Error, error := Some(failure))
    case SetError(alert) =>
      state.(error := Some(alert))
    case Reset =>
      InitialState()
    case _ =>
      state
  }

  /** The state after dispatching `actions` in order. */
  function Run(state: AppState, actions: seq<AppAction>): AppState
    decreases actions
  {
    if actions == [] then state else Run(Apply(state, actions[0]), actions[1..])
  }

  lemma {:induction false} RunAppend(state: AppState, a: seq<AppAction>, b: seq<AppAction>)
    ensures Run(state, a + b) == Run(Run(state, a), b)
    decreases a
  {
    if a != [] {
      assert (a + b)[0] == a[0] && (a + b)[1..] == a[1..] + b;
      RunAppend(Apply(state, a[0]), a[1..], b);
    } else {
      assert a + b == b;
    }
  }

  // ---------------------------------------------------------------------
  // One lemma per action kind.

  /** `RESET` returns the initial state from any state. */
  lemma ResetRestoresInitialState(state: AppState)
    ensures var s := Apply(state, Reset);
      s.view == Upload && s.status == Idle && s.files == [] && s.extractedData == []
      && s.headers == [] && s.error == None && s.fileStatuses == None && s.progressLog == None
  {
  }

  /** `SET_FILES` replaces the files and clears the error; nothing else changes. */
  lemma SetFilesReplacesFiles(state: AppState, files: seq<File>)
    ensures var s := Apply(state, SetFiles(files));
      s.files == files && s.error == None
      && s.view == state.view && s.status == state.status
      && s.extractedData == state.extractedData && s.headers == state.headers
      && s.fileStatuses == state.fileStatuses && s.progressLog == state.progressLog
  {
  }

  /** `PROCESSING_START` enters `processing` and clears error, data and
      headers, keeping the view and the files. */
  lemma ProcessingStartClears(state: AppState)
    ensures var s := Apply(state, ProcessingStart);
      s.status == Processing && s.error == None && s.extractedData == [] && s.headers == []
      && s.view == state.view && s.files == state.files
      && s.fileStatuses == state.fileStatuses && s.progressLog == state.progressLog
  {
  }

  /** `PROCESSING_SUCCESS` shows the results: the payload becomes the data,
      the files are cleared and the error is left as it was. */
  lemma ProcessingSuccessShowsResults(state: AppState, rows: seq<Row>)
    ensures var s := Apply(state, ProcessingSuccess(rows));
      s.view == Results && s.status == Success && s.extractedData == rows
      && s.headers == Headers(rows) && s.files == [] && s.error == state.error
      && s.fileStatuses == state.fileStatuses && s.progressLog == state.progressLog
  {
  }

  /** `PROCESSING_ERROR` returns to the upload view with the error set;
      files, data and headers are kept. */
  lemma ProcessingErrorReturnsToUpload(state: AppState, failure: AppError)
    ensures var s := Apply(state, ProcessingError(failure));
      s.view == Upload && s.status == Error && s.error == Some(failure)
      && s.files == state.files && s.extractedData == state.extractedData
      && s.headers == state.headers
      && s.fileStatuses == state.fileStatuses && s.progressLog == state.progressLog
  {
  }

  /** `SET_ERROR` changes only the error. */
  lemma SetErrorChangesOnlyError(state: AppState, alert: AppError)
    ensures Apply(state, SetError(alert)) == state.(error := Some(alert))
  {
  }

  /** Progress actions have no case in the reducer: they leave the state as it is. */
  lemma ProgressActionsIgnored(state: AppState, entry: ProgressLogEntry, name: string, status: FileStatus)
    ensures Apply(state, AddProgressLog(entry)) == state
    ensures Apply(state, SetFileStatus(name, status)) == state
  {
  }

  /** Because no case writes `fileStatuses` or `progressLog`, every state
      reached from `initialState` leaves both undefined. */
  lemma {:induction false} ProgressNeverRecorded(state: AppState, actions: seq<AppAction>)
    requires state.fileStatuses == None && state.progressLog == None
    ensures Run(state, actions).fileStatuses == None
    ensures Run(state, actions).progressLog == None
    decreases actions
  {
    if actions != [] {
      ProgressNeverRecorded(Apply(state, actions[0]), actions[1..]);
    }
  }

  // ---------------------------------------------------------------------
  // The result headers.

  /** `source_file` comes first, even when no row has it; the rest are the
      keys of the rows other than `source_file`, strictly increasing and so
      without repetition. */
  lemma HeadersShape(rows: seq<Row>)
    ensures var h := Headers(rows);
      |h| >= 1 && h[0] == SourceFile
      && StrictlySorted(h[1..])
      && SourceFile !in h[1..]
      && NoDups(h)
      && (forall k :: k in h[1..] <==> k != SourceFile && k in AllKeys(rows))
  {
    var keys := AllKeys(rows);
    var tail := Without(Distinct(keys), SourceFile);
    SortDistinct(tail);
    var h := Headers(rows);
    assert h[1..] == Sort(tail);
    assert forall k :: k in h[1..] <==> k != SourceFile && k in keys;
    forall i, j | 0 <= i < j < |h| ensures h[i] != h[j] {
      if i > 0 {
        assert Less(h[i], h[j]);
        LessIrreflexive(h[i]);
      } else {
        assert h[j] in h[1..];
      }
    }
  }

  /** The headers depend only on which keys occur: not on the order of the
      rows nor on the order of the keys within a row. */
  lemma HeadersDependOnlyOnKeySet(rows1: seq<Row>, rows2: seq<Row>)
    requires forall k :: k in AllKeys(rows1) <==> k in AllKeys(rows2)
    ensures Headers(rows1) == Headers(rows2)
  {
    var h1, h2 := Headers(rows1), Headers(rows2);
    HeadersShape(rows1);
    HeadersShape(rows2);
    assert forall k :: k in h1[1..] <==> k in h2[1..];
    StrictlySortedUnique(h1[1..], h2[1..]);
    assert h1 == [SourceFile] + h1[1..];
    assert h2 == [SourceFile] + h2[1..];
  }
}
