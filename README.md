# OCR Data Exporter — a verified model of its core

OCR Data Exporter sends document images to a recognition service. It
collects the rows the service finds, de-duplicates them and exports them.
This Dafny project models the core of that pipeline and proves what it does.

- **`Types`** (`types.dfy`) holds the data model of `state/types.ts`:
  - parsed JSON values and table rows;
  - files, alerts and log entries;
  - the application state and the reducer's actions.
- **`Reducer`** (`reducer.dfy`) models `state/reducer.ts`. The pure reducer
  becomes `Apply`, and `Run` folds a list of actions through it. It also
  computes the result headers.
- **`Ocr`** (`ocr.dfy`) models `processImages` in `hooks/useOcr.ts`.
  - It is written as methods with loops: `ProcessImages`, then
    `ProcessFiles` (the `for` loop), `ProcessFile` (one `try`/`catch` pass)
    and `Conclude` (the code after the loop).
  - The dispatched actions are returned in order. Each method is proved
    equal to a specification function, ending with `Emitted`.
  - Tagging models the object spread `{ source_file, ...row }` literally.
  - The `Map`-based de-duplication is a method (`BuildMap`, `DedupRows`)
    proved equal to the function `Dedup`. A JavaScript `Map` keeps a key's
    first position and its last value, and the model does the same.
  - What happens to each file is an input: one `Outcome` per file, which
    is encode failure, extraction failure or rows.
- **`SqlExport`** (`sql_export.dfy`) models the SQL text `exportToSql`
  builds in `hooks/useExport.ts`.
  - It builds the text by appending to `sql`, as the source does.
  - Next to it is a reader, `ParseScript`, for the text produced. The model
    proves that the whole script reads back as the table name, the first
    row's columns and each row's own values. A row whose keys differ from
    the first row's therefore gets values that do not line up with the
    column list.
- **`GeminiResponse`** (`gemini_response.dfy`) models the post-processing
  in `extractDataFromImage` (`services/geminiService.ts`):
  - `trim`;
  - the code-fence regular expression;
  - `JSON.parse`, which is an input;
  - the object-or-array decision and the filter on key count;
  - the single failure message.
- **`FileUtils`** (`file_utils.dfy`) models the HEIC test, the rename of a
  converted image, the `split(',')[1]` of a data URL and `fileToBase64`'s
  choice of file (`utils/fileUtils.ts`).
- **`Seqs`** (`seqs.dfy`) holds generic helpers:
  - first-occurrence `Distinct` and first/last index;
  - `Join`;
  - JavaScript's default string sort, as an insertion sort proved to be
    strictly increasing.

Where the code and the design description disagree, the model follows the
code:
- the de-duplicated row carries the `source_file` of the **last**
  duplicate, not the first;
- the total-failure message embeds the **first** truthy error, despite its
  "Last error" wording;
- no partial-success warning is dispatched when some files fail and others
  yield rows;
- `PROCESSING_ERROR` keeps the selected files;
- `PROCESSING_SUCCESS` leaves `error` as it was;
- `SET_FILES` does not reset per-file statuses;
- `PROCESSING_START` does not clear the log.

## Model

| member | source | states |
|---|---|---|
| Reducer.InitialState | state/reducer.ts:3-10 | the initial state is the upload view with status idle and no error, and sets neither `fileStatuses` nor `progressLog` |
| Reducer.Apply | state/reducer.ts:12-57 | no action writes `fileStatuses` or `progressLog`: they are kept, and only `RESET` makes them undefined; `ADD_PROGRESS_LOG` and `SET_FILE_STATUS` return the state unchanged |
| Reducer.Headers | state/reducer.ts:29-30 | the headers start with `source_file` and hold exactly `source_file` and the keys of the rows |
| Reducer.ResetRestoresInitialState | state/reducer.ts:53-54 | from any state, `RESET` gives the upload view, idle status, no files, data or headers, no error, and leaves statuses and log undefined |
| Reducer.SetFilesReplacesFiles | state/reducer.ts:14-19 | `SET_FILES` replaces the files and clears the error; every other field is unchanged |
| Reducer.ProcessingStartClears | state/reducer.ts:20-27 | `PROCESSING_START` sets `processing` and clears error, data and headers, but keeps the view and the files |
| Reducer.ProcessingSuccessShowsResults | state/reducer.ts:28-39 | `PROCESSING_SUCCESS` switches to results with the payload as data and its headers, clears the files and keeps the error |
| Reducer.HeadersShape | state/reducer.ts:29-30 | headers start with `source_file` even when no row has it; the tail is strictly increasing, has no duplicates and no `source_file`, and holds exactly the other row keys |
| Reducer.HeadersDependOnlyOnKeySet | state/reducer.ts:29-30 | two row sets with the same keys get the same headers, whatever the row or key order |
| Reducer.ProcessingErrorReturnsToUpload | state/reducer.ts:41-47 | `PROCESSING_ERROR` returns to upload with status error and the alert set; files, data and headers are kept |
| Reducer.SetErrorChangesOnlyError | state/reducer.ts:48-52 | `SET_ERROR` changes the error and nothing else |
| Reducer.ProgressActionsIgnored | state/reducer.ts:55-56 | `ADD_PROGRESS_LOG` and `SET_FILE_STATUS` fall to `default` and leave the state unchanged |
| Reducer.ProgressNeverRecorded | state/reducer.ts:12-57 | no sequence of actions ever defines `fileStatuses` or `progressLog` once they start undefined |
| Ocr.Emitted | hooks/useOcr.ts:14-80 | the reference list of dispatched actions is never empty: exactly the `No files` warning when there are no files, and otherwise it starts with `PROCESSING_START` |
| Ocr.Tag | hooks/useOcr.ts:40 | the spread `{ source_file, ...row }`; `Ocr.TagShape` states its shape |
| Ocr.Dedup | hooks/useOcr.ts:61-64 | there is one survivor per distinct key of the rows, where the key is the row without `source_file` |
| Ocr.ProcessImages | hooks/useOcr.ts:14-80 | the run dispatches exactly `Emitted`: with no files only the `No files` warning; otherwise `PROCESSING_START` first and never again, and one terminal action, last |
| Ocr.ProcessFiles | hooks/useOcr.ts:25-57 | the loop's actions, `allData` and `processingError` equal the prefix specifications over all files |
| Ocr.VisitFile | hooks/useOcr.ts:28-57 | one iteration takes the loop state after `i` files to the state after `i + 1`: actions, `allData` and `processingError` (set only while no truthy value is recorded) |
| Ocr.ProcessFile | hooks/useOcr.ts:29-56 | one pass dispatches the start logs and `processing`, then the send log unless encoding threw, then a success, warning or error log with its status; returns the tagged rows and what was thrown |
| Ocr.Conclude | hooks/useOcr.ts:60-80 | after the loop: rows give the de-duplication log and `PROCESSING_SUCCESS`; otherwise a truthy error gives the failure alert and anything else the no-data alert |
| Ocr.TagShape | hooks/useOcr.ts:40 | a tagged row has `source_file` first, with the row's own value if it had one (the spread overrides) and the file name otherwise, followed by the other pairs in order |
| Ocr.BuildMap | hooks/useOcr.ts:61-64 | the `Map` built by insert-or-overwrite has the keys in first-occurrence order, and each key's value is the last row with that key |
| Ocr.DedupRows | hooks/useOcr.ts:61-64 | `Array.from(map.values())` equals `Dedup` of the rows |
| Ocr.DedupUniqueKeys | hooks/useOcr.ts:61-64 | no two survivors are equal once `source_file` is removed, and there are no more survivors than rows |
| Ocr.DedupCoversEveryKey | hooks/useOcr.ts:61-64 | every input row has a survivor with its key |
| Ocr.DedupKeepsLastOfKey | hooks/useOcr.ts:61-64 | each survivor is an input row with no later row of the same key, so a `Map` overwrite keeps the last duplicate |
| Ocr.DedupFollowsFirstOccurrence | hooks/useOcr.ts:61-64 | survivors appear in the order of their keys' first occurrences |
| Ocr.DedupIdempotent | hooks/useOcr.ts:61-64 | de-duplicating twice is the same as once |
| Ocr.DuplicateKeepsLaterRow | hooks/useOcr.ts:61-64 | two rows equal apart from `source_file` leave one survivor: the later row |
| Ocr.EmittedShape | hooks/useOcr.ts:23-80 | with files, the run starts with `PROCESSING_START`, never repeats it, and its only terminal action is its last |
| Ocr.LoopActionsAreProgress | hooks/useOcr.ts:28-57 | the loop dispatches only log entries and status updates |
| Ocr.FileStatusUpdates | hooks/useOcr.ts:31-52 | each file gets `processing` and then exactly one final status: success when extraction returned, even with no rows, and error when anything threw |
| Ocr.LoopStatusTrace | hooks/useOcr.ts:28-57 | the loop over the first n files produces the reference status trace of those files |
| Ocr.StatusTrace | hooks/useOcr.ts:28-57 | a whole run's status updates equal the reference trace: files in input order, each `processing` then its final status |
| Ocr.CollectedRowsNonEmpty | hooks/useOcr.ts:39-41 | `allData` is non-empty iff some file returned at least one row |
| Ocr.RecordedErrorIsFirst | hooks/useOcr.ts:53-55 | `processingError` is truthy iff some file threw a truthy value, and is then the first such value |
| Ocr.TerminalDecision | hooks/useOcr.ts:60-80 | rows give `PROCESSING_SUCCESS` with the de-duplicated rows even if files failed; otherwise a truthy error gives an `error` alert built from the first such error; otherwise the `info` alert |
| Ocr.RunProgressIsIdentity | state/reducer.ts:55-56 | folding only progress actions through the reducer leaves the state unchanged |
| Ocr.RunWithoutFiles | hooks/useOcr.ts:15-21 | with no files the reducer only gains the `No files` warning |
| Ocr.RunWithRows | hooks/useOcr.ts:60-67 | after a run with rows the state shows results with the de-duplicated, non-empty rows and their headers, no files and no error |
| Ocr.RunWithoutRows | hooks/useOcr.ts:69-80 | after a run without rows the state is back on upload with status error, no data, the files still selected, and an error alert iff something truthy was thrown, the no-data alert otherwise |
| SqlExport.SqlScript | hooks/useExport.ts:41-60 | the reference script text is absent exactly when there are no rows |
| SqlExport.JsString | hooks/useExport.ts:54 | `String(value)` for arrays: an empty array gives the empty text, and an array of one non-`null` element gives that element's text |
| SqlExport.ExportToSql | hooks/useExport.ts:40-60 | the appended text equals `SqlScript` of the data and the table name (default `imported_data`), and there is no output iff there are no rows |
| SqlExport.ParseEscaped | hooks/useExport.ts:43-44 | after quote-doubling, the first lone quote is the closing one, so the reader stops exactly there with the original text |
| SqlExport.UnquoteQuote | hooks/useExport.ts:43-44 | unquoting a quoted name or value gives back the original, whatever quotes it holds |
| SqlExport.EscapeCounts | hooks/useExport.ts:54 | escaping doubles every quote character and keeps every other character |
| SqlExport.ParseRenderedList | hooks/useExport.ts:43-56 | a rendered list of quoted items and `NULL`s reads back item for item and stops where the list ends |
| SqlExport.ParseCreateStatement | hooks/useExport.ts:46-48 | the `CREATE TABLE IF NOT EXISTS` statement reads back as the table and the first row's keys |
| SqlExport.ParseInsertStatement | hooks/useExport.ts:50-57 | an `INSERT` reads back as the table, the first row's columns and the row's own values, `null` as `NULL` |
| SqlExport.ExportRoundTrip | hooks/useExport.ts:41-60 | the whole script reads back as the table, the first row's columns, and one `INSERT` per row in row order with the shared columns and that row's own values |
| SqlExport.ApostropheExample | hooks/useExport.ts:41-60 | the whole script for the rows `[{"a":"O'Brien","b":null}]` and table `t` is the `CREATE TABLE IF NOT EXISTS` statement for columns `a` and `b` followed by ``INSERT INTO `t` (`a`, `b`) VALUES ('O''Brien', NULL);`` |
| SqlExport.SingleRowScript | hooks/useExport.ts:41-60 | the script of one row is its `CREATE` statement followed by its single `INSERT`, with no newline after it |
| GeminiResponse.Trim | services/geminiService.ts:76 | `trim` gives a text no longer than its input that neither starts nor ends with whitespace |
| GeminiResponse.StripFences | services/geminiService.ts:82 | removing the fences never lengthens the text; `GeminiResponse.StripFencesMatches` states where the cuts fall |
| GeminiResponse.RowsOf | services/geminiService.ts:85-93 | a parsed value gives rows exactly when it is an object, or an array without a `null` element |
| GeminiResponse.KeepRowsWithKeys | services/geminiService.ts:93 | when the filter does not throw, it keeps no more elements than it is given, and each kept element is an input element that has keys |
| GeminiResponse.ExtractData | services/geminiService.ts:76-97 | every failure carries the single message `Failed to extract data from image. The API call failed.` |
| GeminiResponse.TrimRemovesSurroundingSpace | services/geminiService.ts:76 | `trim` removes exactly the whitespace around a text that neither starts nor ends with whitespace |
| GeminiResponse.TrimIdempotent | services/geminiService.ts:76 | trimming twice is the same as once |
| GeminiResponse.StripFencesMatches | services/geminiService.ts:82 | the cut text starts after the greedy `^```json\s*` match if there is one, else at 0, and stops at the leftmost later ```` ```\s*$ ```` match if there is one, else at the end |
| GeminiResponse.UnwrapsFencedBody | services/geminiService.ts:82 | a body wrapped as ```` ```json ```` plus whitespace, body, ```` ``` ```` comes out unchanged |
| GeminiResponse.KeepsUnfencedText | services/geminiService.ts:82 | text with neither fence passes through unchanged |
| GeminiResponse.EmptyReplyHasNoRows | services/geminiService.ts:76-79 | a reply empty after trimming gives no rows, whatever the parser would do |
| GeminiResponse.MissingReplyFails | services/geminiService.ts:95-97 | a reply without text fails with the single message |
| GeminiResponse.ParsesFencedBody | services/geminiService.ts:76-90 | a reply ```` ```json ```` plus whitespace, body, ```` ``` ````, with whitespace around it, parses the body with the opening whitespace removed, including any whitespace before the closing fence; the parsed value decides the result |
| GeminiResponse.LoneObjectIsOneRow | services/geminiService.ts:85-88 | a parsed non-array object, even an empty one, is returned as a one-element list |
| GeminiResponse.ScalarFails | services/geminiService.ts:85-90 | a parsed value that is neither array nor object, `null` included, fails |
| GeminiResponse.ArrayIsFiltered | services/geminiService.ts:93 | a parsed array fails iff it has a `null` element; otherwise the result is exactly the filter's output, its elements with keys in order and with repeats, and it holds exactly the elements that have keys |
| GeminiResponse.KeepFailsOnNull | services/geminiService.ts:93 | the filter throws iff some element is `null` (`Object.keys(null)`) |
| GeminiResponse.KeepDistributes | services/geminiService.ts:93 | filtering a concatenation is the concatenation of the filtered parts, so order is kept |
| GeminiResponse.KeepOne | services/geminiService.ts:93 | a single element is kept iff it has at least one key |
| GeminiResponse.KeepMembers | services/geminiService.ts:93 | what is kept is exactly the elements with keys, and never more than the input |
| FileUtils.IsHeic | utils/fileUtils.ts:29-30 | the HEIC test: the type is `image/heic` or `image/heif`, or the lower-cased name ends in `.heic` or `.heif`; the lemmas below state its properties |
| FileUtils.ConvertedName | utils/fileUtils.ts:13 | the converted name always ends in `.jpeg` and is at most five characters longer than the original |
| FileUtils.HeicIgnoresCase | utils/fileUtils.ts:29-30 | two files whose names differ only in letter case are classified alike |
| FileUtils.HeicByName | utils/fileUtils.ts:47-48 | a name ending in `.heic` or `.heif` in any letter case counts as HEIC, whatever its type |
| FileUtils.UpperCaseHeicExample | utils/fileUtils.ts:29-30 | `PHOTO.HEIC` with a generic type counts as HEIC |
| FileUtils.JpegIsNotHeic | utils/fileUtils.ts:47-48 | `photo.jpg` with type `image/jpeg` is not HEIC |
| FileUtils.ExtensionStartIsMatch | utils/fileUtils.ts:13 | the cut point is a match of `/\.[^/.]+$/` and the only one |
| FileUtils.ReplacesExtension | utils/fileUtils.ts:13 | `base.ext`, where ext is non-empty without `.` or `/`, becomes `base.jpeg` |
| FileUtils.AppendsWithoutExtension | utils/fileUtils.ts:13 | a name the expression does not match gets `.jpeg` appended whole |
| FileUtils.DottedNameExample | utils/fileUtils.ts:13 | `a.b.heic` becomes `a.b.jpeg` |
| FileUtils.NoDotExample | utils/fileUtils.ts:13 | a name without a dot gets `.jpeg` appended |
| FileUtils.Converted | utils/fileUtils.ts:13-16 | the converted file has type `image/jpeg` |
| FileUtils.DataUrlPayload | utils/fileUtils.ts:57 | `split(',')[1]` is defined exactly when the URL has a comma, and never holds a comma |
| FileUtils.PayloadOfDataUrl | utils/fileUtils.ts:57 | the payload of `header,payload` is `payload` when neither part has a comma |
| FileUtils.PayloadStopsAtComma | utils/fileUtils.ts:57 | with more commas, the payload stops at the second one and the rest is dropped |
| FileUtils.FileToBase64 | utils/fileUtils.ts:45-58 | a HEIC file is converted first, so the type is `image/jpeg` and the converted file is read; any other file is read as it is |

## Left out

- The user interface (`App.tsx`, `components/`) is not part of this model. `Results.tsx` calls `generate*String` functions that `useExport.ts` does not define, and imports `../types` where the file is `state/types.ts`.
- The recognition service call, prompt and API-key check (`services/geminiService.ts:1-74`) are a foreign SDK and the network. The reply text is an input.
- `JSON.parse` is an input function. `JSON.stringify`, used for the de-duplication key, is modelled as the row without `source_file`: equal texts stand for equal pair lists.
- JavaScript's move of integer-like keys to the front of an object is not modelled. Keys stay in insertion order.
- `undefined` values do not occur. A parsed row holds only JSON values, so `NULL` comes only from `null`.
- Numbers are kept as their `Number::toString` text, so float formatting is not modelled.
- The CSV, JSON and XLSX exports (`hooks/useExport.ts:20-38`) delegate to foreign libraries.
- `Blob`, `downloadBlob`, `URL.createObjectURL`, `FileReader`, `heic2any` and the promise plumbing are browser I/O. `readAsDataURL` is an input function, and the conversion is reduced to the new name and type.
- `getDisplayUrl` (`utils/fileUtils.ts:27-40`) is modelled only through the HEIC test it shares. Creating an object URL is browser I/O.
- The local time of each log entry is nondeterministic. It is one opaque `clock` text.
- async/await: files are processed one after another, so the model is sequential. Dispatches are returned as a list of actions instead of being sent.
- `console.error` calls are not modelled.
- Strings are sequences of code points, not UTF-16 code units. This matters for the sort order of keys outside the Basic Multilingual Plane and for `Object.keys` of a string.
- FileUtils.ToLower: lowercases only `A`-`Z`. Other letters are outside the model.
- Elements of a reply array that are not objects, such as strings and nested arrays, are kept by the filter when they have keys. An `Outcome` only carries object rows, so the spread of such values into a tagged row is not modelled.
