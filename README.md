# Big-file CSV upload: the ingestion loop

The `upload` handler of this service streams an uploaded CSV file through a
parser. It validates and normalises each row into a record and collects
records in a batch of 1000. When the batch is full it pauses the stream,
bulk-inserts the batch into MongoDB, counts the records as processed or as
errors, empties the batch and resumes the stream. At the end of the stream
it inserts what is left of the batch. It then answers with the counters
`totalRecords`, `processedRecords` and `errors`.

This project models that loop and proves what it promises about the
counters, the batch and the pause/resume calls.

- `text.dfy`, module `Text`: ECMAScript `String.prototype.trim`, using the
  ECMAScript WhiteSpace and LineTerminator code points, and
  `toLowerCase` restricted to ASCII letters. Module `Options` holds the
  `Option` type.
- `parse_int.dfy`, module `JsInt`: the global `parseInt` called without a
  radix, as ECMAScript defines it. It skips leading whitespace, reads an
  optional sign, switches to base 16 after `0x`/`0X`, and reads the longest
  digit run. `None` stands for `NaN`.
- `rows.dfy`, module `Rows`: the required-column check and the construction
  of the record (`src/controller.js:45-57`).
- `batching.dfy`, module `Flow`: the handlers as a pure state machine.
  - `Step` is one `data` event, `Flush` a full-batch flush, `Finish` the
    `end` handler.
  - `Feed` and `Run` are a whole upload.
  - The state carries a log of the calls made on the stream (`pause`,
    `resume`) and on the store (`insertMany` with its outcome).
  - The invariant `Streaming` holds between rows and `Finished` holds at
    the end. Lemmas prove both.
- `uploader.dfy`, module `Upload`: the same handlers in imperative form.
  - Class `Uploader` holds the closure counters, the batch array, the
    stream's paused flag and the call log as mutable fields.
  - Its methods `ProcessRow`, `FlushBatch` and `End` update them in place.
    Each is proved to produce exactly the state the matching `Flow`
    function gives.
  - The method `Upload` drives an `Uploader` over a sequence of rows.
- `scenarios.dfy`, module `Scenarios`: whole-upload consequences and
  concrete uploads.

The store is an oracle, `sink: nat -> bool`: the k-th bulk insert of an
upload succeeds exactly when `sink(k)` holds. A failing stream is a flag,
`streamFault`: the stream fails after the given rows, and the `end` handler
never runs.

## Model

| member | source | states |
|---|---|---|
| Text.Trim | src/controller.js:52-56 | the result starts and ends with non-whitespace, is the infix of the input that starts after its leading whitespace, and is followed by whitespace only |
| Text.TrimStart | src/controller.js:51 | the result is the suffix of the input left after its leading whitespace |
| Text.ToLower | src/controller.js:54-55 | same length as the input, each character lower-cased |
| Text.TrimIdempotent | src/controller.js:52-56 | trimming a trimmed string changes nothing |
| Text.ToLowerIdempotent | src/controller.js:54-55 | lower-casing a lower-cased string changes nothing |
| Text.LowerTrimmedIsNormal | src/controller.js:54-55 | a trimmed, lower-cased email has no surrounding whitespace and no upper-case letter |
| Text.TrimLowerCommute | src/controller.js:54-55 | trimming then lower-casing equals lower-casing then trimming |
| JsInt.ParseInt | src/controller.js:51 | `parseInt(row.id)` is a number exactly when, after the leading whitespace and at most one sign, there is `0x`/`0X` followed by a hexadecimal digit, or a decimal digit that does not open a `0x` prefix; otherwise it is `NaN`. `JsInt.ParseShow` proves it reads back every integer's decimal form, `JsInt.ParseSkipsLeadingSpace` that leading blanks do not matter, `JsInt.NonNumericIsNaN` and `JsInt.BareHexPrefixIsNaN` when it is `NaN` |
| JsInt.ParseShow | src/controller.js:51 | `parseInt` reads back the decimal rendering of every integer, whatever non-alphanumeric text follows it |
| JsInt.ParseSkipsLeadingSpace | src/controller.js:51 | leading whitespace does not change what `parseInt` reads |
| JsInt.NonNumericIsNaN | src/controller.js:51 | a string whose first character after the blanks and at most one sign is not a decimal digit is `NaN` |
| JsInt.DecimalStartIsNumber | src/controller.js:51 | conversely, a decimal digit there gives a number, unless it is the `0` of a `0x` prefix |
| JsInt.BareHexPrefixIsNaN | src/controller.js:51 | a `0x` prefix not followed by a hexadecimal digit is `NaN`, although it starts with the digit `0` |
| Rows.Validate | src/controller.js:45-57 | a row is rejected exactly when `id`, `firstname` or `email` is absent or empty |
| Rows.AcceptedRecord | src/controller.js:50-57 | the id is what `parseInt` reads (NaN included); firstname trimmed; email trimmed and lower-cased; email2 trimmed and lower-cased or ""; lastname and profession trimmed or "" |
| Rows.AcceptedIsNormalised | src/controller.js:52-56 | every text field of an accepted record is trimmed, and both emails are also lower-case |
| Rows.RevalidateStable | src/controller.js:45-57 | re-ingesting a stored record with a numeric id and non-empty required fields yields the same record |
| Rows.BlankFirstnameAccepted | src/controller.js:45-52 | a whitespace-only first name passes the check and is stored as "", so the stored record would itself be rejected |
| Rows.BlankEmailAccepted | src/controller.js:45-54 | a whitespace-only email passes the check and is stored as "" |
| Flow.Flush | src/controller.js:60-77 | the batch is emptied, its size goes to processed on success or to errors on failure, the other counter and the total are unchanged, and the calls are pause, one insert of the batch, resume |
| Flow.Step | src/controller.js:41-78 | the total grows by one; a rejected row adds one error and leaves the batch and the log alone; an accepted row is appended; a batch that reaches 1000 is emptied, its size goes to processed on success or to errors on failure, and the calls are pause, insert, resume |
| Flow.Finish | src/controller.js:90-107 | the batch size goes to exactly one counter, processed on success or errors on failure; the total is unchanged |
| Flow.Feed | src/controller.js:41-83 | the `data` handler over every row, in order: the total is the row count, the batch is below 1000, and total == processed + errors + batch size; `Flow.FeedStreaming` proves the full running invariant of the result |
| Flow.Run | src/controller.js:26-153 | the whole upload's response: success exactly without a stream fault; the total is the row count; on success total == processed + errors; after a fault fewer than 1000 rows are unaccounted for; `Flow.RunAccounts` proves what the counts mean |
| Flow.CyclesPaired | src/controller.js:60-77 | in a log of flush cycles there are as many pauses as resumes as inserts, the stream is not paused, every insert holds 1000 records, and the committed records are 1000 per successful insert |
| Flow.StepPreserves | src/controller.js:41-78 | one row keeps the running invariant: counters match the log and rows, batch below 1000, accepted records inserted in arrival order or pending, log made of pause/insert/resume cycles, k-th insert answered by `sink(k)` |
| Flow.FeedStreaming | src/controller.js:41-83 | the running invariant holds after any sequence of rows |
| Flow.Accounted | src/controller.js:43-77 | between rows, total == processed + errors + batch size |
| Flow.FlushCount | src/controller.js:59-77 | the number of flushes depends on the accepted rows only: accepted == 1000 * flushes + batch size, whatever the store answered |
| Flow.AcceptedOrigin | src/controller.js:50-59 | every accepted record is the validation of some row |
| Flow.FinalFlushOnlyIfPending | src/controller.js:92-98 | the end handler inserts once exactly when the batch is non-empty, never pauses or resumes, and changes nothing when the batch is empty |
| Flow.FinishCompletes | src/controller.js:90-107 | after the end handler every accepted record was inserted exactly once in order, pauses and resumes are paired, and total == processed + errors |
| Flow.RunAccounts | src/controller.js:124-133 | the response's processed count is the number of records whose insert succeeded, its errors the rejected rows plus the records whose insert failed; on success every accepted record was inserted exactly once in arrival order; after a fault the inserted records followed by the uncounted pending batch are the accepted ones |
| Upload.Uploader.constructor | src/controller.js:16-19 | counters zero, batch empty, stream flowing |
| Upload.Uploader.Pause | src/controller.js:61 | the stream is paused and the call logged |
| Upload.Uploader.Resume | src/controller.js:71 | the stream is resumed and the call logged |
| Upload.Uploader.InsertMany | src/controller.js:64 | the insert's outcome is the sink's answer for this flush, and the call is logged |
| Upload.Uploader.FlushBatch | src/controller.js:60-77 | the new state is `Flow.Flush` of the old one, and the stream is left flowing |
| Upload.Uploader.ProcessRow | src/controller.js:41-83 | the new state is `Flow.Step` of the old one; total grows by one; batch below 1000; stream flowing; running accounting kept |
| Upload.Uploader.End | src/controller.js:90-107 | the new state is `Flow.Finish` of the old one, and total == processed + errors |
| Upload.Uploader.Summary | src/controller.js:124-128 | the success response, whose counts add up to the total |
| Upload.Uploader.FailureSummary | src/controller.js:147-153 | the failure response, whose counts leave exactly the pending batch unaccounted for |
| Upload.Upload | src/controller.js:26-153 | the response is `Flow.Run` of the rows; success exactly without a fault; the total is the row count; on success every row is processed or an error |
| Scenarios.FeedExtends | src/controller.js:59-77 | the log only grows as rows arrive, so records committed by earlier batches stay committed after a later failure |
| Scenarios.AllOkRun | src/controller.js:41-107 | against a store that always succeeds, the errors are exactly the rejected rows and every other row is processed |
| Scenarios.AllValidAllOk | src/controller.js:41-107 | valid rows against a store that always succeeds: all processed, no error |
| Scenarios.TwoAndAHalfBatches | src/controller.js:59-98 | 2500 valid rows: inserts of 1000, 1000 and 500 records, response (true, 2500, 2500, 0) |
| Scenarios.OneBadRowInTen | src/controller.js:43-48 | ten rows, one with an empty email: response (true, 10, 9, 1) |
| Scenarios.SecondBatchFails | src/controller.js:72-77 | between 2001 and 2999 valid rows with the second insert failing: 1000 errors, the rest processed |
| Scenarios.FaultAfterFourHundred | src/controller.js:85-88 | a stream fault after 400 valid rows: response (false, 400, 0, 0), the pending batch counted nowhere |

## Left out

- CSV parsing (`csv-parser`, empty-line skipping, header mapping). The
  input is a sequence of already-split rows. A column is `None` when the
  line is shorter than the header.
- MongoDB `insertMany`. Each bulk insert is one oracle answer. A partially
  failing insert (a bulk write error after some documents were written)
  counts its whole batch as errors, as the catch blocks do. The model does
  not track which documents actually reached the store.
- The asynchronous event mechanics. The `data` handler is `async` and
  `pause()` is advisory, so in the running program further rows or the
  `end` event can arrive while an insert is awaited. The model runs the
  handlers one after another, each to completion.
- The `rowError` catch (`src/controller.js:79-82`). Nothing in the modelled
  handler throws, so that path does not exist in the model.
- Where a stream error happens. The model's fault comes only after the last
  given row. It ends the upload without the end handler, and the pending
  batch is counted nowhere, as in the code.
- Timing and throughput figures, file name and size, temp-file deletion,
  console logging, HTTP status codes and the "No file uploaded" response
  (`src/controller.js:8-13, 110-122, 129-136`). These are clock, floating
  point and I/O.
- The `error: error.message` field of the failure response
  (`src/controller.js:149`). `Flow.Response` carries only the success flag
  and the three counters; the stream error is the flag `streamFault`, with
  no message.
- The `list` endpoint.
- Unicode case mapping. `Text.ToLower` lower-cases ASCII letters only.
  Strings are sequences of code points, not UTF-16 units.
- JsInt.ParseInt: does not model the precision loss of very long digit runs
  or the value `-0`. Integers are unbounded and `-0` reads as `0`.
- Rows.Validate: follows the code, which checks the required columns before
  trimming. A description that checks after trimming would reject
  whitespace-only values. `Rows.BlankFirstnameAccepted` and
  `Rows.BlankEmailAccepted` state what the code does instead.
