# Blob-triggered image metadata pipeline, modelled in Dafny

This project models the core of an Azure Functions blob trigger (`function_app/__init__.py`).
When an object lands in the watched container, the trigger does four things:

1. It lower-cases the object name, splits it on `.` and checks the last piece against `jpg`, `jpeg`, `png` and `gif`. Any other name is skipped.
2. Inside one catch-all, it reads the content, decodes it as an image and builds one metadata dictionary (id, filename, size in KB, width, height, format, mode and two timestamps).
3. It hands that dictionary to three sinks, always in the same order: a SQL table, a storage queue and a text report in the `output` container. Each sink catches its own exceptions.
4. For the report, it derives an object name from the file name and fills in a fixed text template.

Modules, following the program's structure:

- `Wrappers` (`wrappers.dfy`): `Option` and `Result`.
- `Text` (`text.dfy`): models Python's `str.lower`, `str.split(sep)`, `[-1]`, `str.replace(p, '')` and `str(int)` exactly. The exception is `lower`, which is modelled on ASCII only.
- `TypeGate` (`type_gate.dfy`): the extension check.
- `Metadata` (`metadata.dfy`): the metadata dictionary and its construction after a decode. The dictionary is a record of `Option` fields, so an absent key is `None` and `metadata.get(k, d)` becomes `GetOr(d)`.
- `Report` (`report.dfy`): the report name and `format_processing_report`.
- `Sinks` (`sinks.dfy`): the SQL parameter tuple, the queue message, the report upload and each sink's outcome.
- `Pipeline` (`pipeline.dfy`): `main` as `HandleBlob`, with its `try` block as `ProcessUpload`, and `process_metadata` as `ProcessMetadata`. Both are methods that build the sequence of steps and sink outcomes of one run.

Everything outside the program is a parameter:

- the image decoder: `decode: seq<byte> -> Option<ImageInfo>`, where `None` means the library raised;
- the uuid and clock readings: an `Ambient` record;
- the `:.2f` rendering: `fixed2: real -> string`;
- whether each sink's library and network calls go through: `Environment`.

Where the code does something easy to misread, the model follows the code:

- `created_at` and `processing_time` come from two separate `utcnow()` calls (lines 38-39), so they are two inputs. The SQL sink's two fallback times (lines 105-106) are two more readings, `SqlClock`.
- Inside the SQL sink, `import pyodbc` (line 67) comes before the connection-string test (lines 70-74). A failed import is therefore logged as an error, not as "not configured".
- The report name removes every occurrence of `.png`, then `.jpg`, then `.jpeg`, anywhere in the last path piece (line 180). It does not just strip a known suffix. Matching is case-sensitive, `.gif` is never removed, and one pass can leave a new `.png` behind (`x.p.pngng` gives `x.png_processing_report.txt`).
- Only the SQL sink checks its connection string (lines 70-74). The queue and report sinks pass a missing string to the SDK. The SDK raises, the sink catches it, and the model reports a transport error.
- A decode failure is logged and `main` returns normally (lines 49-50). It is not surfaced as an exception.
- The report's "Processing Status" lines always say "Success" (lines 212-218). The formatter never sees the sink outcomes.

## Model

| member | source | states |
|---|---|---|
| `Text.ToLower` | function_app/__init__.py:15 | same length as the input; each character lower-cased (ASCII letters) |
| `Text.ToLowerIdempotent` | function_app/__init__.py:15 | lower-casing twice is lower-casing once |
| `Text.Split` | function_app/__init__.py:15 | `split(sep)` is never empty, no piece holds `sep`, joining the pieces with `sep` gives back the input, and there is more than one piece exactly when `sep` occurs |
| `Text.SplitJoin` | function_app/__init__.py:15 | splitting undoes joining when no piece holds the separator |
| `Text.LastSplitIsSuffix` | function_app/__init__.py:15 | `split(sep)[-1]` is a separator-free suffix that is the whole input or is preceded by the separator |
| `Text.LastSplitAfterLastSeparator` | function_app/__init__.py:15 | `split(sep)[-1]` is exactly the text after the last separator |
| `Text.LastSplitNoSeparator` | function_app/__init__.py:180 | without a separator, `split(sep)[-1]` is the whole input |
| `Text.RemoveAll` | function_app/__init__.py:180 | `replace(p, '')` never lengthens nor introduces characters, and shortens the text exactly when `p` occurs in it |
| `Text.RemoveAllAbsent` | function_app/__init__.py:180 | `replace(p, '')` leaves a text without `p` unchanged |
| `Text.RemoveAllAfter` | function_app/__init__.py:180 | when no match starts inside `x`, `replace` keeps `x`, deletes the following `p` and continues with the rest: every occurrence goes, not just a trailing one |
| `Text.RemoveAllAfterPlain` | function_app/__init__.py:180 | the same when `x` lacks the first character of `p` |
| `Text.NatToString` | function_app/__init__.py:208-209 | `str(n)` is a numeral: a non-empty run of decimal digits without leading zero |
| `Text.NatToStringRoundTrip` | function_app/__init__.py:208-209 | reading back the digits of `str(n)` gives `n` |
| `Text.IntToString` | function_app/__init__.py:208-209 | `str(i)` is a numeral (digits, no leading zero) reading back to `i`; for negative `i` it is `-` before a numeral reading back to `-i`, whose first digit is not `0` |
| `TypeGate.Extension` | function_app/__init__.py:15 | the extension is the longest suffix of the lower-cased name without `.`, and it is the whole name or follows a `.` |
| `TypeGate.IsImageName` | function_app/__init__.py:15-17 | an accepted name ends, lower-cased, in one of jpg, jpeg, png, gif, and that ending starts the name or follows a `.` |
| `TypeGate.GateAfterLastDot` | function_app/__init__.py:14-17 | a name with a `.` passes exactly when the lower-cased text after its last `.` is one of jpg, jpeg, png, gif |
| `TypeGate.GateWithoutDot` | function_app/__init__.py:14-17 | a name without `.` passes exactly when the whole lower-cased name is one of them |
| `TypeGate.GateIgnoresCase` | function_app/__init__.py:15 | names that differ only in letter case get the same decision |
| `TypeGate.GateOnSuffix` | function_app/__init__.py:15-17 | `stem.ext` passes exactly when the lower-cased `ext` is accepted, whatever the stem |
| `TypeGate.GateExampleUpperCase` | function_app/__init__.py:15-17 | `….PNG` passes |
| `TypeGate.GateExampleDoubleExtension` | function_app/__init__.py:15-17 | `….png.txt` is skipped: only the last piece counts |
| `TypeGate.GateExampleTrailingDot` | function_app/__init__.py:15-17 | a name ending in `.` is skipped |
| `TypeGate.GateExampleBareExtension` | function_app/__init__.py:15-17 | the dot-free name `png` passes |
| `Metadata.ExtractMetadata` | function_app/__init__.py:30-40 | the record has every key: the filename is the object name, the size in KB times 1024 is the byte count, width, height, format and mode are the decoded image's, and id and the two timestamps are the run's uuid and clock readings |
| `Report.ReportName` | function_app/__init__.py:180-181 | the report name always ends with `_processing_report.txt` and contains no `/` |
| `Report.ReportNameUnchanged` | function_app/__init__.py:180-181 | a name with no `/`, `.png`, `.jpg` or `.jpeg` just gets the suffix |
| `Report.ReportNameKeepsOtherExtension` | function_app/__init__.py:180-181 | a directory-free `stem.ext` with one `.`, whose extension starts with neither `p` nor `j`, just gets the suffix |
| `Report.ReportNameKeepsGif` | function_app/__init__.py:180-181 | `stem.gif` gives `stem.gif_processing_report.txt` for every dot-free stem (so `photo.gif` keeps its `.gif`) |
| `Report.ReportNameIsCaseSensitive` | function_app/__init__.py:180-181 | `stem.PNG` gives `stem.PNG_processing_report.txt` for every dot-free stem: `.PNG` is not removed |
| `Report.ReportNameStripsPng` | function_app/__init__.py:180-181 | `dir/stem.png` gives `stem_processing_report.txt` |
| `Report.ReportNameStripsPngHere` | function_app/__init__.py:180-181 | `stem.png` gives `stem_processing_report.txt` (so `photo.png` gives `photo_processing_report.txt`) |
| `Report.ReportNameStripsEveryOccurrence` | function_app/__init__.py:180-181 | `a.pngb.png` gives `ab_processing_report.txt` |
| `Report.ReportNameSinglePass` | function_app/__init__.py:180-181 | `stem.p.pngng` gives `stem.png_processing_report.txt`: what a deletion exposes is not searched again |
| `Report.ReportLines` | function_app/__init__.py:200-234 | the template has 34 lines; lines 13-19 are the fixed all-"Success" checklist and lines 21-34 the fixed closing sections |
| `Report.FormatReport` | function_app/__init__.py:198-236 | the report is its lines joined by line breaks, with a line break at the end |
| `Report.ReportStartsWithHeader` | function_app/__init__.py:200 | the report starts with the line `=== Image Processing Report ===` |
| `Report.ReportEndsWithFixedTail` | function_app/__init__.py:212-234 | after the twelve record lines comes one fixed text: the all-"Success" checklist and the closing sections |
| `Report.ReportChecklistIsFixed` | function_app/__init__.py:212-218 | any two reports end in the same fixed text, whatever the record and hence whatever the sinks did |
| `Report.ReportHasLine` | function_app/__init__.py:200-210 | each record line of the template stands between two line breaks in the report |
| `Report.ReportShowsMetadata` | function_app/__init__.py:201-210 | the report has the lines `Width: <width>`, `Height: <height>`, the size line and the other fields, with `Unknown` for a missing key and 0 for a missing size |
| `Sinks.SqlParameters` | function_app/__init__.py:98-118 | the INSERT tuple exists exactly when `id` and `filename` are present (otherwise it names the first missing key) and holds, column by column in the order Id, FileName, Format, Mode, Width, Height, FileSizeKB, CreatedAt, ProcessingTime, the value that column's name selects, with `''`, `0` and the two current-time readings as defaults |
| `Sinks.SaveToSqlDatabase` | function_app/__init__.py:64-126 | a failed `import pyodbc` is a transport error whatever the configuration; after it, an absent or empty connection string gives "not configured" and nothing else; a row is inserted exactly when the import works, the string is configured, the connection and table creation go through, the keys are present and the insert goes through, and that row is the parameter tuple |
| `Sinks.SqlRowOfExtracted` | function_app/__init__.py:108-118 | for the record the trigger builds, the row is id, name, format, mode, width, height, bytes/1024 and the two timestamps |
| `Sinks.SqlDefaults` | function_app/__init__.py:105-115 | a record with only id and filename gets `''`, `''`, `0`, `0`, `0` and the two current-time readings |
| `Sinks.SendToQueue` | function_app/__init__.py:128-160 | a message is sent to `image-processing-queue` exactly when the queue is reachable; it carries the record unchanged, the timestamp and `message_type` `image_metadata` |
| `Sinks.GenerateProcessingReport` | function_app/__init__.py:162-196 | a report is uploaded to `output` exactly when storage is reachable, under the derived name and with the formatted text |
| `Sinks.Upload` | function_app/__init__.py:187-191 | uploading sets that one name to the new text and keeps every other report |
| `Sinks.UploadIsIdempotent` | function_app/__init__.py:191 | writing the same report twice equals writing it once (overwrite, no duplicate) |
| `Sinks.ReportRerunKeepsLatest` | function_app/__init__.py:180-191 | when the trigger fires again for the same object, storing both delivered reports leaves only the later record's report under that name |
| `Pipeline.ProcessMetadata` | function_app/__init__.py:52-62 | three outcomes, for SQL, queue and report in that order, each the sink's own outcome on the same record |
| `Pipeline.ProcessUpload` | function_app/__init__.py:23-50 | the content is read and decoded first; a decode failure ends the run with no sink attempted; otherwise the three sinks are attempted in order on the one record built from the decoded image |
| `Pipeline.HandleBlob` | function_app/__init__.py:10-50 | a skipped name triggers no step at all; an accepted one is read and decoded first; a decode failure triggers no sink; otherwise all three sinks are attempted in order on the one extracted record; the run always ends normally |
| `Pipeline.QueueOutageIsIsolated` | function_app/__init__.py:52-62 | a queue outage fails the queue sink and changes neither the SQL nor the report outcome |
| `Pipeline.PhotoScenarioSql` | function_app/__init__.py:108-118 | for a 500x300 PNG of 43520 bytes with the database up, the row has Width 500, Height 300, Format `PNG`, 42.5 KB |
| `Pipeline.PhotoScenarioQueue` | function_app/__init__.py:149-153 | for that image the message is typed `image_metadata` and carries the record |
| `Pipeline.PhotoScenarioReportWidth` | function_app/__init__.py:208 | for that image the uploaded report has the line `Width: 500` |

## Left out

- Image decoding (`Image.open`, line 28) is a foreign library. It is the `decode` parameter, a total function from bytes to optional width, height, format and mode.
- A failing `blobTrigger.read()` (line 25) is not a separate case. The content is an input, and read errors would be caught by the same handler as decode errors.
- `uuid.uuid4()` and `datetime.utcnow()` (lines 31, 38-39, 105-106, 151) are nondeterministic. They are fields of the `Ambient` input.
- pyodbc, `QueueClient`, `BlobServiceClient` and the bare-`except` "get properties, else create" probes (lines 77-95, 120-121, 137-146, 169-177) are network I/O and SDK behaviour. Each sink gets abstract flags saying whether its calls go through. For SQL these are "import pyodbc", "connect and create table" and "insert and commit". For the queue and the report, the SDK import (lines 131, 165) is folded into the one `reachable` flag.
- `json.dumps` (line 155) and `datetime.fromisoformat` (lines 105-106) are library serialisation and parsing. The message is a record, and the timestamps are carried as their ISO text.
- The `:.2f` rendering of the size (line 203) is floating-point formatting. It is the `fixed2` parameter.
- `str.lower` is modelled for ASCII letters only. Unicode case mapping is not modelled.
- The dictionary's values are typed the way `main` stores them, so type errors in the sinks and the formatter (a non-numeric `file_size_kb`, `image.format` being `None`) are not modelled.
- `Pipeline.HandleBlob`: "main never raises" holds by construction. Every failure the source catches is a value in the model, and exceptions outside `Exception` (BaseException) are not modelled.
- `Sinks.Upload` stands alone as the meaning of `overwrite=True` (line 191). A run returns the report outcome, and `Sinks.ReportRerunKeepsLatest` applies delivered outcomes to a container. There is no container state threaded through runs.
- Logging has no behaviour to verify. The log lines are the steps and outcomes of a `Run`.
- `verify_results.py`, `final_test.py` and `test_azure_upload.py` are interactive scripts around the deployed system. They are not part of this model.
