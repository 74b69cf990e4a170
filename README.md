# skatemap-live load-testing tools, modelled in Dafny

skatemap-live streams skater positions for skating events. Its load-testing
tools drive a deployment and check what comes back:

- `simulate-skaters` posts location updates for `--events` × `--skaters-per-event`
  simulated skaters and logs one CSV row per update (`metrics.Writer`).
- `simulate-viewers` opens one WebSocket stream per viewer, `--viewers-per-event`
  viewers for each `--events` ID, and logs one CSV row per frame or failure
  (`viewer.Viewer`, `metrics.ViewerWriter`).
- `testutil` reads those CSV files back in the acceptance tests. It counts
  rows, fails on error cells, and collects the skater IDs viewers saw.
- `jfr-to-memory-graph.py` turns `jfr print --events jdk.GCHeapSummary` output
  into (time, heap) samples and fits a least-squares growth rate in MiB per minute.

The model covers the sequential logic of these pieces.

- Each loop of the source is a Dafny `method` with its loop and invariants.
  It is proved equal to a specification function, and the properties are
  proved about that function as lemmas.
- The two CSV writers are classes. Their state is the rows already in the
  file, the rows still buffered, and (for the viewer writer) the record count.
- Library calls are inputs to the model:
  - `url.Parse`, dialling, `SetReadDeadline`, `ReadMessage` and `json.Unmarshal`;
  - `uuid.New` and `uuid.Parse`;
  - `os.Create`, `csv.Writer.Write`, `Flush`, `Error` and `File.Close`;
  - `datetime.strptime`.

  Each arrives as an `Option`/`Result` argument, a function argument, or (for
  `uuid.New`) the sequence of values it would return.

Files:

| file | module | models |
|---|---|---|
| `wrappers.dfy` | `Wrappers` | `Option`, `Result` |
| `text.dfy` | `Text` | Go's `unicode.IsSpace`, `strings.TrimSpace`/`Split`/`Join`, `%d`; Python's `str.strip` |
| `cohorts.dfy` | `Cohorts` | event-major layout shared by both simulators |
| `viewer.dfy` | `Viewer` | `internal/viewer/viewer.go` |
| `skater.dfy` | `Skater` | the skater values the simulator and writer exchange |
| `simulate_skaters.dfy` | `SimulateSkaters` | `cmd/simulate-skaters/main.go` |
| `simulate_viewers.dfy` | `SimulateViewers` | `cmd/simulate-viewers/main.go` |
| `csv_format.dfy` | `CsvFormat` | rows, the error cell, cell formats |
| `metrics_writer.dfy` | `MetricsWriter` | `internal/metrics/writer.go` |
| `metrics_viewer_writer.dfy` | `ViewerMetrics` | `internal/metrics/viewer_writer.go` |
| `csv_assert.dfy` | `CsvAssert` | `internal/testutil/csv.go`, and what it reads back from the writers |
| `jfr_memory_graph.dfy` | `JfrMemoryGraph` | `tools/profiling/jfr-to-memory-graph.py` |

## Model

| member | source | states |
|---|---|---|
| Viewer.PingBeforePongWait | tools/load-testing/internal/viewer/viewer.go:14-21 | the ping period (54 s) is positive and shorter than the pong wait (60 s), so a ping always goes out before the read deadline the pong handler extends |
| Viewer.StreamScheme | tools/load-testing/internal/viewer/viewer.go:136-143 | a WebSocket scheme exists exactly for `http` and `https`; `http` maps to `ws` and `https` to `wss` |
| Viewer.BuildWebSocketURL | tools/load-testing/internal/viewer/viewer.go:130-147 | succeeds exactly when the base URL parses and its scheme is http or https; a parse error is passed on and any other scheme is reported as an invalid scheme |
| Viewer.BuildThenParse | tools/load-testing/internal/viewer/viewer.go:130-147 | round trip: the built URL reads back as the base URL's host and the event ID, secure exactly when the base scheme was https, with any base path discarded |
| Viewer.ReceiveLoop | tools/load-testing/internal/viewer/viewer.go:168-240 | the loop sends exactly the results of the `Receive` specification, and its final message count is the number of error-free results |
| Viewer.Start | tools/load-testing/internal/viewer/viewer.go:72-128 | an invalid URL, a failed dial and a failed first deadline each give a single failure result carrying the count 0 and the matching message; otherwise the dialled URL is the built one and the results are those of the receive loop |
| Viewer.ReceiveIdentity | tools/load-testing/internal/viewer/viewer.go:168-240 | every result carries the viewer's event ID and number and no skater IDs; every error result has a non-empty message |
| Viewer.ReceiveLength | tools/load-testing/internal/viewer/viewer.go:168-240 | at most one result per loop iteration |
| Viewer.ReceiveCounts | tools/load-testing/internal/viewer/viewer.go:169-238 | each result's message count is the starting count plus the successes up to and including it; failures leave the count unchanged and each success adds one |
| Viewer.ReceiveOnlyLastIsFinal | tools/load-testing/internal/viewer/viewer.go:168-240 | every result but the last comes from a received frame and is either a success or a "failed to parse message" result, so only the last result can end the loop |
| Viewer.ReceiveAt | tools/load-testing/internal/viewer/viewer.go:178-238 | while frames keep arriving, result j answers frame j. It has the time taken at the top of that iteration, before the read deadline is set and the frame is read, and the count of batches decoded so far. A decoded batch gives latency = receive time − server time, unclamped, and its int64 wrap-around is not modelled (see Left out). An undecodable frame gives the parse-failure message and latency 0 |
| Viewer.QuietEnds | tools/load-testing/internal/viewer/viewer.go:171-213 | cancellation, a read failing after cancellation, and a close with code 1000 or 1001 end the loop with no result; any other read error gives exactly one |
| SimulateSkaters.ParseEventIDs | tools/load-testing/cmd/simulate-skaters/main.go:83-111 | an empty flag yields the next `numEvents` generated UUIDs. Otherwise a piece count other than `--events` is a count mismatch. When the count matches, the result is Ok exactly when every trimmed piece is non-empty and a valid UUID; Ok holds the trimmed pieces, and an error names the first failing position with its reason |
| SimulateSkaters.TrimEach | tools/load-testing/cmd/simulate-skaters/main.go:93-95 | every element of the array is replaced by its trimmed self |
| SimulateSkaters.FirstFailure | tools/load-testing/cmd/simulate-skaters/main.go:101-108 | no failure exactly when every ID is acceptable; otherwise the reported failure is the first unacceptable ID, with its 1-based position and reason |
| SimulateSkaters.BuildSkaters | tools/load-testing/cmd/simulate-skaters/main.go:177-184 | there are events × skaters-per-event skaters, and skater i belongs to event `Expand(E, k)[i]` (event i div k) and takes the i-th fresh UUID |
| Cohorts.ExpandAt | tools/load-testing/cmd/simulate-skaters/main.go:178-183 | in the event-major layout, position i belongs to event i div k |
| SimulateViewers.ParseEventIDs | tools/load-testing/cmd/simulate-viewers/main.go:83-95 | the result is the trimmed comma-separated pieces with the empty ones dropped, in order |
| SimulateViewers.NonEmptyMembers | tools/load-testing/cmd/simulate-viewers/main.go:87-92 | a string is kept exactly when it is a non-empty element of the input |
| SimulateViewers.EventIdsShape | tools/load-testing/cmd/simulate-viewers/main.go:83-95 | no more IDs than pieces; each ID is non-empty and has no white space at either end |
| SimulateViewers.BlankEventsIff | tools/load-testing/cmd/simulate-viewers/main.go:75-78 | the flag yields no event ID (so `parseFlags` stops) exactly when it holds only commas and white space |
| SimulateViewers.ParseFlags | tools/load-testing/cmd/simulate-viewers/main.go:39-81 | accepted exactly when the target URL and events are present, the URL parses, both counts are positive, and at least one event ID remains; each check stops the program, so the first failing check, in the source's order, decides the error: missing URL, missing events, the `url.Parse` error, then the viewer count, the buffer size and no IDs left, each with the offending value. The accepted config holds the filtered IDs |
| SimulateViewers.NumberViewers | tools/load-testing/cmd/simulate-viewers/main.go:137-145 | events × viewers-per-event viewers; viewer i has number i + 1 and watches event i div viewers-per-event |
| SimulateViewers.StartCohort | tools/load-testing/cmd/simulate-viewers/main.go:139-144 | appends viewers-per-event viewers of one event, numbered on from the viewers already started, and keeps those |
| SimulateViewers.NumberedByEvent | tools/load-testing/cmd/simulate-viewers/main.go:137-145 | the event-major numbering puts viewer i on event i div k |
| Text.TrimIsWindow | tools/load-testing/cmd/simulate-skaters/main.go:93-95 | what `strings.TrimSpace` keeps is the contiguous piece of the input that starts right after its leading white space, and everything it drops on either side is white space |
| Text.TrimEmptyIff | tools/load-testing/cmd/simulate-viewers/main.go:88-89 | a piece trims to empty exactly when it is all white space |
| Text.JoinSplit | tools/load-testing/internal/testutil/csv.go:131-137 | joining the pieces of a split with the same separator gives back the input |
| Text.SplitJoin | tools/load-testing/internal/testutil/csv.go:131-137 | splitting a join of separator-free pieces gives back the pieces |
| MetricsWriter.RecordOf | tools/load-testing/internal/metrics/writer.go:44-55 | one field per header column, each holding that column's value for the result; the error cell is empty exactly when there is no error |
| MetricsWriter.Writer.constructor | tools/load-testing/internal/metrics/writer.go:25-37 | the file holds the header row, or the header is still buffered if the flush failed |
| MetricsWriter.Writer.WriteResult | tools/load-testing/internal/metrics/writer.go:40-63 | a refused record is reported wrapped and changes nothing. Otherwise the record follows the earlier rows and is flushed at once, and the flush error is returned. The header-first, rectangular layout is kept |
| MetricsWriter.Writer.Flush | tools/load-testing/internal/metrics/writer.go:61-62 | moves the buffered rows to the file unless the flush fails; the rows in order are unchanged |
| MetricsWriter.Writer.Close | tools/load-testing/internal/metrics/writer.go:65-71 | flushes (ignoring its error), closes, and returns the close error |
| MetricsWriter.NewWriter | tools/load-testing/internal/metrics/writer.go:19-38 | fails exactly when the create or the header write fails, with the source's wrapped messages; otherwise a fresh writer whose only row is the header |
| ViewerMetrics.JoinSkaterIDs | tools/load-testing/internal/metrics/viewer_writer.go:54-60 | the appending loop builds `strings.Join` of the IDs with the pipe separator |
| ViewerMetrics.ViewerRecordOf | tools/load-testing/internal/metrics/viewer_writer.go:49-70 | one field per column of the seven-column header, each holding that column's value |
| ViewerMetrics.ViewerWriter.constructor | tools/load-testing/internal/metrics/viewer_writer.go:30-42 | the file holds the header row (or it is still buffered), with the record count at zero |
| ViewerMetrics.ViewerWriter.WriteResult | tools/load-testing/internal/metrics/viewer_writer.go:45-85 | a refused record is reported wrapped and changes nothing. Otherwise the record follows the earlier rows and the count goes up by one. Only when the count reaches a multiple of 10 is there a flush, and its error is returned. While no flush has failed, at most count mod 10 rows wait in the buffer, so never more than nine |
| ViewerMetrics.ViewerWriter.Flush | tools/load-testing/internal/metrics/viewer_writer.go:78-81 | moves the buffered rows to the file unless the flush fails; rows and count unchanged |
| ViewerMetrics.ViewerWriter.Close | tools/load-testing/internal/metrics/viewer_writer.go:87-93 | flushes everything buffered (ignoring its error), closes, and returns the close error |
| ViewerMetrics.NewViewerWriter | tools/load-testing/internal/metrics/viewer_writer.go:24-43 | fails exactly when the create or the header write fails, with the wrapped messages; otherwise a fresh writer with count 0 whose only row is the header |
| CsvAssert.CountRecords | tools/load-testing/internal/testutil/csv.go:69-85 | the number of rows after the header row, and 0 for an empty or header-only file |
| CsvAssert.AssertNoErrors | tools/load-testing/internal/testutil/csv.go:15-49 | no rows stops the test. Otherwise a row whose width differs from the header stops it, and the row reported is the first such row. Otherwise the test fails exactly when some last-column cell is non-empty, with that count |
| CsvAssert.NonEmptyCellsBounds | tools/load-testing/internal/testutil/csv.go:34-48 | the error count is at most the row count, and zero exactly when every error cell is empty |
| CsvAssert.ColumnIndex | tools/load-testing/internal/testutil/csv.go:113-120 | −1 exactly when the column is absent; otherwise the first index holding the name |
| CsvAssert.ExtractSkaterIDs | tools/load-testing/internal/testutil/csv.go:96-141 | no rows stops the test, and a header-only file gives no IDs. Otherwise a missing `skater_ids` column, or a row of the wrong width (the first one), stops the test. Otherwise the result is the union of the pipe-split non-empty cells of the first `skater_ids` column |
| CsvAssert.CellRoundTrip | tools/load-testing/internal/metrics/viewer_writer.go:54-60 | reading back a joined `skater_ids` cell gives exactly the IDs joined, when no ID contains the pipe separator and the list is not one empty ID |
| CsvAssert.SkaterFileErrors | tools/load-testing/internal/testutil/csv.go:32-46 | a skater metrics file is rectangular, and its error column counts exactly the results that carried an error |
| CsvAssert.ViewerFileErrors | tools/load-testing/internal/testutil/csv.go:32-46 | a viewer metrics file is rectangular, and its error column counts exactly the results that carried an error |
| CsvAssert.ViewerFileIds | tools/load-testing/internal/testutil/csv.go:113-140 | `skater_ids` is column 5 of the viewer header, and reading it back gives exactly the IDs the written results carried |
| CsvAssert.ViewerWriterCount | tools/load-testing/internal/testutil/csv.go:80-84 | a viewer writer's rows are rectangular, and `CountRecords` of them is the writer's record count |
| CsvAssert.ViewerRunErrors | tools/load-testing/internal/testutil/csv.go:42-48 | a viewer run's metrics have no error cells exactly when no result of its receive loop was an error |
| JfrMemoryGraph.ParseNumber | tools/profiling/jfr-to-memory-graph.py:52-54 | `float()` of a digits-and-dots match fails exactly when the text has no digit or more than one dot |
| JfrMemoryGraph.StepLine | tools/profiling/jfr-to-memory-graph.py:35-64 | per line: a lone `}` emits a datapoint exactly when time and heap are both known, and resets the event. A `startTime = ` match sets the stripped time. A `heapUsed = ` match sets bytes/1048576, and a match `float()` refuses is an error carrying the text. A line other than `}` emits nothing. Without a header or a match it leaves that field of the collected event as it was, and a `jdk.GCHeapSummary` line leaves a field unset unless the same line sets it |
| JfrMemoryGraph.ParseJfrOutput | tools/profiling/jfr-to-memory-graph.py:21-66 | the loop returns exactly the `Scan` specification's datapoints, or its first error |
| JfrMemoryGraph.ProcessLine | tools/profiling/jfr-to-memory-graph.py:36-64 | the loop body, updating the event in place, agrees with `StepLine` |
| JfrMemoryGraph.ScanErrSticky | tools/profiling/jfr-to-memory-graph.py:52-54 | once a prefix of the input fails, the whole input fails with the same error |
| JfrMemoryGraph.DatapointsBound | tools/profiling/jfr-to-memory-graph.py:59-64 | no more datapoints than lines that are a lone closing brace |
| JfrMemoryGraph.EventAcrossLines | tools/profiling/jfr-to-memory-graph.py:35-62 | a time line, a later heap line that is not a header and sets no time, and a lone `}` together emit the datapoint made of that time and heap size in MiB, and reset the event |
| JfrMemoryGraph.HeaderResets | tools/profiling/jfr-to-memory-graph.py:39-40 | a `jdk.GCHeapSummary` line behaves the same whatever was collected before it |
| JfrMemoryGraph.Normalize | tools/profiling/jfr-to-memory-graph.py:68-108 | never more points than samples; when the first time reads in the clock format, the first point is the first sample at 0 seconds |
| JfrMemoryGraph.NormalizeTimestamps | tools/profiling/jfr-to-memory-graph.py:68-108 | the format loop and the conversion loop return exactly `Normalize`: no samples give no points; if no format reads the first time, sample i is placed at i seconds; otherwise only samples readable in the clock format are kept, in order, each at its offset from the first time |
| JfrMemoryGraph.ClockPointsFirst | tools/profiling/jfr-to-memory-graph.py:99-104 | a first sample the clock format reads is the first point, at its offset from the start |
| JfrMemoryGraph.ClockPointsBound | tools/profiling/jfr-to-memory-graph.py:99-106 | dropping unreadable samples never adds points |
| JfrMemoryGraph.IsoRecordingIsEmpty | tools/profiling/jfr-to-memory-graph.py:99-106 | a recording with ISO times only yields no points, although its first time was read |
| JfrMemoryGraph.ClockRecordingKeepsAll | tools/profiling/jfr-to-memory-graph.py:99-106 | with every time in the clock format, every sample is kept in order at its offset |
| JfrMemoryGraph.GrowthRate | tools/profiling/jfr-to-memory-graph.py:110-137 | fewer than two samples give (0, 0, 0); otherwise the first and last heap sizes, and slope 0 when the denominator is zero |
| JfrMemoryGraph.SqDevZero | tools/profiling/jfr-to-memory-graph.py:126-130 | a sum of squared time deviations is non-negative, and zero exactly when every time equals the reference |
| JfrMemoryGraph.DenominatorZeroIff | tools/profiling/jfr-to-memory-graph.py:126-127 | the regression denominator is never negative, and zero exactly when all sample times coincide |
| JfrMemoryGraph.LinearTrend | tools/profiling/jfr-to-memory-graph.py:110-137 | samples on a line heap = a + b·t at two or more distinct times give a slope of exactly 60·b MiB per minute |
| JfrMemoryGraph.SameTimeNoSlope | tools/profiling/jfr-to-memory-graph.py:126-128 | samples all taken at one time report slope 0 |

## Left out

- Concurrency is not modelled: goroutines, channels, the wait groups, mutexes and signal handling.
  - The viewer's `pingLoop` and pong handler are left out. Only their timing constants are kept (`Viewer.PingBeforePongWait`).
  - `sendResult`'s select on the context is left out. Every result the loop produces counts as sent.
- `run` in both simulators is left out beyond the population and numbering loops. That covers the metrics goroutine, the ticker, shutdown and logging.
- `internal/skater/skater.go` is not part of this model. A skater is its event ID, its ID and its base URL. `Move` and `UpdateLocation` are left out.
- Library behaviour enters as parameters and is not modelled itself:
  - `url.Parse`, the WebSocket dial, `SetReadDeadline`, `ReadMessage` and `json.Unmarshal`;
  - `uuid.New` and `uuid.Parse`;
  - `time.Format(RFC3339)` and the `%.2f` millisecond format (the `Formats` argument);
  - `datetime.strptime`.
- CSV quoting, the CSV reader's parsing, and `ReadAll` errors are left out. The checks start from the rows the reader returns, and every such row has at least one field.
  - Go's `csv.Reader` keeps `FieldsPerRecord` at 0, so `ReadAll` itself refuses a file whose rows differ in width. The width checks in `AssertNoErrors` and `ExtractSkaterIDs` are therefore never reached after a successful `ReadAll`. The model keeps those `WidthMismatch` branches because the source has them, but they are not live behaviour; every file the writers produce is rectangular (`CsvAssert.SkaterFileErrors`, `CsvAssert.ViewerFileErrors`).
- MetricsWriter.Writer.WriteResult: the CSV writer's internal 4 KiB buffer is not modelled. A record is either accepted and buffered or refused. A write that auto-flushes part of the buffer is not modelled, and neither is the way an earlier flush error sticks to later `Error()` calls. The model returns the given flush outcome each time.
- ViewerMetrics.ViewerWriter.WriteResult: the same abstraction of the CSV writer's buffer and sticky errors applies.
- MetricsWriter.NewWriter: `file.Close()` on a header failure, and the flush error the source ignores, are not observable in the model beyond the writer's state.
- ViewerMetrics.ViewerWriter.WriteResult: `recordCount` is an unbounded integer; Go's `int` overflow after 2^63 records is not modelled.
- Viewer.ReceiveLoop: latency is an unbounded integer number of milliseconds. The source computes `receiveTime.UnixMilli() - batch.ServerTime` in int64 and then `time.Duration(latency) * time.Millisecond` in int64 nanoseconds. That product wraps once the difference exceeds about 9.2e12 ms (about 292 years), for instance when a server sends a huge `ServerTime`. The wrap-around is not modelled, so for such frames the model's latency is the true difference and the source's is not.
- Python floats are modelled as exact reals:
  - `float()`, the division by 1048576 and the regression sums carry no rounding;
  - JfrMemoryGraph.GrowthRate compares the denominator with zero exactly. With rounding, a tiny non-zero denominator could give a huge slope;
  - `float()` is modelled only on the digits-and-dots text the regex captures.
- JfrMemoryGraph.StepLine: `\d` is taken as the ASCII digits. Python's `\d` also matches other Unicode decimal digits.
- The rest of `jfr-to-memory-graph.py` is left out: the graph (`generate_graph`), the assessment thresholds, reading stdin, the warning printed on an unreadable first time, and `main`.
- `testutil/subprocess.go` and `testutil/railway.go` are left out, and so are the acceptance suites under `test/`. They start processes and services.
- `CountRecordsLive` and `snapshotCSV` copy a file before counting. They are left out because the count is the same.
- Several tests disagree with the code; the model follows the code:
  - `viewer_writer_test.go` expects a six-column header without `skater_ids`. The writer writes seven columns.
  - `simulate-skaters/main_test.go` expects `"<uuid>,,"` to fail with "invalid UUID format". The code reports "empty event ID at position 2" first (`SimulateSkaters.ParseEventIDs`).
  - `viewer_test.go` calls `New` with a stop channel instead of a context.
- `viewer.go`'s `ViewerResult` has no `SkaterIDs` field, yet `viewer_writer.go` reads `result.SkaterIDs`. The model gives `ViewerResult` the field the writer reads, and the viewer always leaves it empty (`Viewer.ReceiveIdentity`). So `ExtractSkaterIDs` yields no IDs for a viewer file the viewer wrote. `CsvAssert.ViewerFileIds` states the round trip for any IDs the results do carry.
