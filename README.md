# dekapu-log-parser in Dafny

A model of the core of dekapu-log-parser, which tails VRChat `output_log_*.txt` files and turns save-data lines into `mpp-savedata` records for a time-series sink. The model covers:

- **Interpolation** (`interpolation.dfy`): `linear_interpolate`, including its fallback for an empty or inverted interval.
- **Estimator** (`credit_speed.dfy`): class `CreditSpeed`. `add` appends a sample, evicts the samples older than two minutes, finds the samples just before and just after "one minute ago", and returns the truncated difference from the value interpolated there.
- **Parser** (`log_parser.dfy`): class `MppLogParser`. It covers the timestamp marker and the save-data URL marker, the flattening of the JSON payload into record fields (`dc_*` objects become `{k}_{sub_k}` fields), the fallback to the wall clock for the record's time, and the extra `credit_all_delta_1m` field.
- **Watcher** (`log_watcher.dfy`): class `VRChatLogWatcher`, modelled as `LogWatcher`.
  - The start of `watch_file`: `parsers.setdefault`, then resume at the stored offset or else seek to end of file.
  - One iteration of its read loop (`Poll`) and the loop itself (`WatchFile`). This includes the per-line offset update, the one-hour idle retirement, and the forwarding of records to the sink.
  - One scan of `run`, with its task-registry rule.

Each file follows the source's shape.

- **Pure code** becomes functions and lemmas.
- **Classes whose methods update fields** become Dafny classes that keep the same fields, and loops stay loops. Each method is tied by its `ensures` to a specification function of the old state: `Retained`/`Outcome` for `add`, `ParseStep` for `parse_line`, `PollStep` for one loop iteration, `ScanFrom` for a scan. The lemmas state the source's promises about those functions.

Modelling conventions:
- **Instants** are integer microseconds, the resolution of `timedelta`.
- **Numbers** are exact reals instead of floats. Python's `int(x)` is modelled as explicit truncation toward zero.
- **Strings** are `seq<char>`. A log file is the sequence of lines `readline` would return, each with the position `f.tell()` reports after it.
- **Library results** for a line are an input, `Decoded`: the URL query and percent-decoding, `json.loads`, and `strptime` with the time-zone conversion.
- **External inputs**: the clocks, the sink's success or failure, and the directory listing.

Two behaviours of the code the model keeps as written:
- **Estimator input.** `parse_line` calls `add` for any non-null `credit_all`, not only for numbers.
  - `add` appends the value whatever its type.
  - Only the subtraction raises `TypeError`. It is caught nowhere, so `parse_line` raises (`Raised`) and the `watch_file` task ends (`ParseFailed`).
  - A bool counts as a number, because a Python bool is an int.
- **Failed sink writes.** `watch_file` has no `try`, so a write failure or a parse exception ends the task (`WriteFailed`, `ParseFailed`).
  - The offset is recorded before the line is parsed and written. A restarted watcher therefore resumes after the failed line and never resends it (`FailedWriteIsNotRetried`). Delivery of that line is at most once.

## Model

| member | source | states |
|---|---|---|
| Interpolation.LinearInterpolate | app/utils/interpolation.py:4-10 | an empty or inverted interval (t1 <= t0) gives v0 |
| Interpolation.OnTheLine | app/utils/interpolation.py:9-10 | on a proper interval the result lies on the straight line through (t0, v0) and (t1, v1), stated without division |
| Interpolation.DegenerateIgnoresEndAndTarget | app/utils/interpolation.py:7-8 | when t1 <= t0 the result is v0 and depends on neither v1 nor target |
| Interpolation.HitsEndpoints | app/utils/interpolation.py:9-10 | on a proper interval the line passes through both samples |
| Interpolation.BetweenEndpoints | app/utils/interpolation.py:9-10 | for a target inside the interval the result lies between v0 and v1 |
| Interpolation.MonotoneInTarget | app/utils/interpolation.py:9-10 | on a proper interval the result is monotonic in the target, in the direction of the samples: non-decreasing for v0 <= v1, non-increasing for v1 <= v0 |
| Estimator.TruncToZero | app/analysis/credit_speed.py:33 | `int(x)`: the result is the integer between 0 and x that is less than 1 away from x |
| Estimator.CreditSpeed.constructor | app/analysis/credit_speed.py:9-10 | the history starts empty |
| Estimator.CreditSpeed.Add | app/analysis/credit_speed.py:12-35 | new history = old history plus the sample, with the front evicted below timestamp - 2min; result = `Outcome` of that history; the new sample is last; the history is a suffix of old + new and starts inside the window; `None` exactly when no sample is at or before timestamp - 1min |
| Estimator.EvictOlder | app/analysis/credit_speed.py:17-18 | the `popleft` loop as a function: drop the front sample while it is older than the cutoff; its shape is stated by `EvictOlderShape` and `EvictKeepsLast` |
| Estimator.Retained | app/analysis/credit_speed.py:13-18 | the history after `add`'s append and eviction below timestamp - 2min; stated by `RetainedKeepsNewest`, `RetainedIsSuffix` and `RetainedWindow` |
| Estimator.LastAtOrBefore | app/analysis/credit_speed.py:22-25 | the loop's `before`, as a function of the history; characterised by `LastAtOrBeforeIsLast` |
| Estimator.FirstAtOrAfter | app/analysis/credit_speed.py:22-27 | the loop's `after`, as a function of the history; characterised by `FirstAtOrAfterIsFirst` |
| Estimator.InterpolateSamples | app/analysis/credit_speed.py:30-31 | `linear_interpolate` at the target between the `before` and `after` samples; an empty interval returns `before`'s credit untouched, and otherwise a credit that is not a number makes the subtraction fail; its value is stated by `NumericDelta` |
| Estimator.Outcome | app/analysis/credit_speed.py:29-35 | the result of `add` for a retained history: `None` without both samples, else the truncated difference or a type error; stated by `NoDeltaIffNothingOldEnough`, `NumericDelta` and `WorkedExample` |
| Estimator.EvictOlderShape | app/analysis/credit_speed.py:15-18 | the `popleft` loop removes a prefix of samples older than the cutoff and leaves a history that is empty or starts at or after it |
| Estimator.EvictKeepsLast | app/analysis/credit_speed.py:16-18 | a last sample at or after the cutoff survives eviction and stays last |
| Estimator.RetainedKeepsNewest | app/analysis/credit_speed.py:13-18 | after `add` the history is non-empty and ends with the sample just added |
| Estimator.RetainedIsSuffix | app/analysis/credit_speed.py:13-18 | after `add` the history is a suffix of old history + new sample and its first sample is within two minutes |
| Estimator.RetainedWindow | app/analysis/credit_speed.py:13-18 | for time-ordered input no later than the new sample, the new history is time-ordered and every sample lies in [timestamp - 2min, timestamp] |
| Estimator.LastAtOrBeforeIsLast | app/analysis/credit_speed.py:22-25 | `before` is missing iff no sample is at or before the target, else it is a sample at or before it with none such after it |
| Estimator.FirstAtOrAfterIsFirst | app/analysis/credit_speed.py:22-27 | `after` is missing iff no sample is at or after the target, else it is a sample at or after it with none such before it |
| Estimator.AfterAlwaysExists | app/analysis/credit_speed.py:13-27 | after `add`, `after` always exists (the new sample qualifies) |
| Estimator.NoDeltaIffNothingOldEnough | app/analysis/credit_speed.py:21-35 | `add` returns `None` iff no retained sample is at or before timestamp - 1min |
| Estimator.BeforeAfterBracketTarget | app/analysis/credit_speed.py:21-27 | before.t <= target <= after.t, and the interval is empty only when both sit exactly on the target |
| Estimator.NumericDelta | app/analysis/credit_speed.py:29-33 | with numeric credits `add` never raises, and a delta is `credit_all - linear_interpolate(before, after, target)` truncated toward zero, with the interpolated value between the two sample values |
| Estimator.WorkedExample | app/analysis/credit_speed.py:12-35 | adding (0s,100), (30s,130), (60s,160), (65s,166) returns None, None, 60 and 61 |
| Parser.Contains | app/analysis/log_parser.py:53-58 | Python's `in` on strings: the marker starts at some position of the line |
| Parser.TimestampShape | app/analysis/log_parser.py:18 | the regular expression: the line starts with `DDDD.DD.DD DD:DD:DD`, D an ASCII digit; used by `NextTimestamp` |
| Parser.NextTimestamp | app/analysis/log_parser.py:38-49 | `last_timestamp` changes only when the line starts with `YYYY.MM.DD HH:MM:SS` and the conversion succeeds, and then it takes that instant |
| Parser.MppLogParser.constructor | app/analysis/log_parser.py:22-25 | a fresh estimator with empty history and no `last_timestamp` |
| Parser.MppLogParser.ParseTimestampLine | app/analysis/log_parser.py:38-49 | the new `last_timestamp` is `NextTimestamp` of the old one |
| Parser.MppLogParser.ParseLine | app/analysis/log_parser.py:51-99 | the outcome and the new (`last_timestamp`, estimator history) are `ParseStep` of the old state |
| Parser.ScalarField | app/analysis/log_parser.py:86-91 | the `isinstance(v, (int, float, str))` test: the field value of an int, float or string, and nothing for any other value |
| Parser.NestedFields | app/analysis/log_parser.py:90-92 | the fields of a `dc_` object's scalar children, named `{k}_{sub_k}`; characterised by `NestedFieldsMembers` |
| Parser.EntryFields | app/analysis/log_parser.py:86-92 | the fields one item of the payload yields; used by `FieldsAreFlattening` |
| Parser.BuildFields | app/analysis/log_parser.py:85-92 | the fields of the whole payload, item by item; characterised by `FieldsAreFlattening` and `BuildFieldsAppend` |
| Parser.Lookup | app/analysis/log_parser.py:72 | `data.get(key)`; characterised by `LookupFindsFirst` |
| Parser.CreditOf | app/analysis/log_parser.py:72 | `credit_all` when present and not null; characterised by `CreditFedWhenPresent` |
| Parser.RecordTime | app/analysis/log_parser.py:75 | the last timestamp, or else the wall clock; stated in `EventLineRecord` |
| Parser.ParseStep | app/analysis/log_parser.py:51-99 | one `parse_line` on the parser state, with the outcome (no record, a record, or raised); stated by `TimestampLineNeverEmits`, `UnrecognisedLineIgnored`, `DecodeFailureDropsLine`, `EventLineRecord` and `NumericEventAlwaysEmits` |
| Parser.LookupFindsFirst | app/analysis/log_parser.py:72 | `data.get(key)` is missing iff no item has the key, else it is the value of the first such item |
| Parser.CreditFedWhenPresent | app/analysis/log_parser.py:72-95 | the estimator is fed iff `credit_all` is present and not null; the credit is numeric iff it is an int, float or bool |
| Parser.NestedFieldsMembers | app/analysis/log_parser.py:90-92 | the fields of a `dc_` object are exactly its scalar children, named `{k}_{sub_k}` |
| Parser.FieldsAreFlattening | app/analysis/log_parser.py:85-92 | a field is emitted iff some item yields it (a scalar under its key, or a scalar child of a `dc_` object under `{k}_{sub_k}`) |
| Parser.BuildFieldsAppend | app/analysis/log_parser.py:85-92 | fields come out in item order: the fields of a concatenation are the concatenation of the fields |
| Parser.FlatteningExample | app/analysis/log_parser.py:85-92 | a payload with a scalar, a `dc_` object and a non-`dc_` object yields exactly the scalar and the two `dc_x_*` fields |
| Parser.TimestampLineNeverEmits | app/analysis/log_parser.py:53-55 | a timestamp-marker line yields no record, even with the URL marker present, and leaves the estimator untouched; `last_timestamp` changes only to a parsed timestamp |
| Parser.UnrecognisedLineIgnored | app/analysis/log_parser.py:53-59 | a line with neither marker yields no record and leaves the state unchanged |
| Parser.DecodeFailureDropsLine | app/analysis/log_parser.py:65-69 | a save-data line whose `json.loads` raises `JSONDecodeError` yields no record and leaves the state unchanged |
| Parser.EventLineRecord | app/analysis/log_parser.py:71-99 | for a decoded save-data line the record has `user_id`, the last timestamp or else the wall clock, and the flattened fields; it has one more field, `credit_all_delta_1m`, exactly when the estimator returned a delta; the estimator is fed iff `credit_all` is non-null; no record only when the estimator raised |
| Parser.NumericEventAlwaysEmits | app/analysis/log_parser.py:94-99 | with numeric credits a decoded save-data line always yields a record |
| Watcher.EndOfFile | app/monitoring/log_watcher.py:34 | `f.seek(0, 2)`: the position after the last line, or 0 for an empty file |
| Watcher.StartPosition | app/monitoring/log_watcher.py:25-35 | the stored offset when there is one, else end of file; stated by `StartSkipsExistingContent` |
| Watcher.NextLine | app/monitoring/log_watcher.py:40 | a line read at `pos` is a line of the file that ends after `pos` |
| Watcher.NextLineIsFirst | app/monitoring/log_watcher.py:40 | `readline` is empty iff no line ends after `pos`, else it returns the first line ending after `pos` |
| Watcher.SkipSpace | app/monitoring/log_watcher.py:51 | the scan `strip()` does from the left: every character skipped is whitespace, and it stops at the end or at a character that is not |
| Watcher.TrimEnd | app/monitoring/log_watcher.py:51 | the scan `strip()` does from the right: every character dropped is whitespace, and it stops at the lower bound or after a character that is not |
| Watcher.Strip | app/monitoring/log_watcher.py:51 | `line.strip()` is a slice of the line with only whitespace before and after it, and neither starts nor ends with whitespace |
| Watcher.StripIdempotent | app/monitoring/log_watcher.py:51 | stripping a stripped line changes nothing |
| Watcher.PollStep | app/monitoring/log_watcher.py:39-53 | an iteration that reads a line moves the position forward and sets this file's offset to it; an empty read changes neither |
| Watcher.AfterRead | app/monitoring/log_watcher.py:48-53 | after a line is read the position, activity and offset are updated before the parse; the task ends iff parsing raised or a record's write failed; a record is written iff parsing returned one |
| Watcher.FileWatch.constructor | app/monitoring/log_watcher.py:30-37 | a watcher at the given position, active now, not finished |
| Watcher.LogWatcher.constructor | app/monitoring/log_watcher.py:12-18 | the given offset map and no parsers |
| Watcher.LogWatcher.StartWatch | app/monitoring/log_watcher.py:22-37 | an existing parser for the name is reused with its state; otherwise a fresh, empty one is registered; the start is the stored offset or else end of file; offsets unchanged |
| Watcher.LogWatcher.Poll | app/monitoring/log_watcher.py:39-53 | the new position, activity, parser state, offsets and event are `PollStep` of the old ones; the task is finished iff the event ends it |
| Watcher.LogWatcher.Advance | app/monitoring/log_watcher.py:39-53 | the event fits the input (`PollFits`): a line is consumed iff `readline` returns one; then the position moves to that first line's end, the activity time is now and the offset is stored; otherwise the watcher's state and the offsets are unchanged and it retires iff more than an hour has passed; finished iff the event ends the task |
| Watcher.LogWatcher.WatchFile | app/monitoring/log_watcher.py:39-53 | one event per input until the first event that ends the task, which stops the loop; finished iff the last event ends it; the k-th poll starts at the position and activity time the one before left (the old ones for the first), reads a line iff `readline` returns one there, and retires iff it does not and more than an hour has passed; the final position and activity are what the last poll left; one position per consumed line, ascending from the start; the final position is the last of them and, once a line was consumed, this file's stored offset; no other offset changes |
| Watcher.TraceAppend | app/monitoring/log_watcher.py:39-49 | a poll that fits its input and starts where the run left off extends the run's trace |
| Watcher.TraceStart | app/monitoring/log_watcher.py:25-37 | the first poll of a run starts at the start position and activity time |
| Watcher.TraceFits | app/monitoring/log_watcher.py:40-49 | every poll of a run reads a line iff `readline` returns one at its position, and retires iff it does not and the watcher has been idle over an hour |
| Watcher.TracePositions | app/monitoring/log_watcher.py:40-48 | every later poll starts at the end of the line the one before read, or where it started if that read was empty |
| Watcher.TraceActivity | app/monitoring/log_watcher.py:40-49 | every later poll starts with the activity time the one before left: its `now` after a line, else unchanged |
| Watcher.AscendingMeans | app/monitoring/log_watcher.py:40-48 | the positions after consumed lines all lie past the start and strictly increase, so no line is read twice |
| Watcher.StartSkipsExistingContent | app/monitoring/log_watcher.py:25-35 | reading resumes at the stored offset; without one the first read is empty, so content already in the file is never read |
| Watcher.EmptyReadChangesNothing | app/monitoring/log_watcher.py:40-46 | an empty read changes neither offsets, position, activity nor parser, and retires iff more than an hour has passed |
| Watcher.RetiresOnlyWhenIdle | app/monitoring/log_watcher.py:41-45 | the watcher retires iff the read is empty and more than an hour has passed since the last line |
| Watcher.LineReadRecordsOffset | app/monitoring/log_watcher.py:48-49 | a non-empty read stores the position after the line as this file's offset (whatever parsing and writing do) and marks the activity time |
| Watcher.OtherOffsetsUnchanged | app/monitoring/log_watcher.py:48 | no other file's offset changes |
| Watcher.ForwardsOnlyParsedRecords | app/monitoring/log_watcher.py:51-53 | a record goes to the sink iff `parse_line` returned it for the line read; a successful send needs the sink to accept |
| Watcher.FailedWriteIsNotRetried | app/monitoring/log_watcher.py:48-53 | after a failed write the stored offset is past the failed line, so a restarted watcher never reads it again |
| Watcher.MatchesLogPattern | app/monitoring/log_watcher.py:61 | the glob `output_log_*.txt` on a file name |
| Watcher.ScanFrom | app/monitoring/log_watcher.py:60-68 | one pass of the `for` loop over the listing, as a function of the registry; stated by the `Scan*` lemmas |
| Watcher.Scan | app/monitoring/log_watcher.py:60-68 | the new registry and the started names are `ScanFrom`; running tasks are kept; every eligible file ends up running; tasks start only for eligible names with no task or a done one, at most once each; other entries are unchanged |
| Watcher.ScanKeepsRunning | app/monitoring/log_watcher.py:64-68 | a running task is never replaced or restarted |
| Watcher.ScanCoversEligible | app/monitoring/log_watcher.py:61-68 | after a scan every regular file matching `output_log_*.txt` has a running task |
| Watcher.ScanStartsOnlyNeeded | app/monitoring/log_watcher.py:61-66 | a task starts only for a matching regular file whose name had no task or a done one |
| Watcher.ScanStartsOnce | app/monitoring/log_watcher.py:64-68 | no name is started twice in one scan |
| Watcher.ScanLeavesOthers | app/monitoring/log_watcher.py:64-68 | a name not started keeps its registry entry, or its absence |

## Left out

- Asyncio scheduling is not modelled. This covers `asyncio.sleep`, task creation, cancellation and interleaving between tasks. One watcher iteration or one scan is modelled at a time, and a task's `done()` is an input flag.
- The clocks `datetime.now()` and `datetime.now(tz=UTC)` are parameters.
- Logging is not modelled.
- The sink (`InfluxWriterAsync`) is reduced to whether a write succeeds.
- The offset store's file load and save are not modelled. Offsets are a plain map.
- `main.py` is not part of this model. It is a standalone prototype that duplicates the parser and the estimator.
- `urlparse`, `parse_qs`, `unquote`, `json.loads`, `strptime`, `ZoneInfo` and the `TZ` fallback are abstracted: their results for a line are an input.
- A JSON payload that decodes to a non-object is not modelled, because `data.get` would then raise.
- Float rounding is not modelled. The values are exact reals, and `total_seconds()` ratios are exact ratios of microsecond counts.
- The precision of very large integer credits is not modelled. An integer credit beyond float range is finite in the model, but `(v1 - v0) * ratio` (interpolation.py:10) or `credit_all - interpolated` (credit_speed.py:33) can convert it to a float, which raises `OverflowError` and ends `watch_file`. So the "never raises" of `NumericDelta` and `NumericEventAlwaysEmits` also needs credits within float range.
- Non-finite numbers are not modelled. `json.loads` accepts `NaN`, `Infinity` and out-of-range numbers such as `1e400`, and for such a credit or sample `int(credit_all - interpolated)` raises `ValueError` or `OverflowError`, which ends `watch_file`. The model's credits are finite, so the "never raises" of `NumericDelta` and `NumericEventAlwaysEmits` holds only for finite credits.
- Errors of `json.loads` other than `JSONDecodeError` are not modelled. `parse_line` catches only that class, so a `ValueError` for an integer literal over the interpreter's digit limit, or a `RecursionError` for very deep nesting, escapes and ends `watch_file`. The model has only two decode results: an object, or `JSONDecodeError` (no record).
- A decoded payload is assumed to have distinct keys, as a Python dict does. `json.loads` keeps the last value of a key repeated in the raw text; the model takes the items as given, and `Lookup` returns the first match.
- `Point` keeps only the last value of a duplicate field name. The model keeps the fields as the ordered list of `field` calls instead.
- Text-mode `tell()` cookies, UTF-8 decoding with `errors="ignore"`, and `readline` from an offset in the middle of a line are not modelled. Positions are abstract line ends.
- `\d` in the timestamp regular expression is modelled as the ASCII digits. The model ignores a line whose timestamp uses other Unicode decimal digits, whatever `strptime` would make of it.
- `str.strip()` is modelled on the ASCII and Latin-1 whitespace. Other Unicode whitespace is not modelled.
- Glob matching is modelled case-sensitively, as on POSIX.
- Watcher.LogWatcher.Advance: does not state the parser state, nor which event a consumed line yields (skipped, sent, write failure or parse failure), so not whether a consumed line ends the task. `Poll`'s contract states these through `PollStep`; the read loop needs only the position, offset, activity and ending facts.
- Watcher.LogWatcher.WatchFile: does not state the parser state, the records sent over the run, or which event each consumed line yields; each iteration's are stated by `Poll`.
- The supervisor's outer `while True` and its ten-second sleep are not modelled. The model covers one pass of the `for` loop.
