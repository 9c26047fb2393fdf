# timon clock-jump detector, modelled in Dafny

timon is a desktop clock that also watches for abrupt changes of the system
clock. Every two seconds it takes a snapshot of the wall clock
(`time.time()`) and the monotonic clock (`time.monotonic()`). It compares the
offset between the two clocks with the offset in the previous snapshot. When
that offset has moved by more than a threshold (300 s in the application), it
shows a warning that says how much monotonic time passed and how far the wall
clock moved.

This project models that detector from `timon.py`:

- `time_status.dfy` (module `TimeStatus`): the snapshot `get_time_status`
  builds, with the two clock readings passed in as parameters.
- `time_monitor.dfy` (module `Monitor`): the class `TimeMonitor`, with its
  threshold and its mutable last snapshot. The method `Monitor` returns
  `Some(Jump(new, previous))` where the source calls
  `callback(status, last_status)`, and `None` where it does not. Two ghost
  logs record every snapshot taken and every callback fired. The pure
  function `Callbacks` gives the callbacks of a whole run, and lemmas relate
  it to the detection rule.
- `timedelta.dfy` (module `Timedelta`): Python's normalized `timedelta`
  (days, seconds within the day, microseconds) built from a microsecond
  count. Also the days / hours / minutes / seconds split at the start of
  `format_timedelta`.
- `format_timedelta.dfy` (module `DurationText`): `format_timedelta` itself.
  `ParseDuration` reads such a text back and accepts only canonical texts:
  the sentinel `0秒`, or pieces whose numbers are positive with no leading
  zero and whose units come in strictly descending order. The main result is
  the round trip: parsing the text gives back the split. A second lemma shows
  that every text the parser accepts has exactly the shape that
  `format_timedelta` builds.
- `decimal.dfy` (module `Decimal`): the decimal numerals that
  `'{}'.format(n)` writes, and reading them back.
- `time_warning.dfy` (module `Warning`): `get_time_warning`, with a parser
  for the message and a concrete backward-jump scenario.
- `wrappers.dfy` (module `Wrappers`): the `Option` type.

Units: every reading and duration is a whole number of microseconds. The
threshold stays in whole seconds, as the source's `warn_seconds` is, so the
test on timon.py:20 reads `|Δdiff| > maxSeconds * 1000000`.

In three places the model follows the code where a reader might expect
otherwise:

- The code never rejects a zero or negative threshold (timon.py:11-12).
  The constructor accepts any integer, and `NegativeThresholdAlwaysFires`
  shows the consequence.
- The callback receives the two snapshots, not two precomputed elapsed
  times. The elapsed times are computed later, in `get_time_warning`.
- `get_time_warning` passes the monotonic elapsed time through with its
  sign. `format_timedelta` never prints a negative day count (`days > 0`).
  So for a negative duration its text leaves days out, and it can even be
  empty (`EmptyOnlyWhenNegativeDays`). The monotonic clock never runs
  backwards, so this path is not reached in practice. The model keeps this
  behaviour and does not add a precondition.

## Model

| member | source | states |
|---|---|---|
| `TimeStatus.GetTimeStatus` | timon.py:24-31 | the snapshot keeps both readings and its `diff` is wall-clock reading minus monotonic reading |
| `TimeStatus.OffsetChange` | timon.py:30 | between two snapshots, `diff` changes by wall-clock elapsed minus monotonic elapsed |
| `TimeStatus.OffsetIgnoresCommonShift` | timon.py:30 | moving both readings by the same amount leaves `diff` unchanged |
| `Monitor.Jumped` | timon.py:20 | the jump rule: the offsets differ by strictly more than the threshold, in either direction; its properties are stated by `ThresholdIsStrict`, `DirectionIrrelevant`, `JumpedSymmetric`, `JumpIsWallClockStep`, `VerdictIgnoresEpochs`, `SameOffsetNeverFires` and `NegativeThresholdAlwaysFires` |
| `Monitor.Callbacks` | timon.py:15-21 | the callbacks that a run of `monitor` calls fires; characterized by `CallbacksAreJumps` and `JumpsAreCallbacks` (both directions) and `QuietRunFiresNothing`, and kept equal to the class's callback log by `TimeMonitor.Monitor` |
| `Monitor.TimeMonitor.constructor` | timon.py:11-13 | the threshold is the given `warn_seconds` and the stored snapshot is the first reading; no callback has fired |
| `Monitor.TimeMonitor.Monitor` | timon.py:15-21 | the stored snapshot becomes the new one whether or not anything fires; it fires exactly when the jump rule holds, passing (new, previous) in that order; the threshold is a `const` and cannot change; the snapshot and callback logs grow by this call only |
| `Monitor.ThresholdIsStrict` | timon.py:20 | an offset change of exactly the threshold, in either direction, does not fire; one microsecond more does |
| `Monitor.DirectionIrrelevant` | timon.py:20 | a forward and a backward offset change of the same size give the same verdict |
| `Monitor.JumpedSymmetric` | timon.py:20 | swapping the two snapshots does not change the verdict |
| `Monitor.JumpIsWallClockStep` | timon.py:16-20 | a call fires exactly when the wall clock moved more than the threshold beyond what the monotonic clock moved since the stored snapshot |
| `Monitor.VerdictIgnoresEpochs` | timon.py:16-20 | moving the wall clock's epoch and the monotonic clock's epoch, each by its own amount, changes no verdict |
| `Monitor.SameOffsetNeverFires` | timon.py:18-20 | if the threshold is non-negative, a snapshot with the same offset as the stored one never fires |
| `Monitor.NegativeThresholdAlwaysFires` | timon.py:11-20 | with a negative threshold, which the source accepts, every call fires |
| `Monitor.QuietRunFiresNothing` | timon.py:15-21 | if no two consecutive snapshots of a run differ by more than the threshold, the run fires no callback |
| `Monitor.CallbacksAreJumps` | timon.py:15-21 | every callback of a run is a consecutive pair (newer, older) of its snapshots that meets the jump rule |
| `Monitor.JumpsAreCallbacks` | timon.py:15-21 | every consecutive pair of a run that meets the jump rule fires its callback |
| `Monitor.MonitorTwice` | timon.py:16-20 | if the threshold is non-negative, a second call with the same offset as the first returns no callback, because the first call stored its snapshot |
| `Monitor.ForwardStepScenario` | timon.py:69-71 | with the application's threshold of 300 s, an unchanged offset fires nothing; a 400 s forward step then fires, and the two snapshots passed differ in offset by 400 s |
| `Decimal.DecimalString` | timon.py:252-255 | the numeral that `'{}'.format(n)` prints is a non-empty string of digits with no leading zero |
| `Decimal.DecimalRoundTrip` | timon.py:252-255 | reading a printed numeral back gives the number |
| `Decimal.CanonicalDecimal` | timon.py:252-255 | a numeral with no leading zero denotes a positive number, and `DecimalString` prints it back as the same numeral |
| `Decimal.DigitCountStopsAt` | timon.py:252-255 | a numeral followed by a unit word reads up to the unit word |
| `Timedelta.FromMicroseconds` | timon.py:40-41 | `timedelta(...)` of a duration is normalized (enforced by the field types) and has exactly that duration |
| `Timedelta.NormalizedUnique` | timon.py:40-41 | a normalized `timedelta` is determined by its total duration |
| `Timedelta.Split` | timon.py:242-246 | days are kept; hours < 24, minutes < 60 and seconds < 60, all non-negative, and hours, minutes and seconds add back up to `td.seconds` |
| `Timedelta.SplitDecomposes` | timon.py:242-246 | days * 86400 + hours * 3600 + minutes * 60 + seconds is the duration's whole seconds, rounded down; a non-negative duration has non-negative days |
| `Timedelta.SplitInjective` | timon.py:242-246 | two durations with the same split agree on days and seconds |
| `DurationText.Piece` | timon.py:252-255 | one of the four appends: the number and its unit word when the number is positive, nothing otherwise; stated by `FirstPieceOfPiece`, `ParsePiece` and `FirstPieceIsPiece` |
| `DurationText.FirstPieceOfPiece` | timon.py:252-255 | a printed piece with a positive number is read back as that number and unit, whatever follows it |
| `DurationText.FirstPieceIsPiece` | timon.py:252-255 | conversely, every piece the parser reads has a positive number and is exactly the printed piece for that number and unit |
| `DurationText.ParsePiece` | timon.py:252-255 | a piece with a positive number reads back as that number in that unit, followed by whatever comes after it, provided the unit is not larger than one already read |
| `DurationText.ParsePiecesCanonical` | timon.py:251-255 | every text of pieces the parser accepts is exactly the four appends for what it reads, with non-negative numbers |
| `DurationText.ParseDurationCanonical` | timon.py:248-256 | every text the parser accepts is either `0秒` (reading as all zeros) or the four appends for what it reads |
| `DurationText.RejectsNonCanonical` | timon.py:252-255 | units out of descending order (`5秒1天`) and a zero written out as a piece (`0天5秒`) are refused |
| `DurationText.PiecesRoundTrip` | timon.py:251-256 | the joined pieces read back as the four numbers, with a negative day count (never printed) read as zero |
| `DurationText.FormatTimedelta` | timon.py:241-256 | `0秒` when all four numbers are zero, otherwise the four appends; its contract is carried by `FormatRoundTrip`, `ZeroSentinel`, `EmptyOnlyWhenNegativeDays`, `FormatInjective` and `FormatAlphabet` |
| `DurationText.FormatRoundTrip` | timon.py:241-256 | the text of any duration is accepted by the canonical parser and reads back as its split, with a negative day count read as zero; since that parser accepts only positive numbers with no leading zero and units in the order 天, 小时, 分钟, 秒, each number is printed exactly when it is positive, in that order |
| `DurationText.FormatRoundTripNonNegative` | timon.py:241-256 | the text of a non-negative duration reads back as exactly its split |
| `DurationText.ZeroSentinel` | timon.py:248-249 | the text is `0秒` if and only if days, hours, minutes and seconds are all zero |
| `DurationText.EmptyOnlyWhenNegativeDays` | timon.py:248-256 | the text is empty if and only if days are negative and hours, minutes and seconds are zero; in particular it is never empty for a non-negative duration |
| `DurationText.FormatInjective` | timon.py:241-256 | two non-negative durations with the same text agree to the second |
| `DurationText.FormatAlphabet` | timon.py:249-255 | the text contains only digits and the characters of the unit words |
| `Warning.MonotonicElapsed` | timon.py:35-36 | the signed monotonic elapsed time; what the message shows of it is stated by `WarningRoundTrip` and `WarningStatesBothDurations` |
| `Warning.GetTimeWarning` | timon.py:34-41 | the fixed message with the two durations spliced in; its contract is carried by `WarningRoundTrip`, `WarningStatesBothDurations` and `BackwardHourScenario` |
| `Warning.WallClockChange` | timon.py:37-38 | the wall-clock change is non-negative and is the signed change or its negation |
| `Warning.ParseAssembled` | timon.py:39-41 | a message spliced from two duration texts reads back as those two durations, in order |
| `Warning.WarningRoundTrip` | timon.py:34-41 | the message reads back as the split of the signed monotonic elapsed time (negative days read as zero), then the split of the absolute wall-clock change |
| `Warning.WarningStatesBothDurations` | timon.py:34-41 | the message gives the wall-clock change exactly, in whole seconds; it gives the monotonic elapsed time exactly whenever that time is non-negative |
| `Warning.BackwardHourScenario` | timon.py:34-41 | the wall clock steps back one hour between checks two seconds apart: the 300 s rule fires and the message is `过去2秒内，系统时间变化达到59分钟58秒` |

## Left out

- Clock reads (`time.time()` and `time.monotonic()`, timon.py:25-26) are environment input. They are parameters of `GetTimeStatus`, of the constructor and of `Monitor`.
- Floating point: the source's readings are float seconds. The model uses integer microseconds. `timedelta(seconds=x)` rounds a float to microseconds, and with exact microsecond readings there is nothing to round.
- `Monitor.TimeMonitor.Monitor`: the threshold is a whole number of seconds. A fractional `warn_seconds`, which Python would accept, is not modelled.
- The callback is a returned value plus a ghost log, not a called function. What `show_time_jump` does with it (timon.py:89-91, opening a window) is UI.
- The Qt classes and functions (`ToolWindow`, `MainWindow`, `WarningWindow`, `QTimeDisplay`, `q_delay`, `main`) are window, timer and event-loop plumbing with no logic to verify. The 300 s threshold appears only in the scenarios `Monitor.ForwardStepScenario` and `Warning.BackwardHourScenario`, and only as fixed input values, as does a 2 s spacing between checks. The 2000 ms timer itself is not modelled.
- `format_time` (strftime) and `get_local_time` (adding a fixed +8 h) are thin wrappers over library date handling.
- Warning.GetTimeWarning: Python's `timedelta` raises `OverflowError` beyond 999999999 days, so `get_time_warning` would raise for such a duration (timon.py:40-41). The model returns a text for every integer instead.
- Timedelta.FromMicroseconds: has no upper bound on the day count, unlike Python's `timedelta` (see the previous line).
- Concurrency: the detector runs on one timer thread and the model is sequential.
