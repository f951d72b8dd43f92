# signum-miner core, modelled in Dafny

This project models the core of the signum-miner proof-of-capacity miner.

- **Plot files** (`src/plot.rs`):
  - the `<account>_<start nonce>_<nonces>` file name and the size check against `NONCE_SIZE` (4096 scoops of 64 bytes per nonce);
  - the nonce-range overlap test;
  - the `Plot` read cursor. `prepare` positions it at one scoop, aligned down to the sector size under direct I/O. `read` then walks that scoop in buffer-sized chunks.
- **The reader** (`src/reader.rs`):
  - `check_overlap` over every drive's plots;
  - `Reader::new` and `update_plots`;
  - the sequential skeleton of one drive's read task. It skips plots that fail to prepare, hands a failed read on as an empty final chunk, stops on an interrupt or a failed send, marks only the last chunk of the last plot as finished, counts nonces and logs the drive's speed line. The task is also written as a function of its inputs (`TaskRun`), and the methods are proved to compute it.
- **Metrics** (`src/metrics.rs`):
  - `MinerMetrics` counters and the best deadline per account;
  - the uptime text;
  - the overall health status;
  - `DiskHealthInfo` per drive and `DiskHealthMonitor`.
- **Host queries** (`src/utils.rs`):
  - the parsing of the `df`, `diskutil` and `lsblk` output, with its fallbacks to `"unknown"` and to a 4096-byte sector;
  - sector size dispatch by platform;
  - bus-type names, including the Windows drive-type codes;
  - round-robin thread pinning.
- **The front end's log telemetry** (`miner_ui.py`):
  - the keyword tests applied to each log line;
  - the current round and best-deadline extraction;
  - the 20-line disk-health history;
  - the read error-rate banding.

Files, one module each:

| file | module | holds |
|---|---|---|
| `wrappers.dfy` | `Wrappers` | `Option`, `Result`, `U64`, `U32` |
| `arith.dfy` | `Arith` | two division facts |
| `rates.dfy` | `Rates` | percentages as exact reals |
| `strings.dfy` | `Strings` | ASCII lower-casing, `find`/`split`/`join`, whitespace trimming and tokens, Rust `lines()`, `u64` parsing and decimal rendering |
| `ui.dfy` | `Ui` | `miner_ui.py` |
| `metrics.dfy` | `Metrics` | `src/metrics.rs` |
| `plot.dfy` | `Plots` | `src/plot.rs` |
| `reader.dfy` | `Reading` | `src/reader.rs` |
| `utils.dfy` | `Utils` | `src/utils.rs` |

**How state is modelled.**
- Objects whose fields the source updates in place are classes: `MinerUi`, `MinerMetrics`, `DiskHealthInfo`, `DiskHealthMonitor`, `Plot` and `Reader`. Their methods are proved against specification functions. For example, `MinerUi.ParseLogForMetrics` performs exactly `Apply`, and `Plot.Read` advances exactly by `ReadStep`.
- Loops in the source are methods with loop invariants:
  - the log-queue drain;
  - the `diskutil` line scan;
  - the collection of plots over the drive map;
  - the read task's plot and buffer loops.
- Everything the program gets from outside is a parameter:
  - the outcome of each open, seek, read and send;
  - command output;
  - interrupts;
  - elapsed milliseconds.
- The read task returns the sequence of events it produced: buffers sent, plots skipped, read errors, stops and the drive-finished log line. Its contract is stated over that trace. `ReadTask`, `ServePlot` and `ReadPlot` are proved equal to the functions `TaskRun`, `PlotTurn` and `PlotRun`. Lemmas about those functions state what the task achieves: every plot gets its turn, the task stops exactly at the first interrupt or failed send, and a whole scoop is handed on. The pool of empty buffers is a finite sequence. A prepared plot that finds it empty blocks the task for good, as the source's task does, because it holds a sender of that pool itself.

Where the described design and the code disagree, the model follows the code, with one exception. `MinerMetrics.HealthStatus` returns the corrected status of the second "## Findings" row; the code's status is `HealthAsWritten`. The cases are:
- Round and deadline values are cut from the line at the exact-case keys "height" and "deadline", although detection is case-insensitive.
- In a line such as `best deadline: 98765`, the first token after the key is `:`. Stripped of `:` and `,`, it leaves an empty string, and the empty string is what gets stored.
- The documented health thresholds leave the zero-round case open. The code's case is under "## Findings".

## Model

| member | source | states |
|---|---|---|
| Ui.ValueAfter | miner_ui.py:249-267 | a value is extracted only from a line holding the key, and it never contains ':', ',' or Python whitespace |
| Ui.ValueAfterFirstOccurrence | miner_ui.py:249-267 | the key occurs exactly when `IndexOf` finds a first occurrence; the value is the first Python-whitespace token of the text between that occurrence and the next one (or the line's end), with ':' and ',' removed; there is no value exactly when the key is absent or that text is blank |
| Strings.PyFirstToken | miner_ui.py:252 | `strip().split()[0]`: no token exactly when the text is all Python whitespace; a token is non-empty, has no whitespace and is the text right after the leading whitespace, ending at whitespace or the end |
| Strings.SeparatorSplitsOnlyPython | miner_ui.py:252 | U+001F separates a Python token but is part of a Rust one: "\x1f8" gives "8" in Python and itself in Rust |
| Ui.Window | miner_ui.py:301-304 | the history keeps the last min(n, 20) lines, as a suffix of what was appended |
| Ui.WindowAbsorbs | miner_ui.py:295-304 | trimming to 20 after every append gives the same history as trimming once at the end |
| Ui.ApplyCounters | miner_ui.py:269-283 | each of submissions, network errors, completed reads and failed reads rises by exactly one when its keyword test holds, and is otherwise unchanged |
| Ui.RoundNeedsExactKey | miner_ui.py:246-256 | the current round changes only on a line containing "height" in its original case; the stored value has no ':', ',' or whitespace |
| Ui.DeadlineNeedsBothKeys | miner_ui.py:258-267 | the best deadline changes only on a line mentioning both "deadline" and "best" |
| Ui.HealthLineKept | miner_ui.py:285-304 | a line enters the health history only if it mentions "health" and has a severity keyword or glyph; it becomes the newest entry and the history stays at most 20 |
| Ui.ApplyAllCounters | miner_ui.py:229-283 | after a batch of lines, each counter equals its start value plus the number of lines its test accepts |
| Ui.ApplyAllLastWriteWins | miner_ui.py:229-267 | after a batch, round and best deadline hold the value from the last line that yields one, or their start value |
| Ui.ApplyHealthLines | miner_ui.py:285-304 | one line's effect on the history is to append it (kept lines only) and keep the last 20 |
| Ui.ApplyAllHealthHistory | miner_ui.py:229-304 | after a batch, the history is the last 20 of the old history followed by the kept health lines, in order |
| Ui.ErrorRateBand | miner_ui.py:329-342 | with no reads there is no band; otherwise the band is CRITICAL when the rate is above 5%, WARNING above 1% and up to 5%, HEALTHY at or below 1% |
| Ui.MinerUi.constructor | miner_ui.py:139-147 | all counters start at 0, round and deadline at "N/A", and the history is empty |
| Ui.MinerUi.ExtractDiskHealth | miner_ui.py:295-304 | appends the line and drops the oldest entries beyond 20 |
| Ui.MinerUi.ParseLogForMetrics | miner_ui.py:242-293 | the new state is `Apply` of the old state and the line |
| Ui.MinerUi.ScanRound | miner_ui.py:246-256 | the new round is the extracted value when the line yields one, else the current round |
| Ui.MinerUi.ScanDeadline | miner_ui.py:258-267 | the new best deadline is the extracted value when the line yields one, else the current one |
| Ui.MinerUi.ScanSubmissions | miner_ui.py:269-272 | the submission count rises by one exactly on a line mentioning a submission together with success or acceptance |
| Ui.MinerUi.ScanNetworkErrors | miner_ui.py:274-276 | the network-error count rises by one exactly on a line mentioning an error together with network, connection or timeout |
| Ui.MinerUi.ScanReads | miner_ui.py:278-283 | the completed-read count rises on "finished" with "speed", the failed-read count on "failed" with read, disk or i/o, each independently |
| Ui.MinerUi.ScanHealth | miner_ui.py:285-293 | the history is extended, through the 20-line window, exactly by a line mentioning health with a severity keyword or glyph |
| Ui.MinerUi.UpdateLogs | miner_ui.py:229-240 | draining the queue leaves the state `ApplyAll` of the old state and the queued lines, in order |
| Metrics.UptimeParts | src/metrics.rs:71-77 | hours, minutes and seconds recompose the seconds, with minutes and seconds below 60 |
| Metrics.UptimeReadsBack | src/metrics.rs:71-77 | the uptime text is three space-separated fields "<h>h", "<m>m" and "<s>s" whose numbers give back the uptime |
| Metrics.Improve | src/metrics.rs:83-88 | the stored best deadline is the smaller of the old best and the new deadline |
| Metrics.RecordAllKeepsMinimum | src/metrics.rs:80-90 | after a series of successful submissions for an account, its best deadline is the minimum submitted |
| Metrics.SumValuesBump | src/metrics.rs:113-116 | bumping one drive's I/O error count raises the sum over drives by exactly one |
| Metrics.IoRateAbove | src/metrics.rs:191-195 | the I/O error rate per whole MiB read exceeds the threshold as a percentage; no bytes read means rate 0; under 1 MiB any error counts as above |
| Metrics.RoundFailureAboveAsWritten | src/metrics.rs:143-150 | as written: with no rounds the failure rate is 100%, so it is above every threshold below 100 |
| Metrics.RoundFailureAbove | src/metrics.rs:143-150 | the round failure percentage exceeds the threshold; with no rounds it never does |
| Metrics.FreshMinerCriticalAsWritten | src/metrics.rs:190-206 | as written, a miner with no rounds yet is Critical |
| Metrics.HealthAsWritten | src/metrics.rs:190-206 | as written: more than 100 network errors gives Critical, more than 50 rules out Healthy, and Healthy holds exactly when the I/O rate is at most 1%, the as-written round failure rate is at most 10% and network errors are at most 50 |
| Metrics.Health | src/metrics.rs:190-206 | more than 100 network errors gives Critical; more than 50 rules out Healthy; Healthy exactly when no Warning condition holds |
| Metrics.HealthIntended | src/metrics.rs:190-206 | a fresh miner is Healthy; once any round has run, the status agrees with the code as written |
| Metrics.DiskIsHealthy | src/metrics.rs:279-281 | a drive is healthy exactly when its error rate is below 1% and it has fewer than 5 consecutive errors |
| Metrics.DiskStatus | src/metrics.rs:284-292 | 10 or more consecutive errors are Critical; 5 or more rule out Healthy |
| Metrics.DiskStatusRates | src/metrics.rs:284-292 | Critical, Warning and Healthy in terms of the error-rate percentage and the consecutive-error count, each as an if-and-only-if |
| Metrics.HealthyDriveStatus | src/metrics.rs:279-292 | a healthy drive has status Healthy; at exactly 1% the two disagree |
| Metrics.MinerMetrics.constructor | src/metrics.rs:46-63 | every counter starts at zero and both maps start empty |
| Metrics.MinerMetrics.RecordSubmissionSuccess | src/metrics.rs:80-90 | total and successful submissions rise by one; the account's best deadline becomes the smaller of the old and new; total = successful + failed is kept |
| Metrics.MinerMetrics.RecordSubmissionFailure | src/metrics.rs:93-96 | total and failed submissions rise by one; the sum invariant is kept |
| Metrics.MinerMetrics.RecordRoundComplete | src/metrics.rs:99-105 | completed rounds rise by one |
| Metrics.MinerMetrics.RecordRoundFailure | src/metrics.rs:108-110 | failed rounds rise by one |
| Metrics.MinerMetrics.RecordIoError | src/metrics.rs:113-116 | the total and the drive's own count rise by one; the total stays the sum over drives |
| Metrics.MinerMetrics.RecordNetworkError | src/metrics.rs:119-121 | network errors rise by one |
| Metrics.MinerMetrics.RecordConfigError | src/metrics.rs:124-126 | config errors rise by one |
| Metrics.MinerMetrics.RecordBytesRead | src/metrics.rs:129-131 | bytes read rise by the amount |
| Metrics.DiskHealthInfo.constructor | src/metrics.rs:245-253 | a drive starts with no reads, no failures and no consecutive errors |
| Metrics.MinerMetrics.HealthStatus | src/metrics.rs:190-206 | the corrected status of the second "## Findings" row, not the code's: Healthy for a fresh miner, and equal to the status as written once any round has completed or failed |
| Metrics.DiskHealthInfo.RecordSuccess | src/metrics.rs:256-259 | reads rise by one, failures are unchanged, and the consecutive count resets to 0; at `u64::MAX` reads the increment overflows, which is reported and changes nothing |
| Metrics.DiskHealthInfo.RecordFailure | src/metrics.rs:262-267 | reads, failures and consecutive errors each rise by one, and failures never exceed reads; an overflow of the read count (before any change) or of the consecutive count (after both read counts rose) is reported |
| Metrics.DiskHealthInfo.IsHealthy | src/metrics.rs:279-281 | healthy exactly when the error rate is below 1% and there are fewer than 5 consecutive errors; a healthy drive's status is Healthy |
| Metrics.DiskHealthInfo.HealthStatus | src/metrics.rs:284-292 | Critical exactly from 10 consecutive errors or above 5%; Healthy exactly below 5 consecutive errors and at most 1% |
| Metrics.DiskHealthMonitor.constructor | src/metrics.rs:303-307 | the monitor starts with no drives |
| Metrics.DiskHealthMonitor.GetOrCreate | src/metrics.rs:310-314 | a known drive's entry is returned unchanged; an unknown drive gets a fresh, healthy entry and nothing else changes |
| Metrics.DiskHealthMonitor.HasUnhealthyDrives | src/metrics.rs:339-341 | some drive is unhealthy exactly when one has an error rate of at least 1% or at least 5 consecutive errors; when none is, every drive's status is Healthy |
| Plots.OverlapMeansSharedNonce | src/plot.rs:35-51 | for non-empty plots, overlap holds exactly when some nonce lies in both ranges; it is symmetric, and the reported shared count is positive and symmetric |
| Plots.EmptyPlotInsideOverlaps | src/plot.rs:35-51 | an empty plot whose start lies inside another plot counts as overlapping with 0 shared nonces |
| Plots.ParseFormattedName | src/plot.rs:117-125 | parsing a formatted `<account>_<start>_<nonces>` name gives back the three numbers |
| Plots.NameNeedsThreeParts | src/plot.rs:117-125 | a name not splitting into exactly three parts is rejected; an accepted name is the join of its parts |
| Plots.WrappedSizeAccepted | src/plot.rs:127-134 | as written, a name claiming 2^46 + 1 nonces passes with a one-nonce file size, because the product wraps |
| Plots.CheckPlotFile | src/plot.rs:109-134 | an accepted plot is a regular file whose size is exactly nonces × NONCE_SIZE and whose name parses to its metadata |
| Plots.CheckFormattedPlot | src/plot.rs:109-134 | a correctly named file is accepted if and only if its size equals nonces × NONCE_SIZE |
| Plots.DirectIoKept | src/plot.rs:150-156 | direct I/O stays on exactly when requested and one sector holds at most `nonces` scoops |
| Plots.AlignDown | src/plot.rs:335-348 | aligning down removes less than one sector and leaves a multiple of the sector size |
| Plots.ReadStep | src/plot.rs:230-244 | a chunk never exceeds the buffer or the scoop; finished exactly when the buffer reaches the scoop's end; without direct I/O the last chunk ends the scoop exactly; with it, the chunk is whole sectors and less than one sector is left |
| Plots.PassReadsWholeScoop | src/plot.rs:223-262 | reading chunk after chunk without direct I/O covers the rest of the scoop exactly |
| Plots.Plot.constructor | src/plot.rs:109-175 | the cursor starts at 0, with direct I/O decided by `DirectIoKept` |
| Plots.Plot.RoundSeekAddr | src/plot.rs:335-348 | the new address is sector aligned, and address = new address + returned remainder, with the remainder below the sector size |
| Plots.Plot.Prepare | src/plot.rs:178-197 | resets the read offset; on success the seek base plus alignment offset is the scoop's start, the base sector aligned under direct I/O; a reopen failure is an `OpenFailed` error with the base unchanged, and a failed seek a `SeekFailed` error |
| Plots.Plot.Read | src/plot.rs:223-262 | returns the chunk of `ReadStep`, the first nonce it holds, and the finished flag, and advances the offset by the chunk; the read targets seek base + alignment offset + read offset; an I/O error (not in dummy mode) is an `IoFailed` error and leaves the offset unchanged |
| Plots.DirectReadUnaligned | src/plot.rs:178-262 | with 100 nonces, scoop 1 and 4096-byte sectors, direct I/O stays on and the prepared seek base is aligned at 4096, yet the first read targets byte 6400, which is not a sector boundary |
| Reading.CheckOverlapIffPair | src/reader.rs:575-610 | the check reports an overlap exactly when some earlier plot and some later plot of the same account overlap |
| Reading.OverlapNeedsTwoPlotsOfOneAccount | src/reader.rs:575-610 | fewer than two plots never overlap; an overlap needs two plots of one account |
| Reading.CheckOverlapIffBag | src/reader.rs:575-610 | the verdict depends only on the multiset of plots collected, not on their order |
| Reading.CheckOverlapOrderFree | src/reader.rs:575-610 | any two orders of the same plots give the same verdict, so the map's iteration order does not matter |
| Reading.MetasOf | src/reader.rs:576-596 | one drive's metadata, in plot order |
| Reading.CollectMetas | src/reader.rs:576-596 | the collected plots are, as a multiset, every plot of every drive |
| Reading.CheckOverlapOf | src/reader.rs:575-610 | the check over a drive map reports whether the plots of all drives contain a conflicting pair |
| Reading.Reader.constructor | src/reader.rs:50-78 | the reader holds the given plots and settings; the overlap check changes nothing |
| Reading.Reader.UpdatePlots | src/reader.rs:181-192 | plots and total size are replaced; the overlap verdict is computed unless benchmarking |
| Reading.SpeedNeverOverstates | src/reader.rs:372-380 | the logged integer speed never exceeds the true MiB/s over elapsed + 1 ms |
| Reading.SpeedLineIsReadCompleted | src/reader.rs:372-380 | the drive-finished line, padded to 80 columns, is counted as a completed read by the front end, wherever it sits in a log line |
| Reading.NoncesSentAppend | src/reader.rs:329 | events other than sent buffers add no nonces |
| Reading.SkipPlot | src/reader.rs:227-233 | skipping a plot that fails to prepare keeps every trace invariant and adds no nonces |
| Reading.HandOn | src/reader.rs:240-329 | handing on a chunk, after a read error if there was one, keeps the trace invariants and adds `len / 64` nonces |
| Reading.LogFinish | src/reader.rs:346-380 | logging the drive-finished line after the finishing chunk keeps the invariants; the line carries the nonces sent so far and their speed |
| Reading.Stop | src/reader.rs:259-326 | stopping on an interrupt or a failed send leaves a trace whose stop is the last event and adds no nonces |
| Reading.Chunk | src/reader.rs:247-257 | a chunk stays inside the scoop; a failed read of a real plot becomes the empty final chunk (0, 0, true) |
| Reading.HandOnRun | src/reader.rs:259-381 | one buffer uses one slot of the pool; the task stops exactly on an interrupt or a failed send, and then adds no nonces and no time |
| Reading.ReadBuffer | src/reader.rs:239-257 | the chunk read is `Chunk` at the plot's current offset, which then advances by the chunk; the read fails exactly on an I/O error of a plot that is not a dummy |
| Reading.SendBuffer | src/reader.rs:259-381 | the trace, nonces, time and stop flag after one buffer are exactly `HandOnRun`; a running trace keeps its invariants, and a stopped one is sound |
| Reading.ReadPlot | src/reader.rs:235-386 | the loop computes exactly `PlotRun` from the plot's offset, reporting the task blocked when the pool has no buffer left; the nonce count equals the nonces sent; the trace stays well formed, ordered and with read errors handed on, and a stop is last |
| Reading.ServePlot | src/reader.rs:219-386 | computes exactly `PlotTurn`: a plot that fails to prepare is skipped, otherwise it is read from the start of the scoop as `ReadPlot` states |
| Reading.ReadTask | src/reader.rs:214-389 | the events, nonce count and time are exactly those of `TaskRun`, which ends at a stop or where an empty pool blocks the task. The nonce count is the nonces sent. Every sent buffer carries its plot's account, with finished set exactly on the last chunk of the last plot. Plots are served in order, and each is skipped at most once. A read error is followed by an empty final chunk for that plot or by a stop, and a stop is the last event. A speed line follows only the finishing chunk, shows exactly the nonces sent, and appears only with drive stats on. |
| Reading.TaskRunExtends | src/reader.rs:214-389 | the task only appends to its trace |
| Reading.PlotRunServes | src/reader.rs:235-386 | a plot is read until a chunk ends it, unless the empty pool blocks the task or the task stops first |
| Reading.TaskRunServes | src/reader.rs:219-389 | unless the task stopped or was blocked, every plot was skipped or read until a chunk ended it |
| Reading.TaskRunBlockedOnlyDry | src/reader.rs:209-235 | the task is blocked only once every buffer of the pool is used, and a blocked task was not stopped |
| Reading.TaskRunBlocksOnDryPool | src/reader.rs:219-235 | on an empty pool the plots that fail to prepare are skipped up to the first one that prepares; there the task blocks, and no later plot is prepared or read |
| Reading.PlotRunStops | src/reader.rs:259-326 | reading a plot stops exactly when a buffer interrupts or fails to send, at the first such buffer |
| Reading.TaskRunStops | src/reader.rs:214-389 | the task stops exactly at the first buffer of the pool that interrupts or fails to send, and never otherwise |
| Reading.TaskRunFollowed | src/reader.rs:372-381 | with drive stats on, the chunk marked finished is always followed by the speed line (the converse of `FinishLogged`) |
| Reading.PlotRunReadsWholeScoop | src/reader.rs:235-386 | without direct I/O and with enough buffers that neither fail nor interrupt, a plot takes one buffer per `ReadStep` of the pass, is served without blocking, and hands on `PassBytes` bytes |
| Reading.PlotRunCoversScoop | src/reader.rs:235-386 | under the same conditions, the bytes handed on for the plot cover the rest of the scoop exactly |
| Reading.PlotRunReadsScoopDirect | src/reader.rs:235-386 | under direct I/O, the bytes handed on end inside the scoop and less than one sector before its end |
| Utils.DeviceIdOfText | src/utils.rs:65-90 | the device id is never empty and has no whitespace |
| Utils.DeviceId | src/utils.rs:65-90 | a failed `df` gives "unknown"; any result is a non-empty word |
| Utils.DeviceIdOneLine | src/utils.rs:65-90 | output without a second line names no device: "unknown" |
| Utils.DeviceIdSecondLine | src/utils.rs:65-90 | under the header, the device is the first word of the second line, or "unknown" when that line is blank |
| Utils.LastBlockSizeWins | src/utils.rs:103-120 | the block size found is the one on the last "Device Block Size" line |
| Utils.LastBlockSizeNone | src/utils.rs:103-120 | without such a line the scan finds 0 |
| Utils.BlockSizeOfReport | src/utils.rs:105-112 | in a "... <n> Bytes" line, the number read is n |
| Utils.ScanBlockSize | src/utils.rs:103-120 | the loop computes the last block-size line's number |
| Utils.BlockSizeLineSplits | src/utils.rs:106-107 | a "Device Block Size" line always has a second-from-last space-separated token, so the scan never leaves the size as it was |
| Utils.SectorSizeMac | src/utils.rs:94-127 | the macOS sector size, always positive: 4096 when nothing or 0 is reported |
| Utils.MacSectorSizeCases | src/utils.rs:94-127 | the size is positive; anything but 4096 comes from the text's last block-size line; unreadable output gives 4096 |
| Utils.LsblkOneLine | src/utils.rs:130-158 | without a second line (failed run, unreadable or one-line output) the sector size is 4096 |
| Utils.LsblkSecondLine | src/utils.rs:130-158 | under the header, the trimmed second line parsed as a number is the size, else 4096 |
| Utils.LsblkPassesZero | src/utils.rs:130-158 | a reported 0 is passed on as the sector size |
| Utils.SectorSize | src/utils.rs:160-168 | Android gives 4096, macOS the `diskutil` size, other unix the `lsblk` size; on Windows a failed query gives 4096 |
| Utils.BusTypeUnix | src/utils.rs:170-185 | off linux or without output, "unknown"; otherwise the first line, trimmed and without upper-case letters |
| Utils.BusTypeFirstLine | src/utils.rs:170-185 | the bus type is the first output line, trimmed and lower-cased |
| Utils.BusTypeEmptyOutput | src/utils.rs:170-185 | empty `lsblk` output gives the empty bus type |
| Utils.BusTypeWindows | src/utils.rs:262-302 | the result is one of usb, fixed, remote, cdrom, ramdisk, unknown |
| Utils.BusTypeWindowsInverse | src/utils.rs:293-300 | codes 2 to 6 map to distinct names that give back the code; every other code is "unknown" |
| Utils.DriveTypeOfInverse | src/utils.rs:293-300 | every named bus type comes from exactly its drive-type code |
| Utils.PinIndex | src/utils.rs:19-25 | a worker is pinned to a position inside the core list |
| Utils.PinningActive | src/utils.rs:2-14 | pinning happens exactly when requested and at least one core was detected |
| Utils.PinIndexRoundRobin | src/utils.rs:19-25 | workers one core count apart share a core; any core-count consecutive workers get distinct cores |

## Left out

- I/O, processes, threads, channels, the rayon pool, locks and mutex poisoning, the progress bar, GPU buffer routing and the `async_io` variants are not modelled. Their outcomes (a failed open, seek or read, command output, an interrupt, a failed send, elapsed time) are parameters.
- Floating point: percentages are exact reals. Behaviour exactly at a float rounding boundary is not captured.
- Metrics.IoRateAbove: with fewer than 1 MiB read, the source divides by zero. The model gives that division's float result: any error makes the rate infinite, and 0/0 is NaN, which compares false.
- `summary`, `submission_success_rate`, `avg_read_speed_mibs`, the average round time and `health_summary` are left out. They are text and averages for display, and nothing reads them back.
- Metrics.MinerMetrics: every counter increment requires that it does not overflow `u64`/`u32`, instead of modelling Rust's overflow panic.
- Metrics.DiskHealthInfo.RecordSuccess, Metrics.DiskHealthInfo.RecordFailure: an overflow is modelled as a debug build's panic, reported by the `overflow` result. A release build would wrap the counter to 0 instead, which is not modelled.
- Plots.OverlapsWith: the end of a nonce range, `start_nonce + nonces`, is an unbounded sum. In the source it is a `u64` sum, which panics in a debug build and wraps in a release build for a plot ending at 2^64. Plots.SharedNonces uses the same sums.
- Plots.Plot.Read: the start nonce is computed with unbounded integers. `u64` overflow of `start_nonce + scoop * nonces` is not modelled.
- Plots.Plot.Prepare, Plots.Plot.Read: the model requires a non-zero sector size under direct I/O. The source would divide by zero, and `Utils.LsblkPassesZero` shows that the unix path can deliver 0.
- Plots.Plot.Prepare: the scoop must be below 4096, the range the caller's scoop number has.
- Plots.Plot.Read: the operating system's alignment rule for direct I/O is not modelled. Whether a read at an address that is not a sector boundary fails (see `Plots.DirectReadUnaligned`) is left to the `ioFails` outcome.
- Plots.CheckPlotFile: opening the file handle after the checks is an I/O outcome and is not modelled.
- `seek_random` and `wakeup` are left out: a random scoop and a seek, with nothing to prove beyond `RoundSeekAddr`.
- Reading.ReadTask: the source waits for ever for a buffer when the pool is empty, because the task holds a sender of the pool itself. The model ends the task there, marked blocked: it prepares no later plot and adds no events. Buffer contents and the GPU "drive finished" signal are not modelled.
- `start_reading` and the thread pool are left out. The pool is represented only by `Utils.PinIndex`.
- Windows `get_device_id` and the Windows API calls behind the sector size and bus type are left out. Their results are parameters (`bytesPerSector`, `driveType`).
- Strings: lower-casing and whitespace are ASCII only. Python's `str.lower` and Rust's `to_lowercase`/`trim` also handle non-ASCII letters and spaces. Within ASCII the two languages differ, and the model keeps them apart: `IsSpace` is Rust's whitespace (tab, line feed, vertical tab, form feed, carriage return, space), and `IsPySpace` adds Python's separators U+001C to U+001F, which the front end's value extraction splits on.
- Ui: the Tk widgets, colours, the log file tail and the `update_metrics` label texts other than the error-rate band are left out. `metrics_data` has no history list at start; the model starts it empty, which the code's first append produces too.
- Metrics.HealthyDriveStatus: at exactly 1% errors, `is_healthy` says unhealthy while `health_status` says Healthy. The lemma records this instead of reconciling it.
- Plots.EmptyPlotInsideOverlaps: an empty plot inside another plot's range is reported as overlapping. This follows the code.

## Findings

| source | as written | input that shows it | evidently intended | confidence | as-written member | corrected member |
|---|---|---|---|---|---|---|
| src/plot.rs:128 | `nonces * NONCE_SIZE` is a `u64` product; it wraps in a release build | file `0_0_70368744177665` (2^46 + 1 nonces) of 262144 bytes (one nonce) is accepted | a file is accepted only if its size is the true nonces × 262144 | not executed | Plots.WrappedSizeAccepted | Plots.CheckPlotFile |
| src/metrics.rs:143-150 | `round_success_rate` is 0 when no round has run, so `health_status` sees a 100% failure rate | a freshly created `MinerMetrics` (all counters 0) | a fresh miner, with no errors, is Healthy | not executed | Metrics.FreshMinerCriticalAsWritten | Metrics.Health |
