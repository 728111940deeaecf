# Flash Recorder backend core in Dafny

Flash Recorder is a Windows screen recorder. Its Tauri backend drives
ffmpeg to record the screen, a camera and a microphone, and later to
export the recording onto a styled canvas. This project models the
deterministic core of that backend, `src-tauri/src/lib.rs`, and proves
properties of the model:

- **Integer geometry** (`geometry.dfy`, `layout.dfy`):
  - Rust's truncating division and `evenize`.
  - The snapping of a capture region to even coordinates in `start_recording`.
  - The integer layout that `build_export_filter` computes: the frame size, position, corner radius and shadow, and the camera tile's size, corner and radius.
- **Colours** (`colors.dfy`): `parse_hex_color` and the choice of a gradient or wallpaper preset by index in `background_source`.
- **Devices** (`devices.dfy`):
  - The scanners of ffmpeg's DirectShow device listing.
  - The rules by which `start_recording` picks a camera and a microphone.
- **Export run** (`export_run.dfy`): one job of `run_export_job`:
  - its ffmpeg argument vector;
  - the progress protocol read from ffmpeg's standard output;
  - the polling loop that waits for ffmpeg or for a cancellation;
  - the error message built from the last twelve lines of standard error.
- **Export queue** (`export_queue.dfy`): `ExportManager` as a class. Its methods are the critical sections of `start_export`, `cancel_export`, `get_export_status`, `ensure_export_worker` and the worker loop.
- **Rust string and integer API** (`text.dfy`): `str::trim`, `str::lines`, `join`, `find`, `contains`, `u64` parsing and formatting, written out over `seq<char>`.

In the code, the state of an export job behaves as follows:

- A terminal state is not final. A cancellation overwrites any state, a completed one included, and a progress update or a worker pickup overwrites a cancellation.
- A job cancelled while still queued is still picked up and marked running. Once ffmpeg has started, its polling loop sees the cancellation, so it ends failed with `export_cancelled`, not cancelled. If ffmpeg cannot be started, it ends failed with `ffmpeg_not_found`.

## Model

Some functions are described by the lemmas about them rather than by a row of their own:
- `Text.Trim` (src-tauri/src/lib.rs:619, 1254) by `Text.TrimProperties`.
- `Colors.TrimLeadingHashes` (src-tauri/src/lib.rs:283) by `Colors.TrimLeadingHashesProperties`.
- `ExportRun.HasCamera` (src-tauri/src/lib.rs:529-536) by `ExportRun.ExportArgs`, whose camera input appears exactly when it holds.
- `Layout.CornerOf` (src-tauri/src/lib.rs:417-425) by `Layout.CameraLayoutOf`.
- `Layout.DefaultEditState` (src-tauri/src/lib.rs:118-135) by `Layout.DefaultFrameAt1080p` and `Layout.DefaultCameraAt1080p`.
- `ExportRun.Reverse` (src-tauri/src/lib.rs:673-677) by `ExportRun.ErrorTailIsSuffix`, which shows that reversing, taking twelve and reversing back keeps the last twelve lines in order.

| member | source | states |
|---|---|---|
| Text.TrimProperties | src-tauri/src/lib.rs:619 | `str::trim`: the result has no whitespace at either end, holds only characters of the input, and is empty exactly when the input is all whitespace |
| Text.Lines | src-tauri/src/lib.rs:1236 | `str::lines`: no line contains a newline, and only the empty text has no lines |
| Text.LinesAtFirstCrlf | src-tauri/src/lib.rs:1236 | `str::lines` also ends a line at `"\r\n"`, and neither character stays in the line |
| Text.LinesOfCrlfText | src-tauri/src/lib.rs:671-679 | a text whose lines all end in `"\r\n"` splits back into exactly those lines |
| Text.JoinLines | src-tauri/src/lib.rs:671-679 | joining the lines of a text back with newlines gives the text back, when it has no carriage return and no final newline |
| Text.JoinLinesFinalNewline | src-tauri/src/lib.rs:671-679 | for a text without carriage returns that ends in a newline, joining its lines back with newlines gives the text without that final newline |
| Text.IndexOfFirst | src-tauri/src/lib.rs:1251 | `find` stops at the first occurrence of the character |
| Text.LinesAtFirstNewline | src-tauri/src/lib.rs:1236 | `lines()` cuts a text without carriage returns at its first newline, and the rest gives the remaining lines |
| Text.NatToString | src-tauri/src/lib.rs:555 | `to_string` of an unsigned integer: non-empty decimal digits with no leading zero |
| Text.DecimalRoundTrip | src-tauri/src/lib.rs:555 | the digits of `to_string` have the value of the number |
| Text.ParseU64 | src-tauri/src/lib.rs:621 | `parse::<u64>` succeeds exactly on an optional `+` followed by at least one digit whose value is below 2^64, and then gives that value |
| Text.ParseU64OfToString | src-tauri/src/lib.rs:621 | `parse::<u64>` reads back every `u64` that `to_string` wrote |
| Geometry.TruncDiv | src-tauri/src/lib.rs:363-364 | Rust's `/` on `i32` rounds the quotient toward zero: what `b * q` leaves of `a` is smaller than `b` and has the sign of `a` |
| Geometry.TruncRem | src-tauri/src/lib.rs:275 | Rust's `%` agrees with `/` and takes the sign of the dividend |
| Geometry.Evenize | src-tauri/src/lib.rs:274-280 | `evenize` returns an even value, equal to the input or one below it |
| Geometry.EvenizeIsFloorToEven | src-tauri/src/lib.rs:274-280 | `evenize` rounds down to a multiple of two, negative odd inputs included, and no even number at or below the input is larger |
| Geometry.EvenizeIdempotent | src-tauri/src/lib.rs:274-280 | `evenize` is idempotent and leaves exactly the even values unchanged |
| Geometry.CeilEven | src-tauri/src/lib.rs:832-839 | moving an odd origin up by one gives the next even coordinate |
| Geometry.SnapOrigin | src-tauri/src/lib.rs:832-839 | the origin step moves an odd origin to the next even coordinate and shrinks the extent by the same amount, so the far edge stays where it was |
| Geometry.SnapSize | src-tauri/src/lib.rs:840-845 | the size step drops an odd extent to the even value below it |
| Geometry.AxisSnap | src-tauri/src/lib.rs:832-845 | after both steps the far edge of an axis lands on the even value at or below the requested far edge |
| Geometry.SnapToEvenIsLargest | src-tauri/src/lib.rs:828-848 | the snapped region is even-aligned, lies inside the request when non-empty, and contains every even-aligned non-empty region inside the request |
| Geometry.NormalizeRegion | src-tauri/src/lib.rs:828-848 | a missing region gives `region_required`; a region without an even-aligned part of positive size gives `invalid_region`; otherwise the result is the largest even-aligned region inside the request |
| Layout.U32AsI32 | src-tauri/src/lib.rs:349-350 | `u32 as i32` wraps values from 2^31 up to negative ones |
| Layout.ShadowBlur | src-tauri/src/lib.rs:368-369 | the shadow blur is a quarter of the shadow, at least 1; a shadow from 2^31 up wraps negative and gets blur 1 |
| Layout.ShadowOffset | src-tauri/src/lib.rs:368-371 | the shadow offset is a sixth of the shadow; a shadow from 2^31 up wraps negative and gets offset 0 |
| Layout.FrameLayoutOf | src-tauri/src/lib.rs:358-375 | the inner frame size is the largest even number at or below the padded frame size, at least 2; the position is even and centres the frame to within 3 pixels; the radius is the requested one capped at half the shorter side; the shadow blur is a quarter and the offset a sixth of the shadow, blur at least 1, and 1 and 0 for a shadow that wraps negative; the target size ffmpeg scales to is the largest even number at or below the shrunk size, at least 2 |
| Layout.CameraLayoutOf | src-tauri/src/lib.rs:412-436 | the camera tile side is the largest even number at or below the scaled size, at least 2; the tile keeps the offset from the edges of its corner, with unknown positions at the bottom left and negative right/bottom coordinates clamped to 0; the radius is half the side for a circle, and otherwise the rounded or square radius capped at half the side; the shadow blur and offset are as for the frame, and the shadow sits that offset right of and below the tile |
| Layout.CameraTileOnCanvas | src-tauri/src/lib.rs:417-425 | when the canvas has room for the tile and its margins, the tile lies wholly on the canvas in every corner |
| Layout.DefaultFrameAt1080p | src-tauri/src/lib.rs:118-135 | the default edit state on a 1920x1080 canvas fills the canvas with a 12-pixel radius, shadow blur 5 and offset 3 |
| Layout.DefaultCameraAt1080p | src-tauri/src/lib.rs:412-436 | the default circular camera tile on a 1920x1080 canvas is 474 pixels wide and sits 55 pixels in from the bottom-left corner |
| Colors.TrimLeadingHashesProperties | src-tauri/src/lib.rs:283 | `trim_start_matches('#')` drops exactly the leading `#` characters: what is left is a suffix not starting with `#`, and everything dropped is `#` |
| Colors.HexPairValue | src-tauri/src/lib.rs:287-289 | `from_str_radix(_, 16).unwrap_or(0)` of two characters: two hex digits give their value; `+` or `-` with one digit gives that digit's value or its negation; anything else gives 0 |
| Colors.ParseHexColor | src-tauri/src/lib.rs:282-291 | any length other than six after the `#`s gives black; every component lies in [-15, 255] |
| Colors.ParseFormatRoundTrip | src-tauri/src/lib.rs:282-291 | parsing gives back every byte-range colour written as `#rrggbb` |
| Colors.WellFormedParsesInRange | src-tauri/src/lib.rs:282-291 | a `#` followed by six hex digits parses to byte-range components |
| Colors.SignedComponentsAccepted | src-tauri/src/lib.rs:287-289 | `#-f+a00` parses to (-15, 10, 0): signed components get through |
| Colors.FirstGradientString | src-tauri/src/lib.rs:295 | the first gradient stop of the table, written as `#rrggbb`, is the string `#6ee7ff` |
| Colors.PaintedStop | src-tauri/src/lib.rs:310-311 | parsing a preset's `#rrggbb` string gives back the colour it was written from |
| Colors.WallpaperStops | src-tauri/src/lib.rs:309-311 | the two parsed stops of a wallpaper preset are its start and end colours |
| Colors.GradientStops | src-tauri/src/lib.rs:319-322 | the three parsed stops of a gradient preset are its start, middle and end colours |
| Colors.BackgroundStops | src-tauri/src/lib.rs:306-322 | the `wallpaper` type paints the two colours of wallpaper preset `preset mod 4` and any other type the three colours of gradient preset `preset mod 4`, each exactly as in the table and so a byte-range colour |
| Colors.PresetWrapAround | src-tauri/src/lib.rs:306-319 | the preset index wraps modulo 4 |
| Devices.QuotedName | src-tauri/src/lib.rs:1251-1255 | a name taken from between two quotes is non-empty, trimmed and holds no quote |
| Devices.QuotedNameBetween | src-tauri/src/lib.rs:1251-1255 | with the first quote at `i` and the second at `j`, the name is the trimmed text between them, and none when that is blank |
| Devices.QuotedNameNeedsTwoQuotes | src-tauri/src/lib.rs:1251-1253 | a line with fewer than two quotes gives no name |
| Devices.ScanLine | src-tauri/src/lib.rs:1237-1258 | the own header opens the section and the other header closes it, with no name; a line that is neither header, has no `(none)` and is inside the section or carries the kind's tag gives its quoted name; no other line gives a name |
| Devices.Candidates | src-tauri/src/lib.rs:1236-1260 | every name the lines offer is a valid device name |
| Devices.AddUniqueProperties | src-tauri/src/lib.rs:1255-1256 | pushing a name unless present keeps the list as a prefix, contains the name afterwards, adds at most one element and nothing but the name, and keeps a duplicate-free list duplicate-free |
| Devices.FirstIndex | src-tauri/src/lib.rs:1255 | the position of the first occurrence of a value in a sequence |
| Devices.KeepFirstElements | src-tauri/src/lib.rs:1255-1256 | keeping first occurrences leaves each element exactly once |
| Devices.KeepFirstOrder | src-tauri/src/lib.rs:1255-1256 | kept names appear in the order of their first occurrence |
| Devices.KeepFirstSnoc | src-tauri/src/lib.rs:1255-1256 | offering one more name adds it to the first occurrences exactly when it was not offered before |
| Devices.DedupIntoKeepFirst | src-tauri/src/lib.rs:1255-1256 | the scanner's "push unless already present" computes "keep first occurrences" |
| Devices.DedupFromEmpty | src-tauri/src/lib.rs:1234-1261 | from an empty list, the accumulation gives distinct, valid names |
| Devices.ScanStep | src-tauri/src/lib.rs:1236-1260 | one line of the scan advances the accumulation by that line's step |
| Devices.ParseDshowDevices | src-tauri/src/lib.rs:1233-1293 | the DirectShow scanners return the names the listing offers, each once, in the order of first occurrence, all valid |
| Devices.SelectCamera | src-tauri/src/lib.rs:867-878 | `auto`/`default` (or nothing) take the first listed camera and pass on a listing error; `off`, `none`, `no-camera` and blank names give no camera; any other name is used as given |
| Devices.SelectMicrophone | src-tauri/src/lib.rs:893-900 | as for the camera, but only `mute` and blank names give no microphone |
| Devices.ExplicitChoiceIgnoresListing | src-tauri/src/lib.rs:867-900 | an explicit choice never depends on the listing; the camera's off words are ordinary microphone names |
| ExportRun.VideoBitrate | src-tauri/src/lib.rs:555 | the bitrate argument ends in `k` |
| ExportRun.VideoBitrateRoundTrip | src-tauri/src/lib.rs:555 | the digits of the bitrate argument read back as the requested rate, raised to at least 1 |
| ExportRun.ExportArgs | src-tauri/src/lib.rs:538-589 | the recording is input 0 and the camera input 1 exactly when it is used; then the filter graph, the frame rate, the encoder chosen by format with its bitrate, progress on `pipe:1`, and the output path last |
| ExportRun.PixelFormatOnlyForH264 | src-tauri/src/lib.rs:556-577 | the `yuv420p` pixel format is passed exactly when the format is not HEVC |
| ExportRun.Fraction | src-tauri/src/lib.rs:623 | the progress is the share of the duration written so far, capped at 1; a zero duration gives 1 |
| ExportRun.ProgressOf | src-tauri/src/lib.rs:619-623 | only a trimmed `out_time_ms=` line with a known duration reports progress, and the progress lies in [0, 1] |
| ExportRun.ProgressOfWrittenLine | src-tauri/src/lib.rs:619-623 | a line as ffmpeg writes it, newline included, reports the fraction of the time it carries |
| ExportRun.ProgressUpdates | src-tauri/src/lib.rs:610-640 | at most one update per line, every update in [0, 1] |
| ExportRun.NoDurationNoProgress | src-tauri/src/lib.rs:622 | without a known duration nothing is reported |
| ExportRun.ProgressStopsAtEnd | src-tauri/src/lib.rs:637-639 | nothing after the line `progress=end` is read |
| ExportRun.ProgressStep | src-tauri/src/lib.rs:610-640 | the updates from one line on are that line's update followed by the rest, unless the line ends the protocol |
| ExportRun.ReaderTurn | src-tauri/src/lib.rs:610-640 | one turn of the reader loop keeps "reported so far, then the updates of the remaining lines" equal to all updates, and at `progress=end` the reported updates are all of them |
| ExportRun.ReadProgress | src-tauri/src/lib.rs:607-641 | the reader thread reports exactly the progress updates of the lines it reads |
| ExportRun.ErrorTail | src-tauri/src/lib.rs:671-678 | the tail has twelve lines, or all of them when there are fewer, each a line of standard error |
| ExportRun.ErrorTailIsSuffix | src-tauri/src/lib.rs:671-678 | reverse, take 12, reverse gives the last twelve lines, or all of them |
| ExportRun.FailureMessage | src-tauri/src/lib.rs:668-680 | the message is `export_failed` exactly when standard error is blank; otherwise it is `export_failed:` and a newline followed by the last twelve lines of standard error (all of them when fewer), in order, joined by newlines |
| ExportRun.CrlfStderrVerbatim | src-tauri/src/lib.rs:668-680 | a standard error of at most twelve lines, each ended by `"\r\n"`, gives `export_failed:`, a newline and those lines joined by `'\n'`, with no `'\r'` left at their ends |
| ExportRun.ShortStderrVerbatim | src-tauri/src/lib.rs:668-680 | a standard error of at most twelve lines without carriage returns is passed on verbatim, less a final newline |
| ExportRun.PollOutcome | src-tauri/src/lib.rs:648-683 | a cancellation ends the job with `export_cancelled` even if ffmpeg has exited; success only on a clean exit; a failed exit gives the failure message; otherwise the loop goes on |
| ExportRun.FirstOutcome | src-tauri/src/lib.rs:648-684 | the outcome is that of the first deciding turn, and there is none only when no turn decides |
| ExportRun.RunExportJob | src-tauri/src/lib.rs:590-684 | a spawn failure gives `ffmpeg_not_found`; otherwise the polling loop returns the outcome of the first deciding turn |
| ExportRun.CancelledBeforeExit | src-tauri/src/lib.rs:656-661 | a cancellation seen before ffmpeg exits makes the job fail with `export_cancelled` |
| ExportRun.SuccessNeedsCleanExit | src-tauri/src/lib.rs:663-667 | a job succeeds only after a clean exit with no earlier cancellation |
| ExportQueue.ExportManager.constructor | src-tauri/src/lib.rs:184-195 | a new manager has an empty queue, no worker, no statuses and no cancellations |
| ExportQueue.ExportManager.IsCancelled | src-tauri/src/lib.rs:649-655 | a job counts as cancelled exactly when `true` is recorded for it |
| ExportQueue.ExportManager.GetExportStatus | src-tauri/src/lib.rs:1377-1387 | the status recorded under the id, or `export_not_found` |
| ExportQueue.ExportManager.EnsureExportWorker | src-tauri/src/lib.rs:463-480 | the worker flag ends up set; a worker is spawned exactly when none was running |
| ExportQueue.ExportManager.StartExport | src-tauri/src/lib.rs:1347-1374 | the job is recorded as queued with progress 0 and appended to the queue, and a worker is spawned unless one runs; every queued job then has a live worker |
| ExportQueue.ExportManager.CancelExport | src-tauri/src/lib.rs:1390-1397 | the cancellation is recorded for any id, and a known job becomes cancelled whatever its state, with nothing else changed |
| ExportQueue.ExportManager.PopJob | src-tauri/src/lib.rs:484-490 | the worker takes the head of the queue, or nothing from an empty queue |
| ExportQueue.ExportManager.StopWorker | src-tauri/src/lib.rs:491-496 | the worker clears the flag in a critical section of its own |
| ExportQueue.ExportManager.TakeNextJob | src-tauri/src/lib.rs:484-496 | taking the head or, on an empty queue, clearing the flag in one critical section keeps every queued job covered by a live worker |
| ExportQueue.ExportManager.MarkRunning | src-tauri/src/lib.rs:497-505 | a picked-up job is recorded as running with progress 0, replacing any earlier state |
| ExportQueue.ExportManager.ReportProgress | src-tauri/src/lib.rs:624-632 | a progress update records the job as running with that progress |
| ExportQueue.ExportManager.FinishJob | src-tauri/src/lib.rs:507-518 | success records completed with progress 1; failure records failed with the error and progress 0; the cancellation is removed |
| ExportQueue.CancelledWhileQueued | src-tauri/src/lib.rs:1390-1397 | a job cancelled while queued reads cancelled, is picked up and marked running, and ends failed with `export_cancelled` |
| ExportQueue.CancelledAfterCompletion | src-tauri/src/lib.rs:1390-1397 | a cancellation after completion overwrites the state to cancelled with progress 1, and the request stays recorded |
| ExportQueue.ProgressAfterCancel | src-tauri/src/lib.rs:630-632 | a progress update after a cancellation makes the job read as running again |
| ExportQueue.StrandedJobAsWritten | src-tauri/src/lib.rs:484-496 | with the worker's two critical sections, an export started between them stays queued with no worker alive |
| ExportQueue.NoStrandedJobCorrected | src-tauri/src/lib.rs:484-496 | with one critical section, the same sequence spawns a worker for the new job |

## Left out

- Process control is not modelled: starting ffmpeg, killing it, waiting for it, and the 120 ms sleep. Whether ffmpeg started, what it printed and what each poll saw are parameters.
- The errors `export_stdout_unavailable` and `export_stderr_unavailable` are left out, because both pipes are always requested.
- Threads and mutexes are not modelled. Each critical section is one method, and a lock that is poisoned (`export_state_lock_failed`, the silently skipped updates) is left out.
- Events sent to the frontend (`emit_export_status`) are left out, because they change no state.
- The clock that makes job ids is left out. The id is a parameter of `StartExport`, and a repeated id is allowed, as in the source.
- Reading and writing files and JSON are left out: the edit state file, the preview file, the error log, `edit_state_path` and `preview_path`.
- `parse_duration_ms` and `get_media_duration_ms` are left out. The duration is a parameter.
- Recording (`start_recording` beyond region snapping and device choice, `stop_recording`) is left out. This covers its argument vector, the window list, the WebRTC preview, window exclusion through Win32, and the `D:\recordings` layout.
- Floating point is not modelled. The aspect-fitted frame size, the 9:16 shrink, the camera scale and the rounded radii enter `FrameLayoutOf` and `CameraLayoutOf` as already-rounded integers. Progress is an exact `real`, not rounded to `f32`.
- The text of the filter graph and the shadow alpha are left out. `build_export_filter` enters `ExportArgs` as a string.
- The choice between the shadowed and unshadowed graph and the choice of a rounded mask are left out, because they only pick text.
- The preset tables of `background_source` hold the colours their `#rrggbb` strings denote. Each string is `FormatHexColor` of its colour, which `FirstGradientString` shows for the first one.
- Strings are sequences of characters. Rust slices by bytes, which differs only for non-ASCII text.
- Layout.FrameLayoutOf: does not model `i32` overflow of `padding * 2` for paddings of 2^30 and more, nor of the frame position for canvas sizes near 2^31, because Rust panics or wraps there.
- Layout.CameraLayoutOf: does not model `i32` overflow of `output_w - camera_size - offset` and `output_h - camera_size - offset` for sizes near 2^31, because Rust panics or wraps there.
- ExportQueue.ExportManager.StartExport: joins the two critical sections of `start_export` (recording and queueing the job, then `ensure_export_worker`) into one call, so an interleaving in which another thread acts between them is not modelled.
- Geometry.NormalizeRegion: does not model the overflow of `x + 1` and `y + 1` at `i32::MAX`, because Rust panics or wraps there.
- `ParseDshowDevices` takes the listing text, standing for the joined standard error and standard output of `ffmpeg -list_devices`. Running ffmpeg there, and its `ffmpeg_not_found` error, is a `Result` parameter of `SelectCamera` and `SelectMicrophone`.

## Findings

| source | as written | input that shows it | evidently intended | confidence | as-written member | corrected member |
|---|---|---|---|---|---|---|
| src-tauri/src/lib.rs:484-496 | the worker pops from the queue in one critical section and clears `running` in another | the worker finds the queue empty; `start_export` then queues a job, sees `running` still set and spawns no worker; the worker then clears `running` and exits, leaving the job queued until another export is started | a queued job always has a live worker (`queue` non-empty implies `running`) | not executed | ExportQueue.StrandedJobAsWritten | ExportQueue.ExportManager.TakeNextJob |
