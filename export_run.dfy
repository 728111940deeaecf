/** One export job as `run_export_job` runs it: the ffmpeg argument vector,
    the progress read from ffmpeg's `-progress pipe:1` output, the polling
    loop that waits for ffmpeg to exit or for the job to be cancelled, and
    the error message built from the tail of ffmpeg's standard error. The
    process itself is not part of this model: whether it started, what it
    printed and what each poll observed are parameters. */
module ExportRun {
  import opened Text
  import opened Layout

  /** `ExportRequest` */
  datatype ExportRequest = ExportRequest(
    inputPath: string,
    outputPath: string,
    edit: EditState,
    profile: ExportProfile,
    cameraPath: Option<string>)

  /** The camera recording is used when a non-empty path is given and
      `cameraExists`, the file system's answer for that path, holds. */
  predicate HasCamera(request: ExportRequest, cameraExists: bool)
  {
    request.cameraPath.Some? && request.cameraPath.value != [] && cameraExists
  }

  /** The formats that select the HEVC encoder; every other format is H.264. */
  predicate IsHevc(format: string) { format == "h265" || format == "hevc" }

  /** The `-b:v` value: the requested kilobits per second, at least 1. */
  function VideoBitrate(kbps: nat): (s: string)
    ensures |s| >= 2 && s[|s| - 1] == 'k'
  {
    NatToString(Max(kbps, 1)) + "k"
  }

  /** The bitrate argument reads back as the requested rate, raised to 1. */
  lemma VideoBitrateRoundTrip(kbps: U32)
    ensures var s := VideoBitrate(kbps); ParseU64(s[..|s| - 1]) == Some(Max(kbps, 1))
  {
    var s := VideoBitrate(kbps);
    assert s[..|s| - 1] == NatToString(Max(kbps, 1));
    ParseU64OfToString(Max(kbps, 1));
  }

  /** The argument vector of the export: the recording is input 0, the
      camera recording (when used) input 1, then the filter graph `filter`,
      the frame rate, the encoder chosen by the format with its bitrate,
      AAC audio at 160k, progress reporting on standard output, and the
      output path last. */
  function ExportArgs(request: ExportRequest, filter: string, cameraExists: bool): (args: seq<string>)
    ensures var inputs := if HasCamera(request, cameraExists) then 5 else 3;
      && |args| == inputs + (if IsHevc(request.profile.format) then 22 else 24)
      && args[..3] == ["-y", "-i", request.inputPath]
      && (HasCamera(request, cameraExists) ==> args[3..5] == ["-i", request.cameraPath.value])
      && args[inputs] == "-filter_complex" && args[inputs + 1] == filter
      && args[inputs + 6] == "-r" && args[inputs + 7] == NatToString(request.profile.fps)
      && args[inputs + 8] == "-c:v"
      && args[inputs + 9] == (if IsHevc(request.profile.format) then "libx265" else "libx264")
      && args[|args| - 10] == "-b:v" && args[|args| - 9] == VideoBitrate(request.profile.bitrateKbps)
      && args[|args| - 4] == "-progress" && args[|args| - 3] == "pipe:1"
      && args[|args| - 1] == request.outputPath
  {
    var inputs := ["-y", "-i", request.inputPath]
      + (if HasCamera(request, cameraExists) then ["-i", request.cameraPath.value] else []);
    var mapping := ["-filter_complex", filter, "-map", "[v]", "-map", "0:a?", "-r", NatToString(request.profile.fps)];
    var bitrate := VideoBitrate(request.profile.bitrateKbps);
    var encoder :=
      if IsHevc(request.profile.format) then ["-c:v", "libx265", "-preset", "fast", "-b:v", bitrate]
      else ["-c:v", "libx264", "-preset", "fast", "-pix_fmt", "yuv420p", "-b:v", bitrate];
    var tail := ["-c:a", "aac", "-b:a", "160k", "-progress", "pipe:1", "-nostats", request.outputPath];
    inputs + mapping + encoder + tail
  }

  /** The H.264 encoder always gets the `yuv420p` pixel format, HEVC never. */
  lemma PixelFormatOnlyForH264(request: ExportRequest, filter: string, cameraExists: bool)
    ensures var args := ExportArgs(request, filter, cameraExists);
      var inputs := if HasCamera(request, cameraExists) then 5 else 3;
      (args[inputs + 12] == "-pix_fmt" && args[inputs + 13] == "yuv420p") <==> !IsHevc(request.profile.format)
  {
  }

  const OutTimePrefix: string := "out_time_ms="
  const ProgressEnd: string := "progress=end"

  /** `(out_time_ms as f64 / duration_ms as f64).min(1.0)`: the share of the
      duration written so far, capped at 1. A zero duration divides to
      infinity or NaN, and `min` turns both into 1. */
  function Fraction(outTimeMs: nat, durationMs: nat): (p: real)
    ensures 0.0 <= p <= 1.0
    ensures durationMs == 0 || outTimeMs >= durationMs ==> p == 1.0
    ensures durationMs > 0 && outTimeMs <= durationMs ==> p * (durationMs as real) == outTimeMs as real
  {
    if durationMs == 0 then 1.0
    else
      var q := (outTimeMs as real) / (durationMs as real);
      Quotient(outTimeMs, durationMs);
      if q <= 1.0 then q else 1.0
  }

  /** The quotient of two times, the divisor positive: it is not negative,
      multiplies back to the dividend, and is at most 1 exactly when the
      dividend is at most the divisor. */
  lemma Quotient(dividend: nat, divisor: nat)
    requires divisor > 0
    ensures var q := (dividend as real) / (divisor as real);
      && 0.0 <= q
      && q * (divisor as real) == dividend as real
      && (q <= 1.0 <==> dividend <= divisor)
  {
    var q, d := (dividend as real) / (divisor as real), divisor as real;
    assert q * d == dividend as real;
    if q <= 1.0 {
      assert q * d <= 1.0 * d;
    } else {
      assert q * d > 1.0 * d;
    }
  }

  /** The progress one line of ffmpeg's progress output reports: a trimmed
      line `out_time_ms=<u64>` when the duration of the input is known. */
  function ProgressOf(line: string, durationMs: Option<nat>): (p: Option<real>)
    ensures p.Some? ==> 0.0 <= p.value <= 1.0
    ensures p.Some? ==> durationMs.Some? && OutTimePrefix <= Trim(line)
  {
    var trimmed := Trim(line);
    if !(OutTimePrefix <= trimmed) then None
    else
      var value := ParseU64(trimmed[|OutTimePrefix|..]);
      if value.None? || durationMs.None? then None
      else Some(Fraction(value.value, durationMs.value))
  }

  /** A line as ffmpeg writes it, with its newline, reports the fraction of
      the time it carries. */
  lemma ProgressOfWrittenLine(outTimeMs: nat, durationMs: nat)
    requires outTimeMs < U64Bound
    ensures ProgressOf(OutTimePrefix + NatToString(outTimeMs) + "\n", Some(durationMs)) == Some(Fraction(outTimeMs, durationMs))
  {
    var digits := NatToString(outTimeMs);
    var body := OutTimePrefix + digits;
    var line := body + "\n";
    assert TrimStart(line) == line;
    assert line[..|line| - 1] == body;
    assert TrimEnd(line) == TrimEnd(body);
    assert IsDigit(body[|body| - 1]);
    assert TrimEnd(body) == body;
    assert Trim(line) == body;
    assert body[|OutTimePrefix|..] == digits;
    ParseU64OfToString(outTimeMs);
  }

  /** The progress values the reader thread reports, in order: one per
      `out_time_ms` line, up to and including the line `progress=end`. */
  function ProgressUpdates(lines: seq<string>, durationMs: Option<nat>): (updates: seq<real>)
    ensures forall i :: 0 <= i < |updates| ==> 0.0 <= updates[i] <= 1.0
    ensures |updates| <= |lines|
  {
    if lines == [] then []
    else
      var p := ProgressOf(lines[0], durationMs);
      var here := if p.Some? then [p.value] else [];
      var rest := if Trim(lines[0]) == ProgressEnd then [] else ProgressUpdates(lines[1..], durationMs);
      assert forall i :: 0 <= i < |rest| ==> 0.0 <= rest[i] <= 1.0;
      here + rest
  }

  /** Without a known duration nothing is reported. */
  lemma {:induction false} NoDurationNoProgress(lines: seq<string>)
    ensures ProgressUpdates(lines, None) == []
  {
    if lines != [] {
      NoDurationNoProgress(lines[1..]);
    }
  }

  /** Whatever follows the line `progress=end` is never read. */
  lemma {:induction false} ProgressStopsAtEnd(lines: seq<string>, i: nat, durationMs: Option<nat>)
    requires i < |lines| && Trim(lines[i]) == ProgressEnd
    ensures ProgressUpdates(lines, durationMs) == ProgressUpdates(lines[..i + 1], durationMs)
  {
    if i > 0 {
      assert lines[1..][i - 1] == lines[i];
      ProgressStopsAtEnd(lines[1..], i - 1, durationMs);
      assert lines[..i + 1][1..] == lines[1..][..i];
      assert lines[..i + 1][0] == lines[0];
    } else {
      assert lines[..1][0] == lines[0];
    }
  }

  /** The progress updates from line `i` on, taken one line further. */
  lemma ProgressStep(lines: seq<string>, i: nat, durationMs: Option<nat>)
    requires i < |lines|
    ensures var p := ProgressOf(lines[i], durationMs);
      ProgressUpdates(lines[i..], durationMs)
      == (if p.Some? then [p.value] else [])
         + (if Trim(lines[i]) == ProgressEnd then [] else ProgressUpdates(lines[i + 1..], durationMs))
  {
    assert lines[i..][0] == lines[i] && lines[i..][1..] == lines[i + 1..];
  }

  /** One turn of the reader thread: if the updates reported before line
      `i`, followed by those from line `i` on, are all the updates, then
      after reporting line `i` they are all the updates at `progress=end`,
      and otherwise followed by those from line `i + 1` on. */
  lemma ReaderTurn(lines: seq<string>, i: nat, durationMs: Option<nat>, before: seq<real>, after: seq<real>)
    requires i < |lines|
    requires var p := ProgressOf(lines[i], durationMs);
      after == before + (if p.Some? then [p.value] else [])
    ensures Trim(lines[i]) == ProgressEnd ==>
      after == before + ProgressUpdates(lines[i..], durationMs)
    ensures Trim(lines[i]) != ProgressEnd ==>
      after + ProgressUpdates(lines[i + 1..], durationMs) == before + ProgressUpdates(lines[i..], durationMs)
  {
    ProgressStep(lines, i, durationMs);
    var p := ProgressOf(lines[i], durationMs);
    var reported := if p.Some? then [p.value] else [];
    if Trim(lines[i]) == ProgressEnd {
      assert ProgressUpdates(lines[i..], durationMs) == reported + [];
    } else {
      var rest := ProgressUpdates(lines[i + 1..], durationMs);
      AppendAssociative(before, reported, rest);
    }
  }

  /** Regrouping a concatenation; stated apart so that the turn above is
      proved without the rest of its context in view. */
  lemma AppendAssociative<T>(a: seq<T>, b: seq<T>, c: seq<T>)
    ensures (a + b) + c == a + (b + c)
  {
  }

  /** The reader thread of `run_export_job`, over the lines of ffmpeg's
      standard output: it reports the progress of every `out_time_ms` line
      and stops at `progress=end`. */
  method ReadProgress(output: seq<string>, durationMs: Option<nat>) returns (updates: seq<real>)
    ensures updates == ProgressUpdates(output, durationMs)
  {
    updates := [];
    var i := 0;
    ghost var total := ProgressUpdates(output, durationMs);
    while i < |output|
      invariant 0 <= i <= |output|
      invariant updates + ProgressUpdates(output[i..], durationMs) == total
    {
      ghost var before := updates;
      var p := ProgressOf(output[i], durationMs);
      if p.Some? {
        updates := updates + [p.value];
      }
      ReaderTurn(output, i, durationMs, before, updates);
      if Trim(output[i]) == ProgressEnd {
        return;
      }
      i := i + 1;
    }
  }

  /** `s.iter().rev().collect()` */
  function Reverse<T>(s: seq<T>): (r: seq<T>)
    ensures |r| == |s|
    ensures forall i :: 0 <= i < |s| ==> r[i] == s[|s| - 1 - i]
  {
    seq(|s|, i requires 0 <= i < |s| => s[|s| - 1 - i])
  }

  /** `lines.rev().take(12).collect::<Vec<_>>().into_iter().rev()`: the first
      twelve of the reversed lines, put back in order. */
  function ErrorTail(lines: seq<string>): (tail: seq<string>)
    ensures |tail| == Min(12, |lines|)
    ensures forall i :: 0 <= i < |tail| ==> tail[i] in lines
  {
    var backwards := Reverse(lines);
    Reverse(backwards[..Min(12, |backwards|)])
  }

  /** The tail is the last twelve lines, or all of them when there are fewer. */
  lemma ErrorTailIsSuffix(lines: seq<string>)
    ensures ErrorTail(lines) == lines[|lines| - Min(12, |lines|)..]
  {
    var n := Min(12, |lines|);
    var t, suffix := ErrorTail(lines), lines[|lines| - n..];
    forall i | 0 <= i < n ensures t[i] == suffix[i] {
      TailElement(lines, n, i);
    }
  }

  /** Element `i` of the first `n` reversed lines, reversed back, is line
      `i` of the last `n`. */
  lemma TailElement(lines: seq<string>, n: nat, i: nat)
    requires i < n <= |lines|
    ensures Reverse(Reverse(lines)[..n])[i] == lines[|lines| - n + i]
  {
    var backwards := Reverse(lines);
    var front := backwards[..n];
    assert Reverse(front)[i] == front[n - 1 - i] == backwards[n - 1 - i];
  }

  /** The error of a failed ffmpeg run: `export_failed` alone when standard
      error is blank, otherwise followed by a newline and the last twelve
      lines of standard error, joined by newlines. */
  function FailureMessage(stderr: string): (message: string)
    ensures "export_failed" <= message
    ensures message == "export_failed" <==> Blank(stderr)
    ensures !Blank(stderr) ==> var lines := Lines(stderr);
      message == "export_failed:\n" + Join(lines[|lines| - Min(12, |lines|)..], "\n")
  {
    TrimProperties(stderr);
    ErrorTailIsSuffix(Lines(stderr));
    if Trim(stderr) == [] then "export_failed"
    else "export_failed:\n" + Join(ErrorTail(Lines(stderr)), "\n")
  }

  /** A short error output without carriage returns is passed on as it is,
      less the newline it usually ends with. */
  lemma ShortStderrVerbatim(stderr: string)
    requires !Blank(stderr) && '\r' !in stderr
    requires |Lines(stderr)| <= 12
    ensures var last := |stderr| - 1;
      FailureMessage(stderr) == "export_failed:\n" + (if stderr[last] == '\n' then stderr[..last] else stderr)
  {
    var lines, last := Lines(stderr), |stderr| - 1;
    assert lines[|lines| - Min(12, |lines|)..] == lines;
    if stderr[last] == '\n' {
      JoinLinesFinalNewline(stderr);
    } else {
      JoinLines(stderr);
    }
  }

  /** Standard error of at most twelve lines, each ended by `"\r\n"` as
      on Windows, is passed on with `'\n'` between the lines and no
      `'\r'` left at their ends. */
  lemma CrlfStderrVerbatim(lines: seq<string>)
    requires forall i :: 0 <= i < |lines| ==> '\n' !in lines[i]
    requires |lines| <= 12 && !Blank(Terminated(lines, "\r\n"))
    ensures FailureMessage(Terminated(lines, "\r\n")) == "export_failed:\n" + Join(lines, "\n")
  {
    var text := Terminated(lines, "\r\n");
    LinesOfCrlfText(lines);
    assert Min(12, |lines|) == |lines|;
    assert Lines(text)[0..] == lines;
  }

  /** How an ffmpeg process that has exited ended. */
  datatype Exit = Exit(success: bool, stderr: string)

  /** What one turn of the polling loop observes: whether the job is marked
      cancelled, and the exit of ffmpeg if it has exited (`try_wait`). */
  datatype Poll = Poll(cancelled: bool, exited: Option<Exit>)

  /** The decision of one turn: a cancelled job ends with `export_cancelled`
      (even when ffmpeg has exited meanwhile); an exited ffmpeg ends the job
      as it exited; otherwise the loop sleeps and polls again. */
  function PollOutcome(poll: Poll): (r: Option<Result<()>>)
    ensures poll.cancelled ==> r == Some(Err("export_cancelled"))
    ensures r.None? <==> !poll.cancelled && poll.exited.None?
    ensures r == Some(Ok(())) <==> !poll.cancelled && poll.exited.Some? && poll.exited.value.success
    ensures !poll.cancelled && poll.exited.Some? && !poll.exited.value.success ==>
      r == Some(Err(FailureMessage(poll.exited.value.stderr)))
  {
    if poll.cancelled then Some(Err("export_cancelled"))
    else if poll.exited.None? then None
    else if poll.exited.value.success then Some(Ok(()))
    else Some(Err(FailureMessage(poll.exited.value.stderr)))
  }

  /** The outcome of the first turn that decides; none while every observed
      turn leaves ffmpeg running. */
  function FirstOutcome(polls: seq<Poll>): (r: Option<Result<()>>)
    ensures r.None? <==> forall i :: 0 <= i < |polls| ==> PollOutcome(polls[i]).None?
    ensures r.Some? ==>
      exists i :: 0 <= i < |polls| && r == PollOutcome(polls[i]) && (forall j :: 0 <= j < i ==> PollOutcome(polls[j]).None?)
  {
    if polls == [] then None
    else if PollOutcome(polls[0]).Some? then PollOutcome(polls[0])
    else
      var r := FirstOutcome(polls[1..]);
      assert forall i :: 1 <= i < |polls| ==> polls[1..][i - 1] == polls[i];
      r
  }

  /** The process part of `run_export_job`. When ffmpeg cannot be started
      the job fails with `ffmpeg_not_found`; otherwise the loop polls until
      a turn decides. A result of none means ffmpeg was still running after
      the observed turns. */
  method RunExportJob(spawned: bool, polls: seq<Poll>) returns (outcome: Option<Result<()>>)
    ensures !spawned ==> outcome == Some(Err("ffmpeg_not_found"))
    ensures spawned ==> outcome == FirstOutcome(polls)
  {
    if !spawned {
      return Some(Err("ffmpeg_not_found"));
    }
    var i := 0;
    while i < |polls|
      invariant 0 <= i <= |polls|
      invariant FirstOutcome(polls) == FirstOutcome(polls[i..])
    {
      assert polls[i..][0] == polls[i] && polls[i..][1..] == polls[i + 1..];
      var poll := polls[i];
      if poll.cancelled {
        return Some(Err("export_cancelled"));
      }
      if poll.exited.Some? {
        var exit := poll.exited.value;
        if exit.success {
          return Some(Ok(()));
        } else if Trim(exit.stderr) == [] {
          return Some(Err("export_failed"));
        } else {
          var tail := ErrorTail(Lines(exit.stderr));
          return Some(Err("export_failed:\n" + Join(tail, "\n")));
        }
      }
      i := i + 1;
    }
    assert polls[i..] == [];
    outcome := None;
  }

  /** A cancellation seen before ffmpeg exits always wins: the job fails
      with `export_cancelled` whatever ffmpeg would have reported. */
  lemma CancelledBeforeExit(polls: seq<Poll>, i: nat)
    requires i < |polls| && polls[i].cancelled
    requires forall j :: 0 <= j < i ==> !polls[j].cancelled && polls[j].exited.None?
    ensures FirstOutcome(polls) == Some(Err("export_cancelled"))
  {
    var k :| 0 <= k < |polls| && FirstOutcome(polls) == PollOutcome(polls[k])
      && forall j :: 0 <= j < k ==> PollOutcome(polls[j]).None?;
    assert PollOutcome(polls[i]).Some?;
  }

  /** A job succeeds only when some turn saw ffmpeg exit successfully and
      no earlier turn saw the job cancelled. */
  lemma SuccessNeedsCleanExit(polls: seq<Poll>)
    requires FirstOutcome(polls) == Some(Ok(()))
    ensures exists i ::
      && 0 <= i < |polls| && polls[i].exited.Some? && polls[i].exited.value.success && !polls[i].cancelled
      && (forall j :: 0 <= j < i ==> !polls[j].cancelled)
  {
    var i :| 0 <= i < |polls| && FirstOutcome(polls) == PollOutcome(polls[i])
      && forall j :: 0 <= j < i ==> PollOutcome(polls[j]).None?;
    assert forall j :: 0 <= j < i ==> !polls[j].cancelled;
  }
}
