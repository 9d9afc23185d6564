/**
 The ffmpeg side of the handler: the argument vector of each invocation,
 what an invocation can do to the filesystem, and the loop over the variant
 table.

 Once ffmpeg has started, `run_ffmpeg` waits for it, prints the captured
 stderr when the exit status is non-zero, and returns normally whatever that
 status was. The handler therefore runs every variant and appends every
 (caption, path) entry to its outputs list whatever became of the previous
 ones. A failure to start the process at all is not modelled. What the process
 does is not modelled: each run is an arbitrary `RunOutcome` that may or may
 not have written the output file, with any size, independently of its exit
 status.
 */
module Transcoder {
  import opened Wrappers
  import opened Decimal
  import opened Variants
  import opened Naming
  import opened FileSystem

  /** What one ffmpeg invocation did, as far as the bot can observe it. */
  datatype RunOutcome = RunOutcome(exitCode: int, stderr: string, written: Option<nat>)

  /** An entry of the handler's outputs list: the reply caption and the output path. */
  datatype Output = Output(caption: string, path: string)

  datatype Transcoding = Transcoding(
    fs: FS,                      // the filesystem after the last run
    commands: seq<seq<string>>,  // every argument vector passed to ffmpeg, in order
    log: seq<string>,            // lines printed for failed runs
    outputs: seq<Output>)

  predicate IsOption(s: string) {
    |s| > 0 && s[0] == '-'
  }

  function RateArgs(rate: Option<nat>): seq<string> {
    if rate.Some? then ["-r", NatToString(rate.value)] else []
  }

  /** The argument vector of the ffmpeg run for variant `v`. */
  function Command(v: Variant, input: string, output: string): seq<string> {
    ["ffmpeg", "-y", "-i", input, "-filter_complex", FilterGraph(v), "-map", "[v]", "-map", "[a]"]
    + RateArgs(v.frameRate)
    + ["-c:v", v.encoder.codec, "-preset", v.encoder.preset, "-crf", NatToString(v.encoder.crf)]
    + [output]
  }

  /** How ffmpeg reads an option: the argument after the first occurrence of `flag`. */
  function ArgAfter(cmd: seq<string>, flag: string): Option<string> {
    if |cmd| < 2 then None
    else if cmd[0] == flag then Some(cmd[1])
    else ArgAfter(cmd[1..], flag)
  }

  lemma {:induction false} ArgAfterSkips(a: seq<string>, b: seq<string>, flag: string)
    requires flag !in a
    ensures ArgAfter(a + b, flag) == ArgAfter(b, flag)
    decreases |a|
  {
    if |a| > 0 {
      assert (a + b)[0] == a[0];
      assert (a + b)[1..] == a[1..] + b;
      ArgAfterSkips(a[1..], b, flag);
    } else {
      assert a + b == b;
    }
  }

  lemma {:induction false} ArgAfterAbsent(cmd: seq<string>, flag: string)
    requires flag !in cmd
    ensures ArgAfter(cmd, flag) == None
    decreases |cmd|
  {
    if |cmd| >= 2 {
      ArgAfterAbsent(cmd[1..], flag);
    }
  }

  predicate EncoderPlain(e: Encoder) {
    !IsOption(e.codec) && !IsOption(e.preset)
  }

  lemma DigitsAreNotOptions(n: nat)
    ensures !IsOption(NatToString(n))
  {
  }

  lemma GraphIsNotOption(v: Variant)
    ensures !IsOption(FilterGraph(v))
  {
  }

  /** The encoder part of a command: how ffmpeg reads codec, preset and quality. */
  lemma EncoderOptions(v: Variant, input: string, output: string)
    requires !IsOption(input) && !IsOption(output) && EncoderPlain(v.encoder)
    ensures ArgAfter(Command(v, input, output), "-c:v") == Some(v.encoder.codec)
    ensures ArgAfter(Command(v, input, output), "-preset") == Some(v.encoder.preset)
    ensures ArgAfter(Command(v, input, output), "-crf") == Some(NatToString(v.encoder.crf))
  {
    var head := ["ffmpeg", "-y", "-i", input, "-filter_complex", FilterGraph(v), "-map", "[v]", "-map", "[a]"]
      + RateArgs(v.frameRate);
    var crf := NatToString(v.encoder.crf);
    var tail := ["-c:v", v.encoder.codec, "-preset", v.encoder.preset, "-crf", crf, output];
    assert Command(v, input, output) == head + tail;
    GraphIsNotOption(v);
    DigitsAreNotOptions(v.encoder.crf);
    if v.frameRate.Some? {
      DigitsAreNotOptions(v.frameRate.value);
    }
    ArgAfterSkips(head, tail, "-c:v");
    ArgAfterSkips(head, tail, "-preset");
    ArgAfterSkips(head, tail, "-crf");
    ArgAfterSkips(tail[..2], tail[2..], "-preset");
    assert tail[..2] + tail[2..] == tail;
    ArgAfterSkips(tail[..4], tail[4..], "-crf");
    assert tail[..4] + tail[4..] == tail;
  }

  /** The input, the filter graph and the frame rate, as ffmpeg reads them. */
  lemma StreamOptions(v: Variant, input: string, output: string)
    requires !IsOption(input) && !IsOption(output) && EncoderPlain(v.encoder)
    ensures Command(v, input, output)[0] == "ffmpeg"
    ensures Command(v, input, output)[|Command(v, input, output)| - 1] == output
    ensures ArgAfter(Command(v, input, output), "-i") == Some(input)
    ensures ArgAfter(Command(v, input, output), "-filter_complex") == Some(FilterGraph(v))
    ensures ArgAfter(Command(v, input, output), "-r") ==
      (if v.frameRate.Some? then Some(NatToString(v.frameRate.value)) else None)
  {
    var cmd := Command(v, input, output);
    var front := ["ffmpeg", "-y", "-i", input, "-filter_complex", FilterGraph(v), "-map", "[v]", "-map", "[a]"];
    var crf := NatToString(v.encoder.crf);
    var tail := ["-c:v", v.encoder.codec, "-preset", v.encoder.preset, "-crf", crf, output];
    assert cmd == front + (RateArgs(v.frameRate) + tail);
    GraphIsNotOption(v);
    DigitsAreNotOptions(v.encoder.crf);
    ArgAfterSkips(front[..2], front[2..] + (RateArgs(v.frameRate) + tail), "-i");
    assert front[..2] + (front[2..] + (RateArgs(v.frameRate) + tail)) == cmd;
    ArgAfterSkips(front[..4], front[4..] + (RateArgs(v.frameRate) + tail), "-filter_complex");
    assert front[..4] + (front[4..] + (RateArgs(v.frameRate) + tail)) == cmd;
    ArgAfterSkips(front, RateArgs(v.frameRate) + tail, "-r");
    if v.frameRate.None? {
      assert RateArgs(v.frameRate) + tail == tail;
      ArgAfterAbsent(tail, "-r");
    }
  }

  /** The line `print("FFmpeg error:", stderr)` writes. */
  function ErrorLine(stderr: string): string {
    "FFmpeg error: " + stderr
  }

  /** The effect of one run on the filesystem: at most its own output is written. */
  function ApplyRun(fs: FS, output: string, o: RunOutcome): FS {
    if o.written.Some? then fs[output := o.written.value] else fs
  }

  /** One printed line per failed run, in run order; successful runs print nothing. */
  function FailureLog(runs: seq<RunOutcome>): (log: seq<string>)
    ensures |log| <= |runs|
    ensures |log| == |runs| <==> forall i :: 0 <= i < |runs| ==> runs[i].exitCode != 0
  {
    if |runs| == 0 then []
    else (if runs[0].exitCode != 0 then [ErrorLine(runs[0].stderr)] else []) + FailureLog(runs[1..])
  }

  /** The exit statuses of a sequence of runs. */
  function ExitStatuses(runs: seq<RunOutcome>): seq<int> {
    seq(|runs|, i requires 0 <= i < |runs| => runs[i].exitCode)
  }

  /** `line` is the line printed for some failed run. */
  ghost predicate LineOfFailedRun(runs: seq<RunOutcome>, line: string) {
    exists i :: 0 <= i < |runs| && runs[i].exitCode != 0 && line == ErrorLine(runs[i].stderr)
  }

  /**
   Every failed run prints its own line, every printed line belongs to a
   failed run, and when every run succeeds nothing is printed.
   */
  lemma {:induction false} FailureLogLines(runs: seq<RunOutcome>)
    ensures forall i :: 0 <= i < |runs| && runs[i].exitCode != 0 ==>
      ErrorLine(runs[i].stderr) in FailureLog(runs)
    ensures forall k :: 0 <= k < |FailureLog(runs)| ==> LineOfFailedRun(runs, FailureLog(runs)[k])
    ensures (forall i :: 0 <= i < |runs| ==> runs[i].exitCode == 0) ==> FailureLog(runs) == []
    decreases |runs|
  {
    if |runs| > 0 {
      var tail := runs[1..];
      FailureLogLines(tail);
      var head := if runs[0].exitCode != 0 then [ErrorLine(runs[0].stderr)] else [];
      assert FailureLog(runs) == head + FailureLog(tail);
      forall i | 0 <= i < |runs| && runs[i].exitCode != 0
        ensures ErrorLine(runs[i].stderr) in FailureLog(runs)
      {
        if i > 0 { assert runs[i] == tail[i - 1]; }
      }
      forall k | 0 <= k < |FailureLog(runs)|
        ensures LineOfFailedRun(runs, FailureLog(runs)[k])
      {
        if k < |head| {
          assert runs[0].exitCode != 0 && FailureLog(runs)[k] == ErrorLine(runs[0].stderr);
        } else {
          assert FailureLog(runs)[k] == FailureLog(tail)[k - |head|];
          assert LineOfFailedRun(tail, FailureLog(tail)[k - |head|]);
          var j :| 0 <= j < |tail| && tail[j].exitCode != 0
            && FailureLog(tail)[k - |head|] == ErrorLine(tail[j].stderr);
          assert runs[j + 1] == tail[j];
          assert runs[j + 1].exitCode != 0 && FailureLog(runs)[k] == ErrorLine(runs[j + 1].stderr);
        }
      }
      if forall i :: 0 <= i < |runs| ==> runs[i].exitCode == 0 {
        assert runs[0].exitCode == 0;
        assert forall i :: 0 <= i < |tail| ==> tail[i].exitCode == runs[i + 1].exitCode;
      }
    }
  }

  /** The number of printed lines is the number of runs whose exit status is not 0. */
  lemma {:induction false} FailureLogCount(runs: seq<RunOutcome>)
    ensures |FailureLog(runs)| == |runs| - multiset(ExitStatuses(runs))[0]
    decreases |runs|
  {
    if |runs| > 0 {
      var tail := runs[1..];
      FailureLogCount(tail);
      assert ExitStatuses(runs) == [runs[0].exitCode] + ExitStatuses(tail);
    }
  }

  /** Printing is run by run: the lines of two stretches of runs are concatenated in order. */
  lemma {:induction false} FailureLogConcat(a: seq<RunOutcome>, b: seq<RunOutcome>)
    ensures FailureLog(a + b) == FailureLog(a) + FailureLog(b)
    decreases |a|
  {
    if |a| > 0 {
      assert (a + b)[0] == a[0];
      assert (a + b)[1..] == a[1..] + b;
      FailureLogConcat(a[1..], b);
    } else {
      assert a + b == b;
    }
  }

  /** A single run prints `FFmpeg error: <stderr>` iff its exit status is not 0. */
  lemma FailureLogSingle(r: RunOutcome)
    ensures FailureLog([r]) == (if r.exitCode != 0 then ["FFmpeg error: " + r.stderr] else [])
  {
    assert [r][1..] == [];
  }

  /** The paths of an outputs list, in order. */
  function Paths(outs: seq<Output>): (ps: seq<string>)
    ensures |ps| == |outs|
    ensures forall i :: 0 <= i < |outs| ==> ps[i] == outs[i].path
  {
    if |outs| == 0 then [] else [outs[0].path] + Paths(outs[1..])
  }

  /**
   Runs ffmpeg once per variant, in order, and collects the outputs list.
   Neither the commands nor the outputs list depend on how any run ended.
   */
  function TranscodeAll(fs: FS, input: string, id: int, vs: seq<Variant>, runs: seq<RunOutcome>)
    : (t: Transcoding)
    requires |runs| == |vs|
    ensures |t.outputs| == |vs| && |t.commands| == |vs|
    ensures forall i :: 0 <= i < |vs| ==>
      t.outputs[i] == Output(vs[i].caption, OutputPath(vs[i], id))
    ensures forall i :: 0 <= i < |vs| ==>
      t.commands[i] == Command(vs[i], input, OutputPath(vs[i], id))
    ensures t.log == FailureLog(runs)
    ensures forall p :: p !in Paths(t.outputs) ==> Same(fs, t.fs, p)
    decreases |vs|
  {
    if |vs| == 0 then Transcoding(fs, [], [], [])
    else
      var out := OutputPath(vs[0], id);
      var rest := TranscodeAll(ApplyRun(fs, out, runs[0]), input, id, vs[1..], runs[1..]);
      Transcoding(
        rest.fs,
        [Command(vs[0], input, out)] + rest.commands,
        (if runs[0].exitCode != 0 then [ErrorLine(runs[0].stderr)] else []) + rest.log,
        [Output(vs[0].caption, out)] + rest.outputs)
  }

  predicate OutputsDistinct(vs: seq<Variant>, id: int) {
    forall i, j :: 0 <= i < j < |vs| ==> OutputPath(vs[i], id) != OutputPath(vs[j], id)
  }

  /**
   With distinct output paths, what a variant's output looks like after all
   runs is what its own run made of it: no other run touches it.
   */
  lemma {:induction false} TranscodeOutputState(
    fs: FS, input: string, id: int, vs: seq<Variant>, runs: seq<RunOutcome>, i: nat)
    requires |runs| == |vs| && i < |vs|
    requires OutputsDistinct(vs, id)
    ensures Same(TranscodeAll(fs, input, id, vs, runs).fs,
                 ApplyRun(fs, OutputPath(vs[i], id), runs[i]),
                 OutputPath(vs[i], id))
    decreases |vs|
  {
    var out := OutputPath(vs[0], id);
    var fs1 := ApplyRun(fs, out, runs[0]);
    var tail := vs[1..];
    if i == 0 {
      var rest := TranscodeAll(fs1, input, id, tail, runs[1..]);
      assert out !in Paths(rest.outputs) by {
        forall k | 0 <= k < |tail| ensures Paths(rest.outputs)[k] != out {
          assert tail[k] == vs[k + 1];
        }
      }
    } else {
      assert OutputsDistinct(tail, id) by {
        forall a, b | 0 <= a < b < |tail| ensures OutputPath(tail[a], id) != OutputPath(tail[b], id) {
          assert tail[a] == vs[a + 1] && tail[b] == vs[b + 1];
        }
      }
      TranscodeOutputState(fs1, input, id, tail, runs[1..], i - 1);
      assert tail[i - 1] == vs[i];
      assert OutputPath(vs[i], id) != out;
    }
  }

  /**
   The five commands as ffmpeg reads them: all read the job's input, encode
   with libx264, preset fast, crf 28, write the variant's own output, speed
   video and audio up by the same factor, and only the first three force a
   frame rate (25, 30, 50).
   */
  lemma TableCommands(id: int, i: nat)
    requires i < |Table|
    ensures var cmd := Command(Table[i], InputPath(id), OutputPath(Table[i], id));
      && cmd[|cmd| - 1] == OutputPath(Table[i], id)
      && ArgAfter(cmd, "-i") == Some(InputPath(id))
      && ArgAfter(cmd, "-c:v") == Some("libx264")
      && ArgAfter(cmd, "-preset") == Some("fast")
      && ArgAfter(cmd, "-crf") == Some("28")
      && ArgAfter(cmd, "-r") == [Some("25"), Some("30"), Some("50"), None, None][i]
      && ArgAfter(cmd, "-filter_complex").Some?
      && VideoSpeed(ArgAfter(cmd, "-filter_complex").value) == Some(["1.1", "1.2", "1.3", "1.05", "1.0"][i])
      && AudioSpeed(ArgAfter(cmd, "-filter_complex").value) == Some(["1.1", "1.2", "1.3", "1.05", "1.0"][i])
  {
    var v := Table[i];
    var input := InputPath(id);
    var output := OutputPath(v, id);
    PathsAreNotOptions(id, i);
    TableRow(i);
    EncoderOptions(v, input, output);
    StreamOptions(v, input, output);
    SpeedsAgree(v);
  }

  lemma PathsAreNotOptions(id: int, i: nat)
    requires i < |Table|
    ensures !IsOption(InputPath(id)) && !IsOption(OutputPath(Table[i], id))
  {
  }

  /** Row `i` of the table, with its numbers rendered as the command spells them. */
  lemma TableRow(i: nat)
    requires i < |Table|
    ensures Table[i].encoder == Encoder("libx264", "fast", 28) && NatToString(28) == "28"
    ensures EncoderPlain(Table[i].encoder)
    ensures SpeedWellFormed(Table[i].speed)
    ensures Table[i].speed == ["1.1", "1.2", "1.3", "1.05", "1.0"][i]
    ensures (if Table[i].frameRate.Some? then Some(NatToString(Table[i].frameRate.value)) else None)
      == [Some("25"), Some("30"), Some("50"), None, None][i]
  {
    assert NatToString(28) == "28";
    if i == 0 {
      assert NatToString(25) == "25";
    } else if i == 1 {
      assert NatToString(30) == "30";
    } else if i == 2 {
      assert NatToString(50) == "50";
    }
  }
}
