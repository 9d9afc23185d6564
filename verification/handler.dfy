/**
 `handle_video`: the whole video pipeline for one incoming message.

 The handler is a pure function of the message, the filesystem before it
 runs and a `World` that fixes what the outside did: whether the download
 succeeded (and how large the file was) and how each ffmpeg run ended. Its
 result keeps the replies, downloads, ffmpeg commands and printed lines as
 separate sequences, each in the order it happens, and the filesystem it
 leaves behind. Order across those sequences is not recorded; in the code it
 is download, "received" reply, the five runs, the variant replies, cleanup.
 Of that order the model keeps what matters for the results: delivery
 reads the filesystem after all runs, and cleanup acts on it afterwards.

 Steps: the allow-list gate; the payload check; the download to
 `input_video_<id>.mp4`; the "received" reply; one ffmpeg run per variant;
 one reply per variant; the cleanup, which stops at the first path that is
 missing.
 */
module Handler {
  import opened Wrappers
  import opened Telegram
  import opened Access
  import opened Variants
  import opened Naming
  import opened FileSystem
  import opened Transcoder
  import opened Delivery

  const NoPayloadNotice := "⚠️ Пришлите видео в формате mp4/mov."
  const ReceivedNotice := "📥 Видео получено. Обрабатываю..."

  datatype Download = Download(file: FileRef, dest: string)

  /** What the outside world does during one call. */
  datatype World = World(
    download: Option<nat>,     // size of the downloaded file; None: the download raised
    runs: seq<RunOutcome>)     // one outcome per variant, in table order

  datatype Effects = Effects(
    replies: seq<Reply>,
    downloads: seq<Download>,
    commands: seq<seq<string>>,
    log: seq<string>,
    fs: FS)

  predicate WorldFits(w: World) {
    |w.runs| == |Table|
  }

  /** The transcoding stage of a job whose input has been downloaded with `size` bytes. */
  function Transcode(fs: FS, id: int, size: nat, w: World): Transcoding
    requires WorldFits(w)
  {
    TranscodeAll(fs[InputPath(id) := size], InputPath(id), id, Table, w.runs)
  }

  function Handle(m: Message, fs: FS, w: World): (e: Effects)
    requires WorldFits(w)
    ensures forall p :: p !in JobPaths(m.messageId) ==> Same(fs, e.fs, p)
  {
    if !IsAllowed(m) then Effects([], [], [], [], fs)
    else match Payload(m)
      case None => Effects([TextReply(NoPayloadNotice)], [], [], [], fs)
      case Some(file) =>
        var id := m.messageId;
        var input := InputPath(id);
        match w.download
          case None => Effects([], [Download(file, input)], [], [], fs)
          case Some(size) =>
            var t := Transcode(fs, id, size, w);
            assert forall p :: p in Paths(t.outputs) ==> p in JobPaths(id) by {
              forall k | 0 <= k < |Table| ensures Paths(t.outputs)[k] in JobPaths(id) {
                assert JobPaths(id)[k + 1] == Paths(t.outputs)[k];
              }
            }
            Effects(
              [TextReply(ReceivedNotice)] + Deliver(t.fs, t.outputs),
              [Download(file, input)],
              t.commands,
              t.log,
              Cleanup(t.fs, [input] + Paths(t.outputs)))
  }

  /** The job gets past the gate, the payload check and the download. */
  predicate Proceeds(m: Message, w: World) {
    IsAllowed(m) && Payload(m).Some? && w.download.Some?
  }

  /** Variant `i`'s output exists once all runs are over. */
  predicate OutputExists(fs: FS, w: World, id: int, i: nat)
    requires WorldFits(w) && i < |Table|
  {
    w.runs[i].written.Some? || OutputPath(Table[i], id) in fs
  }

  /** Variant `i`'s output exists and is non-empty once all runs are over. */
  predicate OutputHasContent(fs: FS, w: World, id: int, i: nat)
    requires WorldFits(w) && i < |Table|
  {
    if w.runs[i].written.Some? then w.runs[i].written.value > 0
    else HasContent(fs, OutputPath(Table[i], id))
  }

  /** The table's outputs are pairwise distinct and distinct from the input. */
  lemma TableOutputsDistinct(id: int)
    ensures OutputsDistinct(Table, id)
    ensures forall i :: 0 <= i < |Table| ==> OutputPath(Table[i], id) != InputPath(id)
  {
    JobPathsDistinct(id);
    var ps := JobPaths(id);
    forall i, j | 0 <= i < j < |Table| ensures OutputPath(Table[i], id) != OutputPath(Table[j], id) {
      assert ps[i + 1] != ps[j + 1];
    }
    forall i | 0 <= i < |Table| ensures OutputPath(Table[i], id) != InputPath(id) {
      assert ps[0] != ps[i + 1];
    }
  }

  /**
   After the transcoding stage the outputs list names the job's output
   paths, and the input is still there as downloaded.
   */
  lemma TranscodePaths(fs: FS, id: int, size: nat, w: World)
    requires WorldFits(w)
    ensures [InputPath(id)] + Paths(Transcode(fs, id, size, w).outputs) == JobPaths(id)
    ensures InputPath(id) in Transcode(fs, id, size, w).fs
    ensures Transcode(fs, id, size, w).fs[InputPath(id)] == size
  {
    var t := Transcode(fs, id, size, w);
    OutputsAreJobPaths(t.outputs, id);
    TableOutputsDistinct(id);
    assert InputPath(id) !in Paths(t.outputs) by {
      forall k | 0 <= k < |Table| ensures Paths(t.outputs)[k] != InputPath(id) {
        assert JobPaths(id)[k + 1] == OutputPath(Table[k], id);
      }
    }
    assert Same(fs[InputPath(id) := size], t.fs, InputPath(id));
  }

  /** An outputs list that names the table's outputs in order lists the job's output paths. */
  lemma OutputsAreJobPaths(outs: seq<Output>, id: int)
    requires |outs| == |Table|
    requires forall k :: 0 <= k < |Table| ==> outs[k].path == OutputPath(Table[k], id)
    ensures [InputPath(id)] + Paths(outs) == JobPaths(id)
  {
  }

  /** After the transcoding stage, each output is what its own run made of it. */
  lemma TranscodeOutput(fs: FS, id: int, size: nat, w: World, i: nat)
    requires WorldFits(w) && i < |Table|
    ensures var out := OutputPath(Table[i], id);
      var after := Transcode(fs, id, size, w).fs;
      && (out in after <==> OutputExists(fs, w, id, i))
      && (HasContent(after, out) <==> OutputHasContent(fs, w, id, i))
      && (w.runs[i].written.Some? ==> out in after && after[out] == w.runs[i].written.value)
      && (w.runs[i].written.None? ==> Same(fs, after, out))
  {
    var input := InputPath(id);
    TableOutputsDistinct(id);
    TranscodeOutputState(fs[input := size], input, id, Table, w.runs, i);
  }

  /** A stranger, a message without a file, and a failed download each end the handler early. */
  lemma HandleEarlyExits(m: Message, fs: FS, w: World)
    requires WorldFits(w)
    ensures !IsAllowed(m) ==> Handle(m, fs, w) == Effects([], [], [], [], fs)
    ensures IsAllowed(m) && Payload(m).None? ==>
      Handle(m, fs, w) == Effects([TextReply(NoPayloadNotice)], [], [], [], fs)
    ensures IsAllowed(m) && Payload(m).Some? && w.download.None? ==>
      Handle(m, fs, w) == Effects([], [Download(Payload(m).value, InputPath(m.messageId))], [], [], fs)
    ensures |Handle(m, fs, w).commands| > 0 <==> Proceeds(m, w)
  {
  }

  /**
   Once the job proceeds, ffmpeg runs for every variant in table order on
   the job's input and output paths, one line is printed per failed run, and
   the commands do not depend on how any run ended.
   */
  lemma HandleRunsEveryVariant(m: Message, fs: FS, w: World, w': World)
    requires WorldFits(w) && WorldFits(w') && Proceeds(m, w) && w'.download == w.download
    ensures var e := Handle(m, fs, w);
      && |e.commands| == |Table|
      && (forall i :: 0 <= i < |Table| ==>
            e.commands[i] == Command(Table[i], InputPath(m.messageId), OutputPath(Table[i], m.messageId)))
      && e.downloads == [Download(Payload(m).value, InputPath(m.messageId))]
      && e.log == FailureLog(w.runs)
    ensures Handle(m, fs, w').commands == Handle(m, fs, w).commands
  {
  }

  /**
   Once the job proceeds, the user gets the "received" notice and then one
   reply per variant in table order: the video with its caption iff that
   variant's output exists and is non-empty after all runs, else a notice
   naming the output path.
   */
  lemma HandleReplies(m: Message, fs: FS, w: World)
    requires WorldFits(w) && Proceeds(m, w)
    ensures var e := Handle(m, fs, w);
      && |e.replies| == 1 + |Table|
      && e.replies[0] == TextReply(ReceivedNotice)
      && forall i :: 0 <= i < |Table| ==>
           e.replies[i + 1] ==
             if OutputHasContent(fs, w, m.messageId, i)
             then VideoReply(OutputPath(Table[i], m.messageId), Table[i].caption)
             else TextReply(MissingNotice(OutputPath(Table[i], m.messageId)))
  {
    var id := m.messageId;
    var t := Transcode(fs, id, w.download.value, w);
    var rs := Deliver(t.fs, t.outputs);
    assert Handle(m, fs, w).replies == [TextReply(ReceivedNotice)] + rs;
    forall i | 0 <= i < |Table|
      ensures rs[i] ==
        if OutputHasContent(fs, w, id, i)
        then VideoReply(OutputPath(Table[i], id), Table[i].caption)
        else TextReply(MissingNotice(OutputPath(Table[i], id)))
    {
      TranscodeOutput(fs, id, w.download.value, w, i);
      assert t.outputs[i] == Output(Table[i].caption, OutputPath(Table[i], id));
    }
  }

  /** Slot `i + 1` of the job's paths is variant `i`'s output, as the runs left it. */
  lemma OutputSlot(fs: FS, id: int, size: nat, w: World, i: nat)
    requires WorldFits(w) && i < |Table|
    ensures JobPaths(id)[i + 1] == OutputPath(Table[i], id)
    ensures JobPaths(id)[i + 1] in Transcode(fs, id, size, w).fs <==> OutputExists(fs, w, id, i)
    ensures OutputExists(fs, w, id, i) ==>
      Transcode(fs, id, size, w).fs[JobPaths(id)[i + 1]] ==
        if w.runs[i].written.Some? then w.runs[i].written.value else fs[OutputPath(Table[i], id)]
  {
    TranscodeOutput(fs, id, size, w, i);
  }

  /** The filesystem a proceeding job leaves is the cleanup of the job's paths after all runs. */
  lemma HandleLeaves(m: Message, fs: FS, w: World)
    requires WorldFits(w) && Proceeds(m, w)
    ensures Handle(m, fs, w).fs == Cleanup(Transcode(fs, m.messageId, w.download.value, w).fs, JobPaths(m.messageId))
    ensures InputPath(m.messageId) !in Handle(m, fs, w).fs
  {
    TranscodePaths(fs, m.messageId, w.download.value, w);
  }

  /** An output is removed when it and every output before it exist after the runs. */
  lemma HandleRemovesPresentOutput(m: Message, fs: FS, w: World, i: nat)
    requires WorldFits(w) && Proceeds(m, w) && i < |Table|
    requires forall k :: 0 <= k <= i ==> OutputExists(fs, w, m.messageId, k)
    ensures OutputPath(Table[i], m.messageId) !in Handle(m, fs, w).fs
  {
    var id := m.messageId;
    var size := w.download.value;
    HandleLeaves(m, fs, w);
    var before := Transcode(fs, id, size, w).fs;
    var ps := JobPaths(id);
    TranscodePaths(fs, id, size, w);
    JobPathsDistinct(id);
    forall k | 0 <= k <= i + 1 ensures ps[k] in before {
      if k > 0 { OutputSlot(fs, id, size, w, k - 1); }
    }
    OutputSlot(fs, id, size, w, i);
    CleanupRemovesPresentRun(before, ps, i + 1);
  }

  /** If output `i` is missing after the runs, a later output that exists stays, with its size. */
  lemma HandleKeepsAfterMissing(m: Message, fs: FS, w: World, i: nat, j: nat)
    requires WorldFits(w) && Proceeds(m, w) && i < j < |Table|
    requires !OutputExists(fs, w, m.messageId, i) && OutputExists(fs, w, m.messageId, j)
    ensures OutputPath(Table[j], m.messageId) in Handle(m, fs, w).fs
    ensures Handle(m, fs, w).fs[OutputPath(Table[j], m.messageId)] ==
      if w.runs[j].written.Some? then w.runs[j].written.value else fs[OutputPath(Table[j], m.messageId)]
  {
    var id := m.messageId;
    var size := w.download.value;
    HandleLeaves(m, fs, w);
    JobPathsDistinct(id);
    OutputSlot(fs, id, size, w, i);
    OutputSlot(fs, id, size, w, j);
    CleanupStopsAtMissing(Transcode(fs, id, size, w).fs, JobPaths(id), i + 1);
  }

  /**
   Cleanup after a job that proceeded acts on the filesystem the runs left,
   over the job's paths in order: input, then outputs in table order. The
   input is always removed; an output is removed when it and every output
   before it exist; if every output exists, no job path remains; if output
   `i` is missing, every later output that exists stays on disk with the
   size its run (or the earlier disk) gave it.
   */
  lemma HandleCleanup(m: Message, fs: FS, w: World)
    requires WorldFits(w) && Proceeds(m, w)
    ensures Handle(m, fs, w).fs == Cleanup(Transcode(fs, m.messageId, w.download.value, w).fs, JobPaths(m.messageId))
    ensures InputPath(m.messageId) !in Handle(m, fs, w).fs
    ensures forall i :: 0 <= i < |Table| && (forall k :: 0 <= k <= i ==> OutputExists(fs, w, m.messageId, k))
                        ==> OutputPath(Table[i], m.messageId) !in Handle(m, fs, w).fs
    ensures (forall i :: 0 <= i < |Table| ==> OutputExists(fs, w, m.messageId, i)) ==>
      forall p :: p in JobPaths(m.messageId) ==> p !in Handle(m, fs, w).fs
    ensures forall i, j ::
      (0 <= i < j < |Table| && !OutputExists(fs, w, m.messageId, i) && OutputExists(fs, w, m.messageId, j))
      ==> && OutputPath(Table[j], m.messageId) in Handle(m, fs, w).fs
          && Handle(m, fs, w).fs[OutputPath(Table[j], m.messageId)] ==
               if w.runs[j].written.Some? then w.runs[j].written.value
               else fs[OutputPath(Table[j], m.messageId)]
  {
    var id := m.messageId;
    HandleLeaves(m, fs, w);
    forall i | 0 <= i < |Table| && (forall k :: 0 <= k <= i ==> OutputExists(fs, w, id, k))
      ensures OutputPath(Table[i], id) !in Handle(m, fs, w).fs
    {
      HandleRemovesPresentOutput(m, fs, w, i);
    }
    if forall i :: 0 <= i < |Table| ==> OutputExists(fs, w, id, i) {
      var ps := JobPaths(id);
      forall p | p in ps ensures p !in Handle(m, fs, w).fs {
        var k :| 0 <= k < |ps| && ps[k] == p;
        if k > 0 {
          OutputSlot(fs, id, w.download.value, w, k - 1);
          HandleRemovesPresentOutput(m, fs, w, k - 1);
        }
      }
    }
    forall i, j | 0 <= i < j < |Table| && !OutputExists(fs, w, id, i) && OutputExists(fs, w, id, j)
      ensures OutputPath(Table[j], id) in Handle(m, fs, w).fs
      ensures Handle(m, fs, w).fs[OutputPath(Table[j], id)] ==
        if w.runs[j].written.Some? then w.runs[j].written.value else fs[OutputPath(Table[j], id)]
    {
      HandleKeepsAfterMissing(m, fs, w, i, j);
    }
  }

  /**
   Jobs for different message ids do not interfere: handling one message
   leaves every path of the job for any other message id as it was.
   */
  lemma HandleJobsIndependent(m: Message, fs: FS, w: World, other: int)
    requires WorldFits(w) && other != m.messageId
    ensures forall p :: p in JobPaths(other) ==> Same(fs, Handle(m, fs, w).fs, p)
  {
    JobPathsDisjoint(other, m.messageId);
  }
}
