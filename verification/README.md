# tg-video-bot: the video handler, modelled in Dafny

`bot.py` is a Telegram bot. Its owner sends it a video. The bot answers with five
re-encoded variants of that video: warm, cold, neutral, zoom and rotate. Each variant has
its own colour filter, speed factor and, for three of them, a forced frame rate. This
project models the one piece of real logic in the file, the `handle_video` handler, as a
pure function:

- the allow-list gate (`is_allowed`) and the check that a video or document is attached;
- the job-scoped file names, built from the message id;
- the fixed, ordered table of five variants and the ffmpeg argument vector for each;
- `run_ffmpeg`, which, once ffmpeg has started, prints only on a non-zero exit and returns
  normally either way, so every variant runs;
- delivery: one reply per variant, in table order. The reply is the video when the output
  exists and is non-empty, and an error notice naming the path otherwise;
- cleanup: remove the input, then the outputs in order, stopping silently at the first
  removal that fails.

The filesystem is a `map<string, nat>` from path to size. The outside world is a `World`
value. It says whether the download succeeded and how big the file was, and how each
ffmpeg run ended: exit status, stderr, and whether it wrote its output and with what size.
`Handler.Handle` maps a message, a filesystem and a world to the replies, downloads,
ffmpeg commands and printed lines, and the filesystem left behind.

Modules, leaf first: `Wrappers` (Option), `Decimal` (Python's `str(int)` and its inverse),
`Telegram` (message and reply data), `Access` (the allow-list), `Variants` (the table and
its filter graphs), `FileSystem` (content check, cleanup), `Naming` (job paths),
`Transcoder` (argument vectors, run outcomes, the loop over the table), `Delivery` (the
reply loop), `Handler` (the whole handler).

Two behaviours of the code are easy to miss, and the model keeps both:

- Cleanup is not guaranteed. It is a plain `try` after the delivery loop, not a
  `finally`. A missing path is not skipped either: `os.remove` raises, and that ends the
  cleanup. So when one variant produced no file, the outputs after it stay on disk
  (`Handler.HandleCleanup`).
- The code has no artifact store and no ledger. A successful variant leads to exactly one
  reply and nothing else.

## Model

| member | source | states |
|---|---|---|
| `Access.IsAllowedOnlyOwner` | bot.py:13-16 | A message passes the gate iff it has a sender and that sender's id is 1815433655, the only id on the allow-list |
| `Telegram.Payload` | bot.py:54 | The file handled is the video when one is attached, otherwise the document; there is none iff neither is attached |
| `Decimal.NatToString` | bot.py:59 | The rendering of a natural number is a non-empty string of decimal digits |
| `Decimal.ParseIntToString` | bot.py:59 | Reading back the rendering of any int, negative ones included, gives that int |
| `Decimal.IntToStringInjective` | bot.py:59 | Two ints render the same iff they are equal |
| `Naming.JobPaths` | bot.py:59-60 | A job's paths are its input `input_video_<id>.mp4` followed by each variant's prefix plus `video_<id>.mp4`, in table order |
| `Naming.PrefixedInjective` | bot.py:59-60 | Under one prefix, two paths are equal iff their message ids are equal |
| `Naming.JobPathsUnique` | bot.py:59-122 | Two job paths coincide iff they belong to the same message id and the same slot (input or variant) |
| `Naming.JobPathsDistinct` | bot.py:59-122 | The six paths of one job are pairwise distinct |
| `Naming.JobPathsDisjoint` | bot.py:59-122 | Jobs for different message ids share no path |
| `Variants.TakeUntil` | bot.py:72 | The factor read from the front of a graph is the longest prefix without ',' and stops exactly at a ',' |
| `Variants.TakeLastUntil` | bot.py:72 | The factor read from the back of a graph is the longest suffix without '=' and starts right after an '=' |
| `Variants.VideoSpeedOfGraph` | bot.py:72 | The `setpts=PTS/<k>` factor read from a variant's graph is the variant's speed |
| `Variants.AudioSpeedOfGraph` | bot.py:72 | The `atempo=<k>` factor read from a variant's graph is the variant's speed |
| `Variants.SpeedsAgree` | bot.py:72 | In every graph the video speed-up and the audio speed-up use the same factor |
| `Variants.TableSpeeds` | bot.py:67-133 | There are five variants; in each the video and audio factors read from its graph agree; they are 1.1, 1.2, 1.3, 1.05, 1.0 in order |
| `Variants.TableSettings` | bot.py:67-133 | Every variant uses libx264, preset fast, crf 28; only variants 1-3 force a frame rate, 25, 30 and 50 |
| `Transcoder.EncoderOptions` | bot.py:69-76 | In a command as ffmpeg reads it, `-c:v`, `-preset` and `-crf` carry the variant's codec, preset and quality |
| `Transcoder.StreamOptions` | bot.py:69-76 | A command starts with `ffmpeg`, ends with the output path, reads the given input and the variant's graph, and has a `-r` value iff the variant has a frame rate |
| `Transcoder.TableCommands` | bot.py:67-133 | Each of the five commands reads the job's input, writes the variant's output, encodes libx264/fast/28, applies the same factor to video and audio, and sets `-r` to 25, 30, 50 for variants 1-3 only |
| `Transcoder.FailureLog` | bot.py:29-30 | At most one line per run, and one line for every run iff every run failed |
| `Transcoder.FailureLogLines` | bot.py:29-30 | Every run with a non-zero exit prints `FFmpeg error: <its stderr>`; every printed line is that of a failed run; if every run exits 0 nothing is printed |
| `Transcoder.FailureLogCount` | bot.py:29-30 | The number of printed lines is the number of runs whose exit status is not 0 |
| `Transcoder.FailureLogConcat` | bot.py:29-30 | Printing goes run by run: the lines of two stretches of runs are those of the first followed by those of the second |
| `Transcoder.FailureLogSingle` | bot.py:29-30 | One run prints `FFmpeg error: <stderr>` iff its exit status is not 0, and nothing otherwise |
| `Transcoder.TranscodeAll` | bot.py:65-133 | One command and one (caption, path) entry per variant, in table order, whatever the exit statuses; the printed lines are those of the failed runs; no path outside the outputs changes |
| `Transcoder.TranscodeOutputState` | bot.py:67-133 | When the output paths are distinct, each output after all runs is what its own run made of it |
| `Transcoder.Paths` | bot.py:146 | The paths of an outputs list, entry by entry |
| `FileSystem.Cleanup` | bot.py:144-149 | Cleanup only removes files and never changes a size; paths it is not given stay; the first path is removed when present |
| `FileSystem.FirstAbsent` | bot.py:144-149 | The index where cleanup stops: all paths before it are present, the one at it is missing |
| `FileSystem.CleanupRemovesLeadingRun` | bot.py:144-149 | With distinct paths, cleanup removes exactly the paths before the first missing one |
| `FileSystem.CleanupAllPresent` | bot.py:144-149 | If every path is present, none remains after cleanup |
| `FileSystem.CleanupRemovesPresentRun` | bot.py:144-149 | A path is removed when it and every path before it are present |
| `FileSystem.CleanupStopsAtMissing` | bot.py:144-149 | If path `i` is missing, every later present path survives cleanup with its size |
| `FileSystem.CleanupIdempotent` | bot.py:144-149 | A second cleanup changes nothing |
| `Delivery.Deliver` | bot.py:136-141 | One reply per outputs entry, in order; reply `i` is a video iff entry `i` exists and is non-empty, and then carries that entry's path and caption; otherwise it is the notice naming the path |
| `Delivery.DeliverEach` | bot.py:136-141 | The reply loop, run entry by entry, sends exactly the replies `Deliver` describes |
| `Delivery.DeliverCounts` | bot.py:136-141 | The number of videos sent is the number of entries with content; the rest are notices |
| `Handler.Handle` | bot.py:50-149 | Handling a message changes no path outside its own job's six paths |
| `Handler.TableOutputsDistinct` | bot.py:60-122 | The five output paths of a job are pairwise distinct and differ from its input |
| `Handler.TranscodePaths` | bot.py:60-133 | After transcoding, the outputs list names the job's output paths and the input is still there as downloaded |
| `Handler.TranscodeOutput` | bot.py:61-133 | After transcoding, an output exists, and has content, exactly as its own run left it |
| `Handler.HandleEarlyExits` | bot.py:50-61 | A stranger gets nothing and nothing changes; a message without a file gets exactly the warning; a failed download stops everything after it; ffmpeg runs iff the gate, the payload check and the download all pass |
| `Handler.HandleRunsEveryVariant` | bot.py:61-133 | Once the input is downloaded, ffmpeg runs for all five variants in table order on the job's paths, and the commands are the same whatever the runs' exit statuses |
| `Handler.HandleReplies` | bot.py:63-141 | The user gets the "received" notice, then per variant in order the video with its caption iff the output exists and is non-empty, else the notice naming its path |
| `Handler.OutputSlot` | bot.py:60-133 | Slot `i + 1` of the job's paths is variant `i`'s output; it exists after the runs iff its run wrote it or it was already there, with the size its run gave it or its earlier size |
| `Handler.HandleLeaves` | bot.py:143-149 | The filesystem a proceeding job leaves is the cleanup, over the job's paths in order, of the filesystem after all runs; the input is gone |
| `Handler.HandleRemovesPresentOutput` | bot.py:144-147 | An output is removed when it and every output before it exist after the runs |
| `Handler.HandleKeepsAfterMissing` | bot.py:144-149 | If output `i` is missing after the runs, every later output that exists stays on disk with the size its run (or the earlier disk) gave it |
| `Handler.HandleCleanup` | bot.py:143-149 | Cleanup acts on the filesystem after all runs over input then outputs in order; the input is always removed; an output is removed when it and every earlier output exist; if every output exists, no job path remains; if output `i` is missing, every later existing output stays with its size |
| `Handler.HandleJobsIndependent` | bot.py:59-149 | Handling one message leaves every path of another message's job unchanged |

## Left out

- The aiogram `Bot`/`Dispatcher`, polling start-up and loading the token from `.env`
  (bot.py:3-10, 18-19, 151-153). These are framework glue.
- The `/start` command handler (bot.py:33-46). It only sends a fixed text.
- The dispatcher filter on content types (bot.py:49). The model accepts any message, so
  the no-file branch is reachable.
- The ffmpeg process and what its filters do (bot.py:22-28). Each run is an arbitrary
  outcome that may or may not write its own output, with any size. A run never touches
  other paths.
- Failing to start ffmpeg at all (bot.py:23-27). `asyncio.create_subprocess_exec` raises
  when the binary cannot be started. That would end the handler after the "received"
  reply: no later variant runs, no variant reply is sent, no cleanup happens, and the
  input stays on disk. The model assumes every run starts.
- `stderr.decode()` failing on bytes that are not UTF-8 (bot.py:30). Stderr is taken as
  text. With the previous point, `run_ffmpeg` never raises in the model.
- The order of the handler's effects across kinds. Replies, downloads, commands and
  printed lines are kept as separate sequences, each in order. In the code the order is
  download, "received" reply, the five runs, the variant replies, then cleanup. The
  model keeps only the part of it that decides results: delivery reads the filesystem
  after all runs, and cleanup comes after that.
- Exceptions from Telegram replies. Replies are assumed to succeed. Because the code has no
  `finally`, a reply that raised would also skip cleanup; the model does not cover that.
- A failed download is modelled as leaving the filesystem unchanged. A partial file is
  not modelled.
- Removal failures other than a missing path, such as permissions. In the model a removal
  fails iff the path is absent.
- async/await and concurrency. The handler is sequential.
- Speed factors are the literal strings in the commands, not rationals.
- The table keeps each filter graph split into the speed factor and the variant's own
  chain, joined by `Variants.FilterGraph`. That the joined strings equal the source's
  literals is checked only by inspection. The verifier cannot compare string literals
  of that length.
- Uploading to an artifact store, ledger rows, and the policy for a failed notification.
  None of these appear in bot.py.
