# Chunked transcription pipeline of `murmure.py`, in Dafny

`murmure.py` batch-transcribes a folder of recordings. It lists the source
directory. It keeps the names ending in `.m4a` or `.mp3`. It converts an
`.m4a` to a sibling `.mp3` unless that file already exists. If transcription
is enabled, it splits the audio into ten-minute chunks, sends each chunk to
a speech-to-text service, and can have each chunk's text rewritten by a chat
model (`--gpt_post_process`). It then writes every text, each followed by a
line break, to `<stem>.txt` in the output directory.

This project models that pipeline and proves its properties:

- `wrappers.dfy` (`Wrappers`): `Option` and `Result`. An `Err` stands for an
  exception that nothing in the script catches.
- `paths.dfy` (`Paths`): the POSIX path and string functions the script uses
  (`endswith`, ASCII `lower`, `basename`, `dirname`, two-argument `join`,
  `splitext`, and `rfind` inside them), plus `Find` and `Lines`, which split
  a transcript back into lines for `LinesOfTranscript`. `splitext` follows
  the standard library's rule that dots at the start of the final component
  do not begin an extension.
- `segmenter.dfy` (`Segmenter`): `split_audio`. A decoded file is given by
  its length `D` in milliseconds. A chunk is the interval `[start, end)`.
  `SplitAudio` is the source's `range` loop, proved equal to `Segment(D, L)`.
  The lemmas prove the chunk count is `ceil(D/L)`, the chunk shapes,
  contiguity, order, exact coverage of `[0, D)` and that the lengths sum to `D`.
- `transcriber.dfy` (`Transcriber`): `transcribe`'s response normalisation
  and `process_audio`'s fold. The decoder, the speech-to-text service and the
  chat model are the three fields of a `Backends` value. `ProcessAudio` is the
  accumulator loop, proved equal to `TranscribeFile`. The lemmas cover:
  - one segment per chunk, in order;
  - first-failure propagation;
  - refinement applied exactly when the flag is set;
  - a round trip from the transcript back to its segments;
  - two end-to-end runs: one chunk without refinement (`SingleChunkFile`)
    and two chunks with refinement (`TwoChunkRefinedFile`).
- `orchestrator.dfy` (`Orchestrator`): `process_all_files` and the path logic
  of `convert_m4a_to_mp3`. The file system is a `World`: the set of existing
  paths plus the log of transcript writes. The directory listing is a
  sequence of names. Whether a given `.m4a` transcodes is an oracle
  `env.transcode`. `ProcessAllFiles` is the source's loop, proved equal to
  `Run`.

The model follows the code, including these points where one might expect otherwise:

- A failure of the decoder, of either remote call, or an empty `choices`
  list raises an exception that `murmure.py` does not catch. It ends the
  whole run, and the transcripts already written stay. The model does this
  (`Step.fault`). It does not use a per-file skip-and-continue policy.
- The suffix filter is case-sensitive. The `.lower()` on the extension
  afterwards never changes anything.
- A name passing the filter whose final component is only dots before the
  suffix (e.g. `.mp3`, `..m4a`) has an empty `splitext` extension. It takes
  the "unsupported format" branch.
- With transcription disabled, `.m4a` files are still converted.

## Model

| member | source | states |
|---|---|---|
| `Paths.SplitExt` | murmure.py:120 | root and extension concatenate back to the path |
| `Paths.ExtShape` | murmure.py:120 | the extension is empty or a dot followed by a dot-free, slash-free tail |
| `Paths.ExtNonEmptyIff` | murmure.py:120 | `splitext` finds an extension exactly when some dot of the final component follows a non-dot character, so leading dots never start one |
| `Paths.ExtOfSuffixed` | murmure.py:118-120 | for a name ending in `.m4a`/`.mp3`, the extension is that suffix, or empty when the final component before it is all dots |
| `Paths.BaseName` | murmure.py:55 | `basename` is the longest slash-free suffix of the path |
| `Paths.JoinPath` | murmure.py:53-57 | `join(a, b)` is `b` when `b` is absolute; otherwise it ends in `b`, and a `/` is put between them exactly when `a` is non-empty and does not already end in `/` |
| `Paths.DirName` | murmure.py:54 | `dirname` is a prefix of the path, followed only by slashes up to the final component; it is that whole head when the head is only slashes, and otherwise the head with its trailing slashes removed |
| `Paths.DirNameOfJoin` | murmure.py:53-57 | joining a slash-free name onto a path's directory gives a path whose directory is that same directory |
| `Paths.Lower` | murmure.py:120 | `lower` maps each character to its lower-case form (ASCII), keeping the length |
| `Orchestrator.LowerFixes` | murmure.py:120 | lower-casing leaves `.m4a`, `.mp3` and the empty extension unchanged |
| `Segmenter.SplitAudio` | murmure.py:77-82 | the `range(0, D, L)` loop yields exactly the chunk list `Segment(D, L)` |
| `Segmenter.ChunkCountIsCeiling` | murmure.py:80 | the chunk count n satisfies (n-1)·L < D ≤ n·L, i.e. n = ceil(D/L), and is zero exactly when D = 0 |
| `Segmenter.CeilingUnique` | murmure.py:80 | ceil(D/L) is the only count with (n-1)·L < D ≤ n·L |
| `Segmenter.ChunkShape` | murmure.py:80-81 | chunk k is [k·L, min((k+1)·L, D)), is non-empty, has length L unless it is the last, and the last ends at D |
| `Segmenter.Contiguous` | murmure.py:80-81 | no chunks iff D = 0; the first starts at 0, each ends where the next starts, the last ends at D |
| `Segmenter.Ordered` | murmure.py:80 | an earlier chunk ends no later than a later one starts: increasing and non-overlapping |
| `Segmenter.CoveredExactlyOnce` | murmure.py:80-81 | every millisecond t < D lies in chunk t / L and in no other; no chunk holds a millisecond at or beyond D |
| `Segmenter.LengthsSumToDuration` | murmure.py:80-81 | the chunk lengths add up to D |
| `Segmenter.TwentyFiveMinutes` | murmure.py:167 | with the ten-minute chunk length, 25 minutes split into 10 + 10 + 5 minutes |
| `Transcriber.Normalize` | murmure.py:93-97 | a plain-string answer is returned as is; otherwise the first choice's text, and an empty choice list raises |
| `Transcriber.ProcessAudio` | murmure.py:155-163 | the accumulator loop returns `TranscribeFile`: the in-order concatenation of every segment plus a line break, or the first fault |
| `Transcriber.PrefixFailure` | murmure.py:158-162 | once a chunk fails, the file's result is that fault whatever the later chunks would give |
| `Transcriber.SegmentsOk` | murmure.py:158-162 | success iff there is exactly one segment per chunk and segment k is the text of chunk k |
| `Transcriber.SegmentsErr` | murmure.py:158-162 | failure with f iff some chunk fails with f and every earlier chunk succeeded |
| `Transcriber.RefinedSegments` | murmure.py:160-161 | with the flag on, segment k is the chat model's answer, with the system prompt, to chunk k's raw transcription |
| `Transcriber.UnrefinedSegments` | murmure.py:159-161 | with the flag off, every segment is the raw transcription and the result does not depend on the chat model at all |
| `Transcriber.TranscriptAppend` | murmure.py:162 | assembling two runs of segments concatenates their texts |
| `Transcriber.LinesOfTranscript` | murmure.py:162 | when no segment contains a line break, splitting the transcript into lines gives back the segments |
| `Transcriber.FileTranscriptShape` | murmure.py:155-163 | a successful transcript is made of exactly ceil(D/L) segments, segment k being the text of chunk k |
| `Transcriber.SilentFile` | murmure.py:156-163 | zero-length audio gives the empty transcript |
| `Transcriber.SingleChunkFile` | murmure.py:155-163 | non-empty audio no longer than one chunk, refinement off: the transcript is that chunk's text plus one line break |
| `Transcriber.TwoChunkRefinedFile` | murmure.py:155-163 | audio longer than one chunk and at most two chunks, refinement on: the transcript is refined(text1) + "\n" + refined(text2) + "\n" |
| `Orchestrator.ClassifyByName` | murmure.py:118-130 | an entry is converted, used directly, skipped as unsupported or ignored exactly according to its case-sensitive suffix and whether dots alone precede it |
| `Orchestrator.UpperCaseSkipped` | murmure.py:118-120 | names ending in `.MP3` or `.M4A` are never processed |
| `Orchestrator.Mp3Name` | murmure.py:53-57 | the converted file is named `<stem>.mp3`, after the final component of the input, and lies in the input's directory |
| `Orchestrator.TranscriptName` | murmure.py:139-142 | the transcript of entry `name` is named `<stem>.txt` |
| `Orchestrator.Convert` | murmure.py:50-73 | an existing sibling `.mp3` is returned untouched; otherwise a successful transcode creates it and a failed one gives None; no transcript is written |
| `Orchestrator.ConvertIdempotent` | murmure.py:59-62 | converting again after a success returns the same path, changes nothing and never consults the transcoder |
| `Orchestrator.TranscriptIsNoMp3` | murmure.py:53-57 | a transcript path ends in `.txt` and a sibling path in `.mp3`, so they never coincide |
| `Orchestrator.ProcessAllFiles` | murmure.py:113-151 | the directory loop yields exactly `Run`: the world after every entry, stopping at the first fault |
| `Orchestrator.DisabledWritesNothing` | murmure.py:133 | with transcription disabled no transcript is written and the run cannot fail |
| `Orchestrator.SkippedEntry` | murmure.py:128-130 | a non-audio or empty-extension entry leaves the world as it was and the run continues |
| `Orchestrator.FailedConversion` | murmure.py:124 | a failed conversion of an `.m4a` without a sibling `.mp3` skips that file and the run goes on |
| `Orchestrator.TranscribedMp3` | murmure.py:125-146 | an enabled `.mp3` entry whose audio transcribes adds exactly one write, its text at `output_dir/<stem>.txt` |
| `Orchestrator.ConvertedM4a` | murmure.py:122-146 | an enabled `.m4a` entry whose conversion yields the sibling `.mp3` and whose audio transcribes adds exactly one write, its text at `output_dir/<stem>.txt` |
| `Orchestrator.RunCons` | murmure.py:114 | a run whose first entry does not fault continues from that entry's world with the rest of the listing |
| `Orchestrator.StepWrites` | murmure.py:133-146 | one entry adds at most one write, for that audio entry, at its transcript path, holding its transcript, and only when enabled |
| `Orchestrator.RunWrites` | murmure.py:114-146 | over a run the log only grows, and every write added is the transcript of a listed audio entry |

## Left out

- Start-up (murmure.py:9-46): loading `settings.yaml`, `.env`, the API key check and its printing, argparse and `os.makedirs`. It is I/O. Its results are the parameters `Env` and `PipelineConfig`.
- The speech-to-text and chat-completion calls and pydub decoding (murmure.py:65-67, 78, 87-92, 102-109). They are remote or library code, modelled as the functions in `Backends` and `env.transcode`.
- Exporting a chunk to a temporary file (murmure.py:87-89) is codec I/O and is not modelled. A chunk is identified by its interval.
- The exception path of conversion (murmure.py:71-73) is modelled only as "the transcoder oracle says no". A partly written `.mp3` left by a failed export is not modelled.
- `print` reporting and writing the transcript file (murmure.py:144-151). A write is an entry in `World.writes`. A failing `open`/`write` is not modelled.
- `chunk_length_ms` must be positive (`requires chunkLength > 0`). The script passes only the constant ten minutes. `range` raises for a step of 0 and is empty for a negative step; neither case is modelled.
- `Paths.Lower` handles ASCII letters only; Python's `str.lower` is full Unicode. It is only ever applied to `.m4a`, `.mp3` or the empty string (see `Orchestrator.ClassifyByName`, `Orchestrator.LowerFixes`).
- `Transcriber.Normalize`: other malformed answers (a missing attribute, a `None` message content from the chat model) are not modelled. The chat model's answer is taken to be its message content.
- pydub's rounding of a file's length to milliseconds is hidden in the `decode` backend, which returns the length directly.
- The order of `os.listdir` is whatever sequence of names is given.
