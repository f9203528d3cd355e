/**
 * Transcription of one file (`transcribe`, `post_process_transcript` and
 * `process_audio`). The decoder and the two remote services are parameters:
 * a `Backends` value holds what each returns for each input, and an
 * exception raised by any of them is an `Err`.
 */
module Transcriber {
  import opened Wrappers
  import opened Segmenter
  import opened Paths

  /** The two shapes the speech-to-text service may answer with. */
  datatype Response =
    | PlainText(text: string)             // a bare string
    | Structured(choices: seq<string>)    // an object whose `choices[i].text` are these

  datatype Fault =
    | Raised(cause: string)   // an exception from the decoder or a remote call
    | NoChoices               // `choices[0]` on an empty list (IndexError)

  datatype Backends = Backends(
    decode: string -> Result<nat, Fault>,                // `AudioSegment.from_mp3(path)`, by its length in ms
    whisper: (string, Chunk) -> Result<Response, Fault>, // speech-to-text on `chunk` of the audio at `path`
    complete: (string, string) -> Result<string, Fault>) // chat completion: (transcript, system prompt) to message content

  /** Per-run settings: chunk length, system prompt, and the `--gpt_post_process` flag. */
  datatype PipelineConfig = PipelineConfig(chunkLength: nat, prompt: string, refine: bool)

  /** Normalisation of the speech-to-text answer to plain text. */
  function Normalize(resp: Response): (r: Result<string, Fault>)
    ensures resp.PlainText? ==> r == Ok(resp.text)
    ensures resp.Structured? && resp.choices != [] ==> r == Ok(resp.choices[0])
    ensures resp.Structured? && resp.choices == [] ==> r == Err(NoChoices)
  {
    match resp
    case PlainText(t) => Ok(t)
    case Structured(cs) => if cs == [] then Err(NoChoices) else Ok(cs[0])
  }

  /** `transcribe(chunk)`. */
  function Transcribe(b: Backends, path: string, c: Chunk): Result<string, Fault>
  {
    match b.whisper(path, c)
    case Err(f) => Err(f)
    case Ok(resp) => Normalize(resp)
  }

  /** The text one chunk contributes: its transcription, rewritten once when refinement is on. */
  function SegmentText(b: Backends, cfg: PipelineConfig, path: string, c: Chunk): Result<string, Fault>
  {
    match Transcribe(b, path, c)
    case Err(f) => Err(f)
    case Ok(raw) => if cfg.refine then b.complete(raw, cfg.prompt) else Ok(raw)
  }

  /** The segment texts of `cs` in order, or the fault of the first chunk that fails. */
  function Segments(b: Backends, cfg: PipelineConfig, path: string, cs: seq<Chunk>): Result<seq<string>, Fault>
  {
    if cs == [] then Ok([])
    else
      match Segments(b, cfg, path, cs[..|cs| - 1])
      case Err(f) => Err(f)
      case Ok(ts) =>
        match SegmentText(b, cfg, path, cs[|cs| - 1])
        case Err(f) => Err(f)
        case Ok(t) => Ok(ts + [t])
  }

  /** The transcript text: every segment followed by one line break. */
  function Transcript(ts: seq<string>): string
  {
    if ts == [] then "" else Transcript(ts[..|ts| - 1]) + ts[|ts| - 1] + "\n"
  }

  /** What `process_audio(path, ...)` returns, or the fault it raises. */
  function TranscribeFile(b: Backends, cfg: PipelineConfig, path: string): Result<string, Fault>
    requires cfg.chunkLength > 0
  {
    match b.decode(path)
    case Err(f) => Err(f)
    case Ok(duration) =>
      match Segments(b, cfg, path, Segment(duration, cfg.chunkLength))
      case Err(f) => Err(f)
      case Ok(ts) => Ok(Transcript(ts))
  }

  /** Once a prefix of the chunks fails, the whole file fails with the same fault. */
  lemma {:induction false} PrefixFailure(b: Backends, cfg: PipelineConfig, path: string, cs: seq<Chunk>, i: nat)
    requires i <= |cs|
    requires Segments(b, cfg, path, cs[..i]).Err?
    ensures Segments(b, cfg, path, cs) == Segments(b, cfg, path, cs[..i])
  {
    if i < |cs| {
      var init := cs[..|cs| - 1];
      assert init[..i] == cs[..i];
      PrefixFailure(b, cfg, path, init, i);
    } else {
      assert cs[..i] == cs;
    }
  }

  /** Extending the chunks by one extends the fold by that chunk's outcome. */
  lemma SegmentsSnoc(b: Backends, cfg: PipelineConfig, path: string, cs: seq<Chunk>, i: nat, ts: seq<string>)
    requires i < |cs| && Segments(b, cfg, path, cs[..i]) == Ok(ts)
    ensures Segments(b, cfg, path, cs[..i + 1]) ==
      match SegmentText(b, cfg, path, cs[i])
      case Err(f) => Err(f)
      case Ok(t) => Ok(ts + [t])
  {
    assert cs[..i + 1][..i] == cs[..i];
  }

  /**
   * `process_audio`: split the audio, then for each chunk in order transcribe
   * it, refine it when asked, and append the text and a line break to the
   * accumulator. A fault from any call ends the file with that fault.
   */
  method ProcessAudio(b: Backends, cfg: PipelineConfig, path: string) returns (r: Result<string, Fault>)
    requires cfg.chunkLength > 0
    ensures r == TranscribeFile(b, cfg, path)
  {
    var decoded := b.decode(path);
    if decoded.Err? {
      return Err(decoded.error);
    }
    var chunks := SplitAudio(decoded.value, cfg.chunkLength);
    var fullTranscript := "";
    ghost var ts: seq<string> := [];
    for i := 0 to |chunks|
      invariant Segments(b, cfg, path, chunks[..i]) == Ok(ts)
      invariant fullTranscript == Transcript(ts)
    {
      SegmentsSnoc(b, cfg, path, chunks, i, ts);
      var transcript := Transcribe(b, path, chunks[i]);
      if transcript.Err? {
        PrefixFailure(b, cfg, path, chunks, i + 1);
        return Err(transcript.error);
      }
      if cfg.refine {
        transcript := b.complete(transcript.value, cfg.prompt);
        if transcript.Err? {
          PrefixFailure(b, cfg, path, chunks, i + 1);
          return Err(transcript.error);
        }
      }
      assert SegmentText(b, cfg, path, chunks[i]) == transcript;
      fullTranscript := fullTranscript + transcript.value + "\n";
      ts := ts + [transcript.value];
    }
    assert chunks[..|chunks|] == chunks;
    r := Ok(fullTranscript);
  }

  /** Success means one segment per chunk, in chunk order, each the text of its own chunk. */
  lemma {:induction false} SegmentsOk(b: Backends, cfg: PipelineConfig, path: string, cs: seq<Chunk>, ts: seq<string>)
    ensures Segments(b, cfg, path, cs) == Ok(ts) <==>
      |ts| == |cs| && forall k :: 0 <= k < |cs| ==> SegmentText(b, cfg, path, cs[k]) == Ok(ts[k])
  {
    if cs != [] && ts != [] {
      var n := |cs| - 1;
      SegmentsOk(b, cfg, path, cs[..n], ts[..|ts| - 1]);
      if |ts| == |cs| && forall k :: 0 <= k < |cs| ==> SegmentText(b, cfg, path, cs[k]) == Ok(ts[k]) {
        assert ts[..|ts| - 1] + [ts[|ts| - 1]] == ts;
      }
    } else if cs != [] {
      var n := |cs| - 1;
      match Segments(b, cfg, path, cs[..n])
      case Err(_) =>
      case Ok(us) => SegmentsOk(b, cfg, path, cs[..n], us);
    }
  }

  /** Failure means some chunk failed with that fault and every chunk before it succeeded. */
  lemma SegmentsErr(b: Backends, cfg: PipelineConfig, path: string, cs: seq<Chunk>, f: Fault)
    ensures Segments(b, cfg, path, cs) == Err(f) <==>
      exists k :: 0 <= k < |cs| && SegmentText(b, cfg, path, cs[k]) == Err(f) &&
        forall j :: 0 <= j < k ==> SegmentText(b, cfg, path, cs[j]).Ok?
  {
    if Segments(b, cfg, path, cs) == Err(f) {
      var k := FirstFailure(b, cfg, path, cs, f);
    }
    if exists k :: 0 <= k < |cs| && SegmentText(b, cfg, path, cs[k]) == Err(f) &&
        forall j :: 0 <= j < k ==> SegmentText(b, cfg, path, cs[j]).Ok? {
      var k :| 0 <= k < |cs| && SegmentText(b, cfg, path, cs[k]) == Err(f) &&
        forall j :: 0 <= j < k ==> SegmentText(b, cfg, path, cs[j]).Ok?;
      FailureStops(b, cfg, path, cs, f, k);
    }
  }

  /** A failed fold names the chunk that failed first. */
  lemma {:induction false} FirstFailure(b: Backends, cfg: PipelineConfig, path: string, cs: seq<Chunk>, f: Fault)
    returns (k: nat)
    requires Segments(b, cfg, path, cs) == Err(f)
    ensures k < |cs| && SegmentText(b, cfg, path, cs[k]) == Err(f)
    ensures forall j :: 0 <= j < k ==> SegmentText(b, cfg, path, cs[j]).Ok?
  {
    var n := |cs| - 1;
    var init := cs[..n];
    match Segments(b, cfg, path, init)
    case Err(g) =>
      k := FirstFailure(b, cfg, path, init, f);
      assert cs[k] == init[k];
      forall j | 0 <= j < k ensures SegmentText(b, cfg, path, cs[j]).Ok? {
        assert cs[j] == init[j];
      }
    case Ok(us) =>
      k := n;
      SegmentsOk(b, cfg, path, init, us);
      forall j | 0 <= j < n ensures SegmentText(b, cfg, path, cs[j]).Ok? {
        assert cs[j] == init[j];
      }
  }

  /** A chunk that fails after only successes makes the whole fold fail with its fault. */
  lemma {:induction false} FailureStops(b: Backends, cfg: PipelineConfig, path: string, cs: seq<Chunk>, f: Fault, k: nat)
    requires k < |cs| && SegmentText(b, cfg, path, cs[k]) == Err(f)
    requires forall j :: 0 <= j < k ==> SegmentText(b, cfg, path, cs[j]).Ok?
    ensures Segments(b, cfg, path, cs) == Err(f)
  {
    var n := |cs| - 1;
    var init := cs[..n];
    if k < n {
      assert init[k] == cs[k];
      forall j | 0 <= j < k ensures SegmentText(b, cfg, path, init[j]).Ok? {
        assert init[j] == cs[j];
      }
      FailureStops(b, cfg, path, init, f, k);
    } else {
      var us := seq(n, j requires 0 <= j < n => SegmentText(b, cfg, path, init[j]).value);
      forall j | 0 <= j < n ensures SegmentText(b, cfg, path, init[j]) == Ok(us[j]) {
        assert init[j] == cs[j];
      }
      SegmentsOk(b, cfg, path, init, us);
    }
  }

  /**
   * With refinement on, every segment is the rewrite backend's answer to the
   * raw transcription of its own chunk, requested once with the system prompt.
   */
  lemma RefinedSegments(b: Backends, cfg: PipelineConfig, path: string, cs: seq<Chunk>, ts: seq<string>)
    requires cfg.refine
    requires Segments(b, cfg, path, cs) == Ok(ts)
    ensures |ts| == |cs|
    ensures forall k :: 0 <= k < |cs| ==>
      Transcribe(b, path, cs[k]).Ok? && b.complete(Transcribe(b, path, cs[k]).value, cfg.prompt) == Ok(ts[k])
  {
    SegmentsOk(b, cfg, path, cs, ts);
  }

  /**
   * With refinement off, the segments are the raw transcriptions alone:
   * whatever the rewrite backend would answer does not matter.
   */
  lemma {:induction false} UnrefinedSegments(b: Backends, cfg: PipelineConfig, path: string, cs: seq<Chunk>,
                                             other: (string, string) -> Result<string, Fault>)
    requires !cfg.refine
    ensures Segments(b, cfg, path, cs) == Segments(b.(complete := other), cfg, path, cs)
    ensures forall k :: 0 <= k < |cs| ==> SegmentText(b, cfg, path, cs[k]) == Transcribe(b, path, cs[k])
  {
    if cs != [] {
      UnrefinedSegments(b, cfg, path, cs[..|cs| - 1], other);
    }
  }

  /** Assembling two runs of segments one after the other concatenates their texts. */
  lemma {:induction false} TranscriptAppend(xs: seq<string>, ys: seq<string>)
    ensures Transcript(xs + ys) == Transcript(xs) + Transcript(ys)
  {
    if ys != [] {
      var init := ys[..|ys| - 1];
      assert (xs + ys)[..|xs + ys| - 1] == xs + init;
      TranscriptAppend(xs, init);
    } else {
      assert xs + ys == xs;
    }
  }

  /**
   * When no segment contains a line break, the transcript's lines are the
   * segments again: one line per chunk, in chunk order.
   */
  lemma {:induction false} LinesOfTranscript(ts: seq<string>)
    requires forall k :: 0 <= k < |ts| ==> '\n' !in ts[k]
    ensures Lines(Transcript(ts)) == ts
  {
    if ts != [] {
      var t, rest := ts[0], ts[1..];
      assert ts == [t] + rest;
      TranscriptAppend([t], rest);
      assert Transcript([t]) == t + "\n" by {
        assert [t][..0] == [];
      }
      var s := Transcript(ts);
      assert s == t + "\n" + Transcript(rest);
      assert s[|t|] == '\n';
      forall i | 0 <= i < |t| ensures s[i] != '\n' {
        assert s[i] == t[i];
      }
      assert Find(s, '\n') == |t|;
      assert s[..|t|] == t;
      assert s[|t| + 1..] == Transcript(rest);
      LinesOfTranscript(rest);
    }
  }

  /**
   * A successful file transcript consists of exactly ceil(D / L) segments, the
   * k-th being the text of chunk k.
   */
  lemma FileTranscriptShape(b: Backends, cfg: PipelineConfig, path: string, duration: nat, s: string)
    requires cfg.chunkLength > 0
    requires b.decode(path) == Ok(duration)
    requires TranscribeFile(b, cfg, path) == Ok(s)
    ensures exists ts :: (|ts| == ChunkCount(duration, cfg.chunkLength) && s == Transcript(ts) &&
                          forall k :: 0 <= k < |ts| ==>
                            SegmentText(b, cfg, path, ChunkAt(duration, cfg.chunkLength, k)) == Ok(ts[k]))
  {
    var cs := Segment(duration, cfg.chunkLength);
    var ts := Segments(b, cfg, path, cs).value;
    SegmentsOk(b, cfg, path, cs, ts);
    assert forall k :: 0 <= k < |ts| ==> cs[k] == ChunkAt(duration, cfg.chunkLength, k);
  }

  /** A file of zero length transcribes to the empty text without calling any service. */
  lemma SilentFile(b: Backends, cfg: PipelineConfig, path: string)
    requires cfg.chunkLength > 0
    requires b.decode(path) == Ok(0)
    ensures TranscribeFile(b, cfg, path) == Ok("")
  {
    Contiguous(0, cfg.chunkLength);
  }

  /**
   * A file no longer than one chunk, refinement off: one speech-to-text call,
   * and the transcript is its text plus one line break.
   */
  lemma SingleChunkFile(b: Backends, cfg: PipelineConfig, path: string, duration: nat, text: string)
    requires cfg.chunkLength > 0 && !cfg.refine
    requires 0 < duration <= cfg.chunkLength
    requires b.decode(path) == Ok(duration)
    requires Transcribe(b, path, Chunk(0, duration)) == Ok(text)
    ensures TranscribeFile(b, cfg, path) == Ok(text + "\n")
  {
    CeilingUnique(duration, cfg.chunkLength, 1);
    var cs := Segment(duration, cfg.chunkLength);
    assert cs == [Chunk(0, duration)];
    assert SegmentText(b, cfg, path, cs[0]) == Ok(text);
    SegmentsOk(b, cfg, path, cs, [text]);
    assert Segments(b, cfg, path, cs) == Ok([text]);
    assert [text][..0] == [];
    assert Transcript([text]) == text + "\n";
  }

  lemma TranscriptOfPair(t1: string, t2: string)
    ensures Transcript([t1, t2]) == t1 + "\n" + t2 + "\n"
  {
    assert [t1, t2][..1] == [t1] && [t1][..0] == [];
    assert Transcript([t1]) == t1 + "\n";
  }

  /**
   * A file longer than one chunk and at most two, refinement on: two
   * speech-to-text calls, two rewrites, and the transcript is the two
   * rewritten texts, each followed by a line break.
   */
  lemma TwoChunkRefinedFile(b: Backends, cfg: PipelineConfig, path: string, duration: nat,
                            raw1: string, raw2: string, text1: string, text2: string)
    requires cfg.chunkLength > 0 && cfg.refine
    requires cfg.chunkLength < duration <= 2 * cfg.chunkLength
    requires b.decode(path) == Ok(duration)
    requires Transcribe(b, path, Chunk(0, cfg.chunkLength)) == Ok(raw1)
    requires Transcribe(b, path, Chunk(cfg.chunkLength, duration)) == Ok(raw2)
    requires b.complete(raw1, cfg.prompt) == Ok(text1)
    requires b.complete(raw2, cfg.prompt) == Ok(text2)
    ensures TranscribeFile(b, cfg, path) == Ok(text1 + "\n" + text2 + "\n")
  {
    TwoChunks(duration, cfg.chunkLength);
    var cs := Segment(duration, cfg.chunkLength);
    assert SegmentText(b, cfg, path, cs[0]) == Ok(text1);
    assert SegmentText(b, cfg, path, cs[1]) == Ok(text2);
    SegmentsOk(b, cfg, path, cs, [text1, text2]);
    TranscriptOfPair(text1, text2);
  }
}
