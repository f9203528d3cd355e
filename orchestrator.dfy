/**
 * The per-directory driver (`process_all_files`) and the path logic of
 * `convert_m4a_to_mp3`. The file system is a set of existing paths plus the
 * log of transcript files written; the directory listing is a sequence of
 * names. The transcoder's success on a given input is a parameter.
 */
module Orchestrator {
  import opened Wrappers
  import opened Paths
  import opened Transcriber

  datatype Write = Write(path: string, content: string)

  datatype World = World(existing: set<string>, writes: seq<Write>)

  /** Run settings the script reads at start-up, plus the transcoder oracle. */
  datatype Env = Env(
    sourceDir: string,             // `input_source_path`
    outputDir: string,             // `output_transcript_path`
    transcriptionEnabled: bool,    // `transcription_enabled`
    backends: Backends,
    transcode: string -> bool)     // whether loading and exporting this .m4a succeeds

  /** The world after some files, and the fault that stopped the run, if any. */
  datatype Step = Step(world: World, fault: Option<Fault>)

  datatype Converted = Converted(world: World, mp3: Option<string>)

  /** How a directory entry is handled. */
  datatype Kind = NotAudio | M4a | Mp3 | Unsupported

  /** The case-sensitive suffix filter. */
  predicate Eligible(name: string)
  {
    EndsWith(name, ".m4a") || EndsWith(name, ".mp3")
  }

  /** The filter, then the branch on the lower-cased `splitext` extension. */
  function Classify(name: string): Kind
  {
    if !Eligible(name) then NotAudio
    else
      var ext := Lower(Ext(name));
      if ext == ".m4a" then M4a else if ext == ".mp3" then Mp3 else Unsupported
  }

  lemma LowerFixes()
    ensures Lower(".m4a") == ".m4a" && Lower(".mp3") == ".mp3" && Lower("") == ""
  {
    assert Lower(".m4a") == ".m4a" by {
      var s := ".m4a";
      assert Lower(s)[0] == LowerChar(s[0]) && Lower(s)[1] == LowerChar(s[1]);
      assert Lower(s)[2] == LowerChar(s[2]) && Lower(s)[3] == LowerChar(s[3]);
    }
    assert Lower(".mp3") == ".mp3" by {
      var s := ".mp3";
      assert Lower(s)[0] == LowerChar(s[0]) && Lower(s)[1] == LowerChar(s[1]);
      assert Lower(s)[2] == LowerChar(s[2]) && Lower(s)[3] == LowerChar(s[3]);
    }
  }

  /**
   * Which branch an entry takes, in terms of its name alone: a ".m4a" or
   * ".mp3" ending selects conversion or direct use, unless all the final
   * component before that ending is dots (".mp3", "..m4a"), in which case the
   * extension is empty and the entry is skipped; any other name, including
   * upper-case endings, is not audio.
   */
  lemma {:induction false} ClassifyByName(name: string)
    ensures Classify(name) == NotAudio <==> !Eligible(name)
    ensures Classify(name) == M4a <==> EndsWith(name, ".m4a") && !AllOf(BaseName(name[..|name| - 4]), '.')
    ensures Classify(name) == Mp3 <==> EndsWith(name, ".mp3") && !AllOf(BaseName(name[..|name| - 4]), '.')
    ensures Classify(name) == Unsupported <==> Eligible(name) && AllOf(BaseName(name[..|name| - 4]), '.')
  {
    LowerFixes();
    if EndsWith(name, ".m4a") {
      ExtOfSuffixed(name, ".m4a");
      assert !EndsWith(name, ".mp3");
    } else if EndsWith(name, ".mp3") {
      ExtOfSuffixed(name, ".mp3");
    }
  }

  /** Upper-case endings never pass the filter, although the extension is lower-cased later. */
  lemma UpperCaseSkipped(stem: string)
    ensures Classify(stem + ".MP3") == NotAudio && Classify(stem + ".M4A") == NotAudio
  {
    assert (stem + ".MP3")[|stem|..] == ".MP3";
    assert (stem + ".M4A")[|stem|..] == ".M4A";
  }

  /** The .mp3 path beside a .m4a path: same directory, same stem. */
  function Mp3Sibling(p: string): string
  {
    JoinPath(DirName(p), Stem(BaseName(p)) + ".mp3")
  }

  /** Where the transcript of directory entry `name` goes. */
  function TranscriptPath(outputDir: string, name: string): string
  {
    JoinPath(outputDir, Stem(name) + ".txt")
  }

  lemma BaseNameOfJoin(a: string, b: string)
    requires '/' !in b && b != []
    ensures BaseName(JoinPath(a, b)) == b
  {
    var r := JoinPath(a, b);
    var m := |r| - |b| - 1;
    assert r[|r| - |b|..] == b;
    if a != [] && a[|a| - 1] != '/' {
      assert r[m] == '/';
    } else if a != [] {
      assert r[m] == a[|a| - 1];
    }
    forall i | m < i < |r| ensures r[i] != '/' {
      assert r[i] == b[i - |r| + |b|];
    }
    if m >= 0 {
      RFindUnique(r, '/', m);
    } else {
      RFindUnique(r, '/', -1);
    }
  }

  /** A prefix of a slash-free string is slash-free. */
  lemma PrefixSlashFree(s: string, t: string)
    requires '/' !in s && |t| <= |s| && t == s[..|t|]
    ensures '/' !in t
  {
    forall i | 0 <= i < |t| ensures t[i] != '/' {
      assert t[i] == s[i];
    }
  }

  /** The converted file is named `<stem>.mp3`, after the input's stem, and sits in the input's directory. */
  lemma Mp3Name(p: string)
    ensures BaseName(Mp3Sibling(p)) == Stem(BaseName(p)) + ".mp3"
    ensures DirName(Mp3Sibling(p)) == DirName(p)
  {
    var base := BaseName(p);
    var s := Stem(base);
    assert base == s + Ext(base);
    PrefixSlashFree(base, s);
    assert '/' !in s + ".mp3";
    BaseNameOfJoin(DirName(p), s + ".mp3");
    DirNameOfJoin(p, s + ".mp3");
  }

  /** The transcript of a directory entry is named `<stem>.txt`. */
  lemma TranscriptName(outputDir: string, name: string)
    requires '/' !in name
    ensures BaseName(TranscriptPath(outputDir, name)) == Stem(name) + ".txt"
  {
    var t := Stem(name);
    assert name == t + Ext(name);
    PrefixSlashFree(name, t);
    BaseNameOfJoin(outputDir, t + ".txt");
  }

  /**
   * `convert_m4a_to_mp3(p)`: when the sibling .mp3 exists it is returned
   * without transcoding; otherwise a successful transcode creates it and a
   * failed one yields None.
   */
  function Convert(env: Env, w: World, p: string): (r: Converted)
    ensures r.world.writes == w.writes
    ensures r.mp3.Some? ==> r.mp3.value == Mp3Sibling(p) && r.world.existing == w.existing + {Mp3Sibling(p)}
    ensures r.mp3.None? <==> Mp3Sibling(p) !in w.existing && !env.transcode(p)
    ensures r.mp3.None? || Mp3Sibling(p) in w.existing ==> r.world == w
  {
    var mp3 := Mp3Sibling(p);
    if mp3 in w.existing then Converted(w, Some(mp3))
    else if env.transcode(p) then Converted(w.(existing := w.existing + {mp3}), Some(mp3))
    else Converted(w, None)
  }

  /**
   * Converting again after a successful conversion returns the same path,
   * changes nothing and does not depend on the transcoder at all.
   */
  lemma ConvertIdempotent(env: Env, w: World, p: string, transcoder: string -> bool)
    requires Convert(env, w, p).mp3.Some?
    ensures Convert(env.(transcode := transcoder), Convert(env, w, p).world, p) == Convert(env, w, p)
  {
  }

  /** The path `process_audio` is given for an audio entry. */
  function AudioPath(env: Env, name: string): string
  {
    if Classify(name) == M4a then Mp3Sibling(JoinPath(env.sourceDir, name)) else JoinPath(env.sourceDir, name)
  }

  /** The guarded transcription and write of one entry, `mp3` being the path to transcribe, if any. */
  function Deliver(env: Env, cfg: PipelineConfig, w: World, name: string, mp3: Option<string>): Step
    requires cfg.chunkLength > 0
  {
    if env.transcriptionEnabled && mp3.Some? && mp3.value != "" then
      match TranscribeFile(env.backends, cfg, mp3.value)
      case Err(f) => Step(w, Some(f))
      case Ok(text) =>
        var out := TranscriptPath(env.outputDir, name);
        Step(World(w.existing + {out}, w.writes + [Write(out, text)]), None)
    else Step(w, None)
  }

  /** One iteration of the directory loop. */
  function FileStep(env: Env, cfg: PipelineConfig, w: World, name: string): Step
    requires cfg.chunkLength > 0
  {
    var path := JoinPath(env.sourceDir, name);
    match Classify(name)
    case NotAudio => Step(w, None)
    case Unsupported => Step(w, None)
    case Mp3 => Deliver(env, cfg, w, name, Some(path))
    case M4a =>
      var c := Convert(env, w, path);
      Deliver(env, cfg, c.world, name, c.mp3)
  }

  /** The whole loop over the listing; a fault ends the run where it happens. */
  function Run(env: Env, cfg: PipelineConfig, w: World, names: seq<string>): Step
    requires cfg.chunkLength > 0
    decreases |names|
  {
    if names == [] then Step(w, None)
    else
      var s := FileStep(env, cfg, w, names[0]);
      if s.fault.Some? then s else Run(env, cfg, s.world, names[1..])
  }

  /**
   * `process_all_files`: for each listed name, filter on the suffix, branch on
   * the extension (converting .m4a), then transcribe and record the transcript
   * when transcription is enabled and an .mp3 path is at hand.
   */
  method ProcessAllFiles(env: Env, cfg: PipelineConfig, w0: World, names: seq<string>) returns (s: Step)
    requires cfg.chunkLength > 0
    ensures s == Run(env, cfg, w0, names)
  {
    var w := w0;
    for i := 0 to |names|
      invariant Run(env, cfg, w0, names) == Run(env, cfg, w, names[i..])
    {
      var fileName := names[i];
      ghost var step := FileStep(env, cfg, w, fileName);
      RunAt(env, cfg, w, names, i);
      var filePath := JoinPath(env.sourceDir, fileName);
      if EndsWith(fileName, ".m4a") || EndsWith(fileName, ".mp3") {
        var fileExtension := Lower(Ext(fileName));
        var mp3File: Option<string>;
        if fileExtension == ".m4a" {
          var c := Convert(env, w, filePath);
          w, mp3File := c.world, c.mp3;
        } else if fileExtension == ".mp3" {
          mp3File := Some(filePath);
        } else {
          assert step == Step(w, None);
          continue;
        }
        assert step == Deliver(env, cfg, w, fileName, mp3File);
        if env.transcriptionEnabled && mp3File.Some? && mp3File.value != "" {
          var fullTranscript := ProcessAudio(env.backends, cfg, mp3File.value);
          if fullTranscript.Err? {
            assert step == Step(w, Some(fullTranscript.error));
            return Step(w, Some(fullTranscript.error));
          }
          var transcriptFilePath := TranscriptPath(env.outputDir, fileName);
          w := World(w.existing + {transcriptFilePath}, w.writes + [Write(transcriptFilePath, fullTranscript.value)]);
        }
        assert step == Step(w, None);
      } else {
        assert step == Step(w, None);
      }
    }
    s := Step(w, None);
  }

  /** The run from entry i on is that entry's step, then the rest unless it faulted. */
  lemma RunAt(env: Env, cfg: PipelineConfig, w: World, names: seq<string>, i: nat)
    requires cfg.chunkLength > 0
    requires i < |names|
    ensures var s := FileStep(env, cfg, w, names[i]);
      Run(env, cfg, w, names[i..]) == if s.fault.Some? then s else Run(env, cfg, s.world, names[i + 1..])
  {
    assert names[i..][0] == names[i] && names[i..][1..] == names[i + 1..];
  }

  /** With transcription disabled no transcript is written and nothing can fail. */
  lemma {:induction false} DisabledWritesNothing(env: Env, cfg: PipelineConfig, w: World, names: seq<string>)
    requires cfg.chunkLength > 0
    requires !env.transcriptionEnabled
    ensures Run(env, cfg, w, names).world.writes == w.writes
    ensures Run(env, cfg, w, names).fault.None?
    decreases |names|
  {
    if names != [] {
      DisabledWritesNothing(env, cfg, FileStep(env, cfg, w, names[0]).world, names[1..]);
    }
  }

  /** Entries that are not audio, or whose extension is empty, leave no trace. */
  lemma SkippedEntry(env: Env, cfg: PipelineConfig, w: World, name: string, rest: seq<string>)
    requires cfg.chunkLength > 0
    requires Classify(name) == NotAudio || Classify(name) == Unsupported
    ensures Run(env, cfg, w, [name] + rest) == Run(env, cfg, w, rest)
  {
    assert ([name] + rest)[1..] == rest;
  }

  /** A failed conversion skips that file and the run goes on with the next. */
  lemma FailedConversion(env: Env, cfg: PipelineConfig, w: World, name: string, rest: seq<string>)
    requires cfg.chunkLength > 0
    requires Classify(name) == M4a
    requires Mp3Sibling(JoinPath(env.sourceDir, name)) !in w.existing
    requires !env.transcode(JoinPath(env.sourceDir, name))
    ensures Run(env, cfg, w, [name] + rest) == Run(env, cfg, w, rest)
  {
    assert ([name] + rest)[1..] == rest;
  }

  /** The guarded write adds at most one entry, the transcript of `mp3`, at the entry's transcript path. */
  lemma DeliverWrites(env: Env, cfg: PipelineConfig, w: World, name: string, mp3: Option<string>)
    requires cfg.chunkLength > 0
    ensures var s := Deliver(env, cfg, w, name, mp3);
      && w.existing <= s.world.existing
      && (s.world.writes == w.writes || (|s.world.writes| == |w.writes| + 1 && s.world.writes[..|w.writes|] == w.writes))
      && (|s.world.writes| > |w.writes| ==>
            && env.transcriptionEnabled && mp3.Some?
            && s.world.writes[|w.writes|].path == TranscriptPath(env.outputDir, name)
            && TranscribeFile(env.backends, cfg, mp3.value) == Ok(s.world.writes[|w.writes|].content))
  {
  }

  /** Each transcript written by one step is for that entry, at its transcript path, with its transcript. */
  lemma StepWrites(env: Env, cfg: PipelineConfig, w: World, name: string)
    requires cfg.chunkLength > 0
    ensures var s := FileStep(env, cfg, w, name);
      && w.existing <= s.world.existing
      && (s.world.writes == w.writes || (|s.world.writes| == |w.writes| + 1 && s.world.writes[..|w.writes|] == w.writes))
      && (|s.world.writes| > |w.writes| ==>
            && env.transcriptionEnabled
            && (Classify(name) == M4a || Classify(name) == Mp3)
            && s.world.writes[|w.writes|].path == TranscriptPath(env.outputDir, name)
            && TranscribeFile(env.backends, cfg, AudioPath(env, name)) == Ok(s.world.writes[|w.writes|].content))
  {
    var path := JoinPath(env.sourceDir, name);
    match Classify(name)
    case NotAudio =>
    case Unsupported =>
    case Mp3 =>
      DeliverWrites(env, cfg, w, name, Some(path));
    case M4a =>
      var c := Convert(env, w, path);
      DeliverWrites(env, cfg, c.world, name, c.mp3);
  }

  /**
   * The write is the transcript of a listed audio entry: it sits at that
   * entry's transcript path and holds the text the entry's audio transcribes
   * to, and transcription was enabled.
   */
  ghost predicate TranscriptOf(env: Env, cfg: PipelineConfig, names: seq<string>, wr: Write)
    requires cfg.chunkLength > 0
  {
    env.transcriptionEnabled && exists name :: name in names && TranscriptFor(env, cfg, name, wr)
  }

  /** `wr` is the transcript of the audio entry `name`. */
  ghost predicate TranscriptFor(env: Env, cfg: PipelineConfig, name: string, wr: Write)
    requires cfg.chunkLength > 0
  {
    && (Classify(name) == M4a || Classify(name) == Mp3)
    && wr.path == TranscriptPath(env.outputDir, name)
    && TranscribeFile(env.backends, cfg, AudioPath(env, name)) == Ok(wr.content)
  }

  lemma TranscriptOfListed(env: Env, cfg: PipelineConfig, names: seq<string>, i: nat, wr: Write)
    requires cfg.chunkLength > 0
    requires i < |names|
    requires env.transcriptionEnabled
    requires Classify(names[i]) == M4a || Classify(names[i]) == Mp3
    requires wr.path == TranscriptPath(env.outputDir, names[i])
    requires TranscribeFile(env.backends, cfg, AudioPath(env, names[i])) == Ok(wr.content)
    ensures TranscriptOf(env, cfg, names, wr)
  {
    assert names[i] in names;
  }

  lemma TranscriptOfSuffix(env: Env, cfg: PipelineConfig, names: seq<string>, wr: Write)
    requires cfg.chunkLength > 0
    requires names != []
    requires TranscriptOf(env, cfg, names[1..], wr)
    ensures TranscriptOf(env, cfg, names, wr)
  {
    var name :| name in names[1..] && TranscriptFor(env, cfg, name, wr);
    assert name in names;
  }

  /** Chains what the first step of a run and the rest of the run each write. */
  lemma ExtendWrites(env: Env, cfg: PipelineConfig, names: seq<string>, w: World, mid: World, r: World)
    requires cfg.chunkLength > 0
    requires names != []
    requires w.existing <= mid.existing <= r.existing
    requires mid.writes == w.writes || (|mid.writes| == |w.writes| + 1 && mid.writes[..|w.writes|] == w.writes &&
                                        TranscriptOf(env, cfg, names, mid.writes[|w.writes|]))
    requires |mid.writes| <= |r.writes| && r.writes[..|mid.writes|] == mid.writes
    requires forall k :: |mid.writes| <= k < |r.writes| ==> TranscriptOf(env, cfg, names[1..], r.writes[k])
    ensures |w.writes| <= |r.writes| && r.writes[..|w.writes|] == w.writes
    ensures forall k :: |w.writes| <= k < |r.writes| ==> TranscriptOf(env, cfg, names, r.writes[k])
  {
    assert r.writes[..|mid.writes|][..|w.writes|] == r.writes[..|w.writes|];
    forall k | |w.writes| <= k < |r.writes| ensures TranscriptOf(env, cfg, names, r.writes[k]) {
      if k < |mid.writes| {
        assert |mid.writes| == |w.writes| + 1;
        assert k == |w.writes|;
        assert r.writes[..|mid.writes|][k] == r.writes[k];
      } else {
        TranscriptOfSuffix(env, cfg, names, r.writes[k]);
      }
    }
  }

  /**
   * Over a whole run the log only grows, and every transcript added belongs to
   * a listed audio entry: it sits at that entry's transcript path and holds
   * the text its audio transcribes to, so transcription was enabled.
   */
  lemma {:induction false} RunWrites(env: Env, cfg: PipelineConfig, w: World, names: seq<string>)
    requires cfg.chunkLength > 0
    ensures var r := Run(env, cfg, w, names).world;
      && w.existing <= r.existing
      && |w.writes| <= |r.writes| && r.writes[..|w.writes|] == w.writes
      && forall k :: |w.writes| <= k < |r.writes| ==> TranscriptOf(env, cfg, names, r.writes[k])
    decreases |names|
  {
    if names != [] {
      var s := FileStep(env, cfg, w, names[0]);
      StepLogged(env, cfg, w, names);
      if s.fault.None? {
        var r := Run(env, cfg, s.world, names[1..]);
        RunWrites(env, cfg, s.world, names[1..]);
        ExtendWrites(env, cfg, names, w, s.world, r.world);
      } else {
        ExtendWrites(env, cfg, names, w, s.world, s.world);
      }
    }
  }

  /** The first step of a run leaves the log as it was or adds one transcript of a listed entry. */
  lemma StepLogged(env: Env, cfg: PipelineConfig, w: World, names: seq<string>)
    requires cfg.chunkLength > 0
    requires names != []
    ensures var s := FileStep(env, cfg, w, names[0]);
      && w.existing <= s.world.existing
      && (s.world.writes == w.writes || (|s.world.writes| == |w.writes| + 1 && s.world.writes[..|w.writes|] == w.writes &&
                                         TranscriptOf(env, cfg, names, s.world.writes[|w.writes|])))
  {
    var s := FileStep(env, cfg, w, names[0]);
    StepWrites(env, cfg, w, names[0]);
    if s.world.writes != w.writes {
      TranscriptOfListed(env, cfg, names, 0, s.world.writes[|w.writes|]);
    }
  }

  /** A run whose first entry does not fault goes on from the world that entry leaves. */
  lemma RunCons(env: Env, cfg: PipelineConfig, w: World, name: string, rest: seq<string>, next: World)
    requires cfg.chunkLength > 0
    requires FileStep(env, cfg, w, name) == Step(next, None)
    ensures Run(env, cfg, w, [name] + rest) == Run(env, cfg, next, rest)
  {
    assert ([name] + rest)[1..] == rest;
  }

  /** An .mp3 entry that transcribes to `text` gets exactly that transcript at its transcript path. */
  lemma TranscribedMp3(env: Env, cfg: PipelineConfig, w: World, name: string, text: string)
    requires cfg.chunkLength > 0 && env.transcriptionEnabled
    requires Classify(name) == Mp3
    requires TranscribeFile(env.backends, cfg, JoinPath(env.sourceDir, name)) == Ok(text)
    ensures FileStep(env, cfg, w, name) ==
      Step(World(w.existing + {TranscriptPath(env.outputDir, name)},
                 w.writes + [Write(TranscriptPath(env.outputDir, name), text)]), None)
  {
    assert JoinPath(env.sourceDir, name) != [];
  }

  /**
   * An .m4a entry whose conversion yields the sibling .mp3 and whose audio
   * transcribes to `text` gets exactly that transcript at its transcript path.
   */
  lemma ConvertedM4a(env: Env, cfg: PipelineConfig, w: World, name: string, text: string)
    requires cfg.chunkLength > 0 && env.transcriptionEnabled
    requires Classify(name) == M4a
    requires Convert(env, w, JoinPath(env.sourceDir, name)).mp3.Some?
    requires TranscribeFile(env.backends, cfg, Mp3Sibling(JoinPath(env.sourceDir, name))) == Ok(text)
    ensures var c := Convert(env, w, JoinPath(env.sourceDir, name));
      var out := TranscriptPath(env.outputDir, name);
      FileStep(env, cfg, w, name) == Step(World(c.world.existing + {out}, w.writes + [Write(out, text)]), None)
  {
    var p := JoinPath(env.sourceDir, name);
    JoinedEndsWith(DirName(p), Stem(BaseName(p)), ".mp3");
    assert Mp3Sibling(p) != [];
  }

  /**
   * A transcript path is never an .mp3 path, so writing transcripts never makes
   * a later conversion believe its .mp3 already exists.
   */
  lemma TranscriptIsNoMp3(outputDir: string, name: string, p: string)
    ensures EndsWith(TranscriptPath(outputDir, name), ".txt") && EndsWith(Mp3Sibling(p), ".mp3")
    ensures TranscriptPath(outputDir, name) != Mp3Sibling(p)
  {
    JoinedEndsWith(outputDir, Stem(name), ".txt");
    JoinedEndsWith(DirName(p), Stem(BaseName(p)), ".mp3");
    DistinctEndings(TranscriptPath(outputDir, name), Mp3Sibling(p));
  }

  lemma JoinedEndsWith(a: string, x: string, suffix: string)
    ensures EndsWith(JoinPath(a, x + suffix), suffix)
  {
    var r, b := JoinPath(a, x + suffix), x + suffix;
    assert r[|r| - |b|..] == b;
    assert r[|r| - |suffix|..] == b[|b| - |suffix|..] == suffix;
  }

  lemma DistinctEndings(t: string, m: string)
    requires EndsWith(t, ".txt") && EndsWith(m, ".mp3")
    ensures t != m
  {
    assert t[|t| - 4..][3] == 't' && m[|m| - 4..][3] == '3';
  }
}
