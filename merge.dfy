/**
 * The adaptive download of `_download_adaptive` as a specification: the
 * oracles standing for the library, ffmpeg and uuid, the state the `try`
 * block leaves behind on each exit path, and what the `finally` cleanup
 * makes of it.
 */
module Merge {
  import opened Wrappers
  import opened Catalog
  import opened Files
  import opened Progress

  /** How a byte transfer ends; an interrupted download to a file may leave a partial file. */
  datatype TransferOutcome = Complete(data: seq<byte>) | Interrupted(error: string, partial: Option<seq<byte>>)

  /**
   * What the library does when it fetches a stream: the `bytes_remaining`
   * of each progress callback, in order, then the outcome.
   */
  datatype Transfer = Transfer(remaining: seq<int>, outcome: TransferOutcome)

  /** `subprocess.run(["ffmpeg", ...])`: an exit code and the output file it wrote, or a launch error. */
  datatype MergeOutcome = Exited(code: int, output: Option<seq<byte>>) | LaunchFailed(error: string)

  /**
   * The oracles: what the library delivers for each stream, whether
   * `shutil.which("ffmpeg")` finds the tool, `tempfile.gettempdir()`, the
   * three uuid4 tokens, and how the ffmpeg run goes.
   */
  datatype Environment = Environment(
    fetch: StreamDescriptor -> Transfer,
    ffmpegOnPath: bool,
    tempDir: string,
    tokens: Tokens,
    ffmpeg: MergeOutcome)

  /** What a download call gives its caller: a buffer, None, or an exception. */
  datatype DownloadResult = Buffer(data: seq<byte>) | NoBuffer | Raised(error: string)

  /**
   * The state in which the `try` block is left: the files, the values of
   * `video_path`, `audio_path`, `output_path`, and the call's result.
   */
  datatype Run = Run(files: map<string, seq<byte>>, pathVars: seq<Option<string>>, result: DownloadResult)

  function PathsOf(env: Environment): TempPaths
  {
    TempPathsFor(env.tempDir, env.tokens)
  }

  function WritePartial(files: map<string, seq<byte>>, path: string, partial: Option<seq<byte>>): map<string, seq<byte>>
  {
    if partial.Some? then files[path := partial.value] else files
  }

  /**
   * The `try` block: fetch the video track, then the audio track, then run
   * ffmpeg and read its output. A failed download raises before its path
   * variable is assigned.
   */
  function Pipeline(files: map<string, seq<byte>>, env: Environment, video: StreamDescriptor, audio: StreamDescriptor): Run
  {
    var p := PathsOf(env);
    match env.fetch(video).outcome
    case Interrupted(e, partial) =>
      Run(WritePartial(files, p.video, partial), [None, None, None], Raised(e))
    case Complete(videoBytes) =>
      AudioStage(files[p.video := videoBytes], env, audio)
  }

  /** The `try` block from the audio download on, once the video file is written. */
  function AudioStage(afterVideo: map<string, seq<byte>>, env: Environment, audio: StreamDescriptor): Run
  {
    var p := PathsOf(env);
    match env.fetch(audio).outcome
    case Interrupted(e, partial) =>
      Run(WritePartial(afterVideo, p.audio, partial), [Some(p.video), None, None], Raised(e))
    case Complete(audioBytes) =>
      var afterAudio := afterVideo[p.audio := audioBytes];
      var pathVars := [Some(p.video), Some(p.audio), Some(p.output)];
      match env.ffmpeg
      case LaunchFailed(e) => Run(afterAudio, pathVars, Raised(e))
      case Exited(code, output) =>
        var merged := WritePartial(afterAudio, p.output, output);
        if code != 0 then Run(merged, pathVars, NoBuffer)
        else if p.output in merged then Run(merged, pathVars, Buffer(merged[p.output]))
        else Run(merged, pathVars, Raised("FileNotFoundError"))
  }

  /** The files once the `finally` block has run. */
  function AfterCleanup(run: Run, undeletable: set<string>): map<string, seq<byte>>
  {
    run.files - (Assigned(run.pathVars) - undeletable)
  }

  /** The percentages the observer computes during the adaptive download: video, then audio. */
  function PipelinePercents(env: Environment, video: StreamDescriptor, audio: StreamDescriptor): seq<int>
  {
    Percents(video, env.fetch(video).remaining) +
    (if env.fetch(video).outcome.Complete? then Percents(audio, env.fetch(audio).remaining) else [])
  }

  /**
   * Whatever exit the `try` block takes, every path assigned by then, the output path aside, names
   * an existing file, and the cleanup removes each one whose removal does
   * not fail; no file other than the three temporary paths is touched.
   */
  lemma CleanupRemovesAssigned(files: map<string, seq<byte>>, env: Environment, video: StreamDescriptor,
                               audio: StreamDescriptor, undeletable: set<string>)
    ensures var run := Pipeline(files, env, video, audio);
      Assigned(run.pathVars) - {PathsOf(env).output} <= run.files.Keys
    ensures var run := Pipeline(files, env, video, audio);
      forall p :: p in Assigned(run.pathVars) && p !in undeletable ==> p !in AfterCleanup(run, undeletable)
    ensures var run := Pipeline(files, env, video, audio);
      var t := PathsOf(env);
      forall p :: p != t.video && p != t.audio && p != t.output ==>
        (p in AfterCleanup(run, undeletable) <==> p in files) &&
        (p in files ==> AfterCleanup(run, undeletable)[p] == files[p])
  {
    var run := Pipeline(files, env, video, audio);
    var t := PathsOf(env);
    var after := AfterCleanup(run, undeletable);
    PipelineShape(files, env, video, audio);
    forall p | p != t.video && p != t.audio && p != t.output
      ensures (p in after <==> p in files) && (p in files ==> after[p] == files[p])
    {
      assert p !in Assigned(run.pathVars);
    }
  }

  /**
   * The `try` block assigns only the three temporary paths, writes no other
   * file, and every path it assigned other than the output exists.
   */
  lemma PipelineShape(files: map<string, seq<byte>>, env: Environment, video: StreamDescriptor, audio: StreamDescriptor)
    ensures var run := Pipeline(files, env, video, audio);
      var t := PathsOf(env);
      && Assigned(run.pathVars) <= {t.video, t.audio, t.output}
      && Assigned(run.pathVars) - {t.output} <= run.files.Keys
      && forall p :: p != t.video && p != t.audio && p != t.output ==>
           (p in run.files <==> p in files) && (p in files ==> run.files[p] == files[p])
  {
    var t := PathsOf(env);
    var run := Pipeline(files, env, video, audio);
    AssignedLiterals(t.video, t.audio, t.output);
    match env.fetch(video).outcome {
      case Interrupted(_, _) =>
        assert Assigned(run.pathVars) == {};
      case Complete(videoBytes) =>
        assert run == AudioStage(files[t.video := videoBytes], env, audio);
        if env.fetch(audio).outcome.Interrupted? {
          assert Assigned(run.pathVars) == {t.video};
        } else {
          assert Assigned(run.pathVars) == {t.video, t.audio, t.output};
        }
    }
    TouchesOnlyTemp(files, env, video, audio);
  }

  /** Every file the `try` block writes is one of the three temporary paths. */
  lemma TouchesOnlyTemp(files: map<string, seq<byte>>, env: Environment, video: StreamDescriptor, audio: StreamDescriptor)
    ensures var run := Pipeline(files, env, video, audio);
      var t := PathsOf(env);
      forall p :: p != t.video && p != t.audio && p != t.output ==>
        (p in run.files <==> p in files) && (p in files ==> run.files[p] == files[p])
  {
    var t := PathsOf(env);
    var run := Pipeline(files, env, video, audio);
    match env.fetch(video).outcome {
      case Interrupted(_, partial) =>
        assert run.files == WritePartial(files, t.video, partial);
      case Complete(videoBytes) =>
        var afterVideo := files[t.video := videoBytes];
        assert run == AudioStage(afterVideo, env, audio);
        match env.fetch(audio).outcome {
          case Interrupted(_, partial) =>
            assert run.files == WritePartial(afterVideo, t.audio, partial);
          case Complete(audioBytes) =>
            var afterAudio := afterVideo[t.audio := audioBytes];
            match env.ffmpeg {
              case LaunchFailed(_) =>
                assert run.files == afterAudio;
              case Exited(_, output) =>
                assert run.files == WritePartial(afterAudio, t.output, output);
            }
        }
    }
  }


  lemma AssignedLiterals(a: string, b: string, c: string)
    ensures Assigned([None, None, None]) == {}
    ensures Assigned([Some(a), None, None]) == {a}
    ensures Assigned([Some(a), Some(b), Some(c)]) == {a, b, c}
  {
    var one: seq<Option<string>> := [Some(a), None, None];
    var three := [Some(a), Some(b), Some(c)];
    assert one[0].value == a;
    assert three[0].value == a && three[1].value == b && three[2].value == c;
  }

  /**
   * A zero exit code yields a buffer holding exactly the bytes ffmpeg wrote
   * to the output file; a non-zero one yields None; no other exit yields a
   * buffer.
   */
  lemma MergeResult(files: map<string, seq<byte>>, env: Environment, video: StreamDescriptor, audio: StreamDescriptor)
    ensures var run := Pipeline(files, env, video, audio);
      run.result.Buffer? ==>
        env.fetch(video).outcome.Complete? && env.fetch(audio).outcome.Complete? &&
        env.ffmpeg.Exited? && env.ffmpeg.code == 0
    ensures var run := Pipeline(files, env, video, audio);
      env.fetch(video).outcome.Complete? && env.fetch(audio).outcome.Complete? && env.ffmpeg.Exited? ==>
        (env.ffmpeg.code != 0 ==> run.result == NoBuffer) &&
        (env.ffmpeg.code == 0 && env.ffmpeg.output.Some? ==> run.result == Buffer(env.ffmpeg.output.value))
    ensures var run := Pipeline(files, env, video, audio);
      env.fetch(video).outcome.Interrupted? ==> run.result == Raised(env.fetch(video).outcome.error)
  {
  }

  /**
   * When the temporary names are fresh, every removal succeeds and no
   * failed download leaves a partial file, the adaptive download leaves the
   * filesystem exactly as it found it.
   */
  lemma PipelineLeavesNoTrace(files: map<string, seq<byte>>, env: Environment, video: StreamDescriptor,
                              audio: StreamDescriptor, undeletable: set<string>)
    requires var t := PathsOf(env); t.video !in files && t.audio !in files && t.output !in files
    requires var t := PathsOf(env); t.video !in undeletable && t.audio !in undeletable && t.output !in undeletable
    requires env.fetch(video).outcome.Interrupted? ==> env.fetch(video).outcome.partial.None?
    requires env.fetch(audio).outcome.Interrupted? ==> env.fetch(audio).outcome.partial.None?
    ensures AfterCleanup(Pipeline(files, env, video, audio), undeletable) == files
  {
    var run := Pipeline(files, env, video, audio);
    var t := PathsOf(env);
    var after := AfterCleanup(run, undeletable);
    CleanupRemovesAssigned(files, env, video, audio, undeletable);
    PipelineShape(files, env, video, audio);
    WritesOnlyAssigned(files, env, video, audio);
    assert forall p :: p in after ==> p in files && after[p] == files[p];
    forall p | p in files ensures p in after {
      assert p != t.video && p != t.audio && p != t.output;
    }
  }

  /** Without partial files the `try` block creates no file it has not assigned a path to. */
  lemma WritesOnlyAssigned(files: map<string, seq<byte>>, env: Environment, video: StreamDescriptor, audio: StreamDescriptor)
    requires env.fetch(video).outcome.Interrupted? ==> env.fetch(video).outcome.partial.None?
    requires env.fetch(audio).outcome.Interrupted? ==> env.fetch(audio).outcome.partial.None?
    ensures var run := Pipeline(files, env, video, audio);
      forall p :: p in run.files && p !in files ==> p in Assigned(run.pathVars)
  {
    var t := PathsOf(env);
    var run := Pipeline(files, env, video, audio);
    AssignedLiterals(t.video, t.audio, t.output);
    match env.fetch(video).outcome {
      case Interrupted(_, _) =>
        assert run.files == files;
      case Complete(videoBytes) =>
        assert run == AudioStage(files[t.video := videoBytes], env, audio);
        if env.fetch(audio).outcome.Interrupted? {
          assert run.files == files[t.video := videoBytes];
          assert Assigned(run.pathVars) == {t.video};
        } else {
          assert run.files.Keys <= files.Keys + {t.video, t.audio, t.output};
          assert Assigned(run.pathVars) == {t.video, t.audio, t.output};
        }
    }
  }

  /**
   * A download that fails after writing part of its file raises before its
   * path is assigned, so the cleanup does not remove that partial file.
   */
  lemma PartialVideoSurvivesCleanup(files: map<string, seq<byte>>, env: Environment, video: StreamDescriptor,
                                    audio: StreamDescriptor, undeletable: set<string>)
    requires env.fetch(video).outcome.Interrupted? && env.fetch(video).outcome.partial.Some?
    ensures var after := AfterCleanup(Pipeline(files, env, video, audio), undeletable);
      PathsOf(env).video in after && after[PathsOf(env).video] == env.fetch(video).outcome.partial.value
  {
    var run := Pipeline(files, env, video, audio);
    assert Assigned(run.pathVars) == {};
  }
}
