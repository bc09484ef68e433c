/**
 * The `YoutubeDownloader` class of src/main.py: the progress observer, the
 * three download entry points and the two quality lists. The direct link
 * is the pure function Catalog.DirectLink over `yt`.
 */
module Downloader {
  import opened Wrappers
  import opened Catalog
  import opened Qualities
  import opened Progress
  import opened Files
  import opened Merge
  import Safe

  /**
   * A buffered download (`stream_to_buffer`) of stream `s` with transfer `t`
   * after the observer was reset to 0: the result, the final `last_percent`
   * and the values shown on the bar (when there is one).
   */
  ghost predicate BufferedFetch(s: StreamDescriptor, t: Transfer, r: DownloadResult,
                                hasBar: bool, shown0: seq<int>, shown1: seq<int>, last1: int)
  {
    var ps := Percents(s, t.remaining);
    && r == (if t.outcome.Complete? then Buffer(t.outcome.data) else Raised(t.outcome.error))
    && last1 == (if hasBar then ThrottleLast(0, ps) else 0)
    && shown1 == (if hasBar then shown0 + Throttle(0, ps) + (if t.outcome.Complete? then [100] else []) else shown0)
  }

  /**
   * `_download_adaptive(quality)` on video `v`, from files `files0` and
   * observer value `start`: the audio track chosen, the result, the files
   * afterwards, the final `last_percent` and the values shown on the bar.
   * Without a video/audio pair, or without ffmpeg, nothing is touched.
   */
  ghost predicate AdaptiveDownload(v: Video, quality: string, env: Environment, audio: Option<StreamDescriptor>,
                                   files0: map<string, seq<byte>>, files1: map<string, seq<byte>>, undeletable: set<string>,
                                   start: int, hasBar: bool, shown0: seq<int>, shown1: seq<int>, last1: int,
                                   r: DownloadResult)
  {
    var video := FirstMatch(v.streams, AdaptiveVideoQuery(quality));
    && (audio.Some? <==> HasAudioCandidate(v.streams))
    && (audio.Some? ==> IsBestAudio(v.streams, audio.value))
    && if video.None? || audio.None? || !env.ffmpegOnPath then
         r == NoBuffer && files1 == files0 && shown1 == shown0 && last1 == start
       else
         var run := Pipeline(files0, env, video.value, audio.value);
         var ps := PipelinePercents(env, video.value, audio.value);
         && r == run.result
         && files1 == AfterCleanup(run, undeletable)
         && last1 == (if hasBar then ThrottleLast(start, ps) else start)
         && shown1 == (if hasBar then shown0 + Throttle(start, ps) + (if r.Buffer? then [100] else []) else shown0)
  }

  class YoutubeDownloader {
    const url: string
    const isPlaylist: bool
    var yt: Option<Video>
    var progressBar: ProgressBar?
    var lastPercent: int

    /**
     * The constructor, with the video (or the playlist's first video) that
     * loading produced given as `loaded`.
     */
    constructor (url: string, loaded: Option<Video>)
      ensures this.url == url && isPlaylist == Safe.IsPlaylistUrl(Safe.Str(url))
      ensures yt == loaded && progressBar == null && lastPercent == 0
    {
      this.url := url;
      this.isPlaylist := Safe.IsPlaylistUrl(Safe.Str(url));
      this.yt := loaded;
      this.progressBar := null;
      this.lastPercent := 0;
    }

    /**
     * `on_progress`: nothing happens without a bar or when the stream's
     * total is 0; otherwise `last_percent` becomes the larger of itself and
     * the new percentage, which reaches the bar only when strictly larger.
     */
    method OnProgress(stream: StreamDescriptor, bytesRemaining: int)
      modifies this`lastPercent, progressBar
      ensures progressBar == null || TotalSize(stream) == 0 ==>
        lastPercent == old(lastPercent) && (progressBar != null ==> progressBar.shown == old(progressBar.shown))
      ensures progressBar != null && TotalSize(stream) > 0 ==>
        var p := Percent(TotalSize(stream), bytesRemaining);
        && lastPercent == (if p > old(lastPercent) then p else old(lastPercent))
        && progressBar.shown == old(progressBar.shown) + (if p > old(lastPercent) then [p] else [])
    {
      if progressBar == null {
        return;
      }
      var total := TotalSize(stream);
      if total == 0 {
        return;
      }
      var percent := Percent(total, bytesRemaining);
      if percent > lastPercent {
        lastPercent := percent;
        progressBar.Progress(percent);
      }
    }

    /**
     * The library's side of a transfer: one `on_progress` callback for each
     * reported `bytes_remaining`, in order.
     */
    method DeliverChunks(stream: StreamDescriptor, remaining: seq<int>)
      modifies this`lastPercent, progressBar
      ensures progressBar == null ==> lastPercent == old(lastPercent)
      ensures progressBar != null ==>
        && lastPercent == ThrottleLast(old(lastPercent), Percents(stream, remaining))
        && progressBar.shown == old(progressBar.shown) + Throttle(old(lastPercent), Percents(stream, remaining))
    {
      ghost var start := lastPercent;
      ghost var shown0 := if progressBar != null then progressBar.shown else [];
      for i := 0 to |remaining|
        invariant progressBar == null ==> lastPercent == start
        invariant progressBar != null ==>
          && lastPercent == ThrottleLast(start, Percents(stream, remaining[..i]))
          && progressBar.shown == shown0 + Throttle(start, Percents(stream, remaining[..i]))
      {
        assert remaining[..i + 1] == remaining[..i] + [remaining[i]];
        ObserveCallback(start, stream, remaining[..i], remaining[i]);
        OnProgress(stream, remaining[i]);
      }
      assert remaining[..|remaining|] == remaining;
    }

    /**
     * `Download(quality, st_progress_bar)`: None, with no change, when no
     * video is loaded. Otherwise the observer is reset; a stream found by
     * the library ("highest") or as the first exact progressive mp4 match is
     * buffered, and only when there is none is the adaptive path taken.
     */
    method Download(quality: string, bar: ProgressBar?, env: Environment, fs: FileSystem)
      returns (r: DownloadResult, ghost audio: Option<StreamDescriptor>)
      modifies this`progressBar, this`lastPercent, bar, fs
      ensures old(yt).None? ==>
        && r == NoBuffer && progressBar == old(progressBar) && lastPercent == old(lastPercent)
        && fs.files == old(fs.files) && (bar != null ==> bar.shown == old(bar.shown))
      ensures old(yt).Some? ==> progressBar == bar
      ensures old(yt).Some? && VideoPick(old(yt).value, quality).Some? ==>
        && fs.files == old(fs.files)
        && BufferedFetch(VideoPick(old(yt).value, quality).value, env.fetch(VideoPick(old(yt).value, quality).value), r,
                         bar != null, if bar != null then old(bar.shown) else [], if bar != null then bar.shown else [], lastPercent)
      ensures old(yt).Some? && VideoPick(old(yt).value, quality).None? ==>
        AdaptiveDownload(old(yt).value, quality, env, audio, old(fs.files), fs.files, fs.undeletable,
                         0, bar != null, if bar != null then old(bar.shown) else [], if bar != null then bar.shown else [], lastPercent, r)
    {
      audio := None;
      if yt.None? {
        return NoBuffer, audio;
      }
      progressBar := bar;
      lastPercent := 0;
      var stream := if quality == "highest" then yt.value.highestResolution
                    else FirstMatch(yt.value.streams, ProgressiveQuery(quality));
      if stream.None? {
        r, audio := DownloadAdaptive(quality, env, fs);
        return;
      }
      var t := env.fetch(stream.value);
      DeliverChunks(stream.value, t.remaining);
      match t.outcome {
        case Interrupted(e, _) =>
          r := Raised(e);
        case Complete(data) =>
          r := Buffer(data);
          if progressBar != null {
            progressBar.Progress(100);
          }
      }
    }

    /**
     * `_download_adaptive(quality)`: picks the first adaptive video/mp4
     * stream at that resolution and a highest-bitrate adaptive audio/mp4
     * stream, checks for ffmpeg, then downloads, merges and reads the
     * result; the `finally` block removes the temporary files assigned.
     */
    method DownloadAdaptive(quality: string, env: Environment, fs: FileSystem)
      returns (r: DownloadResult, ghost audio: Option<StreamDescriptor>)
      requires yt.Some?
      modifies this`lastPercent, progressBar, fs
      ensures AdaptiveDownload(yt.value, quality, env, audio, old(fs.files), fs.files, fs.undeletable,
                               old(lastPercent), progressBar != null,
                               if progressBar != null then old(progressBar.shown) else [],
                               if progressBar != null then progressBar.shown else [], lastPercent, r)
    {
      var v := yt.value;
      var videoStream := FirstMatch(v.streams, AdaptiveVideoQuery(quality));
      var audioStream: Option<StreamDescriptor> := None;
      if HasAudioCandidate(v.streams) {
        BestAudioExists(v.streams);
        var a :| IsBestAudio(v.streams, a);
        audioStream := Some(a);
      }
      audio := audioStream;
      if videoStream.None? || audioStream.None? {
        return NoBuffer, audio;
      }
      if !env.ffmpegOnPath {
        return NoBuffer, audio;
      }

      var videoPath, audioPath, outputPath;
      r, videoPath, audioPath, outputPath := RunPipeline(videoStream.value, audioStream.value, env, fs);

      // finally
      var failed := Cleanup(fs, [videoPath, audioPath, outputPath]);
    }

    /**
     * `stream.download(output_path=tmpdir, filename=...)` with the progress
     * callbacks: the file is written whole on success; a failure raises,
     * possibly after writing part of it.
     */
    method FetchToFile(stream: StreamDescriptor, t: Transfer, path: string, fs: FileSystem) returns (ok: bool)
      modifies this`lastPercent, progressBar, fs
      ensures ok == t.outcome.Complete?
      ensures fs.files == if ok then old(fs.files)[path := t.outcome.data] else WritePartial(old(fs.files), path, t.outcome.partial)
      ensures progressBar == null ==> lastPercent == old(lastPercent)
      ensures progressBar != null ==>
        && lastPercent == ThrottleLast(old(lastPercent), Percents(stream, t.remaining))
        && progressBar.shown == old(progressBar.shown) + Throttle(old(lastPercent), Percents(stream, t.remaining))
    {
      DeliverChunks(stream, t.remaining);
      match t.outcome {
        case Interrupted(_, partial) =>
          if partial.Some? {
            fs.Write(path, partial.value);
          }
          ok := false;
        case Complete(data) =>
          fs.Write(path, data);
          ok := true;
      }
    }

    /**
     * The `try` block of `_download_adaptive`: the files, the three path
     * variables and the result it leaves are those Merge.Pipeline gives.
     */
    method RunPipeline(video: StreamDescriptor, audio: StreamDescriptor, env: Environment, fs: FileSystem)
      returns (r: DownloadResult, videoPath: Option<string>, audioPath: Option<string>, outputPath: Option<string>)
      modifies this`lastPercent, progressBar, fs
      ensures var run := Pipeline(old(fs.files), env, video, audio);
        r == run.result && fs.files == run.files && [videoPath, audioPath, outputPath] == run.pathVars
      ensures progressBar == null ==> lastPercent == old(lastPercent)
      ensures progressBar != null ==>
        var ps := PipelinePercents(env, video, audio);
        && lastPercent == ThrottleLast(old(lastPercent), ps)
        && progressBar.shown == old(progressBar.shown) + Throttle(old(lastPercent), ps) + (if r.Buffer? then [100] else [])
    {
      var paths := TempPathsFor(env.tempDir, env.tokens);
      ghost var start := lastPercent;
      ghost var videoPercents := Percents(video, env.fetch(video).remaining);
      ghost var audioPercents := Percents(audio, env.fetch(audio).remaining);

      var videoOk := FetchToFile(video, env.fetch(video), paths.video, fs);
      if !videoOk {
        assert videoPercents + [] == videoPercents;
        return Raised(env.fetch(video).outcome.error), None, None, None;
      }
      r, videoPath, audioPath, outputPath := RunAudioStage(audio, env, fs);
      ThrottleAppend(start, videoPercents, audioPercents);
    }

    /** The `try` block of `_download_adaptive` once the video file is written. */
    method RunAudioStage(audio: StreamDescriptor, env: Environment, fs: FileSystem)
      returns (r: DownloadResult, videoPath: Option<string>, audioPath: Option<string>, outputPath: Option<string>)
      modifies this`lastPercent, progressBar, fs
      ensures var run := AudioStage(old(fs.files), env, audio);
        r == run.result && fs.files == run.files && [videoPath, audioPath, outputPath] == run.pathVars
      ensures progressBar == null ==> lastPercent == old(lastPercent)
      ensures progressBar != null ==>
        var ps := Percents(audio, env.fetch(audio).remaining);
        && lastPercent == ThrottleLast(old(lastPercent), ps)
        && progressBar.shown == old(progressBar.shown) + Throttle(old(lastPercent), ps) + (if r.Buffer? then [100] else [])
    {
      var paths := TempPathsFor(env.tempDir, env.tokens);
      videoPath := Some(paths.video);
      var audioOk := FetchToFile(audio, env.fetch(audio), paths.audio, fs);
      if !audioOk {
        return Raised(env.fetch(audio).outcome.error), videoPath, None, None;
      }
      audioPath := Some(paths.audio);
      outputPath := Some(paths.output);
      r := RunFfmpeg(env.ffmpeg, paths.output, fs);
    }

    /**
     * The `ffmpeg` subprocess of `_download_adaptive` and the reading of its
     * output file: a launch failure raises; a non-zero exit code yields no
     * buffer; a zero one yields the written file's bytes, or raises when
     * there is no such file.
     */
    method RunFfmpeg(ffmpeg: MergeOutcome, outputPath: string, fs: FileSystem) returns (r: DownloadResult)
      modifies progressBar, fs
      ensures fs.files == if ffmpeg.LaunchFailed? then old(fs.files) else WritePartial(old(fs.files), outputPath, ffmpeg.output)
      ensures r == match ffmpeg
        case LaunchFailed(e) => Raised(e)
        case Exited(code, _) =>
          if code != 0 then NoBuffer
          else if outputPath in fs.files then Buffer(fs.files[outputPath])
          else Raised("FileNotFoundError")
      ensures progressBar != null ==> progressBar.shown == old(progressBar.shown) + (if r.Buffer? then [100] else [])
    {
      match ffmpeg {
        case LaunchFailed(e) =>
          r := Raised(e);
        case Exited(code, output) =>
          if output.Some? {
            fs.Write(outputPath, output.value);
          }
          if code != 0 {
            r := NoBuffer;
          } else {
            var data := fs.Read(outputPath);
            if data.None? {
              r := Raised("FileNotFoundError");
            } else {
              r := Buffer(data.value);
              if progressBar != null {
                progressBar.Progress(100);
              }
            }
          }
      }
    }

    /**
     * `DownloadAudio(quality, st_progress_bar)`: None, with no change, when
     * no video is loaded; otherwise the observer is reset and the stream
     * AudioPick chooses is buffered, or None is returned when it finds none.
     */
    method DownloadAudio(quality: string, bar: ProgressBar?, env: Environment) returns (r: DownloadResult)
      modifies this`progressBar, this`lastPercent, bar
      ensures old(yt).None? ==>
        && r == NoBuffer && progressBar == old(progressBar) && lastPercent == old(lastPercent)
        && (bar != null ==> bar.shown == old(bar.shown))
      ensures old(yt).Some? ==> progressBar == bar
      ensures old(yt).Some? && AudioPick(old(yt).value, quality).None? ==>
        r == NoBuffer && lastPercent == 0 && (bar != null ==> bar.shown == old(bar.shown))
      ensures old(yt).Some? && AudioPick(old(yt).value, quality).Some? ==>
        BufferedFetch(AudioPick(old(yt).value, quality).value, env.fetch(AudioPick(old(yt).value, quality).value), r,
                      bar != null, if bar != null then old(bar.shown) else [], if bar != null then bar.shown else [], lastPercent)
    {
      if yt.None? {
        return NoBuffer;
      }
      progressBar := bar;
      lastPercent := 0;
      var stream := if quality == "highest" then yt.value.audioOnly
                    else FirstMatch(yt.value.streams, AudioBitrateQuery(quality));
      if stream.None? {
        stream := yt.value.audioOnly;
        if stream.None? {
          return NoBuffer;
        }
      }
      var t := env.fetch(stream.value);
      DeliverChunks(stream.value, t.remaining);
      match t.outcome {
        case Interrupted(e, _) =>
          r := Raised(e);
        case Complete(data) =>
          r := Buffer(data);
          if progressBar != null {
            progressBar.Progress(100);
          }
      }
    }

    /**
     * `get_video_qualities()`: `[]` without a video; otherwise the distinct
     * non-empty resolutions of the mp4 streams, descending by their number,
     * or the ValueError `int()` raises on a label that is not a number.
     */
    method GetVideoQualities() returns (r: QualityList)
      ensures yt.None? ==> r == Listed([])
      ensures yt.Some? ==>
        (r.LabelNotNumeric? <==> exists l :: l in VideoLabels(yt.value.streams) && ResolutionValue(l).None?)
      ensures yt.Some? && r.Listed? ==>
        && (forall l :: l in r.labels <==> l in VideoLabels(yt.value.streams))
        && NoDuplicates(r.labels)
        && Ranked(r.labels, ResolutionValue)
    {
      if yt.None? {
        return Listed([]);
      }
      var mp4 := Filter(yt.value.streams, Mp4Query);
      var qualities: set<string> := {};
      for i := 0 to |mp4|
        invariant qualities == set s | s in mp4[..i] && s.res.Some? && s.res.value != "" :: s.res.value
      {
        assert mp4[..i + 1] == mp4[..i] + [mp4[i]];
        if mp4[i].res.Some? && mp4[i].res.value != "" {
          qualities := qualities + {mp4[i].res.value};
        }
      }
      assert mp4[..|mp4|] == mp4;
      assert qualities == VideoLabels(yt.value.streams);
      var sorted := SortDescending(qualities, ResolutionValue);
      if sorted.None? {
        return LabelNotNumeric;
      }
      return Listed(sorted.value);
    }

    /**
     * `get_audio_qualities()`: `[]` without a video; otherwise "highest"
     * followed by the distinct non-empty bitrates of the audio-only mp4
     * streams, descending by their number, with no duplicates, or the
     * ValueError `int()` raises on a label that is not a number.
     */
    method GetAudioQualities() returns (r: QualityList)
      ensures yt.None? ==> r == Listed([])
      ensures yt.Some? ==>
        (r.LabelNotNumeric? <==> exists l :: l in AudioLabels(yt.value.streams) && BitrateValue(l).None?)
      ensures yt.Some? && r.Listed? ==>
        && |r.labels| >= 1 && r.labels[0] == "highest"
        && NoDuplicates(r.labels)
        && (forall l :: l in r.labels[1..] <==> l in AudioLabels(yt.value.streams))
        && Ranked(r.labels[1..], BitrateValue)
    {
      if yt.None? {
        return Listed([]);
      }
      var audioMp4 := Filter(yt.value.streams, AudioMp4Query);
      var qualities: set<string> := {};
      for i := 0 to |audioMp4|
        invariant qualities == set s | s in audioMp4[..i] && s.abr.Some? && s.abr.value != "" :: s.abr.value
      {
        assert audioMp4[..i + 1] == audioMp4[..i] + [audioMp4[i]];
        if audioMp4[i].abr.Some? && audioMp4[i].abr.value != "" {
          qualities := qualities + {audioMp4[i].abr.value};
        }
      }
      assert audioMp4[..|audioMp4|] == audioMp4;
      assert qualities == AudioLabels(yt.value.streams);
      var sorted := SortDescending(qualities, BitrateValue);
      if sorted.None? {
        return LabelNotNumeric;
      }
      AudioListDedup(sorted.value);
      var labels := Dedup(["highest"] + sorted.value);
      assert labels[1..] == sorted.value;
      return Listed(labels);
    }
  }
}
