/**
 * Concrete catalogs run through the selection rules: the adaptive fallback
 * at a resolution only the adaptive streams offer, a resolution nobody
 * offers, and the audio fallback on an unknown bitrate.
 */
module Scenarios {
  import opened Wrappers
  import opened Text
  import opened Catalog
  import opened Files
  import opened Merge
  import opened Downloader

  function Mp4Stream(progressive: bool, mime: string, res: Option<string>, abr: Option<string>): StreamDescriptor
  {
    StreamDescriptor(progressive, mime, "mp4", res, abr, 1000, 0, Url("https://example.invalid/" + mime))
  }

  const P360 := Mp4Stream(true, "video/mp4", Some("360p"), Some("96kbps"))
  const V1080 := Mp4Stream(false, "video/mp4", Some("1080p"), None)
  const A64 := Mp4Stream(false, "audio/mp4", None, Some("64kbps"))
  const A128 := Mp4Stream(false, "audio/mp4", None, Some("128kbps"))
  const A160 := Mp4Stream(false, "audio/mp4", None, Some("160kbps"))

  lemma AudioRanks()
    ensures AbrRank(A64) == 64 && AbrRank(A128) == 128 && AbrRank(A160) == 160
  {
    assert NatToString(64) + "kbps" == "64kbps";
    assert NatToString(128) + "kbps" == "128kbps";
    assert NatToString(160) + "kbps" == "160kbps";
    AbrRankOfLabel(A64, 64);
    AbrRankOfLabel(A128, 128);
    AbrRankOfLabel(A160, 160);
  }

  /**
   * A progressive 360p stream, an adaptive 1080p video and two adaptive
   * audio tracks: "1080p" has no progressive match, so `Download` takes the
   * adaptive path, which pairs the 1080p video with the 160kbps track.
   */
  lemma AdaptivePairScenario(v: Video)
    requires v.streams == [P360, V1080, A128, A160]
    ensures VideoPick(v, "1080p") == None
    ensures FirstMatch(v.streams, AdaptiveVideoQuery("1080p")) == Some(V1080)
    ensures forall a :: IsBestAudio(v.streams, a) <==> a == A160
  {
    AudioRanks();
    assert !Matches(ProgressiveQuery("1080p"), P360);
    assert FirstMatch(v.streams, ProgressiveQuery("1080p")) == None;
    forall a | IsBestAudio(v.streams, a) ensures a == A160 {
      assert IsAudioCandidate(A160);
      assert AbrRank(A160) <= AbrRank(a);
    }
    assert IsAudioCandidate(A160) && IsAudioCandidate(A128);
    assert !IsAudioCandidate(P360) && !IsAudioCandidate(V1080);
    assert IsBestAudio(v.streams, A160);
  }

  /**
   * Only a progressive 360p stream: "1080p" finds neither a progressive nor
   * an adaptive video, and `_download_adaptive` returns None, touching no
   * file and showing no progress.
   */
  lemma NothingAt1080p(v: Video, env: Environment, audio: Option<StreamDescriptor>,
                       files0: map<string, seq<byte>>, files1: map<string, seq<byte>>, undeletable: set<string>,
                       hasBar: bool, shown0: seq<int>, shown1: seq<int>, last1: int, r: DownloadResult)
    requires v.streams == [P360]
    requires AdaptiveDownload(v, "1080p", env, audio, files0, files1, undeletable, 0, hasBar, shown0, shown1, last1, r)
    ensures VideoPick(v, "1080p") == None
    ensures r == NoBuffer && files1 == files0 && shown1 == shown0 && last1 == 0
  {
    assert !Matches(ProgressiveQuery("1080p"), P360);
    assert !Matches(AdaptiveVideoQuery("1080p"), P360);
  }

  /**
   * Audio tracks of 64 and 128 kbps: a request for "96kbps" has no exact
   * match (the progressive 360p stream's bitrate does not count, it is not
   * audio-only) and falls back to the library's default audio stream.
   */
  lemma AudioFallbackScenario(v: Video)
    requires v.streams == [P360, A64, A128]
    ensures AudioPick(v, "96kbps") == v.audioOnly
  {
    assert !Matches(AudioBitrateQuery("96kbps"), P360);
    assert !Matches(AudioBitrateQuery("96kbps"), A64);
    assert !Matches(AudioBitrateQuery("96kbps"), A128);
    assert FirstMatch(v.streams, AudioBitrateQuery("96kbps")) == None;
  }
}
