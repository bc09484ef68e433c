/**
 * A video's stream catalog and the stream picks of src/main.py.
 *
 * The extraction library's `streams.filter(...)` is modelled by the Query
 * record (one field per keyword argument the downloader uses) and
 * `.first()` by FirstMatch; the library's own pickers
 * `get_highest_resolution()` and `get_audio_only()` are oracle values
 * carried by the Video.
 */
module Catalog {
  import opened Wrappers
  import opened Text

  /** A stream's `url` property: resolved, or the error raised while resolving it. */
  datatype Locator = Url(link: string) | Unresolvable(error: string)

  /**
   * One stream descriptor. A stream is progressive (audio and video in one
   * file) or adaptive (a single track). `filesize == 0` stands for a size
   * that is absent or zero: both are falsy where the source reads them.
   */
  datatype StreamDescriptor = StreamDescriptor(
    progressive: bool,
    mimeType: string,
    fileExtension: string,
    res: Option<string>,
    abr: Option<string>,
    filesize: nat,
    filesizeApprox: nat,
    url: Locator)

  /** The media type of a MIME type: its part before the first '/'. */
  function MediaType(mime: string): (r: string)
    ensures |r| <= |mime| && r == mime[..|r|]
    ensures forall k :: 0 <= k < |r| ==> r[k] != '/'
    ensures |r| < |mime| ==> mime[|r|] == '/'
  {
    if mime == [] || mime[0] == '/' then []
    else
      var rest := MediaType(mime[1..]);
      assert mime[..|rest| + 1] == [mime[0]] + mime[1..][..|rest|];
      [mime[0]] + rest
  }

  /** An audio track with no video track: adaptive, of media type `audio`. */
  predicate OnlyAudio(s: StreamDescriptor)
  {
    !s.progressive && MediaType(s.mimeType) == "audio"
  }

  /**
   * The loaded `yt` object: its catalog, and what the library's pickers
   * `get_highest_resolution()` and `get_audio_only()` return for it.
   */
  datatype Video = Video(
    streams: seq<StreamDescriptor>,
    highestResolution: Option<StreamDescriptor>,
    audioOnly: Option<StreamDescriptor>)

  /**
   * What the model assumes of the library's pickers: they return catalog
   * members, the audio picker an audio-only one, and the audio picker finds
   * nothing only when the catalog has no audio-only mp4 stream.
   */
  predicate PickersSound(v: Video)
  {
    && (v.highestResolution.Some? ==> v.highestResolution.value in v.streams)
    && (v.audioOnly.Some? ==> v.audioOnly.value in v.streams && OnlyAudio(v.audioOnly.value))
    && (v.audioOnly.None? ==> forall s :: s in v.streams ==> !(OnlyAudio(s) && s.fileExtension == "mp4"))
  }

  /** The keyword arguments of `streams.filter(...)`; false or None means "not constrained". */
  datatype Query = Query(
    progressive: bool,
    adaptive: bool,
    onlyAudio: bool,
    res: Option<string>,
    fileExtension: Option<string>,
    mimeType: Option<string>,
    abr: Option<string>)

  const AnyStream := Query(false, false, false, None, None, None, None)

  predicate Matches(q: Query, s: StreamDescriptor)
  {
    && (q.progressive ==> s.progressive)
    && (q.adaptive ==> !s.progressive)
    && (q.onlyAudio ==> OnlyAudio(s))
    && (q.res.Some? ==> s.res == q.res)
    && (q.fileExtension.Some? ==> s.fileExtension == q.fileExtension.value)
    && (q.mimeType.Some? ==> s.mimeType == q.mimeType.value)
    && (q.abr.Some? ==> s.abr == q.abr)
  }

  /** `filter(progressive=True, res=quality, file_extension="mp4")` */
  function ProgressiveQuery(quality: string): Query
  {
    AnyStream.(progressive := true, res := Some(quality), fileExtension := Some("mp4"))
  }

  /** `filter(adaptive=True, res=quality, mime_type="video/mp4")` */
  function AdaptiveVideoQuery(quality: string): Query
  {
    AnyStream.(adaptive := true, res := Some(quality), mimeType := Some("video/mp4"))
  }

  /** `filter(adaptive=True, mime_type="audio/mp4")` */
  const AdaptiveAudioQuery := AnyStream.(adaptive := true, mimeType := Some("audio/mp4"))

  /** `filter(only_audio=True, abr=quality)` */
  function AudioBitrateQuery(quality: string): Query
  {
    AnyStream.(onlyAudio := true, abr := Some(quality))
  }

  /** `filter(file_extension="mp4")` */
  const Mp4Query := AnyStream.(fileExtension := Some("mp4"))

  /** `filter(only_audio=True, file_extension="mp4")` */
  const AudioMp4Query := AnyStream.(onlyAudio := true, fileExtension := Some("mp4"))

  /** `s` is the first element of `xs` that matches `q`. */
  ghost predicate IsFirst(xs: seq<StreamDescriptor>, q: Query, s: StreamDescriptor)
  {
    exists i :: 0 <= i < |xs| && xs[i] == s && Matches(q, s) && forall j :: 0 <= j < i ==> !Matches(q, xs[j])
  }

  /** `filter(...)`: the matching streams, in catalog order. */
  function Filter(xs: seq<StreamDescriptor>, q: Query): (r: seq<StreamDescriptor>)
    ensures forall s :: s in r <==> s in xs && Matches(q, s)
  {
    if xs == [] then []
    else if Matches(q, xs[0]) then [xs[0]] + Filter(xs[1..], q)
    else Filter(xs[1..], q)
  }

  /** `filter(...).first()`: the first matching stream, or None when nothing matches. */
  function FirstMatch(xs: seq<StreamDescriptor>, q: Query): (r: Option<StreamDescriptor>)
    ensures r.None? <==> forall i :: 0 <= i < |xs| ==> !Matches(q, xs[i])
    ensures r.Some? ==> IsFirst(xs, q, r.value)
  {
    if xs == [] then None
    else if Matches(q, xs[0]) then
      Some(xs[0])
    else
      var r := FirstMatch(xs[1..], q);
      if r.Some? then
        ghost var i :| 0 <= i < |xs[1..]| && xs[1..][i] == r.value && Matches(q, r.value)
                       && forall j :: 0 <= j < i ==> !Matches(q, xs[1..][j]);
        assert xs[i + 1] == r.value;
        assert forall j :: 0 <= j < i + 1 ==> !Matches(q, xs[j]) by {
          forall j | 0 <= j < i + 1 ensures !Matches(q, xs[j]) {
            if j > 0 { assert xs[j] == xs[1..][j - 1]; }
          }
        }
        r
      else
        assert forall i :: 0 <= i < |xs| ==> !Matches(q, xs[i]) by {
          forall i | 0 <= i < |xs| ensures !Matches(q, xs[i]) {
            if i > 0 { assert xs[i] == xs[1..][i - 1]; }
          }
        }
        r
  }

  // ---- the highest-bitrate adaptive audio track ----

  /**
   * The key of `order_by("abr")`: the number formed by the digits of the
   * bitrate label (streams without a label are dropped by `order_by`).
   */
  function AbrRank(s: StreamDescriptor): nat
    requires s.abr.Some?
  {
    DigitsValue(DigitsOf(s.abr.value))
  }

  /** A digit string is its own digits. */
  lemma {:induction false} DigitsOfDigits(d: string)
    requires AllDigits(d)
    ensures DigitsOf(d) == d
  {
    if d != [] {
      assert d[..|d| - 1] + [d[|d| - 1]] == d;
      DigitsOfDigits(d[..|d| - 1]);
    }
  }

  /** A label written as the library writes bitrates, `<n>kbps`, ranks as `n`. */
  lemma AbrRankOfLabel(s: StreamDescriptor, n: nat)
    requires s.abr == Some(NatToString(n) + "kbps")
    ensures AbrRank(s) == n
  {
    var d := NatToString(n);
    var l := d + "kbps";
    assert l[..|l| - 1] == d + "kbp";
    assert (d + "kbp")[..|d| + 2] == d + "kb";
    assert (d + "kb")[..|d| + 1] == d + "k";
    assert (d + "k")[..|d|] == d;
    assert DigitsOf(l) == DigitsOf(d + "kbp") == DigitsOf(d + "kb") == DigitsOf(d + "k") == DigitsOf(d);
    DigitsOfDigits(d);
    ParseNatToString(n);
  }

  /** An audio stream `order_by("abr")` keeps: adaptive audio/mp4 with a bitrate label. */
  predicate IsAudioCandidate(s: StreamDescriptor)
  {
    Matches(AdaptiveAudioQuery, s) && s.abr.Some?
  }

  /**
   * `a` may be what `filter(adaptive=True, mime_type="audio/mp4")
   * .order_by("abr").desc().first()` returns: a candidate of maximal rank.
   * Which of several equally ranked candidates comes first is the library's
   * choice and is left open.
   */
  predicate IsBestAudio(xs: seq<StreamDescriptor>, a: StreamDescriptor)
  {
    a in xs && IsAudioCandidate(a) &&
    forall b :: b in xs && IsAudioCandidate(b) ==> AbrRank(b) <= AbrRank(a)
  }

  predicate HasAudioCandidate(xs: seq<StreamDescriptor>)
  {
    exists b :: b in xs && IsAudioCandidate(b)
  }

  /** Whenever some candidate exists, a best one exists. */
  lemma {:induction false} BestAudioExists(xs: seq<StreamDescriptor>)
    requires HasAudioCandidate(xs)
    ensures exists a :: IsBestAudio(xs, a)
  {
    var last := xs[|xs| - 1];
    var init := xs[..|xs| - 1];
    assert xs == init + [last];
    if HasAudioCandidate(init) {
      BestAudioExists(init);
      var a :| IsBestAudio(init, a);
      if IsAudioCandidate(last) && AbrRank(last) > AbrRank(a) {
        assert IsBestAudio(xs, last);
      } else {
        assert IsBestAudio(xs, a);
      }
    } else {
      assert IsBestAudio(xs, last);
    }
  }

  // ---- the picks of Download, DownloadAudio and get_direct_link ----

  /** The stream `Download` tries first: the library's best for "highest", else an exact progressive mp4 match. */
  function VideoPick(v: Video, quality: string): Option<StreamDescriptor>
  {
    if quality == "highest" then v.highestResolution
    else FirstMatch(v.streams, ProgressiveQuery(quality))
  }

  /** The stream `DownloadAudio` fetches: the exact bitrate match, or the library's default audio stream. */
  function AudioPick(v: Video, quality: string): Option<StreamDescriptor>
  {
    var exact := if quality == "highest" then v.audioOnly else FirstMatch(v.streams, AudioBitrateQuery(quality));
    if exact.Some? then exact else v.audioOnly
  }

  /** The stream whose URL `get_direct_link` returns. */
  function LinkPick(v: Video, quality: string, onlyAudio: bool): Option<StreamDescriptor>
  {
    if onlyAudio then
      if quality == "highest" then v.audioOnly else FirstMatch(v.streams, AudioBitrateQuery(quality))
    else
      var s := if quality == "highest" then v.highestResolution else FirstMatch(v.streams, ProgressiveQuery(quality));
      if s.Some? then s else FirstMatch(v.streams, AdaptiveVideoQuery(quality))
  }

  /**
   * `get_direct_link` for a video tries the same stream `Download` tries
   * first and then the first adaptive video/mp4 stream at that quality; for
   * audio it takes the exact bitrate match (the library's pick for
   * "highest") with no fallback, so whenever it finds a stream that is the
   * one `DownloadAudio` would fetch, and it finds none for an explicit
   * bitrate exactly when no audio-only stream has that bitrate.
   */
  lemma LinkPickChoice(v: Video, quality: string)
    ensures LinkPick(v, quality, false) ==
      if VideoPick(v, quality).Some? then VideoPick(v, quality) else FirstMatch(v.streams, AdaptiveVideoQuery(quality))
    ensures quality == "highest" ==> LinkPick(v, quality, true) == v.audioOnly
    ensures LinkPick(v, quality, true).Some? ==> LinkPick(v, quality, true) == AudioPick(v, quality)
    ensures quality != "highest" ==>
      (LinkPick(v, quality, true).None? <==>
       forall s :: s in v.streams ==> !(OnlyAudio(s) && s.abr == Some(quality)))
  {
  }

  /**
   * `Download`'s first pick for an explicit quality is the first progressive
   * mp4 stream at that resolution, and there is none exactly when no such
   * stream exists (only then is the adaptive path taken).
   */
  lemma VideoPickIsExactProgressive(v: Video, quality: string)
    requires quality != "highest"
    ensures VideoPick(v, quality).Some? ==>
      var s := VideoPick(v, quality).value;
      IsFirst(v.streams, ProgressiveQuery(quality), s) &&
      s.progressive && s.res == Some(quality) && s.fileExtension == "mp4"
    ensures VideoPick(v, quality).None? <==>
      forall s :: s in v.streams ==> !(s.progressive && s.res == Some(quality) && s.fileExtension == "mp4")
  {
  }

  /**
   * `DownloadAudio` uses the first audio-only stream with exactly the
   * requested bitrate when there is one, and otherwise the library default;
   * it finds nothing only when the catalog has no audio-only mp4 stream (and
   * no exact bitrate match).
   */
  lemma AudioPickChoice(v: Video, quality: string)
    requires PickersSound(v)
    ensures AudioPick(v, quality).Some? ==>
      AudioPick(v, quality).value in v.streams && OnlyAudio(AudioPick(v, quality).value)
    ensures quality != "highest" && FirstMatch(v.streams, AudioBitrateQuery(quality)).Some? ==>
      var s := AudioPick(v, quality).value;
      IsFirst(v.streams, AudioBitrateQuery(quality), s) && s.abr == Some(quality)
    ensures quality != "highest" && FirstMatch(v.streams, AudioBitrateQuery(quality)).None? ==>
      AudioPick(v, quality) == v.audioOnly
    ensures AudioPick(v, quality).None? ==>
      forall s :: s in v.streams ==> !(OnlyAudio(s) && s.fileExtension == "mp4")
  {
    var exact := FirstMatch(v.streams, AudioBitrateQuery(quality));
    if quality != "highest" && exact.Some? {
      var i :| 0 <= i < |v.streams| && v.streams[i] == exact.value && Matches(AudioBitrateQuery(quality), exact.value)
               && forall j :: 0 <= j < i ==> !Matches(AudioBitrateQuery(quality), v.streams[j]);
      assert exact.value in v.streams;
    }
  }

  /** `get_direct_link`: a `(url, error)` pair. */
  function DirectLink(yt: Option<Video>, quality: string, onlyAudio: bool): (r: (Option<string>, Option<string>))
    ensures r.0.Some? != r.1.Some?
    ensures yt.None? ==> r == (None, Some("Video object not loaded."))
    ensures yt.Some? && LinkPick(yt.value, quality, onlyAudio).None? ==> r.1 == Some("No stream found for " + quality + ".")
    ensures r.0.Some? ==>
      yt.Some? && LinkPick(yt.value, quality, onlyAudio).Some? && LinkPick(yt.value, quality, onlyAudio).value.url == Url(r.0.value)
    ensures yt.Some? && LinkPick(yt.value, quality, onlyAudio).Some? && LinkPick(yt.value, quality, onlyAudio).value.url.Unresolvable? ==>
      r.1 == Some("Error getting link: " + LinkPick(yt.value, quality, onlyAudio).value.url.error)
  {
    if yt.None? then (None, Some("Video object not loaded."))
    else
      match LinkPick(yt.value, quality, onlyAudio)
      case None => (None, Some("No stream found for " + quality + "."))
      case Some(s) =>
        match s.url
        case Url(link) => (Some(link), None)
        case Unresolvable(e) => (None, Some("Error getting link: " + e))
  }

  /**
   * For an explicit video quality the link comes from the first progressive
   * mp4 stream at that resolution, and from the first adaptive video/mp4
   * stream at that resolution only when no progressive one exists.
   */
  lemma DirectLinkVideoOrder(v: Video, quality: string, link: string)
    requires quality != "highest"
    requires DirectLink(Some(v), quality, false).0 == Some(link)
    ensures exists s: StreamDescriptor ::
              && s.url == Url(link)
              && (|| IsFirst(v.streams, ProgressiveQuery(quality), s)
                  || ((forall t :: t in v.streams ==> !Matches(ProgressiveQuery(quality), t)) &&
                      IsFirst(v.streams, AdaptiveVideoQuery(quality), s)))
  {
    var s := LinkPick(v, quality, false).value;
    var p := FirstMatch(v.streams, ProgressiveQuery(quality));
    if p.None? {
      assert forall t :: t in v.streams ==> !Matches(ProgressiveQuery(quality), t) by {
        forall t | t in v.streams ensures !Matches(ProgressiveQuery(quality), t) {
          var i :| 0 <= i < |v.streams| && v.streams[i] == t;
        }
      }
    }
    assert s.url == Url(link);
  }

  /** A link exists exactly when the picked stream resolves to a URL. */
  lemma DirectLinkFound(v: Video, quality: string, onlyAudio: bool)
    ensures DirectLink(Some(v), quality, onlyAudio).0.Some? <==>
      LinkPick(v, quality, onlyAudio).Some? && LinkPick(v, quality, onlyAudio).value.url.Url?
  {
  }
}
