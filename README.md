# YoutubeDownloader core, modelled in Dafny

This project models the decision logic of the `YoutubeDownloader` class
(`src/main.py`) and the helpers of `src/Safe.py`. It covers:

- how a stream is picked from a video's catalog;
- the progress observer `on_progress`;
- the adaptive download: video track, audio track, `ffmpeg` merge, and the
  `finally` clean-up of the temporary files;
- the two quality lists;
- the direct-link lookup;
- file-name sanitising, the connection retry loop and the playlist-URL test.

The extraction library, the network, `ffmpeg` and the filesystem are not
reimplemented. They appear as values the caller passes in:

- **Catalog and library pickers.** A video is a `Catalog.Video`: its catalog
  is a sequence of `StreamDescriptor` records. The library's own pickers
  `get_highest_resolution()` and `get_audio_only()` are two oracle fields of
  the video. `streams.filter(...)` is a `Query` record plus `Filter`, and
  `.first()` is `FirstMatch`.
  `order_by("abr").desc().first()` is any candidate of maximal bitrate
  (`IsBestAudio`). The library breaks ties, so the model leaves the tie
  open: `DownloadAdaptive` chooses with `:|` and reports its choice as a ghost
  out-parameter.
- **Transfers.** A byte transfer (`stream_to_buffer`, `stream.download`) is a
  `Merge.Transfer`. It records the successive `bytes_remaining` values the
  library reports to the progress callback, then either the complete
  content or an error, possibly after writing part of a file.
  `YoutubeDownloader.DeliverChunks` is the library's side: it calls
  `OnProgress` once for each reported value.
- **Environment.** `Merge.Environment` holds:
  - the transfer of each stream;
  - whether `ffmpeg` is on the `PATH` (`shutil.which`);
  - the temporary directory (`tempfile.gettempdir()`);
  - the three `uuid4` hex tokens;
  - how the `ffmpeg` run ends: an exit code plus the output file it wrote, if
    any, or a failure to launch.
- **Filesystem.** `Files.FileSystem` is a class whose `files` map the methods
  update. Its `undeletable` set holds the paths for which `os.remove` raises.
- **Progress bar.** `Progress.ProgressBar` records every value passed to its
  `progress(...)`.

`_download_adaptive` is stated twice and the two are tied together:

- as the spec function `Merge.Pipeline` (and `Merge.AfterCleanup` for the
  `finally` block), with its lemmas;
- as the imperative methods `DownloadAdaptive`, `RunPipeline`,
  `RunAudioStage`, `RunFfmpeg` and `Files.Cleanup`.

The methods are proved to leave exactly the files, result and progress the
spec functions give (the `Downloader.AdaptiveDownload` predicate).

Notes on the code's behaviour that the model keeps:

- For video, the `highest` quality is whatever the library's
  `get_highest_resolution()` returns. The code does not scan the
  progressive streams for the largest resolution itself.
- A failed merge returns `None`, as do a missing stream and a missing
  `ffmpeg`. The caller cannot tell these cases apart from the result.
- When no stream has the requested audio bitrate, `DownloadAudio` falls back
  to the default audio stream. Only a UI message announces the fallback; the
  returned value does not show it. `get_direct_link` has no such fallback.
- The clean-up removes only the paths whose variables were assigned before
  the `try` block was left. A transfer that fails after writing part of its
  file leaves that file behind (`Merge.PartialVideoSurvivesCleanup`),
  provided the library leaves partial files. A path whose removal raises
  also stays.

## Model

| member | source | states |
|---|---|---|
| Safe.SafeFilename | src/Safe.py:10-12 | the result has the input's length; every character outside the nine Windows-forbidden ones is kept in place, every forbidden one is replaced by `_`; no forbidden character remains |
| Safe.SafeFilenameIdempotent | src/Safe.py:12 | sanitising twice equals sanitising once |
| Safe.SafeFilenameKeepsCleanNames | src/Safe.py:12 | a name without forbidden characters is returned unchanged |
| Safe.IsPlaylistUrl | src/Safe.py:35-40 | true exactly when the argument is a string in which `list=` or `/playlist` occurs at some index; false for a non-string |
| Safe.PlaylistMarkersDetected | src/Safe.py:40 | every string containing `list=` or `/playlist` is classified as a playlist URL |
| Safe.SafeYoutube | src/Safe.py:14-33 | at most `max(retries, 0)` attempts; every attempt before the last ended in a URLError; the result is the first successful attempt's value, or the first non-URLError error propagated at once, or exhaustion after `retries` URL errors, carrying the last one (none when `retries <= 0`); one `sleep(delay)` per URLError, the final one included |
| Text.Contains | src/Safe.py:40 | Python's substring test: true exactly when the pattern occurs at some index |
| Text.ContainsInfix | src/Safe.py:40 | a pattern placed anywhere inside a string is found |
| Text.RemoveAll | src/main.py:232 | `replace(pat, '')` never lengthens the string |
| Text.RemoveAllAbsent | src/main.py:232 | a string in which the pattern does not occur is returned unchanged; one in which it occurs loses at least one whole copy |
| Text.RemoveAllKeepsPrefix | src/main.py:232 | a prefix sharing no character with the pattern's first passes through the removal unchanged |
| Text.RemoveAllSelf | src/main.py:248 | removing a pattern from itself leaves the empty string |
| Text.ParseNat | src/main.py:232 | `int(...)` succeeds exactly on a non-empty string of decimal digits |
| Text.ParseNatToString | src/main.py:232 | parsing the numeral of `n` gives `n` back |
| Catalog.Filter | src/main.py:229 | `filter(...)` keeps exactly the catalog's streams that match the query |
| Catalog.FirstMatch | src/main.py:91 | `.first()` is None exactly when no stream matches; otherwise it is a matching stream with no match before it |
| Catalog.MediaType | src/main.py:244 | the media type of a MIME string is its longest prefix without `/`: the part before the first `/`, or the whole string when there is none |
| Catalog.OnlyAudio | src/main.py:200 | `only_audio=True` keeps an adaptive stream whose media type is `audio` |
| Catalog.Matches | src/main.py:91 | a stream meets every keyword argument a `filter(...)` call gives: progressive or adaptive, audio-only, resolution, file extension, MIME type and bitrate (the same query fields serve the calls at lines 115, 116, 200, 229, 244, 264, 270 and 273) |
| Catalog.BestAudioExists | src/main.py:116 | whenever an adaptive audio/mp4 stream with a bitrate exists, one of maximal bitrate exists |
| Catalog.IsBestAudio | src/main.py:116 | what `order_by("abr").desc().first()` may return: an adaptive audio/mp4 catalog stream with a bitrate, ranked at least as high as every other such stream; ties are left open |
| Catalog.AbrRank | src/main.py:116 | the `order_by("abr")` key of a labelled stream: the number formed by the digits of its bitrate label (a `<n>kbps` label ranks as `n` by `AbrRankOfLabel`) |
| Catalog.VideoPick | src/main.py:88-91 | the stream `Download` tries first: the library's pick for "highest", else the first progressive mp4 stream at that resolution (properties in `VideoPickIsExactProgressive`) |
| Catalog.AudioPick | src/main.py:197-204 | the stream `DownloadAudio` fetches: the exact bitrate match, else the library's default audio stream (properties in `AudioPickChoice`) |
| Catalog.LinkPick | src/main.py:260-273 | the stream whose URL `get_direct_link` returns (properties in `LinkPickChoice`) |
| Catalog.LinkPickChoice | src/main.py:260-273 | for video, `Download`'s first pick, else the first adaptive video/mp4 stream at that quality; for audio, the library's default for "highest"; a found audio stream is the one `DownloadAudio` would fetch; for an explicit bitrate nothing is found exactly when no audio-only stream has it, with no fallback |
| Catalog.AbrRankOfLabel | src/main.py:116 | a bitrate label `<n>kbps` ranks as `n` under the modelled `order_by("abr")` key |
| Catalog.VideoPickIsExactProgressive | src/main.py:88-96 | for an explicit quality `Download`'s pick is the first progressive mp4 stream at that resolution, and none is found (the adaptive path is taken) exactly when no such stream exists |
| Catalog.AudioPickChoice | src/main.py:197-207 | with sound library pickers, the chosen stream is an audio-only catalog member; an exact bitrate match is the first such match; without one the default audio stream is used; nothing is found only when the catalog has no audio-only mp4 stream |
| Catalog.DirectLink | src/main.py:256-280 | exactly one component of the pair is present; the "not loaded" message without a video; a returned link is the URL of the picked stream; "No stream found for ..." when nothing is picked; "Error getting link: ..." with the library's message when the picked stream's URL cannot be resolved |
| Catalog.DirectLinkVideoOrder | src/main.py:266-273 | a video link comes from the first progressive mp4 stream at the resolution, or, only when there is none, from the first adaptive video/mp4 stream there |
| Catalog.DirectLinkFound | src/main.py:275-280 | a link is returned exactly when a stream is picked and its URL resolves |
| Qualities.ResolutionLabelValue | src/main.py:232 | a label `<n>p` has sort key `n` |
| Qualities.BitrateLabelValue | src/main.py:248 | a label `<n>kbps` has sort key `n` |
| Qualities.HighestHasNoBitrate | src/main.py:248 | the sentinel `highest` has no bitrate key |
| Qualities.ResolutionValue | src/main.py:232 | the sort key `int(x.replace('p', ''))` of a resolution label, or None where Python raises the ValueError (values in `ResolutionLabelValue`) |
| Qualities.BitrateValue | src/main.py:248 | the sort key `int(x.replace('kbps', ''))` of a bitrate label, or None where Python raises the ValueError (values in `BitrateLabelValue`) |
| Qualities.VideoLabels | src/main.py:228-231 | the set the loop collects: the non-empty resolutions of the mp4 streams |
| Qualities.AudioLabels | src/main.py:243-246 | the set the loop collects: the non-empty bitrates of the audio-only mp4 streams |
| Qualities.MaximumExists | src/main.py:232 | a non-empty set of labels with keys has one of maximal key |
| Qualities.SortDescending | src/main.py:232 | fails (the ValueError) exactly when some label has no numeric key; otherwise returns every label once, in non-increasing key order |
| Qualities.StrictWhenKeysDistinct | src/main.py:232 | when distinct labels have distinct keys the order is strictly descending |
| Qualities.DedupAfter | src/main.py:249 | the result has no duplicates and holds exactly the elements not already seen |
| Qualities.Dedup | src/main.py:249 | `dict.fromkeys` keeps each element once and drops none |
| Qualities.DedupAfterKeepsDistinct | src/main.py:249 | a list without duplicates passes through de-duplication unchanged |
| Qualities.AudioListDedup | src/main.py:248-249 | `"highest"` followed by a ranked, duplicate-free list of bitrates is already duplicate-free, so the final de-duplication changes nothing |
| Progress.TruncDiv | src/main.py:61 | Python's `int()` of a quotient truncates toward zero: for a non-negative dividend the result times the divisor is at most the dividend and the next multiple exceeds it; for a negative one, mirrored |
| Progress.Percent | src/main.py:60-61 | for `0 <= bytes_remaining <= total` the percentage is the whole part of `downloaded * 100 / total` (bracketed between two multiples of the total), hence between 0 and 100; 100 when nothing remains, 0 when nothing was downloaded |
| Progress.Percents | src/main.py:56-61 | no percentage is computed when the total (`filesize or filesize_approx`) is 0; otherwise one per callback |
| Progress.PercentsAt | src/main.py:56-61 | with a non-zero total, the i-th computed percentage is `Percent` of the total and the i-th callback's `bytes_remaining` |
| Progress.TotalSize | src/main.py:56 | the total is `filesize` when that is non-zero, and zero only when both `filesize` and `filesize_approx` are |
| Progress.ThrottleLast | src/main.py:63-65 | the value of `last_percent` after a run of computed percentages: it moves to each percentage larger than it (bounds in `ThrottleLastBounds`) |
| Progress.Throttle | src/main.py:63-66 | the values passed to the bar: each percentage larger than every earlier one and the start (properties in `ThrottleIncreasing` and `ThrottleEndsAtLast`) |
| Progress.ThrottleLastBounds | src/main.py:64-65 | `last_percent` never decreases, ends at least as large as every computed percentage, and is either its start or one of them |
| Progress.ThrottleIncreasing | src/main.py:63-66 | the values sent to the bar strictly increase, and each is a computed percentage above the start |
| Progress.ThrottleEndsAtLast | src/main.py:64-66 | the last value sent to the bar is the final `last_percent`; when none is sent it stays at its start |
| Progress.ThrottleAppend | src/main.py:138-140 | the video and then the audio transfer of one adaptive download are observed as one run, since `last_percent` is not reset between them |
| Progress.ThrottleStep | src/main.py:64-66 | one more callback sends its percentage exactly when it exceeds the current `last_percent`, which becomes the larger of the two |
| Progress.ObserveCallback | src/main.py:56-66 | one more callback: without a total nothing changes; otherwise its percentage reaches the bar exactly when it exceeds the current `last_percent`, which becomes the larger of the two |
| Progress.ThrottleFromReset | src/main.py:84-85 | after the reset to 0 only positive values reach the bar, and `last_percent` bounds every percentage seen |
| Progress.ProgressBar.Progress | src/main.py:66 | the bar records the value it is given |
| Files.Join | src/main.py:141 | `os.path.join` keeps the whole name (its length is at least the name's) |
| Files.JoinEndsWithName | src/main.py:141 | the joined path starts with the directory, ends with the whole name, and adds at most one separator between them |
| Files.JoinInjective | src/main.py:141 | joining onto one directory keeps distinct names distinct |
| Files.TempPathsDistinct | src/main.py:129-132 | the three temporary paths are pairwise distinct, whatever tokens are drawn |
| Files.VideoName | src/main.py:130 | the video file name `temp_video_<hex>.mp4` |
| Files.AudioName | src/main.py:131 | the audio file name `temp_audio_<hex>.mp4` |
| Files.OutputName | src/main.py:132 | the merged file name `merged_<hex>.mp4` |
| Files.TempPathsFor | src/main.py:129-141 | the three temporary paths, each name joined onto the temporary directory (distinct by `TempPathsDistinct`) |
| Files.Assigned | src/main.py:170-172 | the paths the `finally` loop acts on: exactly the path variables that hold a value |
| Files.FileSystem.Exists | src/main.py:172 | `os.path.exists` is true exactly for a path that holds a file |
| Files.FileSystem.Read | src/main.py:159-160 | reading a file gives exactly its bytes, and nothing (the FileNotFoundError) for a missing path |
| Files.FileSystem.Write | src/main.py:138-152 | a write stores exactly the given bytes at the path and leaves every other file as it was (the two track downloads at lines 138 and 140, ffmpeg's output file at line 152) |
| Files.FileSystem.Remove | src/main.py:172-173 | `os.remove` succeeds exactly on an existing removable path, and removes only it |
| Files.Cleanup | src/main.py:168-175 | every assigned path that exists and is removable is removed and nothing else changes; the failed removals are returned, never raised |
| Merge.CleanupRemovesAssigned | src/main.py:136-175 | on every exit of the `try` block, the assigned paths other than the output exist; after the `finally` block each removable one is gone; no other file changes |
| Merge.PipelineShape | src/main.py:134-166 | the `try` block assigns only the three temporary paths, writes no other file, and every assigned path but the output exists when it exits |
| Merge.TouchesOnlyTemp | src/main.py:134-166 | on every exit of the `try` block, each path other than the three temporary ones is present and holds the same bytes exactly as before |
| Merge.WritesOnlyAssigned | src/main.py:134-166 | without partial files, every file the `try` block creates has an assigned path |
| Merge.Pipeline | src/main.py:136-166 | the `try` block: the video transfer, then `AudioStage`; a failed video transfer raises with no path assigned (properties in `MergeResult`, `PipelineShape`, `CleanupRemovesAssigned`) |
| Merge.AudioStage | src/main.py:140-166 | the `try` block from the audio transfer on: the audio transfer, the ffmpeg run and the reading of its output file |
| Merge.AfterCleanup | src/main.py:168-175 | the files once the `finally` block has removed every assigned, removable path |
| Merge.PipelinePercents | src/main.py:138-140 | the percentages computed during the adaptive download: those of the video transfer, then, only when it completed, those of the audio transfer |
| Merge.MergeResult | src/main.py:152-166 | a buffer is returned only after both tracks and a zero exit; a non-zero exit returns None; a zero exit returns exactly the bytes ffmpeg wrote; a failed video transfer raises its error |
| Merge.PipelineLeavesNoTrace | src/main.py:129-175 | with fresh temporary names, removable paths and no partial files, the filesystem ends as it began, whatever the exit |
| Merge.PartialVideoSurvivesCleanup | src/main.py:134-138 | a video transfer that fails after a partial write leaves that file behind, because its path was never assigned |
| Downloader.YoutubeDownloader.constructor | src/main.py:21-25 | no progress bar, `last_percent` 0, and `is_playlist` is `is_playlist_url(url)` |
| Downloader.BufferedFetch | src/main.py:99-104 | what a buffered download after the reset to 0 leaves: its result, `last_percent` and the values shown, with 100 added on success |
| Downloader.AdaptiveDownload | src/main.py:107-175 | what `_download_adaptive` leaves: None with nothing touched without a video/audio pair or ffmpeg, else the result, files and progress of `Pipeline` and `AfterCleanup` |
| Downloader.YoutubeDownloader.OnProgress | src/main.py:53-66 | nothing happens without a bar or with a zero total; otherwise `last_percent` becomes the larger of itself and the new percentage, which reaches the bar only when strictly larger |
| Downloader.YoutubeDownloader.DeliverChunks | src/main.py:46-66 | a run of callbacks leaves `last_percent` and the bar as `ThrottleLast` and `Throttle` of the computed percentages say |
| Downloader.YoutubeDownloader.Download | src/main.py:79-105 | with no video, returns None and changes nothing; otherwise registers the bar and resets `last_percent`; the "highest" or exact progressive pick is buffered, with 100 shown on success; only when there is none is the adaptive path taken |
| Downloader.YoutubeDownloader.DownloadAdaptive | src/main.py:115-175 | picks the first adaptive video/mp4 stream at the resolution and a maximal-bitrate adaptive audio/mp4 stream; returns None with nothing touched when either is missing or ffmpeg is absent; otherwise result, files after clean-up and progress are those of `Pipeline` and `AfterCleanup` |
| Downloader.YoutubeDownloader.FetchToFile | src/main.py:138 | a transfer writes the whole file and reports success, or writes the partial file, if any, and reports failure; progress as in `DeliverChunks` |
| Downloader.YoutubeDownloader.RunPipeline | src/main.py:136-166 | the `try` block leaves the files, path variables and result that `Pipeline` gives, with the video and audio progress observed as one run |
| Downloader.YoutubeDownloader.RunAudioStage | src/main.py:140-166 | the `try` block from the audio transfer on, as `AudioStage` gives it |
| Downloader.YoutubeDownloader.RunFfmpeg | src/main.py:152-166 | a launch failure raises; a non-zero exit returns None; a zero exit returns the output file's bytes and shows 100, or raises when there is no output file |
| Downloader.YoutubeDownloader.DownloadAudio | src/main.py:188-215 | with no video, returns None and changes nothing; otherwise resets the observer and buffers the exact bitrate match or the default audio stream; returns None only when neither exists |
| Downloader.YoutubeDownloader.GetVideoQualities | src/main.py:226-232 | `[]` without a video; otherwise exactly the distinct non-empty resolutions of the mp4 streams, in non-increasing numeric order, or the ValueError exactly when one is not numeric |
| Downloader.YoutubeDownloader.GetAudioQualities | src/main.py:241-249 | `[]` without a video; otherwise `highest` followed by exactly the distinct non-empty bitrates of the audio-only mp4 streams, in non-increasing numeric order, with no duplicates, or the ValueError exactly when one is not numeric |
| Scenarios.AudioRanks | src/main.py:116 | the 64, 128 and 160 kbps labels rank as 64, 128 and 160 |
| Scenarios.AdaptivePairScenario | src/main.py:88-118 | a catalog of a progressive 360p stream, an adaptive 1080p video and 128/160 kbps audio, asked for "1080p": no progressive pick, the 1080p video, and the 160 kbps track as the only best audio |
| Scenarios.NothingAt1080p | src/main.py:115-120 | a catalog holding only a progressive 360p stream, asked for "1080p": None, with no file touched and no progress shown |
| Scenarios.AudioFallbackScenario | src/main.py:197-204 | audio of 64 and 128 kbps, asked for "96kbps": the default audio stream is used |

## Left out

- UI side effects are not modelled: `st.write`, `st.error` and their texts, the bar's `text=` labels, `logging` and `print`.
- `time.sleep` is modelled only as the list of delays it is called with.
- Constructor loading is not modelled. The `Playlist`/`YouTube` network loading in `__init__` (src/main.py:28-43) is replaced by the `loaded` parameter. `self.pl` is not modelled because no core operation reads it.
- The module-level `request.default_range_size` setting (src/Safe.py:7-8) is not modelled: it only tunes the library's chunk size.
- `register_on_progress_callback` is not modelled as a separate step. Registration is implied: `DeliverChunks` calls `OnProgress` directly.
- The library's pickers `get_highest_resolution()` and `get_audio_only()` are oracles. `Catalog.PickersSound` states three assumptions about them: each returns a catalog member; `get_audio_only()` returns an audio-only stream; and `get_audio_only()` returns None only when the catalog has no audio-only mp4 stream at all. Nothing else about how they choose is modelled.
- Catalog.AudioPickChoice: its last clause ("nothing is found only when the catalog has no audio-only mp4 stream") rests on that third assumption about what the library finds. The library ranks by `abr`, so it may also find nothing when every audio-only mp4 stream lacks a bitrate label; the model does not cover that catalog.
- The tie-break of `order_by("abr").desc()` among equal bitrates is library-defined and left open. `Catalog.AbrRank` ranks a label by the number its digits form, so a label with no digit ranks as 0.
- Catalog.AbrRank: catalogs in which some audio candidate's bitrate label has no digit are not covered. The library then can no longer rank by number, and orders all candidates by their label strings, which can change the best pick among the labelled streams too; the model keeps the numeric ranking.
- Falsy `filter(...)` arguments are not modelled: the library ignores a falsy keyword argument. The model treats every query field the code passes as a constraint, so an empty quality string is not modelled.
- Progress.Percent: computed exactly in integers instead of Python floating point (`int(downloaded / total * 100)`). It can differ by one where rounding of the float quotient matters.
- Text.ParseNat: accepts only ASCII digit strings. Python's `int()` also accepts surrounding whitespace, a sign, underscores and non-ASCII digits, which this parse turns into the ValueError path.
- Text.Contains and Text.RemoveAll: work on Dafny `char` sequences, whose elements are Unicode scalar values. A Python `str` may also hold lone surrogate code points, which no Dafny string can represent.
- GetVideoQualities, GetAudioQualities: state non-increasing rather than strictly decreasing order. Two distinct labels may have the same number (`"720p"` and `"0720p"`). `Qualities.StrictWhenKeysDistinct` gives strictness when the numbers differ. The order among equal numbers depends on Python's set iteration order, which the model leaves open.
- The subprocess arguments (`-y`, `-c copy`), its captured stdout and stderr, and the stderr excerpt shown to the user are not modelled. Only the exit code and the output file matter to the result.
- `safe_youtube`'s exception message text is not modelled. The model keeps the retry count and the last URLError reason.
- The library's internal retries (`max_retries=3` in `stream.download`) are not modelled. A transfer is one oracle outcome.
- Types and resources are not modelled: the `io.BytesIO` buffer becomes its byte content, and file handles and `seek(0)` are not modelled.
- Files.Join: models POSIX `os.path.join`, with `/` as the separator. On Windows the separator is `\`; no property of the model depends on which one is used.
- Catalog.DirectLink: in the model the catalog lookup (`yt.streams`, `filter(...).first()`) and the library's pickers never fail, so the only failure it expresses is a picked stream whose URL cannot be resolved. In `get_direct_link` a failure of the lookup itself is caught as well and gives "Error getting link: ..."; in `Download`, `DownloadAudio`, `_download_adaptive` and the two quality lists it propagates to the caller. Neither is modelled.
- Concurrency is not modelled: two downloads sharing the temporary directory are outside the model.
- `streamlitMain.py` and `src/streamlitMain.py` (the UI scripts) are not part of this model.
