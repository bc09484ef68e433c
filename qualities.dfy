/**
 * The quality labels offered by `get_video_qualities` and
 * `get_audio_qualities`: which labels are collected, how they are ranked,
 * and the de-duplication of the final list.
 */
module Qualities {
  import opened Wrappers
  import opened Text
  import opened Catalog

  /** The sort key of a resolution label: `int(x.replace('p', ''))`. */
  function ResolutionValue(name: string): Option<nat>
  {
    ParseNat(RemoveAll(name, "p"))
  }

  /** The sort key of a bitrate label: `int(x.replace('kbps', ''))`. */
  function BitrateValue(name: string): Option<nat>
  {
    ParseNat(RemoveAll(name, "kbps"))
  }

  /** A label written as the library writes resolutions ranks by its number. */
  lemma ResolutionLabelValue(n: nat)
    ensures ResolutionValue(NatToString(n) + "p") == Some(n)
  {
    var d := NatToString(n);
    RemoveAllKeepsPrefix(d, "p", "p");
    RemoveAllSelf("p");
    assert d + [] == d;
    ParseNatToString(n);
  }

  /** A label written as the library writes bitrates ranks by its number. */
  lemma BitrateLabelValue(n: nat)
    ensures BitrateValue(NatToString(n) + "kbps") == Some(n)
  {
    var d := NatToString(n);
    RemoveAllKeepsPrefix(d, "kbps", "kbps");
    RemoveAllSelf("kbps");
    assert d + [] == d;
    ParseNatToString(n);
  }

  /** The sentinel "highest" is not a bitrate label: its key is undefined. */
  lemma HighestHasNoBitrate()
    ensures BitrateValue("highest") == None
  {
    RemoveAllKeepsPrefix("highest", "", "kbps");
    assert "highest" + "" == "highest";
  }

  /** The labels `get_video_qualities` collects: the non-empty resolutions of the mp4 streams. */
  function VideoLabels(streams: seq<StreamDescriptor>): set<string>
  {
    set s | s in streams && Matches(Mp4Query, s) && s.res.Some? && s.res.value != "" :: s.res.value
  }

  /** The labels `get_audio_qualities` collects: the non-empty bitrates of the audio-only mp4 streams. */
  function AudioLabels(streams: seq<StreamDescriptor>): set<string>
  {
    set s | s in streams && Matches(AudioMp4Query, s) && s.abr.Some? && s.abr.value != "" :: s.abr.value
  }

  predicate NoDuplicates(xs: seq<string>)
  {
    forall i, j :: 0 <= i < j < |xs| ==> xs[i] != xs[j]
  }

  /** Every label has a key, and keys never increase along the list. */
  predicate Ranked(xs: seq<string>, key: string -> Option<nat>)
  {
    && (forall i :: 0 <= i < |xs| ==> key(xs[i]).Some?)
    && (forall i, j :: 0 <= i < j < |xs| ==> key(xs[i]).Some? && key(xs[j]).Some? && key(xs[j]).value <= key(xs[i]).value)
  }

  /** Strictly descending keys. */
  predicate StrictlyRanked(xs: seq<string>, key: string -> Option<nat>)
  {
    && (forall i :: 0 <= i < |xs| ==> key(xs[i]).Some?)
    && (forall i, j :: 0 <= i < j < |xs| ==> key(xs[i]).Some? && key(xs[j]).Some? && key(xs[j]).value < key(xs[i]).value)
  }

  /** A non-empty set whose labels all have keys has a label of largest key. */
  lemma {:induction false} MaximumExists(labels: set<string>, key: string -> Option<nat>)
    requires labels != {}
    requires forall l :: l in labels ==> key(l).Some?
    ensures exists m :: m in labels && forall l :: l in labels ==> key(l).value <= key(m).value
    decreases |labels|
  {
    var x :| x in labels;
    var rest := labels - {x};
    if rest != {} {
      MaximumExists(rest, key);
      var m :| m in rest && forall l :: l in rest ==> key(l).value <= key(m).value;
      if key(x).value <= key(m).value {
        assert forall l :: l in labels ==> key(l).value <= key(m).value by {
          forall l | l in labels ensures key(l).value <= key(m).value {
            if l != x { assert l in rest; }
          }
        }
      } else {
        assert forall l :: l in labels ==> key(l).value <= key(x).value by {
          forall l | l in labels ensures key(l).value <= key(x).value {
            if l != x { assert l in rest; }
          }
        }
      }
    } else {
      assert labels == {x};
    }
  }

  /**
   * `sorted(labels, key=..., reverse=True)`: `None` when some label has no
   * key (Python raises ValueError), otherwise every label once, keys never
   * increasing. Labels with equal keys come in an order the model leaves
   * open, as the iteration order of a Python set is.
   */
  method SortDescending(labels: set<string>, key: string -> Option<nat>) returns (r: Option<seq<string>>)
    ensures r.None? <==> exists l :: l in labels && key(l).None?
    ensures r.Some? ==> (forall l :: l in r.value <==> l in labels) && |r.value| == |labels|
    ensures r.Some? ==> NoDuplicates(r.value) && Ranked(r.value, key)
  {
    if exists l :: l in labels && key(l).None? {
      return None;
    }
    var rest := labels;
    var out: seq<string> := [];
    while rest != {}
      invariant rest <= labels
      invariant forall l :: l in labels <==> l in rest || l in out
      invariant forall l :: l in out ==> l !in rest
      invariant |out| + |rest| == |labels|
      invariant NoDuplicates(out)
      invariant Ranked(out, key)
      invariant forall i, l :: 0 <= i < |out| && l in rest ==> key(l).value <= key(out[i]).value
      decreases |rest|
    {
      MaximumExists(rest, key);
      var m :| m in rest && forall l :: l in rest ==> key(l).value <= key(m).value;
      AppendMinimum(out, m, key);
      out := out + [m];
      rest := rest - {m};
    }
    return Some(out);
  }

  /** Appending a new label whose key is at most every key so far keeps the list ranked and duplicate-free. */
  lemma AppendMinimum(out: seq<string>, m: string, key: string -> Option<nat>)
    requires NoDuplicates(out) && Ranked(out, key) && m !in out && key(m).Some?
    requires forall i :: 0 <= i < |out| ==> key(m).value <= key(out[i]).value
    ensures NoDuplicates(out + [m]) && Ranked(out + [m], key)
  {
    var xs := out + [m];
    assert forall i :: 0 <= i < |out| ==> xs[i] == out[i];
    assert xs[|out|] == m;
  }

  /**
   * Distinct labels ranked by a key that tells distinct labels apart are
   * strictly descending; the library's labels (a numeral and a unit) have
   * such keys, by ResolutionLabelValue and BitrateLabelValue.
   */
  lemma StrictWhenKeysDistinct(xs: seq<string>, key: string -> Option<nat>)
    requires NoDuplicates(xs) && Ranked(xs, key)
    requires forall i, j :: 0 <= i < j < |xs| ==> key(xs[i]) != key(xs[j]) || xs[i] == xs[j]
    ensures StrictlyRanked(xs, key)
  {
  }

  /** `list(dict.fromkeys(xs))` after the labels in `seen`: first occurrences, in order. */
  function DedupAfter(xs: seq<string>, seen: set<string>): (r: seq<string>)
    ensures NoDuplicates(r)
    ensures forall x :: x in r <==> x in xs && x !in seen
  {
    if xs == [] then []
    else if xs[0] in seen then DedupAfter(xs[1..], seen)
    else [xs[0]] + DedupAfter(xs[1..], seen + {xs[0]})
  }

  /** `list(dict.fromkeys(xs))` */
  function Dedup(xs: seq<string>): (r: seq<string>)
    ensures NoDuplicates(r)
    ensures forall x :: x in r <==> x in xs
  {
    DedupAfter(xs, {})
  }

  /** De-duplicating a list without duplicates changes nothing. */
  lemma {:induction false} DedupAfterKeepsDistinct(xs: seq<string>, seen: set<string>)
    requires NoDuplicates(xs)
    requires forall k :: 0 <= k < |xs| ==> xs[k] !in seen
    ensures DedupAfter(xs, seen) == xs
  {
    if xs != [] {
      var rest := xs[1..];
      assert xs == [xs[0]] + rest;
      assert NoDuplicates(rest) by {
        forall i, j | 0 <= i < j < |rest| ensures rest[i] != rest[j] {
          assert rest[i] == xs[i + 1] && rest[j] == xs[j + 1];
        }
      }
      forall k | 0 <= k < |rest| ensures rest[k] !in seen + {xs[0]} {
        assert rest[k] == xs[k + 1];
      }
      DedupAfterKeepsDistinct(rest, seen + {xs[0]});
      assert DedupAfter(xs, seen) == [xs[0]] + DedupAfter(rest, seen + {xs[0]});
    }
  }

  /** The result of `get_video_qualities` / `get_audio_qualities`. */
  datatype QualityList = Listed(labels: seq<string>) | LabelNotNumeric

  /** Every label with a bitrate key differs from "highest". */
  lemma NotHighest(ranked: seq<string>)
    requires forall i :: 0 <= i < |ranked| ==> BitrateValue(ranked[i]).Some?
    ensures "highest" !in ranked
  {
    HighestHasNoBitrate();
    forall i | 0 <= i < |ranked| ensures ranked[i] != "highest" {
      assert BitrateValue(ranked[i]).Some?;
    }
  }

  lemma ConsNoDuplicates(x: string, ys: seq<string>)
    requires NoDuplicates(ys) && x !in ys
    ensures NoDuplicates([x] + ys)
  {
    var xs := [x] + ys;
    forall i, j | 0 <= i < j < |xs| ensures xs[i] != xs[j] {
      assert xs[j] == ys[j - 1];
      if i > 0 { assert xs[i] == ys[i - 1]; }
    }
  }

  /**
   * The audio list is "highest" followed by the ranked labels, and the final
   * de-duplication leaves it as it is: "highest" has no bitrate key, so it
   * cannot be one of the ranked labels.
   */
  lemma AudioListDedup(ranked: seq<string>)
    requires NoDuplicates(ranked) && Ranked(ranked, BitrateValue)
    ensures Dedup(["highest"] + ranked) == ["highest"] + ranked
    ensures NoDuplicates(["highest"] + ranked)
  {
    var xs := ["highest"] + ranked;
    NotHighest(ranked);
    ConsNoDuplicates("highest", ranked);
    DedupAfterKeepsDistinct(xs, {});
  }
}
