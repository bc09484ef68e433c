/**
 * The utilities of src/Safe.py: filename sanitising, the retrying connection
 * to the video site, and the playlist-URL classifier.
 */
module Safe {
  import opened Wrappers
  import opened Text

  /** The characters Windows refuses in file names, replaced by `safe_filename`. */
  const Forbidden: set<char> := {'<', '>', ':', '"', '/', '\\', '|', '?', '*'}

  function Sanitize(c: char): char
  {
    if c in Forbidden then '_' else c
  }

  /**
   * `safe_filename`: a per-character substitution of every forbidden
   * character by an underscore; every other character stays where it was.
   */
  function SafeFilename(name: string): (r: string)
    ensures |r| == |name|
    ensures forall i :: 0 <= i < |name| ==> name[i] !in Forbidden ==> r[i] == name[i]
    ensures forall i :: 0 <= i < |name| ==> name[i] in Forbidden ==> r[i] == '_'
    ensures forall i :: 0 <= i < |r| ==> r[i] !in Forbidden
  {
    if name == [] then [] else [Sanitize(name[0])] + SafeFilename(name[1..])
  }

  /** Sanitising twice is sanitising once. */
  lemma SafeFilenameIdempotent(name: string)
    ensures SafeFilename(SafeFilename(name)) == SafeFilename(name)
  {
  }

  /** A name with no forbidden character is returned as it is. */
  lemma SafeFilenameKeepsCleanNames(name: string)
    requires forall i :: 0 <= i < |name| ==> name[i] !in Forbidden
    ensures SafeFilename(name) == name
  {
  }

  /** The argument of `is_playlist_url`: a Python `str`, or any other object. */
  datatype UrlArg = Str(text: string) | NotStr

  /**
   * `is_playlist_url`: true exactly when the argument is a string in which
   * `list=` or `/playlist` occurs.
   */
  function IsPlaylistUrl(url: UrlArg): (r: bool)
    ensures r <==> (url.Str? &&
                    ((exists i: nat :: OccursAt(url.text, "list=", i)) ||
                     (exists i: nat :: OccursAt(url.text, "/playlist", i))))
  {
    match url
    case NotStr => false
    case Str(s) => Contains(s, "list=") || Contains(s, "/playlist")
  }

  /** Any string with a `list=` parameter or a `/playlist` path segment is a playlist URL. */
  lemma PlaylistMarkersDetected(x: string, y: string)
    ensures IsPlaylistUrl(Str(x + "list=" + y))
    ensures IsPlaylistUrl(Str(x + "/playlist" + y))
  {
    ContainsInfix(x, "list=", y);
    ContainsInfix(x, "/playlist", y);
  }

  /** One call to the `YouTube(url)` constructor, as the attempt oracle reports it. */
  datatype Attempt<T> = Connected(value: T) | UrlError(reason: string) | OtherError(reason: string)

  /** How `safe_youtube` ends. */
  datatype Connection<T> =
    | Loaded(value: T)
      // the Exception raised after the last retry, carrying the last URLError (None if none)
    | Exhausted(retries: int, last: Option<string>)
      // a non-URLError exception, propagated from the attempt that raised it
    | Propagated(reason: string)

  function Max0(n: int): nat { if n < 0 then 0 else n }

  /**
   * `safe_youtube(url, retries, delay)`: attempt `i` (from 0) is `attempt(i)`.
   * Only a URLError is retried, each one followed by one `sleep(delay)`,
   * recorded in `sleeps`; `attempts` counts the attempts made.
   */
  method SafeYoutube<T>(retries: int, delay: int, attempt: nat -> Attempt<T>)
    returns (r: Connection<T>, attempts: nat, sleeps: seq<int>)
    ensures attempts <= Max0(retries)
    ensures forall i :: 0 <= i < attempts - 1 ==> attempt(i).UrlError?
    ensures r.Loaded? <==> attempts > 0 && attempt(attempts - 1).Connected?
    ensures r.Loaded? ==> r.value == attempt(attempts - 1).value
    ensures r.Propagated? <==> attempts > 0 && attempt(attempts - 1).OtherError?
    ensures r.Propagated? ==> r.reason == attempt(attempts - 1).reason
    ensures r.Exhausted? <==> attempts == Max0(retries) && forall i :: 0 <= i < attempts ==> attempt(i).UrlError?
    ensures r.Exhausted? ==> r.retries == retries
    ensures r.Exhausted? ==> r.last == if retries <= 0 then None else Some(attempt(retries - 1).reason)
    ensures |sleeps| == if r.Exhausted? then attempts else attempts - 1
    ensures forall k :: 0 <= k < |sleeps| ==> sleeps[k] == delay
  {
    var last: Option<string> := None;
    sleeps := [];
    var i := 0;
    while i < retries
      invariant 0 <= i <= Max0(retries)
      invariant forall j :: 0 <= j < i ==> attempt(j).UrlError?
      invariant last == if i == 0 then None else Some(attempt(i - 1).reason)
      invariant |sleeps| == i
      invariant forall k :: 0 <= k < |sleeps| ==> sleeps[k] == delay
    {
      match attempt(i) {
        case Connected(v) =>
          return Loaded(v), i + 1, sleeps;
        case OtherError(e) =>
          return Propagated(e), i + 1, sleeps;
        case UrlError(e) =>
          last := Some(e);
          sleeps := sleeps + [delay];
      }
      i := i + 1;
    }
    return Exhausted(retries, last), i, sleeps;
  }
}
