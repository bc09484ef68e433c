/**
 * The filesystem as the adaptive download sees it: the temporary directory,
 * the three collision-free temporary names, and the removal of temporary
 * files in the `finally` block.
 */
module Files {
  import opened Wrappers

  newtype byte = b: int | 0 <= b < 256

  /** `os.path.join(dir, name)` for a relative `name`. */
  function Join(dir: string, name: string): (p: string)
    ensures |p| >= |name|
  {
    if dir == [] then name
    else if dir[|dir| - 1] == '/' then dir + name
    else dir + "/" + name
  }

  /** The joined path ends with the whole name, after the directory and at most one added separator. */
  lemma JoinEndsWithName(dir: string, name: string)
    ensures var p := Join(dir, name);
      && p[|p| - |name|..] == name
      && p[..|dir|] == dir
      && |dir| + |name| <= |p| <= |dir| + |name| + 1
  {
  }

  /** Joining onto one directory keeps distinct names distinct. */
  lemma JoinInjective(dir: string, a: string, b: string)
    requires Join(dir, a) == Join(dir, b)
    ensures a == b
  {
    if dir != [] {
      var prefix := if dir[|dir| - 1] == '/' then dir else dir + "/";
      assert Join(dir, a) == prefix + a && Join(dir, b) == prefix + b;
      assert (prefix + a)[|prefix|..] == a;
      assert (prefix + b)[|prefix|..] == b;
    }
  }

  /** `f"temp_video_{uuid.uuid4().hex}.mp4"` and its two siblings. */
  function VideoName(token: string): string { "temp_video_" + token + ".mp4" }
  function AudioName(token: string): string { "temp_audio_" + token + ".mp4" }
  function OutputName(token: string): string { "merged_" + token + ".mp4" }

  /** The three uuid4 hex tokens drawn for one adaptive download. */
  datatype Tokens = Tokens(video: string, audio: string, output: string)

  /** The three temporary paths of one adaptive download. */
  datatype TempPaths = TempPaths(video: string, audio: string, output: string)

  function TempPathsFor(dir: string, t: Tokens): TempPaths
  {
    TempPaths(Join(dir, VideoName(t.video)), Join(dir, AudioName(t.audio)), Join(dir, OutputName(t.output)))
  }

  /**
   * The three temporary paths are pairwise distinct whatever tokens are
   * drawn: their names differ in their fixed prefixes.
   */
  lemma TempPathsDistinct(dir: string, t: Tokens)
    ensures var p := TempPathsFor(dir, t);
      p.video != p.audio && p.video != p.output && p.audio != p.output
  {
    var v, a, o := VideoName(t.video), AudioName(t.audio), OutputName(t.output);
    assert v[5] == 'v' && a[5] == 'a';
    assert v[0] == 't' && a[0] == 't' && o[0] == 'm';
    if Join(dir, v) == Join(dir, a) { JoinInjective(dir, v, a); }
    if Join(dir, v) == Join(dir, o) { JoinInjective(dir, v, o); }
    if Join(dir, a) == Join(dir, o) { JoinInjective(dir, a, o); }
  }

  /**
   * The files of the filesystem and their contents. `undeletable` holds the
   * paths whose `os.remove` raises (a permission error, a file in use).
   */
  class FileSystem {
    var files: map<string, seq<byte>>
    const undeletable: set<string>

    constructor (files: map<string, seq<byte>>, undeletable: set<string>)
      ensures this.files == files && this.undeletable == undeletable
    {
      this.files := files;
      this.undeletable := undeletable;
    }

    /** `os.path.exists(path)` */
    method Exists(path: string) returns (b: bool)
      ensures b == (path in files)
    {
      b := path in files;
    }

    /** `open(path, "rb").read()`; `None` stands for the FileNotFoundError `open` raises. */
    method Read(path: string) returns (data: Option<seq<byte>>)
      ensures data == if path in files then Some(files[path]) else None
    {
      data := if path in files then Some(files[path]) else None;
    }

    /** Creating or overwriting a file. */
    method Write(path: string, data: seq<byte>)
      modifies this
      ensures files == old(files)[path := data]
    {
      files := files[path := data];
    }

    /** `os.remove(path)`; `removed` is false when it raises. */
    method Remove(path: string) returns (removed: bool)
      modifies this
      ensures removed == (path in old(files) && path !in undeletable)
      ensures files == if removed then old(files) - {path} else old(files)
    {
      removed := path in files && path !in undeletable;
      if removed {
        files := files - {path};
      }
    }
  }

  /** The paths of a list of optional paths that were assigned. */
  function Assigned(paths: seq<Option<string>>): set<string>
  {
    set i | 0 <= i < |paths| && paths[i].Some? :: paths[i].value
  }

  /**
   * The cleanup loop of the `finally` block: every assigned path that
   * exists is removed; a removal that fails is reported in `failed` (the
   * model of the logged warning) and never raised.
   */
  method Cleanup(fs: FileSystem, paths: seq<Option<string>>) returns (failed: set<string>)
    modifies fs
    ensures fs.files == old(fs.files) - (Assigned(paths) - fs.undeletable)
    ensures failed == (Assigned(paths) * fs.undeletable) * old(fs.files).Keys
  {
    failed := {};
    for i := 0 to |paths|
      invariant fs.files == old(fs.files) - (Assigned(paths[..i]) - fs.undeletable)
      invariant failed == (Assigned(paths[..i]) * fs.undeletable) * old(fs.files).Keys
    {
      assert Assigned(paths[..i + 1]) == Assigned(paths[..i]) + (if paths[i].Some? then {paths[i].value} else {}) by {
        assert forall k :: 0 <= k < i ==> paths[..i + 1][k] == paths[..i][k];
      }
      if paths[i].Some? {
        var p := paths[i].value;
        var present := fs.Exists(p);
        if present {
          var removed := fs.Remove(p);
          if !removed {
            failed := failed + {p};
          }
        }
      }
    }
    assert paths[..|paths|] == paths;
  }
}
