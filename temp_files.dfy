/**
 * The temporary audio files of one quiz request: a base path created empty by the
 * operating system, the `.mp3` file the downloader writes next to it, and the
 * clean-up that removes both while ignoring files that are already gone.
 * The file system is the set of paths that exist.
 */
module TempFiles {
  import opened Wrappers
  import opened Text

  /** `TempAudio`: the base path of a request's temporary files. */
  datatype TempAudio = TempAudio(basePath: string) {
    /** `TempAudio.mp3_path`. */
    function Mp3Path(): string {
      basePath + ".mp3"
    }
  }

  /** The audio file always lies next to the base file, under a different name. */
  lemma Mp3PathShape(tmp: TempAudio)
    ensures StartsWith(tmp.Mp3Path(), tmp.basePath)
    ensures |tmp.Mp3Path()| == |tmp.basePath| + 4
    ensures tmp.Mp3Path() != tmp.basePath
  {
    assert tmp.Mp3Path()[..|tmp.basePath|] == tmp.basePath;
  }

  /** Different requests never share an audio file. */
  lemma Mp3PathInjective(a: TempAudio, b: TempAudio)
    requires a.Mp3Path() == b.Mp3Path()
    ensures a == b
  {
    assert a.basePath == a.Mp3Path()[..|a.Mp3Path()| - 4];
  }

  /** The message of `os.remove` on a path that does not exist. */
  const NoSuchFile: string := "No such file or directory"

  /** The set of existing paths, and a record of the `cleanup_audio` calls made on it. */
  class FileSystem {
    var files: set<string>
    /** The base path of every `cleanup_audio` call, in call order. */
    ghost var cleanups: seq<string>

    constructor(initial: set<string>)
      ensures files == initial && cleanups == []
    {
      files := initial;
      cleanups := [];
    }

    /** `os.remove`: deletes an existing path, and fails on a missing one. */
    method Remove(path: string) returns (r: Outcome<string>)
      modifies this
      ensures path in old(files) ==> r == Pass
      ensures path !in old(files) ==> r == Fail(NoSuchFile)
      ensures files == old(files) - {path}
      ensures cleanups == old(cleanups)
    {
      if path in files {
        files := files - {path};
        r := Pass;
      } else {
        r := Fail(NoSuchFile);
      }
    }

    /** `safe_remove`: `os.remove` with its failure swallowed, so the path is gone either way. */
    method SafeRemove(path: string)
      modifies this
      ensures files == old(files) - {path}
      ensures cleanups == old(cleanups)
    {
      var _ := Remove(path);
    }

    /** `cleanup_audio`: removes the base file and the audio file, whichever exist. */
    method CleanupAudio(tmp: TempAudio)
      modifies this
      ensures files == old(files) - {tmp.basePath, tmp.Mp3Path()}
      ensures cleanups == old(cleanups) + [tmp.basePath]
    {
      SafeRemove(tmp.basePath);
      SafeRemove(tmp.Mp3Path());
      cleanups := cleanups + [tmp.basePath];
    }

    /**
     * `make_temp_audio`: the operating system creates an empty file under a name
     * that did not exist; the random name it picks is the parameter `name`.
     */
    method MakeTempAudio(name: string) returns (tmp: TempAudio)
      requires name !in files
      modifies this
      ensures tmp.basePath == name
      ensures files == old(files) + {name}
      ensures cleanups == old(cleanups)
    {
      files := files + {name};
      tmp := TempAudio(name);
    }
  }
}
