/** The process's surroundings that a request touches: the working directory in
    which the temporary upload is staged, and the external face-verification
    model, which is consulted once per (query, candidate) pair. */
module Environment {
  import opened Common

  /** The files present in the process's working directory, by relative path. */
  class WorkingDir {
    var files: set<string>

    constructor (initial: set<string>)
      ensures files == initial
    {
      files := initial;
    }

    /** `os.path.exists`: changes nothing. */
    method Exists(path: string) returns (present: bool)
      ensures present <==> path in files
    {
      present := path in files;
    }

    /** `os.remove`, only ever called after `Exists` said yes. */
    method Remove(path: string)
      requires path in files
      modifies this
      ensures files == old(files) - {path}
    {
      files := files - {path};
    }

    /** The `finally` clause of both handlers: `os.remove` guarded by
        `os.path.exists`. Whatever was there under `path` is gone afterwards. */
    method RemoveIfPresent(path: string)
      modifies this
      ensures files == old(files) - {path}
    {
      var present := Exists(path);
      if present {
        Remove(path);
      } else {
        assert files == files - {path};
      }
    }

    /** Writing the resized image to `path`: creates or overwrites the file when
        the codec reports it written, and leaves the directory as it was otherwise. */
    method WriteImage(path: string, w: WriteOutcome)
      modifies this
      ensures files == Staged(old(files), path, w)
    {
      if w == Written {
        files := files + {path};
      }
    }
  }

  /** The working directory once the resized image has been written to `tmp`. */
  function Staged(files: set<string>, tmp: string, w: WriteOutcome): set<string> {
    if w == Written then files + {tmp} else files
  }

  /** The answer the model gives for `img1` against `img2`, given the files in
      the working directory: a query file that is not there makes the call raise. */
  function Answer(verdict: (string, string) -> Outcome, files: set<string>, img1: string, img2: string): Outcome
  {
    if img1 in files then verdict(img1, img2) else Failed
  }

  /** The loaded face model. `verdict` is what the primitive answers for a
      (query, candidate) pair whose query file exists; `calls` records every pair
      it has been asked about, in order. */
  class FaceModel {
    const verdict: (string, string) -> Outcome
    var calls: seq<(string, string)>

    constructor (verdict: (string, string) -> Outcome)
      ensures this.verdict == verdict && calls == []
    {
      this.verdict := verdict;
      calls := [];
    }

    method Verify(dir: WorkingDir, img1: string, img2: string) returns (o: Outcome)
      modifies this
      ensures o == Answer(verdict, dir.files, img1, img2)
      ensures calls == old(calls) + [(img1, img2)]
    {
      o := Answer(verdict, dir.files, img1, img2);
      calls := calls + [(img1, img2)];
    }
  }
}
