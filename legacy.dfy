/** The earlier service (`main.py`): no validation of the upload's name, the
    image staged as `temp_<filename>`, a search that stops at the first
    verified reference image, every error answered with 500, and the staged
    file removed on every path. */
module Legacy {
  import opened Common
  import opened PathRules
  import opened Environment

  /** The reference directory, relative to the working directory. */
  const DatabaseDir := "data"

  // ---------------------------------------------------------------------
  // Listing the reference directory

  /** The listing comprehension: the entries accepted by the `endswith` rule,
      in `listdir` order, each joined onto `dir`. */
  function Listing(dir: string, entries: seq<string>): (r: seq<string>)
    ensures |r| <= |entries|
  {
    if entries == [] then []
    else (if LegacyEntryAllowed(entries[0]) then [Join(dir, entries[0])] else []) + Listing(dir, entries[1..])
  }

  /** The listing holds exactly the accepted entries joined onto `dir`. */
  lemma {:induction false} ListingMembers(dir: string, entries: seq<string>, p: string)
    ensures p in Listing(dir, entries) <==> exists f :: f in entries && LegacyEntryAllowed(f) && p == Join(dir, f)
  {
    if entries != [] {
      ListingMembers(dir, entries[1..], p);
      if exists f :: f in entries && LegacyEntryAllowed(f) && p == Join(dir, f) {
        var f :| f in entries && LegacyEntryAllowed(f) && p == Join(dir, f);
        if f != entries[0] {
          assert f in entries[1..];
        }
      }
      if exists f :: f in entries[1..] && LegacyEntryAllowed(f) && p == Join(dir, f) {
        var f :| f in entries[1..] && LegacyEntryAllowed(f) && p == Join(dir, f);
        assert f in entries;
      }
    }
  }

  /** The filter keeps the `listdir` order. */
  lemma {:induction false} ListingAppend(dir: string, a: seq<string>, b: seq<string>)
    ensures Listing(dir, a + b) == Listing(dir, a) + Listing(dir, b)
  {
    if a != [] {
      assert (a + b)[0] == a[0] && (a + b)[1..] == a[1..] + b;
      ListingAppend(dir, a[1..], b);
    } else {
      assert a + b == b;
    }
  }

  /** `os.listdir` on a missing or unlistable directory raises OSError. */
  function DatabaseImages(dir: string, db: DirState): (r: Result<seq<string>>)
    ensures r.Err? <==> !db.Listed?
    ensures r.Err? ==> r.error == OSError
    ensures db.Listed? ==> r == Ok(Listing(dir, db.entries))
  {
    match db
    case Listed(entries) => Ok(Listing(dir, entries))
    case _ => Err(OSError)
  }

  // ---------------------------------------------------------------------
  // The first-match search

  predicate Verified(o: Outcome) {
    o.Verdict? && o.verified
  }

  /** The index of the first verified answer, if there is one. */
  function FirstVerified(outcomes: seq<Outcome>): (r: Option<nat>)
    ensures r.Some? ==> r.value < |outcomes| && Verified(outcomes[r.value])
                        && forall j :: 0 <= j < r.value ==> !Verified(outcomes[j])
    ensures r.None? <==> forall j :: 0 <= j < |outcomes| ==> !Verified(outcomes[j])
  {
    if outcomes == [] then None
    else if Verified(outcomes[0]) then Some(0)
    else match FirstVerified(outcomes[1..])
      case None => None
      case Some(k) => Some(k + 1)
  }

  /** How many candidates the search hands to the model before it stops. */
  function Examined(outcomes: seq<Outcome>): (n: nat)
    ensures n <= |outcomes|
  {
    match FirstVerified(outcomes)
    case Some(k) => k + 1
    case None => |outcomes|
  }

  /** The model's answers for `paths` while the working directory holds `files`. */
  function Outcomes(verdict: (string, string) -> Outcome, files: set<string>, query: string,
                    paths: seq<string>): (r: seq<Outcome>)
    ensures |r| == |paths|
  {
    seq(|paths|, i requires 0 <= i < |paths| => Answer(verdict, files, query, paths[i]))
  }

  function Queries(query: string, paths: seq<string>): (r: seq<(string, string)>)
    ensures |r| == |paths|
  {
    seq(|paths|, i requires 0 <= i < |paths| => (query, paths[i]))
  }

  /** `verify_against_database` as a value: whether some answer is verified. */
  function Verification(verdict: (string, string) -> Outcome, files: set<string>, query: string,
                        dir: string, db: DirState): Result<bool>
  {
    match DatabaseImages(dir, db)
    case Err(e) => Err(e)
    case Ok(paths) => Ok(FirstVerified(Outcomes(verdict, files, query, paths)).Some?)
  }

  /** The search reports a match exactly when some candidate is verified;
      failures and unverified answers only make it look further. */
  lemma MatchIffSomeVerified(outcomes: seq<Outcome>)
    ensures FirstVerified(outcomes).Some? <==> exists i :: 0 <= i < |outcomes| && Verified(outcomes[i])
    ensures (forall i :: 0 <= i < |outcomes| ==> outcomes[i] == Failed) ==> FirstVerified(outcomes).None?
  {
  }

  /** Answers after the first verified one do not matter: they are never asked for. */
  lemma {:induction false} LaterAnswersIrrelevant(a: seq<Outcome>, b: seq<Outcome>)
    requires FirstVerified(a).Some?
    ensures FirstVerified(a + b) == FirstVerified(a) && Examined(a + b) == Examined(a)
  {
    assert (a + b)[..|a|] == a;
    var k := FirstVerified(a).value;
    assert (a + b)[k] == a[k];
    assert forall j :: 0 <= j < k ==> (a + b)[j] == a[j];
    FirstVerifiedUnique(a + b, k);
  }

  lemma FirstVerifiedUnique(outcomes: seq<Outcome>, k: nat)
    requires k < |outcomes| && Verified(outcomes[k])
    requires forall j :: 0 <= j < k ==> !Verified(outcomes[j])
    ensures FirstVerified(outcomes) == Some(k)
  {
  }

  /** Lists the reference directory and asks the model about each image in
      turn, returning as soon as one is verified; a comparison that raises is
      skipped. */
  method VerifyAgainstDatabase(model: FaceModel, cwd: WorkingDir, query: string, dir: string, db: DirState)
    returns (r: Result<bool>)
    modifies model
    ensures r == Verification(model.verdict, cwd.files, query, dir, db)
    ensures db.Listed? ==>
      var paths := Listing(dir, db.entries);
      model.calls == old(model.calls)
                     + Queries(query, paths)[..Examined(Outcomes(model.verdict, cwd.files, query, paths))]
    ensures !db.Listed? ==> model.calls == old(model.calls)
  {
    var listing := DatabaseImages(dir, db);
    if listing.Err? {
      return Err(listing.error);
    }
    var paths := listing.value;
    ghost var outcomes := Outcomes(model.verdict, cwd.files, query, paths);
    ghost var queries := Queries(query, paths);
    assert Verification(model.verdict, cwd.files, query, dir, db) == Ok(FirstVerified(outcomes).Some?);
    for i := 0 to |paths|
      invariant forall j :: 0 <= j < i ==> !Verified(outcomes[j])
      invariant model.calls == old(model.calls) + queries[..i]
    {
      var o := model.Verify(cwd, query, paths[i]);
      assert o == outcomes[i];
      assert queries[..i + 1] == queries[..i] + [queries[i]];
      if o.Verdict? && o.verified {
        FirstVerifiedUnique(outcomes, i);
        assert Examined(outcomes) == i + 1;
        return Ok(true);
      }
    }
    assert FirstVerified(outcomes).None?;
    assert queries[..|paths|] == queries;
    r := Ok(false);
  }

  // ---------------------------------------------------------------------
  // The request handler

  /** `f"temp_{file.filename}"`: a missing filename is formatted as "None". */
  function TempPath(filename: Option<string>): string {
    "temp_" + match filename
              case None => "None"
              case Some(f) => f
  }

  /** The `try` block: an image the codec finds nothing in is a ValueError, a
      codec that raises escapes as is, and then the comparison runs. */
  function Pipeline(upload: Upload, codec: Codec, tmp: string, db: DirState,
                    verdict: (string, string) -> Outcome, files: set<string>): Result<bool>
  {
    match codec.decode(upload.contents)
    case NoImage => Err(ValueError)
    case DecodeRaises => Err(CvError)
    case Decoded =>
      if codec.write == WriteRaises then Err(CvError)
      else Verification(verdict, Staged(files, tmp, codec.write), tmp, DatabaseDir, db)
  }

  /** The comparisons the `try` block asks the model for, in order: the listed
      images up to and including the first verified one, once the upload is
      decoded and staged without error. */
  function Consulted(upload: Upload, codec: Codec, tmp: string, db: DirState,
                     verdict: (string, string) -> Outcome, files: set<string>): seq<(string, string)>
  {
    if codec.decode(upload.contents) == Decoded && codec.write != WriteRaises && db.Listed? then
      var paths := Listing(DatabaseDir, db.entries);
      Queries(tmp, paths)[..Examined(Outcomes(verdict, Staged(files, tmp, codec.write), tmp, paths))]
    else []
  }

  /** The response `verify_image` gives, as a value: `{"match": b}` or 500. */
  function Handle(upload: Upload, codec: Codec, db: DirState,
                  verdict: (string, string) -> Outcome, files: set<string>): Response<bool>
  {
    match Pipeline(upload, codec, TempPath(upload.filename), db, verdict, files)
    case Ok(b) => Success(b)
    case Err(_) => HttpError(500)
  }

  /** `verify_image`: stage, compare, answer, and remove the staged file. */
  method VerifyImage(cwd: WorkingDir, model: FaceModel, upload: Upload, codec: Codec, db: DirState)
    returns (resp: Response<bool>)
    modifies cwd, model
    ensures resp == Handle(upload, codec, db, model.verdict, old(cwd.files))
    ensures cwd.files == old(cwd.files) - {TempPath(upload.filename)}
    ensures model.calls == old(model.calls)
                           + Consulted(upload, codec, TempPath(upload.filename), db, model.verdict, old(cwd.files))
  {
    var tmp := TempPath(upload.filename);
    ghost var before := cwd.files;
    var outcome: Result<bool>;
    var decoded := codec.decode(upload.contents);
    if decoded == NoImage {
      outcome := Err(ValueError);
    } else if decoded == DecodeRaises {
      outcome := Err(CvError);
    } else if codec.write == WriteRaises {
      outcome := Err(CvError);
    } else {
      cwd.WriteImage(tmp, codec.write);
      outcome := VerifyAgainstDatabase(model, cwd, tmp, DatabaseDir, db);
      assert cwd.files == Staged(before, tmp, codec.write);
    }
    assert outcome == Pipeline(upload, codec, tmp, db, model.verdict, before);
    match outcome {
      case Ok(b) => resp := Success(b);
      case Err(_) => resp := HttpError(500);
    }
    assert cwd.files - {tmp} == before - {tmp};
    cwd.RemoveIfPresent(tmp);
  }

  /** This variant has no 400 path: a request fails with 500 exactly when
      decoding fails, the codec raises, or the directory cannot be listed. */
  lemma OnlyServerErrors(upload: Upload, codec: Codec, db: DirState,
                         verdict: (string, string) -> Outcome, files: set<string>)
    ensures var resp := Handle(upload, codec, db, verdict, files);
      && (resp.Success? || resp == HttpError(500))
      && (resp == HttpError(500) <==>
            codec.decode(upload.contents) != Decoded || codec.write == WriteRaises || !db.Listed?)
  {
  }

  /** An empty reference directory, or one whose images all fail to compare,
      gives `{"match": false}`. */
  lemma AllFailingNoMatch(upload: Upload, codec: Codec, entries: seq<string>,
                          verdict: (string, string) -> Outcome, files: set<string>)
    requires codec.decode(upload.contents) == Decoded && codec.write != WriteRaises
    requires var tmp := TempPath(upload.filename);
      forall p :: p in Listing(DatabaseDir, entries) ==> Answer(verdict, Staged(files, tmp, codec.write), tmp, p) == Failed
    ensures Handle(upload, codec, Listed(entries), verdict, files) == Success(false)
  {
    var tmp := TempPath(upload.filename);
    var paths := Listing(DatabaseDir, entries);
    var outcomes := Outcomes(verdict, Staged(files, tmp, codec.write), tmp, paths);
    forall i | 0 <= i < |outcomes| ensures outcomes[i] == Failed {
      assert paths[i] in Listing(DatabaseDir, entries);
    }
    MatchIffSomeVerified(outcomes);
  }
}
