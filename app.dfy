/** The stricter service (`src/app.py`): validates the upload's name, stages the
    decoded image as `temp_<filename>`, compares it with every allowed image in
    the reference directory, keeps the verified candidate with the highest
    confidence, maps errors to 400 or 500 and always removes the staged file. */
module App {
  import opened Common
  import opened PathRules
  import opened Environment

  /** The response body. `isMatch` is the JSON field `match`. */
  datatype VerificationResult = VerificationResult(isMatch: bool, confidence: real, matchedImage: string)

  const NoMatch := VerificationResult(false, 0.0, "")

  /** The reported percentage; the source also rounds it to two decimals. */
  function Percentage(c: real): real {
    c * 100.0
  }

  // ---------------------------------------------------------------------
  // Listing the reference directory

  /** The entries the listing comprehension keeps, in iteration order. */
  function AllowedEntries(entries: seq<string>): (r: seq<string>)
    ensures |r| <= |entries|
  {
    if entries == [] then []
    else (if EntryAllowed(entries[0]) then [entries[0]] else []) + AllowedEntries(entries[1..])
  }

  /** The kept entries are exactly the entries whose lower-cased suffix is allowed. */
  lemma {:induction false} AllowedEntriesMembers(entries: seq<string>, n: string)
    ensures n in AllowedEntries(entries) <==> n in entries && EntryAllowed(n)
  {
    if entries != [] {
      AllowedEntriesMembers(entries[1..], n);
      assert n in entries <==> n == entries[0] || n in entries[1..];
    }
  }

  /** The filter keeps the iteration order: filtering a concatenation is the
      concatenation of the filtered parts. */
  lemma {:induction false} AllowedEntriesAppend(a: seq<string>, b: seq<string>)
    ensures AllowedEntries(a + b) == AllowedEntries(a) + AllowedEntries(b)
  {
    if a != [] {
      assert (a + b)[0] == a[0] && (a + b)[1..] == a[1..] + b;
      AllowedEntriesAppend(a[1..], b);
      var head := if EntryAllowed(a[0]) then [a[0]] else [];
      calc {
        AllowedEntries(a + b);
        head + AllowedEntries(a[1..] + b);
        head + (AllowedEntries(a[1..]) + AllowedEntries(b));
        (head + AllowedEntries(a[1..])) + AllowedEntries(b);
      }
    } else {
      assert a + b == b;
    }
  }

  /** The reference images' names, or the exception the listing raises: a
      missing directory raises ValueError, one that cannot be listed OSError. */
  function DatabaseImages(db: DirState): (r: Result<seq<string>>)
    ensures db.Missing? <==> r == Err(ValueError)
    ensures db.Unlistable? <==> r == Err(OSError)
    ensures db.Listed? ==> r == Ok(AllowedEntries(db.entries))
    ensures r.Ok? <==> db.Listed?
  {
    match db
    case Missing => Err(ValueError)
    case Unlistable => Err(OSError)
    case Listed(entries) => Ok(AllowedEntries(entries))
  }

  // ---------------------------------------------------------------------
  // The best-match search, as a specification

  /** One candidate's name together with what the model answered for it. */
  datatype Probe = Probe(name: string, outcome: Outcome)

  /** `1 - distance`, a missing distance counting as 1. */
  function Confidence(o: Outcome): real
    requires o.Verdict?
  {
    1.0 - o.distance.GetOr(1.0)
  }

  /** A candidate that can become the match: verified, with positive confidence. */
  predicate Eligible(p: Probe) {
    p.outcome.Verdict? && p.outcome.verified && Confidence(p.outcome) > 0.0
  }

  function Hit(p: Probe): VerificationResult
    requires p.outcome.Verdict?
  {
    VerificationResult(true, Percentage(Confidence(p.outcome)), p.name)
  }

  /** The loop's accumulators: `best_match` and `highest_confidence`. */
  datatype Search = Search(best: VerificationResult, highest: real)

  const Start := Search(NoMatch, 0.0)

  /** One iteration of the loop. */
  function Step(s: Search, p: Probe): Search {
    match p.outcome
    case Failed => s
    case Verdict(verified, _) =>
      var c := Confidence(p.outcome);
      if verified && c > s.highest then Search(Hit(p), c) else s
  }

  /** The loop run from `s` over `probes`, first to last. */
  function Scan(s: Search, probes: seq<Probe>): Search
    decreases |probes|
  {
    if probes == [] then s else Scan(Step(s, probes[0]), probes[1..])
  }

  /** What the source's `verify_against_database` returns for these answers. */
  function BestMatch(probes: seq<Probe>): VerificationResult {
    Scan(Start, probes).best
  }

  /** The accumulators agree with each other: a match exactly when the highest
      confidence is positive, the match reports that confidence, and no match
      is the default result. */
  predicate Consistent(s: Search) {
    && s.highest >= 0.0
    && (s.best.isMatch <==> s.highest > 0.0)
    && (!s.best.isMatch ==> s.best == NoMatch)
    && (s.best.isMatch ==> s.best.confidence == Percentage(s.highest))
  }

  /** Running the loop further keeps the accumulators consistent and never
      lowers the highest confidence. */
  lemma {:induction false} ScanKeepsConsistent(s: Search, probes: seq<Probe>)
    requires Consistent(s)
    ensures Consistent(Scan(s, probes)) && Scan(s, probes).highest >= s.highest
    decreases |probes|
  {
    if probes != [] {
      ScanKeepsConsistent(Step(s, probes[0]), probes[1..]);
    }
  }

  lemma {:induction false} ScanAppend(s: Search, a: seq<Probe>, b: seq<Probe>)
    ensures Scan(s, a + b) == Scan(Scan(s, a), b)
    decreases |a|
  {
    if a != [] {
      assert (a + b)[0] == a[0] && (a + b)[1..] == a[1..] + b;
      ScanAppend(Step(s, a[0]), a[1..], b);
    } else {
      assert a + b == b;
    }
  }

  /** Running the loop over one more candidate is one more step. */
  lemma ScanSnoc(s: Search, a: seq<Probe>, p: Probe)
    ensures Scan(s, a + [p]) == Step(Scan(s, a), p)
  {
    ScanAppend(s, a, [p]);
    assert [p][1..] == [];
  }

  /** `highest_confidence` never decreases as more candidates are examined. */
  lemma HighestNeverDecreases(a: seq<Probe>, b: seq<Probe>)
    ensures Scan(Start, a).highest <= Scan(Start, a + b).highest
    ensures Consistent(Scan(Start, a + b))
  {
    ScanAppend(Start, a, b);
    ScanKeepsConsistent(Start, a);
    ScanKeepsConsistent(Scan(Start, a), b);
  }

  /** A candidate that cannot be the match leaves the accumulators as they
      were, wherever it occurs in the sequence. */
  lemma IneligibleIgnored(a: seq<Probe>, p: Probe, b: seq<Probe>)
    requires !Eligible(p)
    ensures Scan(Start, a + [p] + b) == Scan(Start, a + b)
  {
    ScanKeepsConsistent(Start, a);
    assert Step(Scan(Start, a), p) == Scan(Start, a);
    ScanAppend(Start, a + [p], b);
    ScanAppend(Start, a, [p]);
    ScanAppend(Start, a, b);
  }

  /** A candidate whose comparison raised, and a verified candidate with no
      distance (confidence 0), change nothing: the search goes on as if they
      were not there. */
  lemma SkippedCandidates(a: seq<Probe>, name: string, verified: bool, b: seq<Probe>)
    ensures Scan(Start, a + [Probe(name, Failed)] + b) == Scan(Start, a + b)
    ensures Scan(Start, a + [Probe(name, Verdict(verified, None))] + b) == Scan(Start, a + b)
  {
    IneligibleIgnored(a, Probe(name, Failed), b);
    IneligibleIgnored(a, Probe(name, Verdict(verified, None)), b);
  }

  /** Candidate `k` is the one the search reports: eligible, strictly more
      confident than every eligible candidate before it, and at least as
      confident as every eligible candidate after it. */
  predicate IsFirstBest(probes: seq<Probe>, k: int) {
    && 0 <= k < |probes| && Eligible(probes[k])
    && (forall j :: 0 <= j < k && Eligible(probes[j]) ==>
          Confidence(probes[j].outcome) < Confidence(probes[k].outcome))
    && (forall j :: k < j < |probes| && Eligible(probes[j]) ==>
          Confidence(probes[j].outcome) <= Confidence(probes[k].outcome))
  }

  /** What the search computes, stated without the loop: no match exactly when
      no candidate is eligible, and otherwise the earliest of the most
      confident eligible candidates, with its confidence. */
  predicate Describes(probes: seq<Probe>, s: Search) {
    && (!s.best.isMatch <==> forall j :: 0 <= j < |probes| ==> !Eligible(probes[j]))
    && (!s.best.isMatch ==> s.best == NoMatch && s.highest == 0.0)
    && (s.best.isMatch ==> exists k :: 0 <= k < |probes| && IsFirstBest(probes, k)
                                       && s.best == Hit(probes[k])
                                       && s.highest == Confidence(probes[k].outcome))
  }

  lemma {:induction false} ScanCharacterised(probes: seq<Probe>)
    ensures Describes(probes, Scan(Start, probes))
    decreases |probes|
  {
    if probes == [] {
      return;
    }
    var n := |probes| - 1;
    var init, last := probes[..n], probes[n];
    assert probes == init + [last];
    ScanCharacterised(init);
    ScanAppend(Start, init, [last]);
    ScanKeepsConsistent(Start, init);
    var s0 := Scan(Start, init);
    assert Scan(Start, probes) == Step(s0, last);
    if Step(s0, last) != s0 {
      DescribesTakeOver(init, last, s0);
    } else if s0.best.isMatch {
      DescribesKeepMatch(init, last, s0);
    } else {
      DescribesStillNone(init, last, s0);
    }
  }

  /** The last candidate beats the best so far and becomes the match. */
  lemma DescribesTakeOver(init: seq<Probe>, last: Probe, s0: Search)
    requires Describes(init, s0) && Consistent(s0) && Step(s0, last) != s0
    ensures Describes(init + [last], Step(s0, last))
  {
    var probes, n := init + [last], |init|;
    assert Eligible(last) && Confidence(last.outcome) > s0.highest;
    assert Step(s0, last) == Search(Hit(last), Confidence(last.outcome));
    BoundedByHighest(init, s0);
    forall j | 0 <= j < n ensures probes[j] == init[j] { }
    assert probes[n] == last;
    assert IsFirstBest(probes, n);
  }

  /** Every eligible candidate seen so far is at most as confident as `highest`. */
  lemma BoundedByHighest(probes: seq<Probe>, s: Search)
    requires Describes(probes, s) && Consistent(s)
    ensures forall j :: 0 <= j < |probes| && Eligible(probes[j]) ==> Confidence(probes[j].outcome) <= s.highest
  {
    if s.best.isMatch {
      var k :| 0 <= k < |probes| && IsFirstBest(probes, k) && s.highest == Confidence(probes[k].outcome);
    }
  }

  /** The last candidate does not beat an existing match, which stays. */
  lemma DescribesKeepMatch(init: seq<Probe>, last: Probe, s0: Search)
    requires Describes(init, s0) && Consistent(s0) && Step(s0, last) == s0 && s0.best.isMatch
    ensures Describes(init + [last], s0)
  {
    var probes, n := init + [last], |init|;
    var k0 :| 0 <= k0 < n && IsFirstBest(init, k0) && s0.best == Hit(init[k0])
              && s0.highest == Confidence(init[k0].outcome);
    assert probes[k0] == init[k0];
    forall j | 0 <= j < n && Eligible(probes[j])
      ensures j < k0 ==> Confidence(probes[j].outcome) < Confidence(probes[k0].outcome)
      ensures j > k0 ==> Confidence(probes[j].outcome) <= Confidence(probes[k0].outcome)
    {
      assert probes[j] == init[j];
    }
    assert probes[n] == last;
    assert IsFirstBest(probes, k0);
  }

  /** No match so far and the last candidate is not eligible either. */
  lemma DescribesStillNone(init: seq<Probe>, last: Probe, s0: Search)
    requires Describes(init, s0) && Consistent(s0) && Step(s0, last) == s0 && !s0.best.isMatch
    ensures Describes(init + [last], s0)
  {
    var probes, n := init + [last], |init|;
    forall j | 0 <= j < |probes| ensures !Eligible(probes[j]) {
      if j < n {
        assert probes[j] == init[j];
      }
    }
  }

  /** At most one candidate satisfies `IsFirstBest`, so the match is determined. */
  lemma FirstBestUnique(probes: seq<Probe>, k1: int, k2: int)
    requires IsFirstBest(probes, k1) && IsFirstBest(probes, k2)
    ensures k1 == k2
  {
  }

  /** The search's answer in terms of the candidates alone. */
  lemma BestMatchSpec(probes: seq<Probe>)
    ensures !BestMatch(probes).isMatch <==> forall j :: 0 <= j < |probes| ==> !Eligible(probes[j])
    ensures !BestMatch(probes).isMatch ==> BestMatch(probes) == NoMatch
    ensures forall k :: IsFirstBest(probes, k) ==> BestMatch(probes) == Hit(probes[k])
  {
    ScanCharacterised(probes);
    if BestMatch(probes).isMatch {
      var k0 :| IsFirstBest(probes, k0) && BestMatch(probes) == Hit(probes[k0]);
      forall k | IsFirstBest(probes, k) ensures BestMatch(probes) == Hit(probes[k]) {
        FirstBestUnique(probes, k, k0);
      }
    }
  }

  /** A single verified candidate with distance `d < 1` among candidates that
      cannot match is reported with confidence `(1 - d) * 100` and its name. */
  lemma SingleVerifiedCandidate(probes: seq<Probe>, k: int, d: real)
    requires 0 <= k < |probes| && probes[k].outcome == Verdict(true, Some(d)) && d < 1.0
    requires forall j :: 0 <= j < |probes| && j != k ==> !Eligible(probes[j])
    ensures BestMatch(probes) == VerificationResult(true, (1.0 - d) * 100.0, probes[k].name)
  {
    assert IsFirstBest(probes, k);
    BestMatchSpec(probes);
  }

  /** Two eligible candidates with the same confidence: the later one is never
      the reported match unless something before it already beats it. */
  lemma TieGoesToEarlier(probes: seq<Probe>, i: int, j: int)
    requires 0 <= i < j < |probes| && Eligible(probes[i]) && Eligible(probes[j])
    requires Confidence(probes[i].outcome) == Confidence(probes[j].outcome)
    ensures !IsFirstBest(probes, j)
  {
  }

  // ---------------------------------------------------------------------
  // The best-match search, as the source runs it

  /** The (name, answer) pairs for the listed names, querying with `query`
      against `dir/name` while the working directory holds `files`. */
  function Probes(verdict: (string, string) -> Outcome, files: set<string>, query: string,
                  dir: string, names: seq<string>): (r: seq<Probe>)
    ensures |r| == |names|
  {
    seq(|names|, i requires 0 <= i < |names| =>
      Probe(names[i], Answer(verdict, files, query, Join(dir, names[i]))))
  }

  /** The verifier calls made for the listed names, in order. */
  function Queries(query: string, dir: string, names: seq<string>): (r: seq<(string, string)>)
    ensures |r| == |names|
  {
    seq(|names|, i requires 0 <= i < |names| => (query, Join(dir, names[i])))
  }

  /** `verify_against_database` as a value: listing errors become ValueError. */
  function Verification(verdict: (string, string) -> Outcome, files: set<string>, query: string,
                        dir: string, db: DirState): Result<VerificationResult>
  {
    match DatabaseImages(db)
    case Err(_) => Err(ValueError)
    case Ok(names) => Ok(BestMatch(Probes(verdict, files, query, dir, names)))
  }

  /** Lists the reference directory and compares `query` with every allowed
      image, keeping the best verified one; per-candidate failures are skipped. */
  method VerifyAgainstDatabase(model: FaceModel, cwd: WorkingDir, query: string, dir: string, db: DirState)
    returns (r: Result<VerificationResult>)
    modifies model
    ensures r == Verification(model.verdict, cwd.files, query, dir, db)
    ensures model.calls == old(model.calls) + (if db.Listed? then Queries(query, dir, AllowedEntries(db.entries)) else [])
  {
    var listing := DatabaseImages(db);
    if listing.Err? {
      return Err(ValueError);
    }
    var best := CompareWithImages(model, cwd, query, dir, listing.value);
    r := Ok(best);
  }

  /** The loop of `verify_against_database`: compares `query` with each listed
      image in turn, keeping the most confident verified one. */
  method CompareWithImages(model: FaceModel, cwd: WorkingDir, query: string, dir: string, images: seq<string>)
    returns (best: VerificationResult)
    modifies model
    ensures best == BestMatch(Probes(model.verdict, cwd.files, query, dir, images))
    ensures model.calls == old(model.calls) + Queries(query, dir, images)
  {
    ghost var probes := Probes(model.verdict, cwd.files, query, dir, images);
    ghost var queries := Queries(query, dir, images);
    best := NoMatch;
    var highest := 0.0;
    for i := 0 to |images|
      invariant Search(best, highest) == Scan(Start, probes[..i])
      invariant model.calls == old(model.calls) + queries[..i]
    {
      var path := Join(dir, images[i]);
      var o := model.Verify(cwd, query, path);
      assert probes[i] == Probe(images[i], o);
      match o {
        case Failed =>
        case Verdict(verified, distance) =>
          var confidence := 1.0 - distance.GetOr(1.0);
          if verified && confidence > highest {
            highest := confidence;
            best := VerificationResult(true, Percentage(confidence), images[i]);
          }
      }
      assert Search(best, highest) == Step(Scan(Start, probes[..i]), probes[i]);
      assert probes[..i + 1] == probes[..i] + [probes[i]];
      ScanSnoc(Start, probes[..i], probes[i]);
      assert queries[..i + 1] == queries[..i] + [queries[i]];
    }
    assert probes[..|images|] == probes;
    assert queries[..|images|] == queries;
  }

  // ---------------------------------------------------------------------
  // The request handler

  /** The name the upload is staged under, relative to the working directory. */
  function TempPath(filename: string): string {
    "temp_" + filename
  }

  /** The two checks made before anything is staged: a non-empty filename whose
      lower-cased suffix is an allowed extension. */
  predicate Accepted(upload: Upload) {
    upload.filename.Some? && upload.filename.value != "" && UploadAllowed(upload.filename.value)
  }

  /** The `try` block: decoding (any failure is a ValueError), staging (a codec
      error escapes as is) and the comparison. */
  function Pipeline(upload: Upload, codec: Codec, tmp: string, dir: string, db: DirState,
                    verdict: (string, string) -> Outcome, files: set<string>): Result<VerificationResult>
  {
    if codec.decode(upload.contents) != Decoded then Err(ValueError)
    else if codec.write == WriteRaises then Err(CvError)
    else Verification(verdict, Staged(files, tmp, codec.write), tmp, dir, db)
  }

  /** The comparisons the `try` block asks the model for, in order: one per
      allowed image, once the upload is decoded and staged without error. */
  function Consulted(upload: Upload, codec: Codec, tmp: string, dir: string, db: DirState): seq<(string, string)> {
    if codec.decode(upload.contents) == Decoded && codec.write != WriteRaises && db.Listed?
    then Queries(tmp, dir, AllowedEntries(db.entries))
    else []
  }

  /** The `except` clauses: ValueError is the client's fault, anything else the server's. */
  function Respond(outcome: Result<VerificationResult>): Response<VerificationResult> {
    match outcome
    case Ok(v) => Success(v)
    case Err(e) => HttpError(if e == ValueError then 400 else 500)
  }

  /** The response `verify_image` gives, as a value. */
  function Handle(upload: Upload, codec: Codec, dir: string, db: DirState,
                  verdict: (string, string) -> Outcome, files: set<string>): Response<VerificationResult>
  {
    if !Accepted(upload) then HttpError(400)
    else Respond(Pipeline(upload, codec, TempPath(upload.filename.value), dir, db, verdict, files))
  }

  /** The `try` block of `verify_image`, run on an accepted upload. */
  method Attempt(cwd: WorkingDir, model: FaceModel, upload: Upload, codec: Codec, tmp: string,
                 dir: string, db: DirState)
    returns (outcome: Result<VerificationResult>)
    modifies cwd, model
    ensures outcome == Pipeline(upload, codec, tmp, dir, db, model.verdict, old(cwd.files))
    ensures model.calls == old(model.calls) + Consulted(upload, codec, tmp, dir, db)
    ensures cwd.files == if codec.decode(upload.contents) == Decoded then Staged(old(cwd.files), tmp, codec.write)
                         else old(cwd.files)
  {
    if codec.decode(upload.contents) != Decoded {
      outcome := Err(ValueError);
    } else if codec.write == WriteRaises {
      outcome := Err(CvError);
    } else {
      cwd.WriteImage(tmp, codec.write);
      outcome := VerifyAgainstDatabase(model, cwd, tmp, dir, db);
    }
  }

  /** `verify_image`: validate, stage, compare, answer, and remove the staged
      file on every path that got as far as choosing its name. */
  method VerifyImage(cwd: WorkingDir, model: FaceModel, upload: Upload, codec: Codec, dir: string, db: DirState)
    returns (resp: Response<VerificationResult>)
    modifies cwd, model
    ensures resp == Handle(upload, codec, dir, db, model.verdict, old(cwd.files))
    ensures !Accepted(upload) ==> cwd.files == old(cwd.files) && model.calls == old(model.calls)
    ensures Accepted(upload) ==> cwd.files == old(cwd.files) - {TempPath(upload.filename.value)}
    ensures Accepted(upload) ==>
      model.calls == old(model.calls) + Consulted(upload, codec, TempPath(upload.filename.value), dir, db)
  {
    if upload.filename.None? || upload.filename.value == "" {
      return HttpError(400);
    }
    var filename := upload.filename.value;
    if !UploadAllowed(filename) {
      return HttpError(400);
    }
    var tmp := TempPath(filename);
    ghost var before := cwd.files;
    var outcome := Attempt(cwd, model, upload, codec, tmp, dir, db);
    resp := Respond(outcome);
    assert cwd.files - {tmp} == before - {tmp};
    cwd.RemoveIfPresent(tmp);
  }

  /** Which status each request gets: 400 for a rejected name, an undecodable
      image or an unusable reference directory; 500 only when the codec raises
      while staging; 200 otherwise, with the best match as the body. */
  lemma StatusCodes(upload: Upload, codec: Codec, dir: string, db: DirState,
                    verdict: (string, string) -> Outcome, files: set<string>)
    ensures var resp := Handle(upload, codec, dir, db, verdict, files);
      && (resp == HttpError(400) <==>
            !Accepted(upload) || codec.decode(upload.contents) != Decoded
            || (codec.write != WriteRaises && !db.Listed?))
      && (resp == HttpError(500) <==>
            Accepted(upload) && codec.decode(upload.contents) == Decoded && codec.write == WriteRaises)
      && (resp.Success? <==> Accepted(upload) && codec.decode(upload.contents) == Decoded
                             && codec.write != WriteRaises && db.Listed?)
  {
  }

  /** Every 200 body keeps the result's invariant: confidence and name are set
      only with a match, and a match has positive confidence. */
  lemma SuccessBodyConsistent(upload: Upload, codec: Codec, dir: string, db: DirState,
                              verdict: (string, string) -> Outcome, files: set<string>)
    requires Handle(upload, codec, dir, db, verdict, files).Success?
    ensures var v := Handle(upload, codec, dir, db, verdict, files).body;
      (!v.isMatch ==> v == NoMatch) && (v.isMatch ==> v.confidence > 0.0)
  {
    var tmp := TempPath(upload.filename.value);
    var names := DatabaseImages(db).value;
    var probes := Probes(verdict, Staged(files, tmp, codec.write), tmp, dir, names);
    ScanKeepsConsistent(Start, probes);
  }

  lemma {:induction false} NothingAllowed(entries: seq<string>)
    requires forall n :: n in entries ==> !EntryAllowed(n)
    ensures AllowedEntries(entries) == []
  {
    if entries != [] {
      assert entries[0] in entries;
      assert forall n :: n in entries[1..] ==> n in entries;
      NothingAllowed(entries[1..]);
    }
  }

  /** A reference directory without allowed images gives a 200 with no match. */
  lemma EmptyDatabaseNoMatch(upload: Upload, codec: Codec, dir: string, entries: seq<string>,
                             verdict: (string, string) -> Outcome, files: set<string>)
    requires Accepted(upload) && codec.decode(upload.contents) == Decoded && codec.write != WriteRaises
    requires forall n :: n in entries ==> !EntryAllowed(n)
    ensures Handle(upload, codec, dir, Listed(entries), verdict, files) == Success(NoMatch)
  {
    var names := AllowedEntries(entries);
    NothingAllowed(entries);
    var tmp := TempPath(upload.filename.value);
    assert Probes(verdict, Staged(files, tmp, codec.write), tmp, dir, names) == [];
  }

  /** When the codec reports the image not written and no file of that name was
      there before, every comparison raises and the answer is a 200 with no match. */
  lemma UnwrittenImageNeverMatches(upload: Upload, codec: Codec, dir: string, db: DirState,
                                   verdict: (string, string) -> Outcome, files: set<string>)
    requires Accepted(upload) && codec.decode(upload.contents) == Decoded && codec.write == NotWritten
    requires db.Listed? && TempPath(upload.filename.value) !in files
    ensures Handle(upload, codec, dir, db, verdict, files) == Success(NoMatch)
  {
    var tmp := TempPath(upload.filename.value);
    assert Staged(files, tmp, codec.write) == files;
    var probes := Probes(verdict, files, tmp, dir, DatabaseImages(db).value);
    forall j | 0 <= j < |probes| ensures !Eligible(probes[j]) {
      assert probes[j].outcome == Failed;
    }
    BestMatchSpec(probes);
  }

  /** Sending the same request again, to the directory the first one left
      behind, gives the same response, provided the staged file is really
      written or no stale file of that name was there to begin with. */
  lemma RepeatedRequestSameResponse(upload: Upload, codec: Codec, dir: string, db: DirState,
                                    verdict: (string, string) -> Outcome, files: set<string>)
    requires Accepted(upload)
    requires codec.write == Written || TempPath(upload.filename.value) !in files
    ensures Handle(upload, codec, dir, db, verdict, files - {TempPath(upload.filename.value)})
         == Handle(upload, codec, dir, db, verdict, files)
  {
    RestagedPipeline(upload, codec, TempPath(upload.filename.value), dir, db, verdict, files);
  }

  /** Removing the staged file beforehand does not change what the `try` block
      computes, under the same proviso. */
  lemma RestagedPipeline(upload: Upload, codec: Codec, tmp: string, dir: string, db: DirState,
                         verdict: (string, string) -> Outcome, files: set<string>)
    requires codec.write == Written || tmp !in files
    ensures Pipeline(upload, codec, tmp, dir, db, verdict, files - {tmp})
         == Pipeline(upload, codec, tmp, dir, db, verdict, files)
  {
    assert Staged(files - {tmp}, tmp, codec.write) == Staged(files, tmp, codec.write);
  }
}
