# face-verify: a Dafny model of the verification endpoint

The repository serves one endpoint, `POST /verify`. It takes an uploaded
image, stages it as a temporary file, compares it with every image in a
reference directory using an external face-verification model, and answers
whether one of them matches. It exists in two variants:

- `src/app.py`, the stricter service. It rejects a missing or empty filename
  and any extension other than `.png`, `.jpg` or `.jpeg` (compared on
  `Path.suffix`, lower-cased). It compares the upload with every reference
  image and keeps the verified candidate with the highest confidence
  `1 - distance`. ValueError becomes 400 and any other error 500.
- `main.py`, the legacy service. It does no validation. It lists images with
  `endswith` on the lower-cased name, stops at the first verified candidate,
  and answers every error with 500.

Both variants remove the staged file `temp_<filename>` in a `finally` block.

This project models that logic. The collaborators it cannot see are oracles:

- The face model is a class `Environment.FaceModel` with a fixed answer
  function `verdict: (query, candidate) -> Outcome`. `Outcome` is
  `Failed | Verdict(verified, distance?)`. A call whose query file is absent
  from the working directory fails, as DeepFace raises on a missing file. Every
  call is logged in `calls`, so contracts can say which candidates were handed
  to the model.
- The image codec is `Common.Codec`. Decoding depends only on the uploaded
  bytes and yields `Decoded | NoImage | DecodeRaises`. Writing the resized
  image yields `Written | NotWritten | WriteRaises`.
- The working directory is a class `Environment.WorkingDir` whose field
  `files` is the set of paths present. The handlers create, test and remove the
  temporary file through it.
- The reference directory is a `DirState`: `Missing`, `Unlistable`, or
  `Listed(entries)` in the order the OS yields them.

Modules: `Common` holds the shared datatypes. `Environment` holds the oracles.
`PathRules` holds the string and path rules. `App` models `src/app.py`.
`Legacy` models `main.py`. `Variants` compares the two.

Each loop and each handler is a method, proved against a function that states
the same computation as a value. `App.Scan` is the best-match loop as a left
fold, `Legacy.FirstVerified` is the first-match search, and `App.Handle` and
`Legacy.Handle` are the responses. Lemmas state what those functions promise.

Points where the code's behaviour may be unexpected, which the model follows
as written:

- A verified candidate is a match only if its confidence is positive
  (`confidence > highest_confidence`, starting from 0). So a verified answer at
  distance 1 or more, or with no distance, never matches.
- The temporary file is `temp_<filename>`. It is not uniquely named. A stale
  file of that name is removed by the request, and if the codec does not write,
  the comparison reads the stale file.
- The reference list is in directory iteration order, and that order decides
  ties.
- An empty or undecodable upload is a 400 in `src/app.py`, because
  `decode_image` turns every failure into ValueError. In `main.py` it is a 500.

## Model

| member | source | states |
|---|---|---|
| `PathRules.PathName` | src/app.py:127 | `Path(filename).name` is the last '/'-delimited component that is neither empty nor "." (everything after it is only such parts), or "" when every component is empty or "."; it never contains '/' and is never "." |
| `PathRules.Suffix` | src/app.py:127 | `Path.suffix` is empty, or a proper trailing part of the name that starts with its last dot and has at least one character after it |
| `PathRules.SuffixOfLower` | src/app.py:58 | taking the suffix and then lower-casing equals lower-casing and then taking the suffix |
| `PathRules.SuffixOfExtensionEnding` | src/app.py:58 | a name ending in an allowed extension has that extension as its suffix, unless the name is the extension itself |
| `PathRules.LegacyRuleVersusSuffixRule` | main.py:49-53 | the `endswith` rule accepts a name iff the `Path.suffix` rule accepts it or the lower-cased name is itself an allowed extension |
| `PathRules.DotfileListedOnlyByLegacy` | main.py:52 | ".png" is accepted by the `endswith` rule and rejected by the `Path.suffix` rule of src/app.py:58 |
| `PathRules.UploadRuleOnPlainName` | src/app.py:127-128 | for a filename without '/', the upload check and the listing check of src/app.py:58 agree |
| `App.AllowedEntries` | src/app.py:57-59 | the filter never yields more names than the directory has entries |
| `App.AllowedEntriesMembers` | src/app.py:57-59 | a name is kept iff it is an entry whose lower-cased suffix is an allowed extension |
| `App.AllowedEntriesAppend` | src/app.py:57-59 | the filter keeps iteration order: filtering a concatenation concatenates the filtered parts |
| `App.NothingAllowed` | src/app.py:57-59 | a directory with no allowed entry lists nothing |
| `App.DatabaseImages` | src/app.py:53-59 | a missing directory raises ValueError, an unlistable one OSError, and a listed one yields `App.AllowedEntries` of its entries, in iteration order |
| `App.ScanKeepsConsistent` | src/app.py:90-98 | the loop preserves its invariant (`match` iff `highest_confidence > 0`, a match carries that confidence, otherwise the default result) and never lowers `highest_confidence` |
| `App.ScanAppend` | src/app.py:81-102 | running the loop over a concatenation is running it over the first part and then the second |
| `App.HighestNeverDecreases` | src/app.py:92-93 | `highest_confidence` after more candidates is at least what it was, and the invariant still holds |
| `App.IneligibleIgnored` | src/app.py:92 | a candidate that is not verified with positive confidence changes nothing, wherever it occurs |
| `App.SkippedCandidates` | src/app.py:90-102 | a candidate whose comparison raised, or a verified one with no distance (default 1.0), leaves the result as if it were absent, and the loop goes on |
| `App.ScanCharacterised` | src/app.py:75-104 | no match exactly when no candidate is verified with positive confidence, then `match=false, confidence=0, matched_image=""`; otherwise the match is a candidate strictly more confident than every earlier eligible one and at least as confident as every later one |
| `App.FirstBestUnique` | src/app.py:92 | at most one candidate is the earliest most confident one |
| `App.BestMatchSpec` | src/app.py:75-104 | the result in terms of the candidates alone: no match iff none eligible, and the earliest most confident eligible candidate otherwise |
| `App.SingleVerifiedCandidate` | src/app.py:92-98 | one verified candidate at distance `d < 1` among non-matching ones is reported with confidence `(1 - d) * 100` and its name |
| `App.TieGoesToEarlier` | src/app.py:92 | of two eligible candidates with equal confidence, the later one is never the reported match |
| `App.VerifyAgainstDatabase` | src/app.py:62-107 | the loop returns the fold's result (a listing failure becomes ValueError), and the model is asked about every listed image, in order, failures included |
| `App.Attempt` | src/app.py:136-143 | the `try` block returns `App.Pipeline`'s outcome; the temp file is added only if the image was decoded and written, a stale file of that name stays (and is what the model reads when the codec does not write), and nothing else in the directory changes; the model is asked about every allowed image, in order, exactly when decoding, staging and listing succeed, and about nothing otherwise |
| `App.CompareWithImages` | src/app.py:81-102 | the loop's result is the best-match fold `App.BestMatch` over the listed images, and the model is asked about every image, in order, failures included |
| `App.VerifyImage` | src/app.py:110-151 | the response is `App.Handle`'s; a rejected name leaves the directory and the model untouched; otherwise `temp_<filename>` is absent afterwards, no other file changes, and the model is asked about exactly the pairs `App.Attempt` states |
| `App.StatusCodes` | src/app.py:124-148 | 400 iff the name is rejected, decoding fails, or the directory cannot be listed; 500 iff the codec raises while staging; 200 otherwise |
| `App.SuccessBodyConsistent` | src/app.py:20-23 | a 200 body with no match is the default result (so a non-zero confidence implies a match), and a match has positive unrounded confidence |
| `App.EmptyDatabaseNoMatch` | src/app.py:75-104 | a directory without allowed images gives 200 with no match |
| `App.UnwrittenImageNeverMatches` | src/app.py:140-142 | if the image is not written and no stale file exists, every comparison fails and the answer is 200 with no match |
| `App.RepeatedRequestSameResponse` | src/app.py:134-151 | repeating a request against the directory left behind gives the same response, provided the image is written or no stale temp file was there |
| `App.RestagedPipeline` | src/app.py:136-143 | under the same proviso, removing the temp file beforehand leaves the `try` block's outcome unchanged |
| `Legacy.ListingMembers` | main.py:49-53 | the listing holds exactly the `endswith`-accepted entries joined onto the directory |
| `Legacy.ListingAppend` | main.py:49-53 | the listing keeps `listdir` order |
| `Legacy.DatabaseImages` | main.py:49-53 | listing fails with OSError exactly when the directory cannot be listed, and a listed one yields `Legacy.Listing` of its entries |
| `Legacy.FirstVerified` | main.py:55-68 | the index found is verified and every earlier answer is not; none is found iff no answer is verified |
| `Legacy.MatchIffSomeVerified` | main.py:62-68 | `{"match": True}` iff some answer is verified; an empty or all-failing list gives `{"match": False}` |
| `Legacy.LaterAnswersIrrelevant` | main.py:62-63 | answers after the first verified one change neither the result nor the number of candidates examined |
| `Legacy.FirstVerifiedUnique` | main.py:55-63 | a verified answer with no verified answer before it is the one found |
| `Legacy.VerifyAgainstDatabase` | main.py:35-68 | the loop returns the search's result, and the model is asked about exactly the candidates up to and including the first verified one |
| `Legacy.VerifyImage` | main.py:71-105 | the response is `Legacy.Handle`'s, and `temp_<filename>` ("temp_None" without a filename) is absent afterwards with no other file changed; the model is asked about the listed images up to and including the first verified one when decoding, staging and listing succeed, and about nothing otherwise |
| `Legacy.OnlyServerErrors` | main.py:84-101 | there is no 400 path: 500 iff decoding fails, the codec raises, or `listdir` fails; 200 otherwise |
| `Legacy.AllFailingNoMatch` | main.py:65-68 | when every comparison raises, the answer is `{"match": False}` |
| `Variants.BestMatchImpliesFirstMatch` | src/app.py:92 | on the same answers, a best-match hit implies a first-match hit; they differ exactly when verified answers exist but none has positive confidence |
| `Variants.VerifiedAtDistanceOne` | main.py:62 | a verified answer at distance 1 is a match for main.py and not for src/app.py |
| `Variants.ListingsCompared` | main.py:52 | every image src/app.py lists, main.py lists too; an entry main.py keeps is listed by src/app.py too unless its lower-cased name is just an allowed extension, and one listed only by main.py is such a name |
| `Environment.WorkingDir.WriteImage` | src/app.py:140 | writing creates or overwrites the temp file only when the codec reports it written |
| `Environment.WorkingDir.Remove` | src/app.py:151 | `os.remove` of an existing file deletes that file and no other |
| `Environment.WorkingDir.RemoveIfPresent` | src/app.py:149-151 | the `finally` clause: the temp file is absent afterwards whether or not it existed, and no other file changes |
| `Environment.WorkingDir.Exists` | src/app.py:150 | `os.path.exists` answers true exactly for a file present in the directory |
| `Environment.FaceModel.Verify` | src/app.py:83-87 | a call logs the pair, and fails when the query file is absent |

## Left out

- The face model itself (`DeepFace.build_model`, `DeepFace.verify`) is an oracle answering per (query, candidate) pair. Its answers are a fixed function `FaceModel.verdict`, the same for every request the object serves, so the model assumes the same answers across requests; App.RepeatedRequestSameResponse relies on this.
- Image decoding, resizing to 224×224 and writing are oracles. Only their success or failure is modelled.
- App.Percentage: the reported confidence is `(1 - distance) * 100`. The source also rounds it with `round(..., 2)`, which is not modelled.
- App.SuccessBodyConsistent: "a match has positive confidence" holds for the unrounded percentage only. With `round(..., 2)`, a match whose confidence `1 - distance` is below about 0.00005 is reported with confidence 0.0. The converse (a non-zero confidence implies a match) survives rounding.
- Distances and confidences are exact reals. Floating-point rounding and NaN are not modelled, and a NaN distance would never match in the source.
- PathRules.Lower: lower-casing covers ASCII letters only. Python's Unicode case mapping is not modelled.
- PathRules.Suffix: this is the classic `PurePath.suffix` rule (a last dot neither first nor last). The special cases of other Python versions are not modelled.
- App.VerifyAgainstDatabase: the candidate path handed to the model is `os.path.join(DATABASE_DIR, name)`. pathlib's normalisation of `DATABASE_DIR` is not modelled.
- Exception messages and HTTP `detail` strings are not modelled, including the unordered join of the extension set. Only the status codes are.
- FastAPI routing, `await file.read()`, pydantic serialisation and `JSONResponse` are not modelled. Reading the upload is assumed to succeed.
- `os.getenv("DATABASE_DIR")` becomes the `dir` parameter. `CUDA_VISIBLE_DEVICES` is not modelled.
- The `print` logging of per-candidate errors is not modelled.
- Concurrent requests are not modelled. Two requests with the same filename share one temp path, and the model handles one request at a time.
