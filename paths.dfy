/** String and path rules the two handlers use to decide which files are
    images: ASCII lower-casing, `str.rfind`, `PurePath.name`, `PurePath.suffix`,
    `str.endswith` and `os.path.join`, and the two extension rules built on them. */
module PathRules {

  /** The extensions `src/app.py` accepts, compared with a lower-cased suffix. */
  const AllowedExtensions: set<string> := {".png", ".jpg", ".jpeg"}

  /** The tuple `main.py` passes to `endswith`, in its order. */
  const LegacyExtensions: seq<string> := [".png", ".jpg", ".jpeg"]

  function LowerChar(c: char): char {
    if 'A' <= c <= 'Z' then (c as int + 32) as char else c
  }

  /** `str.lower` on the ASCII range. */
  function Lower(s: string): (r: string)
    ensures |r| == |s|
    ensures forall i :: 0 <= i < |s| ==> r[i] == LowerChar(s[i])
  {
    if s == [] then [] else [LowerChar(s[0])] + Lower(s[1..])
  }

  /** `str.rfind` for one character: the last index holding `c`, or -1. */
  function LastIndexOf(s: string, c: char): (r: int)
    ensures -1 <= r < |s|
    ensures r >= 0 ==> s[r] == c
    ensures forall j :: r < j < |s| ==> s[j] != c
  {
    if s == [] then -1
    else if s[|s| - 1] == c then |s| - 1
    else LastIndexOf(s[..|s| - 1], c)
  }

  /** `PurePath(p).name` on POSIX: the last component once empty and "."
      components are dropped, or "" when there is none. */
  function PathName(p: string): (r: string)
    ensures '/' !in r && r != "."
    ensures r != "" ==> exists k :: ComponentAt(p, r, k) && OnlyEmptyOrDot(p[k..])
    ensures r == "" ==> OnlyEmptyOrDot(p)
    decreases |p|
  {
    var i := LastIndexOf(p, '/');
    var last := p[i + 1..];
    if last == "" || last == "." then
      if i < 0 then
        assert p == last;
        ""
      else
        var r := PathName(p[..i]);
        assert p == p[..i] + "/" + last;
        NameBeforeDroppedPart(p[..i], last, r);
        r
    else
      assert ComponentAt(p, last, |p|);
      assert p[|p|..] == "";
      last
  }

  /** When the part after the last '/' is "" or ".", the name of the whole
      path is the name of what comes before that '/'. */
  lemma NameBeforeDroppedPart(q: string, last: string, r: string)
    requires last == "" || last == "."
    requires r != "" ==> exists k :: ComponentAt(q, r, k) && OnlyEmptyOrDot(q[k..])
    requires r == "" ==> OnlyEmptyOrDot(q)
    ensures r != "" ==> exists k :: ComponentAt(q + "/" + last, r, k) && OnlyEmptyOrDot((q + "/" + last)[k..])
    ensures r == "" ==> OnlyEmptyOrDot(q + "/" + last)
  {
    if r != "" {
      var k :| ComponentAt(q, r, k) && OnlyEmptyOrDot(q[k..]);
      ComponentBeforeDroppedPart(q, last, r, k);
    } else {
      OnlyEmptyOrDotJoin(q, last);
    }
  }

  lemma ComponentBeforeDroppedPart(q: string, last: string, r: string, k: int)
    requires last == "" || last == "."
    requires ComponentAt(q, r, k) && OnlyEmptyOrDot(q[k..])
    ensures ComponentAt(q + "/" + last, r, k) && OnlyEmptyOrDot((q + "/" + last)[k..])
  {
    var p := q + "/" + last;
    assert p[k - |r|..k] == q[k - |r|..k];
    assert p[k] == if k == |q| then '/' else q[k];
    if k != |r| {
      assert p[k - |r| - 1] == q[k - |r| - 1];
    }
    assert p[k..] == q[k..] + "/" + last;
    OnlyEmptyOrDotJoin(q[k..], last);
  }

  /** `r` is a whole component of `p` ending at index `k`: it is delimited by
      '/' or by the ends of `p` on both sides. */
  predicate ComponentAt(p: string, r: string, k: int) {
    |r| <= k <= |p| && p[k - |r|..k] == r
    && (k == |p| || p[k] == '/')
    && (k == |r| || p[k - |r| - 1] == '/')
  }

  /** Every '/'-delimited part of `t` is "" or ".", so `PurePath` drops them all. */
  predicate OnlyEmptyOrDot(t: string) {
    forall i :: 0 <= i < |t| && t[i] != '/' ==>
      t[i] == '.' && (i == 0 || t[i - 1] == '/') && (i == |t| - 1 || t[i + 1] == '/')
  }

  lemma OnlyEmptyOrDotJoin(a: string, b: string)
    requires OnlyEmptyOrDot(a) && OnlyEmptyOrDot(b)
    ensures OnlyEmptyOrDot(a + "/" + b)
  {
    var c := a + "/" + b;
    forall i | 0 <= i < |c| && c[i] != '/'
      ensures c[i] == '.' && (i == 0 || c[i - 1] == '/') && (i == |c| - 1 || c[i + 1] == '/')
    {
      if i < |a| {
        assert c[i] == a[i];
        if i > 0 { assert c[i - 1] == a[i - 1]; }
        if i + 1 < |a| { assert c[i + 1] == a[i + 1]; }
      } else {
        var j := i - |a| - 1;
        assert c[i] == b[j];
        if j > 0 { assert c[i - 1] == b[j - 1]; }
        if j + 1 < |b| { assert c[i + 1] == b[j + 1]; }
      }
    }
  }

  /** `PurePath.suffix` of a name: from its last dot on, provided that dot is
      neither the first nor the last character; "" otherwise. */
  function Suffix(name: string): (r: string)
    ensures r == "" || (2 <= |r| < |name| && r[0] == '.' && '.' !in r[1..] && EndsWith(name, r))
  {
    var i := LastIndexOf(name, '.');
    if 0 < i < |name| - 1 then name[i..] else ""
  }

  predicate EndsWith(s: string, e: string) {
    |e| <= |s| && s[|s| - |e|..] == e
  }

  /** `str.endswith` given a tuple: true when any of them ends `s`. */
  predicate EndsWithAny(s: string, es: seq<string>) {
    exists k :: 0 <= k < |es| && EndsWith(s, es[k])
  }

  /** `os.path.join(dir, name)` for one name. */
  function Join(dir: string, name: string): string {
    if |name| > 0 && name[0] == '/' then name
    else if dir == [] || dir[|dir| - 1] == '/' then dir + name
    else dir + "/" + name
  }

  /** The upload rule of `src/app.py`: the lower-cased suffix of the filename's
      last component is an allowed extension. */
  predicate UploadAllowed(filename: string) {
    Lower(Suffix(PathName(filename))) in AllowedExtensions
  }

  /** The listing rule of `src/app.py`, for a directory entry (which has no '/'). */
  predicate EntryAllowed(entry: string) {
    Lower(Suffix(entry)) in AllowedExtensions
  }

  /** The listing rule of `main.py`: the lower-cased entry ends with an extension. */
  predicate LegacyEntryAllowed(entry: string) {
    EndsWithAny(Lower(entry), LegacyExtensions)
  }

  // ---------------------------------------------------------------------
  // Facts about the rules

  lemma LastIndexOfUnique(s: string, c: char, i: int)
    requires 0 <= i < |s| && s[i] == c
    requires forall j :: i < j < |s| ==> s[j] != c
    ensures LastIndexOf(s, c) == i
  {
  }

  lemma {:induction false} LowerSlice(s: string, i: nat)
    requires i <= |s|
    ensures Lower(s)[i..] == Lower(s[i..])
  {
    if i > 0 {
      LowerSlice(s[1..], i - 1);
      assert Lower(s)[1..] == Lower(s[1..]);
      assert s[1..][i - 1..] == s[i..];
    } else {
      assert s[0..] == s;
    }
  }

  /** Lower-casing keeps every dot where it was, so it commutes with taking
      the suffix: `Path(f).suffix.lower()` equals the suffix of `f.lower()`. */
  lemma {:induction false} SuffixOfLower(s: string)
    ensures Lower(Suffix(s)) == Suffix(Lower(s))
  {
    var i := LastIndexOf(s, '.');
    var t := Lower(s);
    if i >= 0 {
      LastIndexOfUnique(t, '.', i);
    } else {
      assert forall j :: 0 <= j < |t| ==> t[j] != '.';
      assert LastIndexOf(t, '.') == -1;
    }
    if 0 < i < |s| - 1 {
      LowerSlice(s, i);
    }
  }

  /** An allowed extension is a dot followed by letters and nothing else. */
  lemma ExtensionShape(e: string)
    requires e in AllowedExtensions
    ensures |e| >= 4 && e[0] == '.' && forall j :: 0 < j < |e| ==> e[j] != '.'
  {
  }

  /** When `s` ends with an allowed extension, `Path.suffix` finds that very
      extension unless the extension is all of `s`. */
  lemma SuffixOfExtensionEnding(s: string, e: string)
    requires e in AllowedExtensions && EndsWith(s, e)
    ensures Suffix(s) == e || s == e
  {
    ExtensionShape(e);
    var i := |s| - |e|;
    assert s[i] == e[0];
    forall j | i < j < |s| ensures s[j] != '.' {
      assert s[j] == e[j - i];
    }
    LastIndexOfUnique(s, '.', i);
    if i == 0 {
      assert s == s[i..];
    }
  }

  lemma LegacyExtensionsAreAllowed(e: string)
    ensures e in AllowedExtensions <==> e in LegacyExtensions
  {
  }

  /** The two listing rules compared: `main.py` keeps exactly what `src/app.py`
      keeps plus the names that are nothing but an extension, such as ".png"
      or ".JPG", which `Path.suffix` reads as a dotfile without suffix. */
  lemma LegacyRuleVersusSuffixRule(entry: string)
    ensures LegacyEntryAllowed(entry) <==> EntryAllowed(entry) || Lower(entry) in AllowedExtensions
  {
    SuffixOfLower(entry);
    LegacyRuleAcceptsOnly(Lower(entry));
    LegacyRuleAcceptsAll(Lower(entry));
  }

  /** A name ending with an extension has it as suffix or is that extension. */
  lemma LegacyRuleAcceptsOnly(t: string)
    ensures EndsWithAny(t, LegacyExtensions) ==> Suffix(t) in AllowedExtensions || t in AllowedExtensions
  {
    if EndsWithAny(t, LegacyExtensions) {
      var k :| 0 <= k < |LegacyExtensions| && EndsWith(t, LegacyExtensions[k]);
      SuffixOfExtensionEnding(t, LegacyExtensions[k]);
    }
  }

  /** A name whose suffix is allowed, or that is an extension, ends with one. */
  lemma LegacyRuleAcceptsAll(t: string)
    ensures Suffix(t) in AllowedExtensions || t in AllowedExtensions ==> EndsWithAny(t, LegacyExtensions)
  {
    var e := if Suffix(t) in AllowedExtensions then Suffix(t) else t;
    if e in AllowedExtensions {
      LegacyExtensionsAreAllowed(e);
      var k :| 0 <= k < |LegacyExtensions| && LegacyExtensions[k] == e;
      assert EndsWith(t, LegacyExtensions[k]);
    }
  }

  /** The concrete disagreement: a file named ".png" is listed by `main.py`
      and skipped by `src/app.py`. */
  lemma DotfileListedOnlyByLegacy()
    ensures LegacyEntryAllowed(".png") && !EntryAllowed(".png")
  {
    assert Lower(".png") == ".png";
    LegacyRuleVersusSuffixRule(".png");
    assert LastIndexOf(".png", '.') == 0 by {
      LastIndexOfUnique(".png", '.', 0);
    }
  }

  /** For a plain name (no '/', not "." and not empty), the upload rule and the
      listing rule of `src/app.py` agree. */
  lemma UploadRuleOnPlainName(name: string)
    requires name != "" && name != "." && '/' !in name
    ensures UploadAllowed(name) <==> EntryAllowed(name)
  {
    assert LastIndexOf(name, '/') == -1;
    assert name[0..] == name;
  }
}
