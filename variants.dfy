/** How the two services differ when they see the same directory and the same
    model answers: which images they list, and when they report a match. */
module Variants {
  import opened Common
  import opened PathRules
  import App
  import Legacy

  /** The answers of a probe sequence, without the names. */
  function OutcomesOf(probes: seq<App.Probe>): (r: seq<Outcome>)
    ensures |r| == |probes|
  {
    seq(|probes|, i requires 0 <= i < |probes| => probes[i].outcome)
  }

  /** Whenever the best-match search reports a match, the first-match search
      does too; it also matches when the only verified answers have confidence
      0 or less, which the best-match search ignores. */
  lemma BestMatchImpliesFirstMatch(probes: seq<App.Probe>)
    ensures App.BestMatch(probes).isMatch ==> Legacy.FirstVerified(OutcomesOf(probes)).Some?
    ensures Legacy.FirstVerified(OutcomesOf(probes)).Some? && !App.BestMatch(probes).isMatch <==>
      (exists i :: 0 <= i < |probes| && Legacy.Verified(probes[i].outcome))
      && forall i :: 0 <= i < |probes| ==> !App.Eligible(probes[i])
  {
    App.BestMatchSpec(probes);
    var outcomes := OutcomesOf(probes);
    Legacy.MatchIffSomeVerified(outcomes);
    if exists i :: 0 <= i < |probes| && Legacy.Verified(probes[i].outcome) {
      var i :| 0 <= i < |probes| && Legacy.Verified(probes[i].outcome);
      assert Legacy.Verified(outcomes[i]);
    }
    if exists i :: 0 <= i < |probes| && App.Eligible(probes[i]) {
      var i :| 0 <= i < |probes| && App.Eligible(probes[i]);
      assert Legacy.Verified(outcomes[i]);
    }
    if Legacy.FirstVerified(outcomes).Some? {
      var k := Legacy.FirstVerified(outcomes).value;
      assert Legacy.Verified(probes[k].outcome);
    }
  }

  /** A verified answer at distance 1 is a match for `main.py` and not for
      `src/app.py`. */
  lemma VerifiedAtDistanceOne(name: string)
    ensures Legacy.FirstVerified([Verdict(true, Some(1.0))]) == Some(0)
    ensures App.BestMatch([App.Probe(name, Verdict(true, Some(1.0)))]) == App.NoMatch
  {
    var probes := [App.Probe(name, Verdict(true, Some(1.0)))];
    assert !App.Eligible(probes[0]);
    App.BestMatchSpec(probes);
  }

  /** Every image `src/app.py` lists, `main.py` lists too, joined onto its
      directory; conversely, an entry `main.py` keeps is listed by `src/app.py`
      too unless its name is nothing but an allowed extension. */
  lemma ListingsCompared(dir: string, entries: seq<string>, f: string)
    requires f in entries
    ensures f in App.AllowedEntries(entries) ==> Join(dir, f) in Legacy.Listing(dir, entries)
    ensures LegacyEntryAllowed(f) && Lower(f) !in AllowedExtensions ==> f in App.AllowedEntries(entries)
    ensures LegacyEntryAllowed(f) && f !in App.AllowedEntries(entries) ==> Lower(f) in AllowedExtensions
  {
    LegacyRuleVersusSuffixRule(f);
    App.AllowedEntriesMembers(entries, f);
    Legacy.ListingMembers(dir, entries, Join(dir, f));
  }
}
