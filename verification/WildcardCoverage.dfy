/**
 Which hostnames a wildcard certificate covers, and which known hostnames are
 candidates for it.  The code decides coverage by a suffix test; the reference
 is the label definition of section 6.4.3 of RFC 6125: the wildcard stands for
 exactly one complete left-most label.
 */
module WildcardCoverage {
  import opened Text

  /** The suffix test. */
  predicate Covered(hostname: string, suffix: string) {
    Above(RStripDots(hostname), Lower(RStripDots(suffix)))
  }

  predicate Above(h: string, s: string) {
    EndsWith(h, "." + s) &&
    var remainder := h[..|h| - |s| - 1];
    remainder != "" && '.' !in remainder
  }

  // ── Labels ───────────────────────────────────────────────────────────────

  /** The labels of a name: what lies between its dots. */
  function Labels(s: string): (r: seq<string>)
    ensures r != [] && forall l | l in r :: '.' !in l
  {
    if s == "" then [""]
    else
      var rest := Labels(s[1..]);
      if s[0] == '.' then [""] + rest else [[s[0]] + rest[0]] + rest[1..]
  }

  function Join(labels: seq<string>): string
    requires labels != []
  {
    if |labels| == 1 then labels[0] else labels[0] + "." + Join(labels[1..])
  }

  lemma {:induction false} JoinLabels(s: string)
    ensures Join(Labels(s)) == s
  {
    if s != "" {
      JoinLabels(s[1..]);
      var rest := Labels(s[1..]);
      if s[0] == '.' {
        assert ([""] + rest)[1..] == rest;
      } else {
        var r := [[s[0]] + rest[0]] + rest[1..];
        assert r[1..] == rest[1..];
        assert s == [s[0]] + s[1..];
      }
    }
  }

  /** A label in front of a name is the first of the labels. */
  lemma {:induction false} LabelsPrepend(l: string, s: string)
    requires '.' !in l
    ensures Labels(l + "." + s) == [l] + Labels(s)
  {
    var t := l + "." + s;
    if l == "" {
      assert t[1..] == s;
    } else {
      assert t[1..] == l[1..] + "." + s;
      LabelsPrepend(l[1..], s);
      assert [l[0]] + l[1..] == l;
    }
  }

  /** One non-empty label in front of the labels of the suffix. */
  ghost predicate OneLabelAbove(hostname: string, suffix: string) {
    var h := Labels(RStripDots(hostname));
    var s := Labels(Lower(RStripDots(suffix)));
    h[0] != "" && h[1..] == s
  }

  lemma SplitAt(h: string, s: string)
    requires EndsWith(h, "." + s)
    ensures h == h[..|h| - |s| - 1] + "." + s
  {}

  lemma SuffixOf(l: string, s: string)
    ensures
      var h := l + "." + s;
      EndsWith(h, "." + s) && h[..|h| - |s| - 1] == l
  {}

  /** The suffix test decides exactly the label definition. */
  lemma CoveredIff(hostname: string, suffix: string)
    ensures Covered(hostname, suffix) <==> OneLabelAbove(hostname, suffix)
  {
    var h := RStripDots(hostname);
    var s := Lower(RStripDots(suffix));
    if Covered(hostname, suffix) {
      SplitAt(h, s);
      LabelsPrepend(h[..|h| - |s| - 1], s);
    }
    if OneLabelAbove(hostname, suffix) {
      JoinLabels(h);
      JoinLabels(s);
      SuffixOf(Labels(h)[0], s);
    }
  }

  /** A host is covered by at most one suffix, up to case and trailing dots. */
  lemma CoveringSuffixUnique(hostname: string, s1: string, s2: string)
    requires Covered(hostname, s1) && Covered(hostname, s2)
    ensures Lower(RStripDots(s1)) == Lower(RStripDots(s2))
  {
    CoveredIff(hostname, s1);
    CoveredIff(hostname, s2);
    JoinLabels(Lower(RStripDots(s1)));
    JoinLabels(Lower(RStripDots(s2)));
  }

  lemma {:induction false} StripDotsLower(s: string)
    ensures RStripDots(Lower(s)) == Lower(RStripDots(s))
  {
    if s != "" {
      var n := |s| - 1;
      assert Lower(s)[..n] == Lower(s[..n]);
      if s[n] == '.' { StripDotsLower(s[..n]); }
    }
  }

  /** The case of the suffix does not matter; dots at the end of either do not. */
  lemma SpellingIgnored(hostname: string, suffix: string)
    ensures Covered(hostname, Lower(suffix)) <==> Covered(hostname, suffix)
    ensures Covered(RStripDots(hostname), RStripDots(suffix)) <==> Covered(hostname, suffix)
  {
    StripDotsLower(suffix);
    LowerTwice(RStripDots(suffix));
    assert RStripDots(RStripDots(hostname)) == RStripDots(hostname);
    assert RStripDots(RStripDots(suffix)) == RStripDots(suffix);
  }

  lemma LowerTwice(s: string)
    ensures Lower(Lower(s)) == Lower(s)
  {}

  // ── Candidates from the inventory ────────────────────────────────────────

  predicate CoveredByAny(hostname: string, suffixes: set<string>) {
    exists s | s in suffixes :: Covered(hostname, s)
  }

  function Known(name: string): string {
    Lower(Strip(name))
  }

  /** The candidates are exactly the known names, normalised, that one of the
      suffixes covers; certificate names that are themselves wildcards are left out. */
  method CandidatesFromInventory(servers: seq<string>, domains: seq<string>, suffixes: set<string>)
    returns (candidates: set<string>)
    ensures forall h :: h in candidates <==>
              && (exists s | s in suffixes :: OneLabelAbove(h, s))
              && ((exists n :: n in servers && Known(n) == h) ||
                  (exists n :: n in domains && Known(n) == h && !StartsWith(h, "*.")))
  {
    candidates := {};
    forall h, s ensures Covered(h, s) <==> OneLabelAbove(h, s) { CoveredIff(h, s); }
    assert forall h | CoveredByAny(h, suffixes) :: h != "";
    if suffixes == {} { return; }
    for i := 0 to |servers|
      invariant forall h :: h in candidates <==> CoveredByAny(h, suffixes) && Among(servers[..i], h)
    {
      var h := Known(servers[i]);
      AmongStep(servers, i);
      if h != "" && CoveredByAny(h, suffixes) { candidates := candidates + {h}; }
    }
    assert servers[..|servers|] == servers;
    for i := 0 to |domains|
      invariant forall h :: h in candidates <==>
                  CoveredByAny(h, suffixes) &&
                  (Among(servers, h) || (Among(domains[..i], h) && !StartsWith(h, "*.")))
    {
      var d := Known(domains[i]);
      AmongStep(domains, i);
      if d != "" && !StartsWith(d, "*.") && CoveredByAny(d, suffixes) { candidates := candidates + {d}; }
    }
    assert domains[..|domains|] == domains;
  }

  ghost predicate Among(names: seq<string>, h: string) {
    exists n :: n in names && Known(n) == h
  }

  lemma AmongStep(names: seq<string>, i: nat)
    requires i < |names|
    ensures forall h :: Among(names[..i + 1], h) <==> Among(names[..i], h) || h == Known(names[i])
  {}
}
