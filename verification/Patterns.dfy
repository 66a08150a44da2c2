/** Domain patterns: how a queried domain is matched against a user's rules. */
module Patterns {
  import opened Text

  const MAX_LABELS := 10

  /** The candidates looked up for a domain: itself, then ever shorter wildcards. */
  function PatternsOf(domain: string): (patterns: seq<string>) {
    Candidates(domain, Split(domain))
  }

  function Candidates(domain: string, labels: seq<string>): (patterns: seq<string>)
    requires |labels| >= 1
    ensures |patterns| == |LastTen(labels)| && patterns[0] == domain
  {
    var kept := LastTen(labels);
    [domain] + seq(|kept| - 1, i requires 0 <= i < |kept| - 1 => "*." + Join(kept[i + 1..]))
  }

  function LastTen(labels: seq<string>): (kept: seq<string>)
    requires |labels| >= 1
    ensures |kept| == if |labels| > MAX_LABELS then MAX_LABELS else |labels|
  {
    if |labels| > MAX_LABELS then labels[|labels| - MAX_LABELS..] else labels
  }

  method GeneratePatterns(domain: string) returns (patterns: seq<string>)
    ensures patterns == PatternsOf(domain)
  {
    var labels := Split(domain);
    if |labels| > 10 {
      labels := labels[|labels| - 10..];
    }
    ghost var all := PatternsOf(domain);
    patterns := [domain];
    var i := 1;
    while i < |labels|
      invariant 1 <= i <= |labels| == |all|
      invariant patterns == all[..i]
    {
      var parent := Join(labels[i..]);
      assert all[i] == "*." + parent;
      patterns := patterns + ["*." + parent];
      i := i + 1;
    }
  }

  /** What a stored rule matches, said on the strings alone: the domain itself, or, for "*.t" with at
      most nine labels in t, every domain that ends in ".t". */
  predicate Matches(rule: string, domain: string) {
    || rule == domain
    || (HasPrefix(rule, "*.") && HasSuffix(domain, rule[1..]) && |Split(rule[2..])| < MAX_LABELS)
  }

  /** The i-th candidate is the wildcard over the labels from position k on. */
  lemma CandidateAt(domain: string, labels: seq<string>, i: nat, k: nat)
    requires |labels| >= 1 && 1 <= i < |LastTen(labels)| && k == |labels| - |LastTen(labels)| + i
    ensures Candidates(domain, labels)[i] == "*." + Join(labels[k..])
  {
    assert LastTen(labels)[i..] == labels[k..];
  }

  lemma WildcardParts(t: string)
    ensures var rule := "*." + t; HasPrefix(rule, "*.") && rule[1..] == "." + t && rule[2..] == t
  {
  }

  lemma CandidateMatches(domain: string, i: nat)
    requires i < |PatternsOf(domain)|
    ensures Matches(PatternsOf(domain)[i], domain)
  {
    if i > 0 {
      var labels := Split(domain);
      var k := |labels| - |LastTen(labels)| + i;
      CandidateAt(domain, labels, i, k);
      LabelSuffix(domain, k);
      WildcardParts(Join(labels[k..]));
    }
  }

  lemma MatchIsCandidate(t: string, domain: string)
    requires HasSuffix(domain, "." + t) && |Split(t)| < MAX_LABELS
    ensures "*." + t in PatternsOf(domain)
  {
    SuffixLabels(domain, t);
    var labels := Split(domain);
    var i := |LastTen(labels)| - |Split(t)|;
    CandidateAt(domain, labels, i, |labels| - |Split(t)|);
    JoinSplit(t);
    assert PatternsOf(domain)[i] == "*." + t;
  }

  /** The generated candidates are exactly the rules that match the domain. */
  lemma PatternsAreMatches(rule: string, domain: string)
    ensures rule in PatternsOf(domain) <==> Matches(rule, domain)
  {
    if rule in PatternsOf(domain) {
      var i :| 0 <= i < |PatternsOf(domain)| && PatternsOf(domain)[i] == rule;
      CandidateMatches(domain, i);
    } else if Matches(rule, domain) && rule != domain {
      WildcardIsCandidate(rule, domain);
    }
  }

  lemma WildcardIsCandidate(rule: string, domain: string)
    requires Matches(rule, domain) && rule != domain
    ensures rule in PatternsOf(domain)
  {
    var t := rule[2..];
    assert rule[1..] == "." + t && rule == "*." + t;
    MatchIsCandidate(t, domain);
  }

  lemma LaterIsShorter(domain: string, labels: seq<string>, i: nat, j: nat)
    requires |labels| >= 1 && 1 <= i < j < |LastTen(labels)|
    ensures |Candidates(domain, labels)[j]| < |Candidates(domain, labels)[i]|
  {
    JoinShortens(LastTen(labels), i, j);
  }

  /** At most ten candidates, and the wildcards strictly shorten, so there are no repeats among them. */
  lemma PatternsShorten(domain: string)
    ensures |PatternsOf(domain)| == (if Dots(domain) < 9 then Dots(domain) else 9) + 1
    ensures forall i, j :: 1 <= i < j < |PatternsOf(domain)| ==> |PatternsOf(domain)[j]| < |PatternsOf(domain)[i]|
  {
    LabelsAreDotsPlusOne(domain);
    forall i, j | 1 <= i < j < |PatternsOf(domain)|
      ensures |PatternsOf(domain)[j]| < |PatternsOf(domain)[i]|
    {
      LaterIsShorter(domain, Split(domain), i, j);
    }
  }

  // ---------- built-in fallback list ----------

  const FALLBACK: seq<string> := [
    "example-blocked.com", "malware.test", "ads.tracker.com", "pornhub.com",
    "xvideos.com", "doubleclick.net", "google-analytics.com"
  ]

  lemma BuiltInList()
    ensures forall e :: e in FALLBACK <==>
              e in {"doubleclick.net", "google-analytics.com", "ads.tracker.com",
                    "example-blocked.com", "malware.test", "pornhub.com", "xvideos.com"}
  {
  }

  /** A list entry covers its own domain and everything below it. */
  predicate Covers(entry: string, domain: string) {
    domain == entry || HasSuffix(domain, "." + entry)
  }

  predicate Fallback(entries: seq<string>, domain: string) {
    exists i :: 0 <= i < |entries| && Covers(entries[i], domain)
  }

  method FallbackCheck(entries: seq<string>, domain: string) returns (code: int)
    ensures code == if Fallback(entries, domain) then 1 else 0
  {
    for i := 0 to |entries|
      invariant forall j :: 0 <= j < i ==> !Covers(entries[j], domain)
    {
      if domain == entries[i] || HasSuffix(domain, "." + entries[i]) {
        return 1;
      }
    }
    return 0;
  }

  /** An entry covers a domain exactly when its labels are the domain's last labels. */
  lemma CoversIsLabelSuffix(entry: string, domain: string)
    ensures Covers(entry, domain) <==>
            EndsWith(Split(domain), Split(entry))
  {
    var e, d := Split(entry), Split(domain);
    if domain != entry && HasSuffix(domain, "." + entry) {
      SuffixLabels(domain, entry);
    }
    if EndsWith(d, e) {
      LabelsCover(entry, domain);
    }
  }

  lemma LabelsCover(entry: string, domain: string)
    requires EndsWith(Split(domain), Split(entry))
    ensures Covers(entry, domain)
  {
    var k := |Split(domain)| - |Split(entry)|;
    JoinSplit(entry);
    if k > 0 {
      LabelSuffix(domain, k);
    } else {
      JoinSplit(domain);
      assert Split(domain)[0..] == Split(domain);
    }
  }

  /** Suffix matching against the list and wildcard matching against the store are the same relation, up
      to the ten-label window: for an entry of at most nine labels they agree on every domain; for a longer
      one "*.entry" is no candidate of any domain below it other than the string "*.entry" itself. */
  lemma CoversIsPattern(entry: string, domain: string)
    ensures "*." + entry in PatternsOf(domain) <==>
            HasSuffix(domain, "." + entry) && (|Split(entry)| < MAX_LABELS || domain == "*." + entry)
    ensures |Split(entry)| < MAX_LABELS ==>
            (Covers(entry, domain) <==> domain == entry || "*." + entry in PatternsOf(domain))
  {
    var w := "*." + entry;
    WildcardParts(entry);
    PatternsAreMatches(w, domain);
  }

  /** So the fallback list blocks what the same list, kept in the store with a wildcard for each entry,
      would block. */
  lemma FallbackIsPatterns(entries: seq<string>, domain: string)
    requires forall i :: 0 <= i < |entries| ==> |Split(entries[i])| < MAX_LABELS
    ensures Fallback(entries, domain) <==>
            exists i :: 0 <= i < |entries| && (entries[i] == domain || "*." + entries[i] in PatternsOf(domain))
  {
    forall i | 0 <= i < |entries|
      ensures Covers(entries[i], domain) <==> entries[i] == domain || "*." + entries[i] in PatternsOf(domain)
    {
      CoversIsPattern(entries[i], domain);
    }
  }

  lemma EndsWithLonger(front: seq<string>, labels: seq<string>, tail: seq<string>)
    requires EndsWith(labels, tail)
    ensures EndsWith(front + labels, tail)
  {
  }

  /** Blocking is inherited by subdomains. */
  lemma FallbackClosedBelow(entries: seq<string>, sub: string, domain: string)
    requires Fallback(entries, domain)
    ensures Fallback(entries, sub + "." + domain)
  {
    var i :| 0 <= i < |entries| && Covers(entries[i], domain);
    var below := sub + "." + domain;
    SplitConcat(sub, domain);
    CoversIsLabelSuffix(entries[i], domain);
    CoversIsLabelSuffix(entries[i], below);
    EndsWithLonger(Split(sub), Split(domain), Split(entries[i]));
    assert Covers(entries[i], below);
  }

  // ---------- redirect targets ----------

  /** The first non-empty target along a list of candidates. */
  function FirstTarget(targets: map<string, string>, patterns: seq<string>): string {
    if patterns == [] then ""
    else if patterns[0] in targets && targets[patterns[0]] != "" then targets[patterns[0]]
    else FirstTarget(targets, patterns[1..])
  }

  function Lookup(targets: map<string, string>, domain: string): string {
    FirstTarget(targets, PatternsOf(domain))
  }

  predicate HasTarget(targets: map<string, string>, rule: string, domain: string) {
    Matches(rule, domain) && rule in targets && targets[rule] != ""
  }

  /** rule is the domain's most specific rule: the exact one, else the longest wildcard. */
  ghost predicate MostSpecific(targets: map<string, string>, rule: string, domain: string) {
    && HasTarget(targets, rule, domain)
    && (rule == domain || forall r :: HasTarget(targets, r, domain) ==> r != domain && |r| <= |rule|)
  }

  lemma {:induction false} FirstTargetIndex(targets: map<string, string>, ps: seq<string>) returns (i: nat)
    ensures i <= |ps|
    ensures forall j :: 0 <= j < i ==> ps[j] in targets ==> targets[ps[j]] == ""
    ensures i == |ps| ==> FirstTarget(targets, ps) == ""
    ensures i < |ps| ==> ps[i] in targets && targets[ps[i]] != "" && FirstTarget(targets, ps) == targets[ps[i]]
  {
    if ps == [] || (ps[0] in targets && targets[ps[0]] != "") {
      i := 0;
    } else {
      var k := FirstTargetIndex(targets, ps[1..]);
      i := k + 1;
      forall j | 0 <= j < i ensures ps[j] in targets ==> targets[ps[j]] == "" {
        if j > 0 { assert ps[j] == ps[1..][j - 1]; }
      }
    }
  }

  /** A rule with a target is no more specific than the first candidate with one. */
  lemma FirstIsLongest(targets: map<string, string>, domain: string, i: nat, r: string)
    requires var ps := PatternsOf(domain);
             && i <= |ps| && (forall j :: 0 <= j < i ==> ps[j] in targets ==> targets[ps[j]] == "")
             && (i < |ps| ==> ps[i] in targets && targets[ps[i]] != "")
    requires HasTarget(targets, r, domain)
    ensures i < |PatternsOf(domain)| && HasTarget(targets, PatternsOf(domain)[i], domain)
    ensures i > 0 ==> r != domain && (r == PatternsOf(domain)[i] || |r| < |PatternsOf(domain)[i]|)
  {
    var ps := PatternsOf(domain);
    PatternsAreMatches(r, domain);
    var j :| 0 <= j < |ps| && ps[j] == r;
    assert i <= j;
    PatternsAreMatches(ps[i], domain);
    PatternsShorten(domain);
  }

  /** A lookup returns the most specific rule's target; it returns "" exactly when no rule with a
      target matches. */
  lemma LookupIsMostSpecific(targets: map<string, string>, domain: string)
    ensures Lookup(targets, domain) == "" <==> forall r :: !HasTarget(targets, r, domain)
    ensures Lookup(targets, domain) != "" ==>
              exists r :: MostSpecific(targets, r, domain) && targets[r] == Lookup(targets, domain)
    ensures forall r :: MostSpecific(targets, r, domain) ==> targets[r] == Lookup(targets, domain)
  {
    var ps := PatternsOf(domain);
    var i := FirstTargetIndex(targets, ps);
    forall r | HasTarget(targets, r, domain)
      ensures i < |ps| && HasTarget(targets, ps[i], domain)
      ensures i > 0 ==> r != domain && (r == ps[i] || |r| < |ps[i]|)
    {
      FirstIsLongest(targets, domain, i, r);
    }
    if i < |ps| {
      PatternsAreMatches(ps[i], domain);
      assert MostSpecific(targets, ps[i], domain);
    }
  }
}
