/** Redirect edits evict one cache key. This module says when that is enough. */
module Redirects {
  import opened Text
  import opened Patterns
  import opened Cache
  import opened Checker
  import Settings
  import opened Wrappers

  /** Every redirect the user could hit at `now` is what the store would answer. */
  ghost predicate Coherent(items: Items, targets: map<string, string>, user: string, now: nat) {
    forall name :: Live(items, RedirectKey(user, name), now) ==>
      items[RedirectKey(user, name)].value == Target(Lookup(targets, name))
  }

  predicate SameAt(one: map<string, string>, two: map<string, string>, p: string) {
    (p in one <==> p in two) && (p in one ==> one[p] == two[p])
  }

  lemma {:induction false} SameOnPatterns(one: map<string, string>, two: map<string, string>, ps: seq<string>)
    requires forall i :: 0 <= i < |ps| ==> SameAt(one, two, ps[i])
    ensures FirstTarget(one, ps) == FirstTarget(two, ps)
  {
    if ps != [] {
      SameOnPatterns(one, two, ps[1..]);
    }
  }

  /** An edit can only change the lookups of domains the edited rule matches. */
  lemma EditReachesMatchesOnly(targets: map<string, string>, rule: string, edit: Option<string>, domain: string)
    requires !Matches(rule, domain)
    ensures Lookup(Edited(targets, rule, edit), domain) == Lookup(targets, domain)
  {
    PatternsAreMatches(rule, domain);
    SameOnPatterns(targets, Edited(targets, rule, edit), PatternsOf(domain));
  }

  /** Editing a rule that is not a wildcard keeps the user's cached redirects right, although only the
      edited name is evicted; other users' cached redirects stay as right as they were. */
  lemma EditKeepsCoherence(items: Items, targets: map<string, string>, user: string, domain: string,
                           edit: Option<string>, now: nat)
    requires Coherent(items, targets, user, now)
    requires !HasPrefix(Normalize(domain), "*.")
    ensures Coherent(EditStep(items, user, domain, Settings.Acked),
                     Edited(targets, Normalize(domain), edit), user, now)
  {
    var rule := Normalize(domain);
    var after := EditStep(items, user, domain, Settings.Acked);
    forall name | Live(after, RedirectKey(user, name), now)
      ensures after[RedirectKey(user, name)].value == Target(Lookup(Edited(targets, rule, edit), name))
    {
      assert name != rule;
      EditReachesMatchesOnly(targets, rule, edit, name);
    }
  }

  // ---------- wildcard edits: exactly when they are safe ----------

  /** What a subdomain of t inherits when nothing more specific than "*.t" has a target. */
  function Inherited(targets: map<string, string>, t: string): string {
    FirstTarget(targets, ["*." + t] + PatternsOf(t)[1..])
  }

  lemma SharedCandidate(domain: string, labels: seq<string>, t: string, below: seq<string>, j: nat)
    requires 1 <= |below| < MAX_LABELS && |below| < |labels| && EndsWith(labels, below)
    requires 1 <= j < |below|
    ensures Candidates(domain, labels)[|LastTen(labels)| - |below| + j] == Candidates(t, below)[j]
  {
    var k := |labels| - |below| + j;
    CandidateAt(domain, labels, |LastTen(labels)| - |below| + j, k);
    CandidateAt(t, below, j, j);
    assert labels[k..] == labels[|labels| - |below|..][j..] == below[j..];
  }

  lemma SharedTail(domain: string, labels: seq<string>, t: string, below: seq<string>, i: nat)
    requires 1 <= |below| < MAX_LABELS && |below| < |labels| && EndsWith(labels, below)
    requires i == |LastTen(labels)| - |below|
    ensures var ps := Candidates(domain, labels); ps[i..] == [ps[i]] + Candidates(t, below)[1..]
  {
    forall j | 1 <= j < |below| ensures Candidates(domain, labels)[i + j] == Candidates(t, below)[j] {
      SharedCandidate(domain, labels, t, below, j);
    }
    SameTail(Candidates(domain, labels), Candidates(t, below), Candidates(domain, labels)[i], i);
  }

  /** The candidates of a domain below t end in "*.t" and the wildcards of t. */
  lemma CandidatesBelow(t: string, domain: string) returns (i: nat)
    requires HasSuffix(domain, "." + t) && |Split(t)| < MAX_LABELS
    ensures 1 <= i < |PatternsOf(domain)|
    ensures PatternsOf(domain)[i..] == ["*." + t] + PatternsOf(t)[1..]
    ensures i == |PatternsOf(domain)| - |Split(t)|
  {
    SuffixLabels(domain, t);
    i := |LastTen(Split(domain))| - |Split(t)|;
    JoinSplit(t);
    CandidateAt(domain, Split(domain), i, |Split(domain)| - |Split(t)|);
    assert PatternsOf(domain)[i] == "*." + t;
    SharedTail(domain, Split(domain), t, Split(t), i);
  }

  lemma SameTail(ps: seq<string>, qs: seq<string>, head: string, i: nat)
    requires |qs| >= 1 && |ps| == i + |qs| && ps[i] == head
    requires forall j :: 1 <= j < |qs| ==> ps[i + j] == qs[j]
    ensures ps[i..] == [head] + qs[1..]
  {
  }

  lemma {:induction false} FirstTargetSplit(targets: map<string, string>, ps: seq<string>, i: nat)
    requires i <= |ps|
    ensures FirstTarget(targets, ps) ==
            if FirstTarget(targets, ps[..i]) != "" then FirstTarget(targets, ps[..i]) else FirstTarget(targets, ps[i..])
  {
    if i > 0 {
      assert ps[..i][1..] == ps[1..][..i - 1];
      assert ps[1..][i - 1..] == ps[i..];
      FirstTargetSplit(targets, ps[1..], i - 1);
    }
  }

  /** If what "*.t" passes on is unchanged, so is every lookup below t. */
  lemma InheritedDecides(targets: map<string, string>, t: string, edit: Option<string>, domain: string)
    requires HasSuffix(domain, "." + t) && |Split(t)| < MAX_LABELS && domain != "*." + t
    requires Inherited(Edited(targets, "*." + t, edit), t) == Inherited(targets, t)
    ensures Lookup(Edited(targets, "*." + t, edit), domain) == Lookup(targets, domain)
  {
    var rule, ps := "*." + t, PatternsOf(domain);
    var i := CandidatesBelow(t, domain);
    var after := Edited(targets, rule, edit);
    forall j | 0 <= j < i ensures ps[..i][j] != rule {
      if j > 0 {
        LaterIsShorter(domain, Split(domain), j, i);
      }
      assert ps[i] == ps[i..][0] == rule;
    }
    SameOnPatterns(targets, after, ps[..i]);
    FirstTargetSplit(targets, ps, i);
    FirstTargetSplit(after, ps, i);
  }

  lemma {:induction false} LongerThanAll(names: set<string>) returns (n: nat)
    ensures forall s :: s in names ==> |s| < n
    decreases |names|
  {
    if names == {} {
      n := 0;
    } else {
      var s :| s in names;
      var m := LongerThanAll(names - {s});
      n := if m > |s| then m else |s| + 1;
      forall r | r in names ensures |r| < n {
        if r != s { assert r in names - {s}; }
      }
    }
  }

  /** Some direct subdomain of t has no entry of its own, so it inherits. */
  lemma FreshChild(targets: map<string, string>, t: string, edit: Option<string>) returns (child: string)
    requires |Split(t)| < MAX_LABELS
    ensures HasSuffix(child, "." + t) && child != "*." + t
    ensures Lookup(targets, child) == Inherited(targets, t)
    ensures Lookup(Edited(targets, "*." + t, edit), child) == Inherited(Edited(targets, "*." + t, edit), t)
  {
    var n := LongerThanAll(targets.Keys + {"*." + t});
    var first := seq(n + 1, i => 'a');
    child := first + "." + t;
    Regroup(first, "", t);
    SuffixOfConcat(first, "." + t);
    assert |child| > n && child !in targets.Keys + {"*." + t};
    FreshChildInherits(targets, first, t);
    FreshChildInherits(Edited(targets, "*." + t, edit), first, t);
  }

  lemma FreshChildInherits(targets: map<string, string>, first: string, t: string)
    requires '.' !in first && |Split(t)| < MAX_LABELS && first + "." + t !in targets
    ensures Lookup(targets, first + "." + t) == Inherited(targets, t)
  {
    var child := first + "." + t;
    Regroup(first, "", t);
    SuffixOfConcat(first, "." + t);
    SplitConcat(first, t);
    NoDotIsOneLabel(first);
    assert |PatternsOf(child)| == |Split(t)| + 1;
    var i := CandidatesBelow(t, child);
    assert PatternsOf(child)[1..] == ["*." + t] + PatternsOf(t)[1..];
  }

  /** The guard a caller can check before a wildcard edit: the edit must not change what "*.t" passes on. */
  predicate SafeEdit(targets: map<string, string>, rule: string, edit: Option<string>) {
    || !HasPrefix(rule, "*.")
    || |Split(rule[2..])| >= MAX_LABELS
    || Inherited(Edited(targets, rule, edit), rule[2..]) == Inherited(targets, rule[2..])
  }

  lemma SafeEditLookups(targets: map<string, string>, rule: string, edit: Option<string>, name: string)
    requires SafeEdit(targets, rule, edit) && name != rule
    ensures Lookup(Edited(targets, rule, edit), name) == Lookup(targets, name)
  {
    if Matches(rule, name) {
      var t := rule[2..];
      assert rule[1..] == "." + t && rule == "*." + t;
      InheritedDecides(targets, t, edit, name);
    } else {
      EditReachesMatchesOnly(targets, rule, edit, name);
    }
  }

  /** Evicting the edited name alone is enough for every coherent cache if and only if the edit is safe:
      an unsafe wildcard edit leaves some subdomain's cached redirect wrong. */
  lemma EditCoherentIffSafe(targets: map<string, string>, user: string, domain: string,
                            edit: Option<string>, now: nat)
    ensures SafeEdit(targets, Normalize(domain), edit) <==>
            forall items :: Coherent(items, targets, user, now) ==>
              Coherent(EditStep(items, user, domain, Settings.Acked),
                       Edited(targets, Normalize(domain), edit), user, now)
  {
    var rule := Normalize(domain);
    var after := Edited(targets, rule, edit);
    if SafeEdit(targets, rule, edit) {
      forall items | Coherent(items, targets, user, now)
        ensures Coherent(EditStep(items, user, domain, Settings.Acked), after, user, now)
      {
        var kept := EditStep(items, user, domain, Settings.Acked);
        forall name | Live(kept, RedirectKey(user, name), now)
          ensures kept[RedirectKey(user, name)].value == Target(Lookup(after, name))
        {
          SafeEditLookups(targets, rule, edit, name);
        }
      }
    } else {
      var items := UnsafeEditStale(targets, user, domain, edit, now);
    }
  }

  /** The name that shows it: some subdomain of the wildcard. */
  lemma UnsafeChild(targets: map<string, string>, rule: string, edit: Option<string>) returns (child: string)
    requires !SafeEdit(targets, rule, edit)
    ensures child != rule && Lookup(Edited(targets, rule, edit), child) != Lookup(targets, child)
  {
    var t := rule[2..];
    assert rule == "*." + t;
    child := FreshChild(targets, t, edit);
  }

  /** The cache that shows it: that subdomain, looked up just before the edit. */
  lemma UnsafeEditStale(targets: map<string, string>, user: string, domain: string,
                        edit: Option<string>, now: nat) returns (items: Items)
    requires !SafeEdit(targets, Normalize(domain), edit)
    ensures Coherent(items, targets, user, now)
    ensures !Coherent(EditStep(items, user, domain, Settings.Acked),
                      Edited(targets, Normalize(domain), edit), user, now)
  {
    var child := UnsafeChild(targets, Normalize(domain), edit);
    items := LookedUp(targets, user, child, now);
    ChangedLookupStale(targets, user, domain, edit, child, now);
  }

  lemma ChangedLookupStale(targets: map<string, string>, user: string, domain: string,
                           edit: Option<string>, child: string, now: nat)
    requires child != Normalize(domain)
    requires Lookup(Edited(targets, Normalize(domain), edit), child) != Lookup(targets, child)
    ensures var items := LookedUp(targets, user, child, now);
            && Coherent(items, targets, user, now)
            && !Coherent(EditStep(items, user, domain, Settings.Acked),
                         Edited(targets, Normalize(domain), edit), user, now)
  {
    LookedUpIsCoherent(targets, user, child, now);
    SameKeySameName(user, Normalize(domain), child);
    var kept := EditStep(LookedUp(targets, user, child, now), user, domain, Settings.Acked);
    assert Live(kept, RedirectKey(user, child), now);
  }

  /** The cache right after one lookup. */
  function LookedUp(targets: map<string, string>, user: string, name: string, now: nat): Items {
    Put(map[], RedirectKey(user, name), Target(Lookup(targets, name)), now)
  }

  lemma LookedUpIsCoherent(targets: map<string, string>, user: string, child: string, now: nat)
    ensures Coherent(LookedUp(targets, user, child, now), targets, user, now)
  {
    var items := LookedUp(targets, user, child, now);
    forall name | Live(items, RedirectKey(user, name), now) ensures name == child {
      SameKeySameName(user, name, child);
    }
  }

  lemma SameKeySameName(user: string, a: string, b: string)
    ensures RedirectKey(user, a) == RedirectKey(user, b) <==> a == b
  {
    var p := "redirect:" + user + ":";
    assert (p + a)[|p|..] == a && (p + b)[|p|..] == b;
  }

  /** An edit that evicts nothing keeps every coherent cache coherent if and only if it changes no lookup. */
  lemma CoherentIffLookupsKept(targets: map<string, string>, after: map<string, string>, user: string, now: nat)
    ensures (forall name :: Lookup(after, name) == Lookup(targets, name)) <==>
            forall items :: Coherent(items, targets, user, now) ==> Coherent(items, after, user, now)
  {
    if name :| Lookup(after, name) != Lookup(targets, name) {
      var items := LookedUp(targets, user, name, now);
      LookedUpIsCoherent(targets, user, name, now);
      assert Live(items, RedirectKey(user, name), now);
      assert Coherent(items, targets, user, now) && !Coherent(items, after, user, now);
    }
  }

  /** A write that is executed without being acknowledged evicts nothing. Every coherent cache stays coherent
      all the same if and only if the edit is safe and leaves the edited name's own lookup as it was. */
  lemma LostReplyCoherentIff(targets: map<string, string>, user: string, domain: string,
                             edit: Option<string>, now: nat)
    ensures var rule := Normalize(domain);
            SafeEdit(targets, rule, edit) && Lookup(Edited(targets, rule, edit), rule) == Lookup(targets, rule) <==>
            forall items :: Coherent(items, targets, user, now) ==>
              Coherent(EditStep(items, user, domain, Settings.Lost), Edited(targets, rule, edit), user, now)
  {
    var rule := Normalize(domain);
    var after := Edited(targets, rule, edit);
    CoherentIffLookupsKept(targets, after, user, now);
    if SafeEdit(targets, rule, edit) && Lookup(after, rule) == Lookup(targets, rule) {
      forall name ensures Lookup(after, name) == Lookup(targets, name) {
        if name != rule { SafeEditLookups(targets, rule, edit, name); }
      }
    } else if !SafeEdit(targets, rule, edit) {
      var child := UnsafeChild(targets, rule, edit);
    }
    assert forall items :: EditStep(items, user, domain, Settings.Lost) == items;
  }

  // ---------- lookups that overlap edits ----------

  predicate HasAt(targets: map<string, string>, p: string) {
    p in targets && targets[p] != ""
  }

  predicate Within(at: seq<nat>, versions: seq<map<string, string>>) {
    forall j :: 0 <= j < |at| ==> at[j] < |versions|
  }

  /** The HGETs of one lookup are separate commands: the j-th one sees version at[j] of the hash. What they
      find from the j-th on. */
  function RacingRead(versions: seq<map<string, string>>, at: seq<nat>, ps: seq<string>, j: nat): string
    requires j <= |at| <= |ps| && Within(at, versions)
    decreases |at| - j
  {
    if j == |at| then ""
    else if HasAt(versions[at[j]], ps[j]) then versions[at[j]][ps[j]]
    else RacingRead(versions, at, ps, j + 1)
  }

  /** Whatever it overlaps, a non-empty answer is the target some candidate had when it was read. */
  lemma {:induction false} RacingReadIsSomeTarget(versions: seq<map<string, string>>, at: seq<nat>,
                                                  ps: seq<string>, j: nat)
    returns (i: nat)
    requires j <= |at| <= |ps| && Within(at, versions) && RacingRead(versions, at, ps, j) != ""
    ensures j <= i < |at| && HasAt(versions[at[i]], ps[i])
    ensures versions[at[i]][ps[i]] == RacingRead(versions, at, ps, j)
    ensures forall h :: j <= h < i ==> !HasAt(versions[at[h]], ps[h])
    decreases |at| - j
  {
    if HasAt(versions[at[j]], ps[j]) {
      i := j;
    } else {
      i := RacingReadIsSomeTarget(versions, at, ps, j + 1);
    }
  }

  /** The commands of a lookup follow one another. */
  predicate InOrder(at: seq<nat>) {
    forall i, j :: 0 <= i < j < |at| ==> at[i] <= at[j]
  }

  ghost predicate OneEdit(one: map<string, string>, two: map<string, string>, rule: string) {
    exists edit :: two == Edited(one, rule, edit)
  }

  /** Each version comes from the one before it by an edit of one rule. */
  ghost predicate Evolves(versions: seq<map<string, string>>, rules: seq<string>) {
    |versions| == |rules| + 1 && forall k :: 0 <= k < |rules| ==> OneEdit(versions[k], versions[k + 1], rules[k])
  }

  lemma {:induction false} Unchanged(versions: seq<map<string, string>>, rules: seq<string>, p: string, a: nat, b: nat)
    requires Evolves(versions, rules) && a <= b <= |rules| && forall l :: a <= l < b ==> rules[l] != p
    ensures SameAt(versions[a], versions[b], p)
    decreases b - a
  {
    if a < b {
      Unchanged(versions, rules, p, a, b - 1);
      assert OneEdit(versions[b - 1], versions[b - 1 + 1], rules[b - 1]);
    }
  }

  lemma {:induction false} FirstEdit(rules: seq<string>, p: string, a: nat, b: nat) returns (e: nat)
    requires a <= b <= |rules|
    ensures a <= e <= b && (forall l :: a <= l < e ==> rules[l] != p) && (e < b ==> rules[e] == p)
    decreases b - a
  {
    if a == b || rules[a] == p {
      e := a;
    } else {
      e := FirstEdit(rules, p, a + 1, b);
    }
  }

  lemma TailKept(versions: seq<map<string, string>>, rules: seq<string>, qs: seq<string>, a: nat, b: nat)
    requires Evolves(versions, rules) && a <= b <= |rules|
    requires forall l :: a <= l < b ==> rules[l] !in qs
    ensures FirstTarget(versions[a], qs) == FirstTarget(versions[b], qs)
  {
    forall i | 0 <= i < |qs| ensures SameAt(versions[a], versions[b], qs[i]) {
      Unchanged(versions, rules, qs[i], a, b);
    }
    SameOnPatterns(versions[a], versions[b], qs);
  }

  ghost predicate FirstAt(ps: seq<string>, p: string, i: nat) {
    i < |ps| && ps[i] == p && forall h :: 0 <= h < i ==> ps[h] != p
  }

  /** Less specific candidates are edited first: positions in the candidate list never go up. */
  ghost predicate Descending(rules: seq<string>, ps: seq<string>) {
    forall k, l, i, j :: 0 <= k < l < |rules| && FirstAt(ps, rules[k], i) && FirstAt(ps, rules[l], j) ==> j <= i
  }

  /** A candidate list repeats nothing, except that a domain of the form "*.t" is its own first wildcard. */
  ghost predicate Tame(ps: seq<string>) {
    forall i, j :: 0 <= i < j < |ps| && ps[i] == ps[j] ==> i == 0 && j == 1
  }

  /** The read agrees with one version that was there while it went on. */
  ghost predicate FitsVersion(versions: seq<map<string, string>>, at: seq<nat>, ps: seq<string>)
    requires |at| == |ps| >= 1 && Within(at, versions)
  {
    exists m :: at[0] <= m <= at[|at| - 1] && m < |versions|
      && RacingRead(versions, at, ps, 0) == FirstTarget(versions[m], ps)
  }

  /** Whatever the hash, the targets and the timing, a read that overlaps edits of these rules fits. */
  ghost predicate AlwaysFits(rules: seq<string>, ps: seq<string>)
    requires |ps| >= 1
  {
    forall versions, at | Evolves(versions, rules) && |at| == |ps| && Within(at, versions) && InOrder(at) ::
      FitsVersion(versions, at, ps)
  }

  lemma FirstOf(ps: seq<string>, i: nat) returns (h: nat)
    requires i < |ps|
    ensures h <= i && FirstAt(ps, ps[i], h)
  {
    h := 0;
    while ps[h] != ps[i]
      invariant h <= i && forall g :: 0 <= g < h ==> ps[g] != ps[i]
      decreases i - h
    {
      h := h + 1;
    }
  }

  /** After an edit of the candidate at j, a descending sequence of edits leaves the later ones alone. */
  lemma LaterUntouched(rules: seq<string>, ps: seq<string>, j: nat, e: nat, l: nat)
    requires Tame(ps) && Descending(rules, ps) && j < |ps| && e <= l < |rules| && rules[e] == ps[j]
    requires ps[j] !in ps[j + 1..]
    ensures rules[l] !in ps[j + 1..]
  {
    if e < l && rules[l] in ps[j + 1..] {
      var i :| 0 <= i < |ps[j + 1..]| && ps[j + 1..][i] == rules[l];
      var g := FirstOf(ps, j + 1 + i);
      var h := FirstOf(ps, j);
    }
  }

  lemma {:induction false} DescendingReadFits(versions: seq<map<string, string>>, rules: seq<string>,
                                              at: seq<nat>, ps: seq<string>, j: nat)
    returns (m: nat)
    requires Evolves(versions, rules) && Descending(rules, ps) && Tame(ps)
    requires j < |at| == |ps| && Within(at, versions) && InOrder(at)
    ensures at[j] <= m <= at[|at| - 1] && m < |versions|
    ensures RacingRead(versions, at, ps, j) == FirstTarget(versions[m], ps[j..])
    decreases |at| - j
  {
    assert ps[j..][1..] == ps[j + 1..];
    if HasAt(versions[at[j]], ps[j]) || j + 1 == |at| {
      m := at[j];
    } else {
      m := DescendingReadFits(versions, rules, at, ps, j + 1);
      if HasAt(versions[m], ps[j]) && ps[j + 1] != ps[j] {
        assert ps[j] !in ps[j + 1..];
        m := BeforeFirstEdit(versions, rules, at[j], m, ps, j);
      }
    }
  }

  /** If the candidate at j turned up between two versions, go back to just before its first edit. */
  lemma BeforeFirstEdit(versions: seq<map<string, string>>, rules: seq<string>, a: nat, b: nat,
                        ps: seq<string>, j: nat)
    returns (e: nat)
    requires Evolves(versions, rules) && Descending(rules, ps) && Tame(ps) && a <= b <= |rules|
    requires j < |ps| && ps[j] !in ps[j + 1..] && !HasAt(versions[a], ps[j]) && HasAt(versions[b], ps[j])
    ensures a <= e <= b && FirstTarget(versions[e], ps[j..]) == FirstTarget(versions[b], ps[j + 1..])
  {
    e := FirstEdit(rules, ps[j], a, b);
    Unchanged(versions, rules, ps[j], a, e);
    assert e < b;
    forall l | e <= l < b ensures rules[l] !in ps[j + 1..] {
      LaterUntouched(rules, ps, j, e, l);
    }
    TailKept(versions, rules, ps[j + 1..], e, b);
    assert ps[j..][1..] == ps[j + 1..];
  }

  // ---------- and only then ----------

  /** The version sequence that adds a target for r at step k and changes that of s at step l. */
  function Stage(r: string, s: string, k: nat, l: nat, i: nat): map<string, string> {
    if i <= k then map[s := "1"] else if i <= l then map[s := "1"][r := "2"] else map[s := "3"][r := "2"]
  }

  lemma StageEvolves(rules: seq<string>, k: nat, l: nat) returns (versions: seq<map<string, string>>)
    requires k < l < |rules| && rules[k] != rules[l]
    ensures Evolves(versions, rules)
    ensures forall i :: 0 <= i <= |rules| ==> versions[i] == Stage(rules[k], rules[l], k, l, i)
  {
    var r, s := rules[k], rules[l];
    versions := seq(|rules| + 1, i requires 0 <= i => Stage(r, s, k, l, i));
    forall i | 0 <= i < |rules| ensures OneEdit(versions[i], versions[i + 1], rules[i]) {
      var m := versions[i];
      if i == k {
        assert versions[i + 1] == Edited(m, r, Some("2"));
      } else if i == l {
        assert versions[i + 1] == Edited(m, s, Some("3"));
      } else if rules[i] in m {
        assert versions[i + 1] == Edited(m, rules[i], Some(m[rules[i]]));
      } else {
        assert versions[i + 1] == Edited(m, rules[i], None);
      }
    }
  }

  lemma {:induction false} FirstTargetAt(targets: map<string, string>, ps: seq<string>, i: nat)
    requires i < |ps| && HasAt(targets, ps[i]) && forall h :: 0 <= h < i ==> !HasAt(targets, ps[h])
    ensures FirstTarget(targets, ps) == targets[ps[i]]
  {
    if i > 0 {
      FirstTargetAt(targets, ps[1..], i - 1);
    }
  }

  lemma {:induction false} RacingReadAt(versions: seq<map<string, string>>, at: seq<nat>, ps: seq<string>, j: nat, i: nat)
    requires j <= i < |at| <= |ps| && Within(at, versions) && HasAt(versions[at[i]], ps[i])
    requires forall h :: j <= h < i ==> !HasAt(versions[at[h]], ps[h])
    ensures RacingRead(versions, at, ps, j) == versions[at[i]][ps[i]]
    decreases i - j
  {
    if j < i {
      RacingReadAt(versions, at, ps, j + 1, i);
    }
  }

  /** The more specific rule p first, then the less specific q: a lookup that reads up to p before both edits
      and from q on after them answers as no version does. */
  lemma AscendingReadFitsNone(rules: seq<string>, ps: seq<string>, k: nat, l: nat, p: nat, q: nat)
    returns (versions: seq<map<string, string>>, at: seq<nat>)
    requires k < l < |rules| && p < q && FirstAt(ps, rules[k], p) && FirstAt(ps, rules[l], q)
    ensures Evolves(versions, rules) && |at| == |ps| && Within(at, versions) && InOrder(at)
    ensures forall m :: 0 <= m < |versions| ==> RacingRead(versions, at, ps, 0) != FirstTarget(versions[m], ps)
  {
    var r, s := rules[k], rules[l];
    assert r != s;
    versions := StageEvolves(rules, k, l);
    at := seq(|ps|, i requires 0 <= i => if i < q then 0 else |rules|);
    forall h | 0 <= h < q ensures !HasAt(versions[at[h]], ps[h]) {
      assert ps[h] != s;
    }
    assert versions[at[q]] == Stage(r, s, k, l, |rules|);
    RacingReadAt(versions, at, ps, 0, q);
    forall m | 0 <= m < |versions| ensures FirstTarget(versions[m], ps) != "3" {
      var v := versions[m];
      FirstTargetAt(v, ps, if m <= k then q else p);
    }
  }

  lemma PatternsAreTame(domain: string)
    ensures Tame(PatternsOf(domain))
  {
    var ps := PatternsOf(domain);
    PatternsShorten(domain);
    forall i, j | 0 <= i < j < |ps| && ps[i] == ps[j] ensures i == 0 && j == 1 {
      assert i == 0;
      if j > 1 {
        CandidateMatches(domain, 1);
        assert |ps[j]| < |ps[1]|;
        NoDotStart(domain, ps[1], ps[j]);
      }
    }
  }

  lemma NoDotStart(domain: string, w: string, v: string)
    requires Matches(w, domain) && |w| > |domain| && v == domain
    ensures !HasPrefix(v, "*.")
  {
    if w != domain {
      assert domain[|domain| - |w[1..]|..] == w[1..];
      assert domain == w[1..] && domain[0] == '.';
    }
  }

  /** Exactly when a redirect lookup can be trusted under concurrent edits: whatever the hash, the targets
      and the timing, it answers as some version of the store that was there while it went on, if and only
      if the edits it may overlap never touch a more specific candidate before a less specific one. */
  lemma RacingReadsFitIff(domain: string, rules: seq<string>)
    ensures Descending(rules, PatternsOf(domain)) <==> AlwaysFits(rules, PatternsOf(domain))
  {
    var ps := PatternsOf(domain);
    PatternsAreTame(domain);
    if Descending(rules, ps) {
      forall versions, at | Evolves(versions, rules) && |at| == |ps| && Within(at, versions) && InOrder(at)
        ensures FitsVersion(versions, at, ps)
      {
        var m := DescendingReadFits(versions, rules, at, ps, 0);
        assert ps[0..] == ps;
      }
    } else {
      var k, l, i, j :| 0 <= k < l < |rules| && FirstAt(ps, rules[k], i) && FirstAt(ps, rules[l], j) && i < j;
      var versions, at := AscendingReadFitsNone(rules, ps, k, l, i, j);
      assert !FitsVersion(versions, at, ps);
    }
  }

  /** In particular a lookup that overlaps a single edit, of any rule at any point, answers as before or as
      after it. */
  lemma OneEditFits(before: map<string, string>, rule: string, edit: Option<string>, at: seq<nat>, domain: string)
    requires |at| == |PatternsOf(domain)| && InOrder(at) && forall j :: 0 <= j < |at| ==> at[j] <= 1
    ensures var after := Edited(before, rule, edit);
            RacingRead([before, after], at, PatternsOf(domain), 0) in {Lookup(before, domain), Lookup(after, domain)}
  {
    var versions, ps := [before, Edited(before, rule, edit)], PatternsOf(domain);
    assert OneEdit(before, Edited(before, rule, edit), rule);
    PatternsAreTame(domain);
    var m := DescendingReadFits(versions, [rule], at, ps, 0);
    assert ps[0..] == ps && (m == 0 || m == 1);
  }

  /** And two edits of candidates are harmless, under every timing, if and only if the second one's rule is
      no less specific than the first one's. */
  lemma TwoEditsFitIff(domain: string, first: string, second: string, p: nat, q: nat)
    requires FirstAt(PatternsOf(domain), first, p) && FirstAt(PatternsOf(domain), second, q)
    ensures q <= p <==> AlwaysFits([first, second], PatternsOf(domain))
  {
    RacingReadsFitIff(domain, [first, second]);
    var rules, ps := [first, second], PatternsOf(domain);
    assert FirstAt(ps, rules[0], p) && FirstAt(ps, rules[1], q);
    if q <= p {
      forall k, l, i, j | 0 <= k < l < |rules| && FirstAt(ps, rules[k], i) && FirstAt(ps, rules[l], j) ensures j <= i {
        assert i == p && j == q;
      }
    }
  }
}
