/** Redirect hits and the writes they overlapped. */
module RedirectHits {
  import opened Text
  import opened Patterns
  import opened Cache
  import opened Settings
  import opened Checker
  import opened Redirects
  import opened Admin
  import opened Wrappers
  import opened Invalidation

  // ---------- a hit is a racing read ----------

  /** The user's redirect hash in versions a to b. */
  function TargetVersions(history: seq<Version>, user: string, a: nat, b: nat): (versions: seq<map<string, string>>)
    requires a <= b < |history|
    ensures |versions| == b - a + 1
  {
    seq(b - a + 1, i requires 0 <= i < b - a + 1 => TargetsOf(history[a + i].store, user))
  }

  /** Which of them each candidate's command saw; candidates after the answer count as read with it. */
  function Positions(views: seq<View>, a: nat, n: nat): (at: seq<nat>)
    requires views != [] && |views| <= n && forall j :: 0 <= j < |views| ==> a <= views[j].version
  {
    seq(n, j requires 0 <= j < n => views[if j < |views| then j else |views| - 1].version - a)
  }

  lemma {:induction false} RacingReadNone(versions: seq<map<string, string>>, at: seq<nat>, ps: seq<string>, j: nat)
    requires j <= |at| <= |ps| && Within(at, versions)
    requires forall h :: j <= h < |at| ==> !HasAt(versions[at[h]], ps[h])
    ensures RacingRead(versions, at, ps, j) == ""
    decreases |at| - j
  {
    if j < |at| {
      RacingReadNone(versions, at, ps, j + 1);
    }
  }

  /** The commands lie in this order within versions a to b. */
  predicate Spans(views: seq<View>, a: nat, b: nat, n: nat) {
    && a <= b && 0 < |views| <= n
    && (forall j :: 0 <= j < |views| ==> a <= views[j].version <= b)
    && (forall i, j :: 0 <= i < j < |views| ==> views[i].version <= views[j].version)
  }

  lemma ReadsSpan(history: seq<Version>, views: seq<View>, until: nat, n: nat)
    requires ReadsOk(history, views, until) && 0 < |views| <= n
    ensures Spans(views, views[0].version, views[|views| - 1].version, n)
    ensures views[|views| - 1].version < |history|
  {
    var last := |views| - 1;
    assert CurrentAt(history, views[last].version, views[last].time);
    forall j | 0 <= j < |views| ensures views[0].version <= views[j].version <= views[last].version {
      assert j > 0 ==> views[0].version <= views[j].version;
      assert j < last ==> views[j].version <= views[last].version;
    }
  }

  lemma PositionsAreInOrder(history: seq<Version>, user: string, views: seq<View>, a: nat, b: nat, n: nat)
    requires Spans(views, a, b, n) && b < |history|
    ensures var versions, at := TargetVersions(history, user, a, b), Positions(views, a, n);
            && |at| == n && Within(at, versions) && InOrder(at)
            && forall j :: 0 <= j < |views| ==>
                 at[j] == views[j].version - a
                 && versions[at[j]] == TargetsOf(history[views[j].version].store, user)
  {
  }

  /** The user's redirect lookup under these commands, as a read that raced the writes between them. */
  function Raced(history: seq<Version>, user: string, name: string, views: seq<View>, a: nat, b: nat): string
    requires Spans(views, a, b, |PatternsOf(name)|) && b < |history|
  {
    PositionsAreInOrder(history, user, views, a, b, |PatternsOf(name)|);
    RacingRead(TargetVersions(history, user, a, b), Positions(views, a, |PatternsOf(name)|), PatternsOf(name), 0)
  }

  /** An explained redirect is a racing read over the versions from its first command to its last. */
  lemma ExplainedIsRacingRead(entries: seq<string>, history: seq<Version>, user: string, name: string,
                              views: seq<View>, a: nat, b: nat, value: Value)
    requires Spans(views, a, b, |PatternsOf(name)|) && b < |history|
    requires Explained(entries, history, Redirecting, user, name, views, value)
    ensures value == Target(Raced(history, user, name, views, a, b))
  {
    var n, ps := |views| - 1, PatternsOf(name);
    PositionsAreInOrder(history, user, views, a, b, |ps|);
    var versions, at := TargetVersions(history, user, a, b), Positions(views, a, |ps|);
    forall j | 0 <= j < n ensures !HasAt(versions[at[j]], ps[j]) {
      assert versions[at[j]] == TargetsOf(history[views[j].version].store, user);
    }
    assert versions[at[n]] == TargetsOf(history[views[n].version].store, user);
    if HasAt(versions[at[n]], ps[n]) {
      RacingReadAt(versions, at, ps, 0, n);
    } else {
      RacingReadNone(versions, at, ps, 0);
    }
  }

  lemma ExplainedHasRead(entries: seq<string>, history: seq<Version>, user: string, name: string,
                         views: seq<View>, value: Value)
    requires Explained(entries, history, Redirecting, user, name, views, value)
    ensures 0 < |views| <= |PatternsOf(name)|
  {
  }

  /** So a redirect hit answers as one version of the store that was there while it was read, if the writes
      it overlapped never touched a more specific candidate before a less specific one. */
  lemma RedirectHitFitsVersion(entries: seq<string>, history: seq<Version>, user: string, name: string,
                               views: seq<View>, until: nat, value: Value, rules: seq<string>)
    returns (m: nat)
    requires ReadsOk(history, views, until)
    requires Explained(entries, history, Redirecting, user, name, views, value)
    requires var a, b := views[0].version, views[|views| - 1].version;
             a <= b < |history| && Evolves(TargetVersions(history, user, a, b), rules)
    requires Descending(rules, PatternsOf(name))
    ensures views[0].version <= m <= views[|views| - 1].version < |history|
    ensures value == Right(Redirecting, entries, history[m].store, user, name)
  {
    var a, b, ps := views[0].version, views[|views| - 1].version, PatternsOf(name);
    ExplainedHasRead(entries, history, user, name, views, value);
    ReadsSpan(history, views, until, |ps|);
    ExplainedIsRacingRead(entries, history, user, name, views, a, b, value);
    m := RacedFits(history, user, name, views, a, b, rules);
  }

  lemma RacedFits(history: seq<Version>, user: string, name: string, views: seq<View>, a: nat, b: nat,
                  rules: seq<string>)
    returns (m: nat)
    requires Spans(views, a, b, |PatternsOf(name)|) && b < |history|
    requires Evolves(TargetVersions(history, user, a, b), rules) && Descending(rules, PatternsOf(name))
    ensures a <= m <= b && Raced(history, user, name, views, a, b) == Lookup(TargetsOf(history[m].store, user), name)
  {
    PatternsAreTame(name);
    PositionsAreInOrder(history, user, views, a, b, |PatternsOf(name)|);
    m := RaceFits(TargetVersions(history, user, a, b), rules, Positions(views, a, |PatternsOf(name)|), PatternsOf(name));
    m := a + m;
  }

  lemma RaceFits(versions: seq<map<string, string>>, rules: seq<string>, at: seq<nat>, ps: seq<string>) returns (m: nat)
    requires Evolves(versions, rules) && Descending(rules, ps) && Tame(ps)
    requires |at| == |ps| >= 1 && Within(at, versions) && InOrder(at)
    ensures m < |versions| && RacingRead(versions, at, ps, 0) == FirstTarget(versions[m], ps)
  {
    m := DescendingReadFits(versions, rules, at, ps, 0);
    assert ps[0..] == ps;
  }

  // ---------- the edits of a run ----------

  predicate Follows(one: Version, two: Version) {
    two.cause.Some? && two.store == Changed(one.store, two.cause.value.user, two.cause.value.change)
  }

  /** Each version comes from the one before it by the write it names. */
  predicate Chained(history: seq<Version>) {
    forall v :: 0 < v < |history| ==> Follows(history[v - 1], history[v])
  }

  /** A step leaves the history alone or adds the version its write makes. */
  lemma HistoryGrows(cfg: Config, s: State, e: Event)
    requires s.history != []
    ensures var after := Step(cfg, s, e).history;
            after == s.history || exists v :: after == s.history + [v] && Follows(s.history[|s.history| - 1], v)
  {
    if e.Write? {
      var after := WriteStep(s, e.user, e.change, e.reply).history;
      if after != s.history {
        assert after == s.history + [after[|s.history|]];
      }
    }
  }

  lemma ChainGrows(history: seq<Version>, v: Version)
    requires history != [] && Chained(history) && Follows(history[|history| - 1], v)
    ensures Chained(history + [v])
  {
  }

  lemma {:induction false} RunChains(cfg: Config, store: Store, events: seq<Event>)
    ensures Chained(Run(cfg, Init(store), events).history)
  {
    if events != [] {
      var init, e := events[..|events| - 1], events[|events| - 1];
      var s := Run(cfg, Init(store), init);
      RunChains(cfg, store, init);
      HistoryGrows(cfg, s, e);
      if Step(cfg, s, e).history != s.history {
        var v :| Step(cfg, s, e).history == s.history + [v] && Follows(s.history[|s.history| - 1], v);
        ChainGrows(s.history, v);
      }
    }
  }

  /** The version was made by a redirect write of the user. */
  predicate RedirectWrite(v: Version, user: string) {
    v.cause.Some? && v.cause.value.user == user && (v.cause.value.change.AddRedirect? || v.cause.value.change.RemoveRedirect?)
  }

  /** The name such a write is about, or a name that no write is about. */
  function Label(v: Version, user: string, other: string): string {
    if RedirectWrite(v, user) then v.cause.value.change.domain else other
  }

  function Labels(history: seq<Version>, user: string, other: string, a: nat, b: nat): (rules: seq<string>)
    requires a <= b < |history|
    ensures |rules| == b - a
  {
    seq(b - a, i requires 0 <= i < b - a => Label(history[a + i + 1], user, other))
  }

  lemma SameIsEdit(targets: map<string, string>, rule: string)
    ensures OneEdit(targets, targets, rule)
  {
    if rule in targets {
      assert targets == Edited(targets, rule, Some(targets[rule]));
    } else {
      assert targets == Edited(targets, rule, None);
    }
  }

  lemma WriteIsEdit(one: Version, two: Version, user: string, other: string)
    requires Follows(one, two)
    ensures OneEdit(TargetsOf(one.store, user), TargetsOf(two.store, user), Label(two, user, other))
  {
    var cause := two.cause.value;
    if cause.user != user {
      OtherUsersUnchanged(one.store, cause.user, cause.change, user);
      SameIsEdit(TargetsOf(one.store, user), other);
    } else {
      OwnTargets(one.store, user, cause.change);
      if !RedirectWrite(two, user) {
        SameIsEdit(TargetsOf(one.store, user), other);
      }
    }
  }

  lemma LabelsEvolve(history: seq<Version>, user: string, other: string, a: nat, b: nat)
    requires Chained(history) && a <= b < |history|
    ensures Evolves(TargetVersions(history, user, a, b), Labels(history, user, other, a, b))
  {
    var versions, rules := TargetVersions(history, user, a, b), Labels(history, user, other, a, b);
    forall k | 0 <= k < |rules| ensures OneEdit(versions[k], versions[k + 1], rules[k]) {
      assert Follows(history[a + k + 1 - 1], history[a + k + 1]);
      WriteIsEdit(history[a + k], history[a + k + 1], user, other);
    }
  }

  /** Version v was made by a redirect write of the user about the candidate at position i. */
  ghost predicate EditsCandidate(history: seq<Version>, user: string, ps: seq<string>, v: nat, i: nat) {
    v < |history| && RedirectWrite(history[v], user) && FirstAt(ps, history[v].cause.value.change.domain, i)
  }

  /** Of the user's redirect writes after version a and up to version b, none is about a more specific candidate
      than a later one is. */
  ghost predicate EditsDescend(history: seq<Version>, user: string, ps: seq<string>, a: nat, b: nat) {
    forall v, w, i, j | a < v < w <= b && EditsCandidate(history, user, ps, v, i) && EditsCandidate(history, user, ps, w, j) ::
      j <= i
  }

  lemma LabelIsEdit(history: seq<Version>, user: string, other: string, ps: seq<string>, v: nat, i: nat)
    requires v < |history| && other !in ps && FirstAt(ps, Label(history[v], user, other), i)
    ensures EditsCandidate(history, user, ps, v, i)
  {
    assert ps[i] in ps;
  }

  lemma LabelsDescend(history: seq<Version>, user: string, other: string, ps: seq<string>, a: nat, b: nat)
    requires a <= b < |history| && other !in ps && EditsDescend(history, user, ps, a, b)
    ensures Descending(Labels(history, user, other, a, b), ps)
  {
    var rules := Labels(history, user, other, a, b);
    forall k, l, i, j | 0 <= k < l < |rules| && FirstAt(ps, rules[k], i) && FirstAt(ps, rules[l], j) ensures j <= i {
      LabelIsEdit(history, user, other, ps, a + k + 1, i);
      LabelIsEdit(history, user, other, ps, a + l + 1, j);
    }
  }

  lemma NotACandidate(name: string)
    ensures "a" + name !in PatternsOf(name)
  {
    var other := "a" + name;
    assert other[0] == 'a';
    PatternsAreMatches(other, name);
  }

  function ViewsOf(s: State, key: string): seq<View> {
    if key in s.fills then s.fills[key].flight.views else []
  }

  /** The writes between the first and the last command of the lookup that filled the key descend. */
  ghost predicate OverlapDescends(s: State, key: string, user: string, name: string) {
    var views := ViewsOf(s, key);
    views != [] ==> EditsDescend(s.history, user, PatternsOf(name), views[0].version, views[|views| - 1].version)
  }

  /** After any run, a redirect hit whose lookup overlapped no write of the user's own about a more specific
      candidate ahead of one about a less specific candidate answers as one version of the store that was
      there between its first and its last command. */
  lemma RedirectHitAfterRun(users: set<string>, cfg: Config, store: Store, events: seq<Event>,
                            user: string, domain: string)
    returns (m: nat)
    requires Apart(users) && user in users && LookupsBy(users, events)
    requires var s := Run(cfg, Init(store), events);
             var name := Normalize(domain);
             Live(s.items, RedirectKey(user, name), s.now) && OverlapDescends(s, RedirectKey(user, name), user, name)
    ensures var s := Run(cfg, Init(store), events);
            var name := Normalize(domain);
            var key := RedirectKey(user, name);
            var views := ViewsOf(s, key);
            && views != [] && views[0].version <= m <= views[|views| - 1].version < |s.history|
            && s.items[key].value == Right(Redirecting, cfg.entries, s.history[m].store, user, name)
  {
    StalenessBounded(users, cfg, store, events, Redirecting, user, domain);
    RunChains(cfg, store, events);
    m := ChainedHitFits(cfg.entries, Run(cfg, Init(store), events), user, Normalize(domain));
  }

  lemma ChainedHitFits(entries: seq<string>, s: State, user: string, name: string) returns (m: nat)
    requires var key := RedirectKey(user, name);
             && Chained(s.history) && key in s.fills && key in s.items && OverlapDescends(s, key, user, name)
             && ReadsOk(s.history, s.fills[key].flight.views, s.fills[key].at)
             && Explained(entries, s.history, Redirecting, user, name, s.fills[key].flight.views, s.items[key].value)
    ensures var key := RedirectKey(user, name);
            var views := ViewsOf(s, key);
            && views != [] && views[0].version <= m <= views[|views| - 1].version < |s.history|
            && s.items[key].value == Right(Redirecting, entries, s.history[m].store, user, name)
  {
    var fill, value := s.fills[RedirectKey(user, name)], s.items[RedirectKey(user, name)].value;
    m := ChainedReadFits(entries, s.history, user, name, fill.flight.views, fill.at, value);
  }

  lemma ChainedReadFits(entries: seq<string>, history: seq<Version>, user: string, name: string,
                        views: seq<View>, until: nat, value: Value)
    returns (m: nat)
    requires Chained(history) && ReadsOk(history, views, until)
    requires Explained(entries, history, Redirecting, user, name, views, value)
    requires views != [] ==> EditsDescend(history, user, PatternsOf(name), views[0].version, views[|views| - 1].version)
    ensures views != [] && views[0].version <= m <= views[|views| - 1].version < |history|
    ensures value == Right(Redirecting, entries, history[m].store, user, name)
  {
    ExplainedHasRead(entries, history, user, name, views, value);
    var ps, a, b := PatternsOf(name), views[0].version, views[|views| - 1].version;
    ReadsSpan(history, views, until, |ps|);
    NotACandidate(name);
    LabelsEvolve(history, user, "a" + name, a, b);
    LabelsDescend(history, user, "a" + name, ps, a, b);
    m := RedirectHitFitsVersion(entries, history, user, name, views, until, value, Labels(history, user, "a" + name, a, b));
  }
}
