/** The calls of the checker and of the administration API, taken apart into the steps of the protocol. */
module Lookups {
  import opened Text
  import opened Patterns
  import opened Cache
  import opened Settings
  import opened Checks = Checker
  import opened Redirects
  import opened Sync
  import opened Admin
  import opened Wrappers
  import opened Invalidation

  // ---------- runs ----------

  lemma RunOne(cfg: Config, s: State, e: Event)
    requires s.history != []
    ensures Run(cfg, s, [e]) == Step(cfg, s, e)
  {
    assert [e][..0] == [];
  }

  lemma {:induction false} RunConcat(cfg: Config, s: State, first: seq<Event>, next: seq<Event>)
    requires s.history != []
    ensures Run(cfg, s, first + next) == Run(cfg, Run(cfg, s, first), next)
  {
    if next == [] {
      assert first + next == first;
    } else {
      var init := next[..|next| - 1];
      assert (first + next)[..|first + next| - 1] == first + init;
      RunConcat(cfg, s, first, init);
    }
  }

  lemma RunThenFinish(cfg: Config, s: State, events: seq<Event>, id: nat)
    requires s.history != []
    ensures Run(cfg, s, events + [Finish(id)]) == FinishStep(Run(cfg, s, events), id)
  {
    RunConcat(cfg, s, events, [Finish(id)]);
    RunOne(cfg, Run(cfg, s, events), Finish(id));
  }

  // ---------- a lookup left to itself ----------

  predicate Only(events: seq<Event>, id: nat) {
    forall i :: 0 <= i < |events| ==> events[i].Read? && events[i].id == id
  }

  lemma OnlyOneMore(events: seq<Event>, id: nat, reachable: bool)
    requires Only(events, id)
    ensures Only([Read(id, reachable)] + events, id)
  {
  }

  /** The state with the lookup replaced, or dropped. */
  function With(s: State, id: nat, f: Option<Flight>): State {
    s.(flights := if f.Some? then s.flights[id := f.value] else s.flights - {id})
  }

  lemma WithTwice(s: State, id: nat, f: Option<Flight>, g: Option<Flight>)
    ensures With(With(s, id, f), id, g) == With(s, id, g)
  {
    assert With(With(s, id, f), id, g).flights == With(s, id, g).flights;
  }

  /** All commands of a redirect lookup in a row; the budget says how many of them succeed. */
  function Commands(f: Flight, ps: seq<string>, targets: map<string, string>, view: View, budget: nat): Option<Flight>
    decreases budget
  {
    if budget == 0 then None
    else
      var g := Hget(f, ps, targets, view);
      if g.answer.Some? then Some(g) else Commands(g, ps, targets, view, budget - 1)
  }

  /** The lookup ended with this answer. */
  predicate EndedWith(f: Flight, end: Option<Flight>, ip: string) {
    && end.Some? && end.value.answer == Some(Target(ip)) && end.value.views != []
    && end.value.kind == f.kind && end.value.user == f.user && end.value.name == f.name
  }

  /** The checker's loop from its n-th candidate on. */
  function LoopFrom(targets: map<string, string>, ps: seq<string>, n: nat, budget: nat): (read: Checks.Read)
    requires n < |ps|
    decreases budget
  {
    if budget == 0 then Failed
    else if HasAt(targets, ps[n]) then Found(targets[ps[n]])
    else if n + 1 == |ps| then Found("")
    else LoopFrom(targets, ps, n + 1, budget - 1)
  }

  lemma {:induction false} LoopFromReads(targets: map<string, string>, ps: seq<string>, n: nat, budget: nat)
    requires n < |ps|
    ensures LoopFrom(targets, ps, n, budget) == ReadTargets(targets, ps[n..], budget)
    decreases budget
  {
    assert ps[n..][0] == ps[n] && ps[n..][1..] == ps[n + 1..];
    if budget > 0 && n + 1 < |ps| {
      LoopFromReads(targets, ps, n + 1, budget - 1);
    }
  }

  /** The commands do what is left of that loop. */
  lemma {:induction false} CommandsAreTheLoop(f: Flight, ps: seq<string>, targets: map<string, string>, view: View,
                                              budget: nat)
    requires |f.views| < |ps|
    ensures var end := Commands(f, ps, targets, view, budget);
            var read := LoopFrom(targets, ps, |f.views|, budget);
            if read.Failed? then end.None? else EndedWith(f, end, read.ip)
    decreases budget
  {
    if budget > 0 {
      var g := Hget(f, ps, targets, view);
      if g.answer.None? {
        CommandsAreTheLoop(g, ps, targets, view, budget - 1);
      }
    }
  }

  lemma ReadStepIsWith(cfg: Config, s: State, id: nat, f: Flight, g: Flight, reachable: bool)
    requires s.history != [] && id in s.flights && s.flights[id] == f && f.answer.None? && f.kind.Redirecting?
    requires g == Hget(f, PatternsOf(f.name), TargetsOf(Current(s), f.user), Now(s))
    ensures ReadStep(cfg, s, id, reachable) == With(s, id, if reachable then Some(g) else None)
  {
  }

  lemma RunRead(cfg: Config, s: State, id: nat, reachable: bool, rest: seq<Event>)
    requires s.history != []
    ensures Run(cfg, s, [Read(id, reachable)] + rest) == Run(cfg, ReadStep(cfg, s, id, reachable), rest)
  {
    RunConcat(cfg, s, [Read(id, reachable)], rest);
    RunOne(cfg, s, Read(id, reachable));
  }

  /** A redirect lookup that nothing interrupts runs through its commands. */
  lemma {:induction false} RunsThrough(cfg: Config, s: State, id: nat, f: Flight, budget: nat)
    returns (events: seq<Event>)
    requires s.history != [] && id in s.flights && s.flights[id] == f && f.kind.Redirecting? && f.answer.None?
    ensures Only(events, id)
    ensures Run(cfg, s, events) ==
            With(s, id, Commands(f, PatternsOf(f.name), TargetsOf(Current(s), f.user), Now(s), budget))
    decreases budget
  {
    var ps, targets, view := PatternsOf(f.name), TargetsOf(Current(s), f.user), Now(s);
    var g := Hget(f, ps, targets, view);
    ReadStepIsWith(cfg, s, id, f, g, budget > 0);
    if budget == 0 || g.answer.Some? {
      events := [Read(id, budget > 0)];
      RunOne(cfg, s, events[0]);
    } else {
      var rest := RunsThrough(cfg, With(s, id, Some(g)), id, g, budget - 1);
      OnlyOneMore(rest, id, true);
      events := [Read(id, true)] + rest;
      RunsOn(cfg, s, id, g, rest, Commands(g, ps, targets, view, budget - 1));
    }
  }

  lemma RunsOn(cfg: Config, s: State, id: nat, g: Flight, rest: seq<Event>, end: Option<Flight>)
    requires s.history != [] && ReadStep(cfg, s, id, true) == With(s, id, Some(g))
    requires Run(cfg, With(s, id, Some(g)), rest) == With(With(s, id, Some(g)), id, end)
    ensures Run(cfg, s, [Read(id, true)] + rest) == With(s, id, end)
  {
    WithTwice(s, id, Some(g), end);
    RunRead(cfg, s, id, true, rest);
  }

  /** Any lookup that has read something reaches what is due, right from where it is, when Redis answers. */
  lemma ReachesDue(cfg: Config, s: State, id: nat) returns (events: seq<Event>, g: Flight)
    requires s.history != [] && id in s.flights && s.flights[id].views != []
    requires AnswerOk(cfg.entries, s.history, s.flights[id])
    ensures Only(events, id) && Run(cfg, s, events) == With(s, id, Some(g))
    ensures var f := s.flights[id];
            && g.answer == Some(Due(cfg.entries, Current(s), f))
            && g.views != [] && g.kind == f.kind && g.user == f.user && g.name == f.name
  {
    var f := s.flights[id];
    if f.answer.Some? {
      events, g := [], f;
      assert s.flights[id := f] == s.flights;
    } else {
      var ps, targets := PatternsOf(f.name), TargetsOf(Current(s), f.user);
      events := RunsThrough(cfg, s, id, f, |ps|);
      CommandsAreTheLoop(f, ps, targets, Now(s), |ps|);
      LoopFromReads(targets, ps, |f.views|, |ps|);
      ReadFindsFirstTarget(targets, ps[|f.views|..], |ps|);
      g := Commands(f, ps, targets, Now(s), |ps|).value;
    }
  }

  // ---------- calls of the checker ----------

  /** The steps of one call: begin, time, commands, time, fill. */
  function Call(id: nat, kind: Kind, user: string, domain: string, commands: seq<Event>,
                before: nat, after: nat): seq<Event>
  {
    [Begin(id, kind, user, domain), Tick(before)] + commands + [Tick(after), Finish(id)]
  }

  /** The state when the commands start. */
  function Begun(cfg: Config, s: State, id: nat, kind: Kind, user: string, domain: string, before: nat): State {
    var t := BeginStep(cfg, s, id, kind, user, domain);
    t.(now := t.now + before)
  }

  /** The state after they are through and the answer has been cached. */
  function Finished(t: State, id: nat, after: nat): State {
    FinishStep(t.(now := t.now + after), id)
  }

  lemma RunTwo(cfg: Config, s: State, a: Event, b: Event)
    requires s.history != []
    ensures Run(cfg, s, [a, b]) == Step(cfg, Step(cfg, s, a), b)
  {
    assert [a, b] == [a] + [b];
    RunConcat(cfg, s, [a], [b]);
    RunOne(cfg, s, a);
    RunOne(cfg, Step(cfg, s, a), b);
  }

  lemma RunThree(cfg: Config, s: State, a: seq<Event>, b: seq<Event>, c: seq<Event>)
    requires s.history != []
    ensures Run(cfg, s, a + b + c) == Run(cfg, Run(cfg, Run(cfg, s, a), b), c)
  {
    RunConcat(cfg, s, a + b, c);
    RunConcat(cfg, s, a, b);
  }

  lemma RunOpening(cfg: Config, s: State, id: nat, kind: Kind, user: string, domain: string, before: nat)
    requires s.history != []
    ensures Run(cfg, s, [Begin(id, kind, user, domain), Tick(before)]) == Begun(cfg, s, id, kind, user, domain, before)
  {
    RunTwo(cfg, s, Begin(id, kind, user, domain), Tick(before));
  }

  lemma RunClosing(cfg: Config, s: State, id: nat, after: nat)
    requires s.history != []
    ensures Run(cfg, s, [Tick(after), Finish(id)]) == Finished(s, id, after)
  {
    RunTwo(cfg, s, Tick(after), Finish(id));
  }

  lemma RunCall(cfg: Config, s: State, id: nat, kind: Kind, user: string, domain: string, commands: seq<Event>,
                before: nat, after: nat)
    requires s.history != []
    ensures Run(cfg, s, Call(id, kind, user, domain, commands, before, after)) ==
            Finished(Run(cfg, Begun(cfg, s, id, kind, user, domain, before), commands), id, after)
  {
    RunThree(cfg, s, [Begin(id, kind, user, domain), Tick(before)], commands, [Tick(after), Finish(id)]);
    RunOpening(cfg, s, id, kind, user, domain, before);
    RunClosing(cfg, Run(cfg, Begun(cfg, s, id, kind, user, domain, before), commands), id, after);
  }

  /** What a finished lookup leaves in the cache. */
  function Filled(items: Items, end: Option<Flight>, now: nat): Items {
    if end.None? || end.value.answer.None? then items
    else Put(items, KeyOf(end.value.kind, end.value.user, end.value.name), end.value.answer.value, now)
  }

  lemma FinishedItems(s: State, id: nat, end: Option<Flight>, after: nat)
    ensures Finished(With(s, id, end), id, after).items == Filled(s.items, end, s.now + after)
  {
  }

  /** A lookup that did not begin does nothing. */
  lemma {:induction false} NoLookup(cfg: Config, s: State, id: nat, commands: seq<Event>)
    requires s.history != [] && id !in s.flights && Only(commands, id)
    ensures Run(cfg, s, commands) == s
  {
    if commands != [] {
      NoLookup(cfg, s, id, commands[..|commands| - 1]);
    }
  }

  predicate Misses(cfg: Config, s: State, kind: Kind, user: string, domain: string) {
    !Live(s.items, KeyOf(kind, user, Normalize(domain)), s.now) && (kind.Redirecting? ==> cfg.enabled)
  }

  lemma BegunMiss(cfg: Config, s: State, id: nat, kind: Kind, user: string, domain: string, before: nat)
    requires s.history != [] && id !in s.flights
    ensures var t := Begun(cfg, s, id, kind, user, domain, before);
            && t.items == s.items && t.now == s.now + before && t.history == s.history
            && (Misses(cfg, s, kind, user, domain) <==> id in t.flights)
            && (id in t.flights ==> t.flights[id] == Flight(kind, user, Normalize(domain), [], None))
  {
  }

  lemma BegunAfterMiss(cfg: Config, s: State, id: nat, kind: Kind, user: string, domain: string, before: nat)
    returns (t: State)
    requires s.history != [] && id !in s.flights && Misses(cfg, s, kind, user, domain)
    ensures t == Begun(cfg, s, id, kind, user, domain, before)
    ensures t.items == s.items && t.now == s.now + before && t.history == s.history && id in t.flights
    ensures t.flights[id] == Flight(kind, user, Normalize(domain), [], None)
  {
    t := Begun(cfg, s, id, kind, user, domain, before);
    BegunMiss(cfg, s, id, kind, user, domain, before);
  }

  /** A call that hits, or needs a Redis that is not there, leaves the cache alone. */
  lemma NoMissNoFill(cfg: Config, s: State, id: nat, kind: Kind, user: string, domain: string, commands: seq<Event>,
                     before: nat, after: nat)
    requires s.history != [] && id !in s.flights && Only(commands, id) && !Misses(cfg, s, kind, user, domain)
    ensures Run(cfg, s, Call(id, kind, user, domain, commands, before, after)).items == s.items
  {
    RunCall(cfg, s, id, kind, user, domain, commands, before, after);
    BegunMiss(cfg, s, id, kind, user, domain, before);
    NoLookup(cfg, Begun(cfg, s, id, kind, user, domain, before), id, commands);
  }

  /** A call to Check is the steps of a block lookup in a row: both leave the same cache. */
  lemma CheckIsItsSteps(cfg: Config, s: State, id: nat, user: string, domain: string,
                        before: nat, after: nat, reachable: bool)
    requires s.history != [] && id !in s.flights
    ensures Run(cfg, s, Call(id, Blocking, user, domain, [Read(id, reachable)], before, after)).items ==
            CheckStep(cfg, s.items, RulesOf(Current(s), user), user, domain,
                      s.now, s.now + before + after, reachable).0
  {
    if Misses(cfg, s, Blocking, user, domain) {
      CheckMiss(cfg, s, id, user, domain, before, after, reachable);
    } else {
      NoMissNoFill(cfg, s, id, Blocking, user, domain, [Read(id, reachable)], before, after);
    }
  }

  lemma CheckMiss(cfg: Config, s: State, id: nat, user: string, domain: string,
                  before: nat, after: nat, reachable: bool)
    requires s.history != [] && id !in s.flights && Misses(cfg, s, Blocking, user, domain)
    ensures Run(cfg, s, Call(id, Blocking, user, domain, [Read(id, reachable)], before, after)).items ==
            CheckFill(cfg, s.items, RulesOf(Current(s), user), user, Normalize(domain), s.now + before + after, reachable)
  {
    var t := CheckFromBegin(cfg, s, id, user, domain, before, after, reachable);
    CallLeaves(cfg, s, t, id, Blocking, user, domain, [Read(id, reachable)], before, after,
               CheckFill(cfg, s.items, RulesOf(Current(s), user), user, Normalize(domain), s.now + before + after, reachable));
  }

  lemma CheckFromBegin(cfg: Config, s: State, id: nat, user: string, domain: string,
                       before: nat, after: nat, reachable: bool)
    returns (t: State)
    requires s.history != [] && id !in s.flights && Misses(cfg, s, Blocking, user, domain)
    ensures t == Begun(cfg, s, id, Blocking, user, domain, before) && t.history != []
    ensures Finished(Run(cfg, t, [Read(id, reachable)]), id, after).items ==
            CheckFill(cfg, s.items, RulesOf(Current(s), user), user, Normalize(domain), s.now + before + after, reachable)
  {
    t := BegunAfterMiss(cfg, s, id, Blocking, user, domain, before);
    CheckCommand(cfg, t, id, user, Normalize(domain), after, reachable, Current(s), s.now + before + after);
  }

  /** What a block lookup that misses leaves in the cache. */
  function CheckFill(cfg: Config, items: Items, rules: set<string>, user: string, name: string,
                     filled: nat, reachable: bool): Items
  {
    Put(items, BlockKey(user, name), Verdict(Computed(cfg, rules, name, reachable)), filled)
  }

  lemma CheckCommand(cfg: Config, t: State, id: nat, user: string, name: string, after: nat, reachable: bool,
                     store: Store, filled: nat)
    requires t.history != [] && id in t.flights && t.flights[id] == Flight(Blocking, user, name, [], None)
    requires store == Current(t) && filled == t.now + after
    ensures Finished(Run(cfg, t, [Read(id, reachable)]), id, after).items ==
            CheckFill(cfg, t.items, RulesOf(store, user), user, name, filled, reachable)
  {
    BlockCommand(cfg, t, id, reachable);
    FinishedItems(t, id, Some(Command(cfg, t.flights[id], Current(t), Now(t), reachable)), after);
  }

  lemma BlockCommand(cfg: Config, t: State, id: nat, reachable: bool)
    requires t.history != []
    ensures id in t.flights && t.flights[id].kind.Blocking? && t.flights[id].answer.None? ==>
              Run(cfg, t, [Read(id, reachable)]) ==
              With(t, id, Some(Command(cfg, t.flights[id], Current(t), Now(t), reachable)))
  {
    RunOne(cfg, t, Read(id, reachable));
  }

  /** A call to GetRedirect is the steps of a redirect lookup in a row, one for each HGET: both leave the same
      cache, also when a command fails. */
  lemma GetIsItsSteps(cfg: Config, s: State, id: nat, user: string, domain: string,
                      before: nat, after: nat, budget: nat)
    returns (commands: seq<Event>)
    requires s.history != [] && id !in s.flights
    ensures Only(commands, id)
    ensures Run(cfg, s, Call(id, Redirecting, user, domain, commands, before, after)).items ==
            GetStep(cfg, s.items, TargetsOf(Current(s), user), user, domain,
                    s.now, s.now + before + after, budget).0
  {
    GetStepCache(cfg, s.items, TargetsOf(Current(s), user), user, domain, s.now, s.now + before + after, budget);
    if Misses(cfg, s, Redirecting, user, domain) {
      commands := GetMiss(cfg, s, id, user, domain, before, after, budget);
    } else {
      commands := [];
      NoMissNoFill(cfg, s, id, Redirecting, user, domain, commands, before, after);
    }
  }

  /** What a redirect lookup that misses leaves in the cache. */
  function GetFill(items: Items, targets: map<string, string>, user: string, name: string,
                   filled: nat, budget: nat): Items
  {
    var read := ReadTargets(targets, PatternsOf(name), budget);
    if read.Failed? then items else Put(items, RedirectKey(user, name), Target(read.ip), filled)
  }

  lemma GetStepCache(cfg: Config, items: Items, targets: map<string, string>, user: string, domain: string,
                     now: nat, filled: nat, budget: nat)
    ensures var name := Normalize(domain);
            GetStep(cfg, items, targets, user, domain, now, filled, budget).0 ==
            if Live(items, RedirectKey(user, name), now) || !cfg.enabled then items
            else GetFill(items, targets, user, name, filled, budget)
  {
  }

  lemma GetMiss(cfg: Config, s: State, id: nat, user: string, domain: string,
                before: nat, after: nat, budget: nat)
    returns (commands: seq<Event>)
    requires s.history != [] && id !in s.flights && Misses(cfg, s, Redirecting, user, domain)
    ensures Only(commands, id)
    ensures Run(cfg, s, Call(id, Redirecting, user, domain, commands, before, after)).items ==
            GetFill(s.items, TargetsOf(Current(s), user), user, Normalize(domain), s.now + before + after, budget)
  {
    var t;
    t, commands := GetFromBegin(cfg, s, id, user, domain, before, after, budget);
    CallLeaves(cfg, s, t, id, Redirecting, user, domain, commands, before, after,
               GetFill(s.items, TargetsOf(Current(s), user), user, Normalize(domain), s.now + before + after, budget));
  }

  lemma GetFromBegin(cfg: Config, s: State, id: nat, user: string, domain: string,
                     before: nat, after: nat, budget: nat)
    returns (t: State, commands: seq<Event>)
    requires s.history != [] && id !in s.flights && Misses(cfg, s, Redirecting, user, domain)
    ensures Only(commands, id) && t == Begun(cfg, s, id, Redirecting, user, domain, before) && t.history != []
    ensures Finished(Run(cfg, t, commands), id, after).items ==
            GetFill(s.items, TargetsOf(Current(s), user), user, Normalize(domain), s.now + before + after, budget)
  {
    t := BegunAfterMiss(cfg, s, id, Redirecting, user, domain, before);
    commands := GetCommands(cfg, t, id, user, Normalize(domain), after, budget, Current(s), s.now + before + after);
  }

  /** What the commands of a call leave in the cache is what the call leaves. */
  lemma CallLeaves(cfg: Config, s: State, t: State, id: nat, kind: Kind, user: string, domain: string,
                   commands: seq<Event>, before: nat, after: nat, items: Items)
    requires s.history != [] && t == Begun(cfg, s, id, kind, user, domain, before) && t.history != []
    requires Finished(Run(cfg, t, commands), id, after).items == items
    ensures Run(cfg, s, Call(id, kind, user, domain, commands, before, after)).items == items
  {
    RunCall(cfg, s, id, kind, user, domain, commands, before, after);
  }

  lemma GetCommands(cfg: Config, t: State, id: nat, user: string, name: string, after: nat, budget: nat,
                    store: Store, filled: nat)
    returns (commands: seq<Event>)
    requires t.history != [] && id in t.flights && t.flights[id] == Flight(Redirecting, user, name, [], None)
    requires store == Current(t) && filled == t.now + after
    ensures Only(commands, id)
    ensures Finished(Run(cfg, t, commands), id, after).items ==
            GetFill(t.items, TargetsOf(store, user), user, name, filled, budget)
  {
    var f, ps, targets := t.flights[id], PatternsOf(name), TargetsOf(store, user);
    commands := RunsThrough(cfg, t, id, f, budget);
    CommandsAreTheLoop(f, ps, targets, Now(t), budget);
    LoopFromReads(targets, ps, 0, budget);
    assert ps[0..] == ps;
    FinishedItems(t, id, Commands(f, ps, targets, Now(t), budget), after);
  }

  /** A served admin request is the write step and then the publish step: together they change the store and
      announce the change exactly as the handler does. */
  lemma ServeIsWriteThenPublish(cfg: Config, s: State, user: string, change: Change, reply: Reply, publishes: bool)
    requires s.history != []
    ensures var t := Step(cfg, Step(cfg, s, Write(user, change, reply)), Publish(|s.unsent|, publishes));
            && Current(t) == (if !Bound(user, change) || reply.Unreachable? then Current(s)
                              else Changed(Current(s), user, change))
            && t.queue == s.queue + (if Bound(user, change) && reply.Acked? && publishes
                                     then [ConfigEvent(user, CLEAR_CACHE)] else [])
            && t.unsent == s.unsent && t.items == s.items
  {
    var u := Step(cfg, s, Write(user, change, reply));
    if Bound(user, change) && reply.Acked? {
      assert Drop(u.unsent, |s.unsent|) == s.unsent;
    }
  }
}
